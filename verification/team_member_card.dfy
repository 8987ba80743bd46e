/** The compliance colour of a team member's card
    (frontend/src/Component/team/TeamMemberCard.js), with stricter
    thresholds than the admin dashboard's. */
module TeamMemberCard {

  datatype Tone = Success | Warning | Destructive

  /** 0 for the best tone, 2 for the worst. */
  function Severity(t: Tone): nat {
    match t
    case Success => 0
    case Warning => 1
    case Destructive => 2
  }

  function ToneClass(t: Tone): string {
    match t
    case Success => "text-success"
    case Warning => "text-warning"
    case Destructive => "text-destructive"
  }

  /** `getComplianceColor`: success from 90, warning from 75, destructive
      below. */
  function ComplianceTone(rate: real): (t: Tone)
    ensures t == Success <==> rate >= 90.0
    ensures t == Warning <==> 75.0 <= rate < 90.0
    ensures t == Destructive <==> rate < 75.0
  {
    if rate >= 90.0 then Success else if rate >= 75.0 then Warning else Destructive
  }

  /** A higher rate never gets a worse tone. */
  lemma ToneMonotone(a: real, b: real)
    requires a <= b
    ensures Severity(ComplianceTone(b)) <= Severity(ComplianceTone(a))
  {
  }
}
