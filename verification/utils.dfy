/** The shared helpers of frontend/src/lib/utils.js: completion
    percentages and certificate expiry buckets.

    A JavaScript date is a millisecond count or the invalid date, whose
    arithmetic yields `NaN`; "now" is a parameter. */
module Utils {
  import JsMath

  /** `calculateCompletion(completed, total)`: 0 for a zero total, otherwise
      `Math.round(completed / total * 100)`. */
  function CalculateCompletion(completed: int, total: int): (r: int)
    ensures total == 0 ==> r == 0
    ensures total != 0 ==> r == JsMath.Round(completed as real / total as real * 100.0)
    ensures 0 <= completed <= total && total > 0 ==> 0 <= r <= 100
    ensures 0 < completed == total ==> r == 100
  {
    if total == 0 then 0
    else
      JsMath.RoundPercentIsRound(completed, total);
      if 0 <= completed <= total && total > 0 then
        JsMath.RoundPercentBounds(completed, total);
        JsMath.RoundPercent(completed, total)
      else JsMath.RoundPercent(completed, total)
  }

  /** Completing more never shows a smaller percentage. */
  lemma CompletionMonotone(a: int, b: int, total: int)
    requires a <= b && total > 0
    ensures CalculateCompletion(a, total) <= CalculateCompletion(b, total)
  {
    JsMath.RoundPercentMonotone(a, b, total);
  }

  const MsPerDay: int := 1000 * 60 * 60 * 24

  datatype JsDate = Invalid | At(ms: int)

  /** A day count, or `NaN` for an invalid date. */
  datatype Days = NaN | Whole(n: int)

  /** `daysUntilExpiry`: `Math.ceil` of the difference to now in days. */
  function DaysUntilExpiry(expiry: JsDate, now: int): (d: Days)
    ensures d.NaN? <==> expiry.Invalid?
    ensures d.Whole? ==> d.n == JsMath.Ceil((expiry.ms - now) as real / MsPerDay as real)
    ensures d.Whole? ==> (d.n - 1) * MsPerDay < expiry.ms - now <= d.n * MsPerDay
  {
    match expiry
    case Invalid => NaN
    case At(ms) =>
      JsMath.CeilDivIsCeil(ms - now, MsPerDay);
      Whole(JsMath.CeilDiv(ms - now, MsPerDay))
  }

  datatype ExpiryStatus = Expired | Critical | Warning | Valid

  function ExpiryStatusValue(s: ExpiryStatus): string {
    match s
    case Expired => "expired"
    case Critical => "critical"
    case Warning => "warning"
    case Valid => "valid"
  }

  /** Position in the order expired < critical < warning < valid. */
  function Rank(s: ExpiryStatus): nat {
    match s
    case Expired => 0
    case Critical => 1
    case Warning => 2
    case Valid => 3
  }

  /** The threshold ladder of `getExpiryStatus`.  `NaN` fails every
      comparison and falls through to 'valid'. */
  function ClassifyDays(d: Days): (s: ExpiryStatus)
    ensures d.NaN? ==> s == Valid
    ensures d.Whole? ==> (s == Expired <==> d.n < 0)
    ensures d.Whole? ==> (s == Critical <==> 0 <= d.n <= 7)
    ensures d.Whole? ==> (s == Warning <==> 8 <= d.n <= 30)
    ensures d.Whole? ==> (s == Valid <==> d.n > 30)
  {
    match d
    case NaN => Valid
    case Whole(n) =>
      if n < 0 then Expired
      else if n <= 7 then Critical
      else if n <= 30 then Warning
      else Valid
  }

  /** More days left never gives a more urgent bucket. */
  lemma ClassifyMonotone(a: int, b: int)
    requires a <= b
    ensures Rank(ClassifyDays(Whole(a))) <= Rank(ClassifyDays(Whole(b)))
  {
  }

  /** `getExpiryStatus`. */
  function GetExpiryStatus(expiry: JsDate, now: int): (s: ExpiryStatus)
    ensures expiry.Invalid? ==> s == Valid
    ensures expiry.At? && expiry.ms < now ==> s == Expired || s == Critical
    ensures expiry.At? && expiry.ms <= now - MsPerDay ==> s == Expired
    ensures expiry.At? && expiry.ms > now + 30 * MsPerDay ==> s == Valid
  {
    ClassifyDays(DaysUntilExpiry(expiry, now))
  }

  /** A later expiry date is never in a more urgent bucket. */
  lemma ExpiryMonotone(a: int, b: int, now: int)
    requires a <= b
    ensures Rank(GetExpiryStatus(At(a), now)) <= Rank(GetExpiryStatus(At(b), now))
  {
    var da := DaysUntilExpiry(At(a), now).n;
    var db := DaysUntilExpiry(At(b), now).n;
    assert (da - 1) * MsPerDay < a - now <= b - now <= db * MsPerDay;
    assert da <= db;
    ClassifyMonotone(da, db);
  }
}
