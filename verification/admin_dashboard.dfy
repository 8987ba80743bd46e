/** The admin dashboard (frontend/src/pages/AdminDashboard.js): the user
    search over the training-status list, the two compliance classifiers
    and the "last login" label. */
module AdminDashboard {
  import opened Wrappers
  import Text
  import Seqs
  import Client
  import Utils

  /** The search effect: a blank term (after trimming) shows every user;
      any other term keeps, in order, the users whose name, email or role
      contains it, ignoring case.  The term itself is matched untrimmed. */
  function SearchUsers(users: seq<Client.User>, term: string): (r: seq<Client.User>)
    ensures Text.IsBlank(term) ==> r == users
    ensures !Text.IsBlank(term) ==> forall u :: u in r <==> u in users && Client.MatchesUserSearch(u, term)
    ensures Seqs.IsSubsequence(r, users)
  {
    Text.TrimEmptyIffBlank(term);
    if Text.Trim(term) == [] then
      Seqs.SubsequenceRefl(users);
      users
    else
      var keep := (u: Client.User) => Client.MatchesUserSearch(u, term);
      Seqs.FilterIsSubsequence(users, keep);
      Seqs.Filter(users, keep)
  }

  /** Searching the search result again with the same term changes nothing. */
  lemma SearchIdempotent(users: seq<Client.User>, term: string)
    ensures SearchUsers(SearchUsers(users, term), term) == SearchUsers(users, term)
  {
    var r := SearchUsers(users, term);
    if !Text.IsBlank(term) {
      var keep := (u: Client.User) => Client.MatchesUserSearch(u, term);
      assert forall i :: 0 <= i < |r| ==> keep(r[i]) by {
        forall i | 0 <= i < |r|
          ensures keep(r[i])
        {
          assert r[i] in r;
        }
      }
      Seqs.FilterAll(r, keep);
    }
  }

  /** The three compliance bands, from best to worst. */
  datatype Band = Good | Fair | Poor

  /** 0 for the best band, 2 for the worst. */
  function Severity(b: Band): nat {
    match b
    case Good => 0
    case Fair => 1
    case Poor => 2
  }

  /** `getComplianceColor`: green from 80, yellow from 50, red below. */
  function ComplianceColor(rate: real): (b: Band)
    ensures b == Good <==> rate >= 80.0
    ensures b == Fair <==> 50.0 <= rate < 80.0
    ensures b == Poor <==> rate < 50.0
  {
    if rate >= 80.0 then Good else if rate >= 50.0 then Fair else Poor
  }

  function ColorClass(b: Band): string {
    match b
    case Good => "text-green-600 bg-green-50"
    case Fair => "text-yellow-600 bg-yellow-50"
    case Poor => "text-red-600 bg-red-50"
  }

  /** The badge variants of `getComplianceBadgeVariant`. */
  datatype Variant = Default | Secondary | Destructive

  /** `getComplianceBadgeVariant`, with its own comparisons. */
  function ComplianceBadge(rate: real): (v: Variant)
    ensures v == Default <==> rate >= 80.0
    ensures v == Destructive <==> rate < 50.0
  {
    if rate >= 80.0 then Default else if rate >= 50.0 then Secondary else Destructive
  }

  /** The badge a band corresponds to. */
  function BadgeOf(b: Band): Variant {
    match b
    case Good => Default
    case Fair => Secondary
    case Poor => Destructive
  }

  /** Colour and badge use the same thresholds: default goes with green,
      secondary with yellow and destructive with red, for every rate. */
  lemma BadgeMatchesColor(rate: real)
    ensures ComplianceBadge(rate) == BadgeOf(ComplianceColor(rate))
  {
  }

  /** A higher rate never lands in a worse band. */
  lemma ColorMonotone(a: real, b: real)
    requires a <= b
    ensures Severity(ComplianceColor(b)) <= Severity(ComplianceColor(a))
  {
  }

  /** What `formatLastLogin` shows. */
  datatype LastLogin = Never | Today | Yesterday | DaysAgo(days: int) | OnDate(date: Utils.JsDate)

  /** `formatLastLogin`: `Never` without a login; otherwise the whole days
      elapsed, `Math.floor((now - date) / day)`, decide the label.  An
      unparsable date makes the day count NaN, which fails every test and
      falls through to the date itself. */
  function FormatLastLogin(lastLogin: Option<Utils.JsDate>, now: int): (r: LastLogin)
    ensures r == Never <==> lastLogin.None?
    ensures lastLogin == Some(Utils.Invalid) ==> r == OnDate(Utils.Invalid)
    ensures r == Today <==> lastLogin.Some? && lastLogin.value.At? && 0 <= now - lastLogin.value.ms < Utils.MsPerDay
    ensures r == Yesterday <==> lastLogin.Some? && lastLogin.value.At? && Utils.MsPerDay <= now - lastLogin.value.ms < 2 * Utils.MsPerDay
    ensures r.DaysAgo? ==>
      && lastLogin.Some? && lastLogin.value.At?
      && r.days * Utils.MsPerDay <= now - lastLogin.value.ms < (r.days + 1) * Utils.MsPerDay
      && r.days < 7 && r.days != 0 && r.days != 1
    ensures r.OnDate? && lastLogin.value.At? ==> now - lastLogin.value.ms >= 7 * Utils.MsPerDay
  {
    match lastLogin
    case None => Never
    case Some(Invalid) => OnDate(Utils.Invalid)
    case Some(At(ms)) =>
      var d := (now - ms) / Utils.MsPerDay;
      if d == 0 then Today
      else if d == 1 then Yesterday
      else if d < 7 then DaysAgo(d)
      else OnDate(Utils.At(ms))
  }

  /** A login stamped in the future is shown as a negative number of days
      ago rather than as today. */
  lemma FutureLoginShowsNegativeDays(ms: int, now: int)
    requires ms > now
    ensures var r := FormatLastLogin(Some(Utils.At(ms)), now);
      r.DaysAgo? && r.days < 0
  {
    var r := FormatLastLogin(Some(Utils.At(ms)), now);
    assert !r.OnDate?;
  }
}
