/** The read-only endpoints of back_end/main.py that count enrollments: the
    user's own stats, the supervisor's stats over the supervised team, the
    manager's team stats over `manager_id`, and the two manager listings.

    Rates are exact rationals: the source's float division and its final
    `round(...)` are not modelled. */
module Stats {
  import opened Wrappers
  import opened Models
  import opened Db
  import Crud
  import Seqs
  import Enrollments

  /** Number of enrollments with the given status. */
  function CountStatus(es: seq<Enrollment>, s: EnrollmentStatus): (n: nat)
    ensures n <= |es|
    ensures n == 0 <==> forall i :: 0 <= i < |es| ==> es[i].status != s
  {
    if es == [] then 0
    else (if es[0].status == s then 1 else 0) + CountStatus(es[1..], s)
  }

  /** Every enrollment has exactly one of the four statuses. */
  lemma {:induction false} StatusCountsSum(es: seq<Enrollment>)
    ensures CountStatus(es, NotStarted) + CountStatus(es, InProgress)
          + CountStatus(es, Completed) + CountStatus(es, Overdue) == |es|
  {
    if es != [] {
      StatusCountsSum(es[1..]);
    }
  }

  /** Counting over a sequence grown at the end. */
  lemma {:induction false} CountStatusSnoc(es: seq<Enrollment>, e: Enrollment, s: EnrollmentStatus)
    ensures CountStatus(es + [e], s) == CountStatus(es, s) + (if e.status == s then 1 else 0)
  {
    if es == [] {
      assert [e][1..] == [];
    } else {
      assert (es + [e])[1..] == es[1..] + [e];
      CountStatusSnoc(es[1..], e, s);
    }
  }

  /** `completed / total * 100 if total > 0 else 0`. */
  function Rate(completed: nat, total: nat): real {
    if total == 0 then 0.0 else completed as real * 100.0 / total as real
  }

  /** `r` is `part` out of `whole` as a percentage, and 0 for an empty whole. */
  predicate IsPercentOf(r: real, part: nat, whole: nat) {
    && (whole == 0 ==> r == 0.0)
    && (whole > 0 ==> r * whole as real == part as real * 100.0)
  }

  /** A part of a whole gives a rate between 0 and 100, and 100 exactly
      when the part is everything. */
  lemma RateBounds(completed: nat, total: nat)
    requires completed <= total
    ensures 0.0 <= Rate(completed, total) <= 100.0
    ensures Rate(completed, total) == 100.0 <==> total > 0 && completed == total
    ensures IsPercentOf(Rate(completed, total), completed, total)
  {
    if total > 0 {
      var r := Rate(completed, total);
      var t := total as real;
      assert r * t == completed as real * 100.0;
      assert r * t <= 100.0 * t;
    }
  }

  /** The scores that are set, in enrollment order. */
  function Scores(es: seq<Enrollment>): (xs: seq<real>)
    ensures |xs| <= |es|
    ensures forall x :: x in xs <==> exists i :: 0 <= i < |es| && es[i].score == Some(x)
  {
    if es == [] then []
    else
      var rest := Scores(es[1..]);
      assert forall i :: 1 <= i < |es| ==> es[i] == es[1..][i - 1];
      if es[0].score.Some? then [es[0].score.value] + rest else rest
  }

  /** The scores of a sequence grown at the end. */
  lemma {:induction false} ScoresSnoc(es: seq<Enrollment>, e: Enrollment)
    ensures Scores(es + [e]) == Scores(es) + (if e.score.Some? then [e.score.value] else [])
  {
    if es == [] {
      assert [e][1..] == [];
    } else {
      assert (es + [e])[1..] == es[1..] + [e];
      ScoresSnoc(es[1..], e);
    }
  }

  function Sum(xs: seq<real>): real {
    if xs == [] then 0.0 else xs[0] + Sum(xs[1..])
  }

  /** `sum(scores) / len(scores) if scores else 0.0`. */
  function Average(xs: seq<real>): real {
    if xs == [] then 0.0 else Sum(xs) / |xs| as real
  }

  lemma {:induction false} SumBounds(xs: seq<real>, lo: real, hi: real)
    requires forall i :: 0 <= i < |xs| ==> lo <= xs[i] <= hi
    ensures |xs| as real * lo <= Sum(xs) <= |xs| as real * hi
  {
    if xs != [] {
      SumBounds(xs[1..], lo, hi);
    }
  }

  /** The average lies between any bounds every value respects. */
  lemma AverageBounds(xs: seq<real>, lo: real, hi: real)
    requires xs != []
    requires forall i :: 0 <= i < |xs| ==> lo <= xs[i] <= hi
    ensures lo <= Average(xs) <= hi
  {
    SumBounds(xs, lo, hi);
    var n := |xs| as real;
    assert Average(xs) * n == Sum(xs);
  }

  datatype UserStats = UserStats(
    totalCourses: nat,
    completedCourses: nat,
    inProgress: nat,
    overdue: nat,
    complianceRate: real,
    avgScore: real,
    totalHours: nat)

  /** The enrollments of one user, in row order. */
  function EnrollmentsOf(es: seq<Enrollment>, userId: int): (r: seq<Enrollment>)
    ensures forall e :: e in r <==> e in es && e.userId == userId
  {
    Seqs.Filter(es, (e: Enrollment) => e.userId == userId)
  }

  /** `get_user_stats`: counts over the caller's enrollments, one hour per
      completed course, and the average of the set scores. */
  function GetUserStats(st: Store, userId: int): (s: UserStats)
    ensures var mine := EnrollmentsOf(st.enrollments, userId);
      && s.totalCourses == |mine|
      && s.completedCourses == CountStatus(mine, Completed)
      && s.inProgress == CountStatus(mine, InProgress)
      && s.overdue == CountStatus(mine, Overdue)
      && s.avgScore == Average(Scores(mine))
    ensures s.completedCourses + s.inProgress + s.overdue <= s.totalCourses
    ensures s.totalHours == s.completedCourses
    ensures 0.0 <= s.complianceRate <= 100.0
    ensures s.totalCourses == 0 ==> s.complianceRate == 0.0 && s.completedCourses == 0
    ensures s.complianceRate == 100.0 <==> s.totalCourses > 0 && s.completedCourses == s.totalCourses
    ensures IsPercentOf(s.complianceRate, s.completedCourses, s.totalCourses)
  {
    var mine := EnrollmentsOf(st.enrollments, userId);
    var completed := CountStatus(mine, Completed);
    StatusCountsSum(mine);
    RateBounds(completed, |mine|);
    UserStats(|mine|, completed, CountStatus(mine, InProgress), CountStatus(mine, Overdue),
              Rate(completed, |mine|), Average(Scores(mine)), completed)
  }

  /** When every set score is a percentage, so is the average. */
  lemma UserAverageScoreBounds(st: Store, userId: int)
    requires forall e :: e in st.enrollments && e.score.Some? ==> 0.0 <= e.score.value <= 100.0
    ensures 0.0 <= GetUserStats(st, userId).avgScore <= 100.0
  {
    var xs := Scores(EnrollmentsOf(st.enrollments, userId));
    if xs != [] {
      assert forall i :: 0 <= i < |xs| ==> 0.0 <= xs[i] <= 100.0 by {
        forall i | 0 <= i < |xs|
          ensures 0.0 <= xs[i] <= 100.0
        {
          assert xs[i] in xs;
        }
      }
      AverageBounds(xs, 0.0, 100.0);
    }
  }

  /** A user's rows after a row of theirs is appended. */
  lemma EnrollmentsOfSnoc(es: seq<Enrollment>, e: Enrollment)
    ensures EnrollmentsOf(es + [e], e.userId) == EnrollmentsOf(es, e.userId) + [e]
  {
    Seqs.FilterSnoc(es, e, (x: Enrollment) => x.userId == e.userId);
  }

  /** A new row for a user that is not started and has no score adds one
      course to that user's totals and changes none of the other figures. */
  lemma FreshRowAddsOneCourse(st: Store, st': Store, e: Enrollment)
    requires st'.enrollments == st.enrollments + [e]
    requires e.status == NotStarted && e.score.None?
    ensures var a := GetUserStats(st, e.userId);
      var b := GetUserStats(st', e.userId);
      && b.totalCourses == a.totalCourses + 1
      && b.completedCourses == a.completedCourses
      && b.inProgress == a.inProgress
      && b.overdue == a.overdue
      && b.avgScore == a.avgScore
  {
    var mine := EnrollmentsOf(st.enrollments, e.userId);
    EnrollmentsOfSnoc(st.enrollments, e);
    var mine' := EnrollmentsOf(st'.enrollments, e.userId);
    assert mine' == mine + [e];
    CountStatusSnoc(mine, e, Completed);
    CountStatusSnoc(mine, e, InProgress);
    CountStatusSnoc(mine, e, Overdue);
    ScoresSnoc(mine, e);
    assert Scores(mine') == Scores(mine);
  }

  /** A fresh self-enrollment adds one course to the user's totals and
      changes none of the other figures. */
  lemma EnrollAddsOneCourse(st: Store, user: User, courseId: int, today: int)
    requires Enrollments.EnrollInCourse(st, user, courseId, today).Ok?
    requires EnrollmentIndex(st.enrollments, user.id, courseId).None?
    ensures var a := GetUserStats(st, user.id);
      var b := GetUserStats(Enrollments.EnrollInCourse(st, user, courseId, today).value.0, user.id);
      && b.totalCourses == a.totalCourses + 1
      && b.completedCourses == a.completedCourses
      && b.inProgress == a.inProgress
      && b.overdue == a.overdue
      && b.avgScore == a.avgScore
  {
    var st' := Enrollments.EnrollInCourse(st, user, courseId, today).value.0;
    var e := st'.enrollments[|st.enrollments|];
    assert st'.enrollments == st'.enrollments[..|st.enrollments|] + [e];
    FreshRowAddsOneCourse(st, st', e);
  }

  datatype SupervisorStats = SupervisorStats(
    teamSize: nat,
    activeCourses: nat,
    completionRate: real,
    totalEnrollments: nat,
    completedCourses: nat)

  /** The enrollments whose owner is in `ids`. */
  function EnrollmentsOfAll(es: seq<Enrollment>, ids: set<int>): (r: seq<Enrollment>)
    ensures forall e :: e in r <==> e in es && e.userId in ids
  {
    Seqs.Filter(es, (e: Enrollment) => e.userId in ids)
  }

  /** `get_supervisor_stats`: 403 for anyone but a Supervisor; otherwise
      counts over the enrollments of the supervised team. */
  function GetSupervisorStats(st: Store, caller: User): (r: Result<SupervisorStats>)
    ensures r.Err? <==> caller.role != Supervisor
    ensures r.Err? ==> r.error == Forbidden
    ensures r.Ok? ==>
      var s := r.value;
      && s.teamSize == |Crud.TeamForSupervisor(st, caller.id)|
      && var es := EnrollmentsOfAll(st.enrollments, Crud.TeamForSupervisor(st, caller.id));
      && s.totalEnrollments == |es|
      && s.activeCourses == CountStatus(es, InProgress)
      && s.completedCourses == CountStatus(es, Completed)
      && s.activeCourses + s.completedCourses <= s.totalEnrollments
      && 0.0 <= s.completionRate <= 100.0
      && (s.totalEnrollments == 0 ==> s.completionRate == 0.0)
      && IsPercentOf(s.completionRate, s.completedCourses, s.totalEnrollments)
  {
    if caller.role != Supervisor then Err(Forbidden)
    else
      var team := Crud.TeamForSupervisor(st, caller.id);
      var es := EnrollmentsOfAll(st.enrollments, team);
      var completed := CountStatus(es, Completed);
      StatusCountsSum(es);
      RateBounds(completed, |es|);
      Ok(SupervisorStats(|team|, CountStatus(es, InProgress), Rate(completed, |es|), |es|, completed))
  }

  /** The users whose `manager_id` is the caller. */
  function ManagedBy(st: Store, managerId: int): (team: set<int>)
    ensures team <= st.users.Keys
    ensures forall k :: k in team <==> k in st.users && st.users[k].managerId == Some(managerId)
  {
    set k | k in st.users && st.users[k].managerId == Some(managerId)
  }

  /** `get_team_members`: 403 unless the caller passes the manager check;
      otherwise the users they manage. */
  function GetTeamMembers(st: Store, caller: User): (r: Result<set<int>>)
    ensures r.Ok? <==> Enrollments.IsManager(caller)
    ensures r.Err? ==> r.error == Forbidden
    ensures r.Ok? ==> r.value == ManagedBy(st, caller.id)
  {
    if !Enrollments.IsManager(caller) then Err(Forbidden) else Ok(ManagedBy(st, caller.id))
  }

  datatype TeamStats = TeamStats(teamSize: nat, avgCompliance: real, totalHours: nat, overdueCount: nat)

  /** `get_team_stats`: 403 unless the caller passes the manager check;
      otherwise counts over the enrollments of the users they manage.  The
      per-member sums of the source add up to counts over the enrollments
      owned by the team, since user ids are distinct. */
  function GetTeamStats(st: Store, caller: User): (r: Result<TeamStats>)
    ensures r.Ok? <==> Enrollments.IsManager(caller)
    ensures r.Err? ==> r.error == Forbidden
    ensures r.Ok? ==>
      var s := r.value;
      var es := EnrollmentsOfAll(st.enrollments, ManagedBy(st, caller.id));
      && s.teamSize == |ManagedBy(st, caller.id)|
      && s.totalHours + s.overdueCount <= |es|
      && s.totalHours == CountStatus(es, Completed)
      && s.overdueCount == CountStatus(es, Overdue)
      && 0.0 <= s.avgCompliance <= 100.0
      && (|es| == 0 ==> s.avgCompliance == 0.0)
      && IsPercentOf(s.avgCompliance, s.totalHours, |es|)
  {
    if !Enrollments.IsManager(caller) then Err(Forbidden)
    else
      var team := ManagedBy(st, caller.id);
      var es := EnrollmentsOfAll(st.enrollments, team);
      var completed := CountStatus(es, Completed);
      StatusCountsSum(es);
      RateBounds(completed, |es|);
      Ok(TeamStats(|team|, Rate(completed, |es|), completed, CountStatus(es, Overdue)))
  }

  /** `get_member_enrollments`: 403 unless the caller passes the manager
      check; otherwise every enrollment of `memberId`, whoever manages them. */
  function GetMemberEnrollments(st: Store, caller: User, memberId: int): (r: Result<seq<Enrollment>>)
    ensures r.Ok? <==> Enrollments.IsManager(caller)
    ensures r.Err? ==> r.error == Forbidden
    ensures r.Ok? ==> forall e :: e in r.value <==> e in st.enrollments && e.userId == memberId
  {
    if !Enrollments.IsManager(caller) then Err(Forbidden) else Ok(EnrollmentsOf(st.enrollments, memberId))
  }

  /** The manager listing does not check that the member is in the caller's
      team: an Admin sees the enrollments of any user. */
  lemma ManagerSeesAnyMember(st: Store, caller: User, memberId: int)
    requires caller.role == Admin
    ensures GetMemberEnrollments(st, caller, memberId).Ok?
  {
  }

  /** `get_supervisor_team`: 403 for anyone but a Supervisor; otherwise the
      supervised team. */
  function GetSupervisorTeam(st: Store, caller: User): (r: Result<set<int>>)
    ensures r.Ok? <==> caller.role == Supervisor
    ensures r.Err? ==> r.error == Forbidden
    ensures r.Ok? ==> forall k :: k in r.value <==> k in st.users && Crud.HasPair(st.pairs, caller.id, k)
  {
    if caller.role != Supervisor then Err(Forbidden) else Ok(Crud.TeamForSupervisor(st, caller.id))
  }
}
