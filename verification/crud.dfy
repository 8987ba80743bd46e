/** The data-access helpers of back_end/crud.py that carry logic: the
    supervisor/member relation (a set of pairs kept free of duplicates),
    its projection onto a supervisor's team, and the partial update of an
    enrollment. */
module Crud {
  import opened Wrappers
  import opened Models
  import opened Db

  predicate IsPair(p: SupervisorPair, supervisorId: int, memberId: int) {
    p.supervisorId == supervisorId && p.memberId == memberId
  }

  predicate HasPair(pairs: seq<SupervisorPair>, supervisorId: int, memberId: int) {
    exists i :: 0 <= i < |pairs| && IsPair(pairs[i], supervisorId, memberId)
  }

  /** Position of the first row for (supervisorId, memberId). */
  function PairIndex(pairs: seq<SupervisorPair>, supervisorId: int, memberId: int): (r: Option<nat>)
    ensures r.Some? ==> r.value < |pairs| && IsPair(pairs[r.value], supervisorId, memberId)
    ensures r.Some? ==> forall j :: 0 <= j < r.value ==> !IsPair(pairs[j], supervisorId, memberId)
    ensures r.None? <==> !HasPair(pairs, supervisorId, memberId)
  {
    if pairs == [] then None
    else if IsPair(pairs[0], supervisorId, memberId) then Some(0)
    else match PairIndex(pairs[1..], supervisorId, memberId)
      case None => (assert forall j :: 1 <= j < |pairs| ==> pairs[j] == pairs[1..][j - 1]; None)
      case Some(i) => Some(i + 1)
  }

  /** Everything but the pairs and the users is left alone. */
  predicate SameExceptPairsAndUsers(a: Store, b: Store) {
    && a.courses == b.courses
    && a.enrollments == b.enrollments
    && a.certificates == b.certificates
    && a.nextEnrollmentId == b.nextEnrollmentId
    && a.nextCertificateId == b.nextCertificateId
    && a.nextCertificateNo == b.nextCertificateNo
  }

  /** `assign_supervisor`: returns the existing row for the pair untouched,
      or adds one row and points the member's `manager_id` at the
      supervisor.  Both ids reference `users.id`, so a new row naming an id
      that is no user breaks a foreign key when the session flushes: the
      request fails with nothing stored. */
  function AssignSupervisor(st: Store, supervisorId: int, memberId: int): (r: Result<(Store, SupervisorPair)>)
    ensures r.Err? <==> !HasPair(st.pairs, supervisorId, memberId) && (supervisorId !in st.users || memberId !in st.users)
    ensures r.Err? ==> r.error == InternalError
    ensures HasPair(st.pairs, supervisorId, memberId) ==> r.Ok? && r.value.0 == st && r.value.1 in st.pairs
    ensures r.Ok? ==> IsPair(r.value.1, supervisorId, memberId) && HasPair(r.value.0.pairs, supervisorId, memberId)
    ensures r.Ok? && !HasPair(st.pairs, supervisorId, memberId) ==>
      var st' := r.value.0;
      && st'.pairs == st.pairs + [r.value.1]
      && r.value.1.id == st.nextPairId && st'.nextPairId == st.nextPairId + 1
      && st'.users.Keys == st.users.Keys
      && (forall k :: k in st.users && k != memberId ==> st'.users[k] == st.users[k])
      && st'.users[memberId] == st.users[memberId].(managerId := Some(supervisorId))
    ensures r.Ok? ==> SameExceptPairsAndUsers(st, r.value.0)
    ensures r.Ok? && UniquePairs(st.pairs) ==> UniquePairs(r.value.0.pairs)
    ensures r.Ok? && UsersKeyed(st.users) ==> UsersKeyed(r.value.0.users)
  {
    match PairIndex(st.pairs, supervisorId, memberId)
    case Some(i) => Ok((st, st.pairs[i]))
    case None =>
      if supervisorId !in st.users || memberId !in st.users then Err(InternalError)
      else
        var row := SupervisorPair(st.nextPairId, supervisorId, memberId);
        var users := st.users[memberId := st.users[memberId].(managerId := Some(supervisorId))];
        assert IsPair((st.pairs + [row])[|st.pairs|], supervisorId, memberId);
        Ok((st.(pairs := st.pairs + [row], users := users, nextPairId := st.nextPairId + 1), row))
  }

  /** Assigning the same pair again returns the row created the first
      time and changes nothing. */
  lemma AssignSupervisorIdempotent(st: Store, supervisorId: int, memberId: int)
    ensures var r := AssignSupervisor(st, supervisorId, memberId);
      r.Ok? ==> AssignSupervisor(r.value.0, supervisorId, memberId) == r
  {
  }

  /** `unassign_supervisor`: deletes the first row for the pair and reports
      whether there was one; no other row and no user changes. */
  function UnassignSupervisor(st: Store, supervisorId: int, memberId: int): (r: (Store, bool))
    ensures r.1 <==> HasPair(st.pairs, supervisorId, memberId)
    ensures r.1 ==> |r.0.pairs| == |st.pairs| - 1
    ensures !r.1 ==> r.0 == st
    ensures forall p :: p in st.pairs && !IsPair(p, supervisorId, memberId) ==> p in r.0.pairs
    ensures forall p :: p in r.0.pairs ==> p in st.pairs
    ensures r.0.users == st.users && r.0.nextPairId == st.nextPairId
    ensures SameExceptPairsAndUsers(st, r.0)
    ensures UniquePairs(st.pairs) ==> UniquePairs(r.0.pairs) && !HasPair(r.0.pairs, supervisorId, memberId)
  {
    match PairIndex(st.pairs, supervisorId, memberId)
    case None => (st, false)
    case Some(i) =>
      var rest := st.pairs[..i] + st.pairs[i + 1..];
      assert forall j :: 0 <= j < i ==> rest[j] == st.pairs[j];
      assert forall j :: i <= j < |rest| ==> rest[j] == st.pairs[j + 1];
      assert forall p :: p in st.pairs && p != st.pairs[i] ==> p in rest;
      (st.(pairs := rest), true)
  }

  /** `get_team_for_supervisor`: the ids of the existing users that some row
      pairs with `supervisorId` as member. */
  function TeamForSupervisor(st: Store, supervisorId: int): (team: set<int>)
    ensures team <= st.users.Keys
  {
    set k | k in st.users && HasPair(st.pairs, supervisorId, k)
  }

  /** A successful assignment puts the member (if the user exists) into the
      supervisor's team and leaves every other supervisor's team as it was. */
  lemma AssignSupervisorTeam(st: Store, supervisorId: int, memberId: int, other: int)
    requires other != supervisorId
    ensures var r := AssignSupervisor(st, supervisorId, memberId);
      r.Ok? ==>
      && TeamForSupervisor(r.value.0, supervisorId) == TeamForSupervisor(st, supervisorId) + (if memberId in st.users then {memberId} else {})
      && TeamForSupervisor(r.value.0, other) == TeamForSupervisor(st, other)
  {
    var r := AssignSupervisor(st, supervisorId, memberId);
    if r.Ok? && !HasPair(st.pairs, supervisorId, memberId) {
      var st' := r.value.0;
      var row := SupervisorPair(st.nextPairId, supervisorId, memberId);
      assert st'.pairs == st.pairs + [row];
      forall s, k | HasPair(st.pairs, s, k)
        ensures HasPair(st'.pairs, s, k)
      {
        var i :| 0 <= i < |st.pairs| && IsPair(st.pairs[i], s, k);
        assert st'.pairs[i] == st.pairs[i];
      }
      forall s, k | HasPair(st'.pairs, s, k) && !(s == supervisorId && k == memberId)
        ensures HasPair(st.pairs, s, k)
      {
        var i :| 0 <= i < |st'.pairs| && IsPair(st'.pairs[i], s, k);
        assert i < |st.pairs| && st'.pairs[i] == st.pairs[i];
      }
    }
  }

  /** A pair present before and not the one removed is still present. */
  lemma UnassignKeepsPair(st: Store, supervisorId: int, memberId: int, s: int, k: int)
    requires HasPair(st.pairs, s, k) && !(s == supervisorId && k == memberId)
    ensures HasPair(UnassignSupervisor(st, supervisorId, memberId).0.pairs, s, k)
  {
    var pairs' := UnassignSupervisor(st, supervisorId, memberId).0.pairs;
    var i :| 0 <= i < |st.pairs| && IsPair(st.pairs[i], s, k);
    assert st.pairs[i] in pairs';
    var j :| 0 <= j < |pairs'| && pairs'[j] == st.pairs[i];
  }

  /** Every pair present afterwards was present before. */
  lemma UnassignAddsNoPair(st: Store, supervisorId: int, memberId: int, s: int, k: int)
    requires HasPair(UnassignSupervisor(st, supervisorId, memberId).0.pairs, s, k)
    ensures HasPair(st.pairs, s, k)
  {
    var pairs' := UnassignSupervisor(st, supervisorId, memberId).0.pairs;
    var i :| 0 <= i < |pairs'| && IsPair(pairs'[i], s, k);
    assert pairs'[i] in st.pairs;
    var j :| 0 <= j < |st.pairs| && st.pairs[j] == pairs'[i];
  }

  /** Unassigning removes the one pair and no other. */
  lemma UnassignHasPair(st: Store, supervisorId: int, memberId: int, s: int, k: int)
    requires UniquePairs(st.pairs)
    ensures var st' := UnassignSupervisor(st, supervisorId, memberId).0;
      HasPair(st'.pairs, s, k) <==> HasPair(st.pairs, s, k) && !(s == supervisorId && k == memberId)
  {
    if HasPair(st.pairs, s, k) && !(s == supervisorId && k == memberId) {
      UnassignKeepsPair(st, supervisorId, memberId, s, k);
    }
    if HasPair(UnassignSupervisor(st, supervisorId, memberId).0.pairs, s, k) {
      UnassignAddsNoPair(st, supervisorId, memberId, s, k);
    }
  }

  /** Unassigning drops exactly that member from that supervisor's team
      (given the pairs are unique) and leaves other supervisors' teams. */
  lemma UnassignSupervisorTeam(st: Store, supervisorId: int, memberId: int, other: int)
    requires UniquePairs(st.pairs)
    requires other != supervisorId
    ensures var st' := UnassignSupervisor(st, supervisorId, memberId).0;
      && TeamForSupervisor(st', supervisorId) == TeamForSupervisor(st, supervisorId) - {memberId}
      && TeamForSupervisor(st', other) == TeamForSupervisor(st, other)
  {
    var st' := UnassignSupervisor(st, supervisorId, memberId).0;
    forall k
      ensures k in TeamForSupervisor(st', supervisorId) <==> k in TeamForSupervisor(st, supervisorId) - {memberId}
      ensures k in TeamForSupervisor(st', other) <==> k in TeamForSupervisor(st, other)
    {
      UnassignHasPair(st, supervisorId, memberId, supervisorId, k);
      UnassignHasPair(st, supervisorId, memberId, other, k);
    }
  }

  /** `update_enrollment`: `None` for an unknown id; otherwise the first
      enrollment with that id gets each supplied field and keeps the rest.
      A status is applied when present (every status value is a non-empty,
      hence truthy, string); progress and score are applied when present,
      zero included. */
  function UpdateEnrollment(st: Store, enrollmentId: int, status: Option<EnrollmentStatus>, progress: Option<int>, score: Option<real>): (r: Option<(Store, Enrollment)>)
    ensures r.None? <==> EnrollmentIndexById(st.enrollments, enrollmentId).None?
    ensures r.Some? ==>
      var i := EnrollmentIndexById(st.enrollments, enrollmentId).value;
      var e, e' := st.enrollments[i], r.value.1;
      && r.value.0 == st.(enrollments := st.enrollments[i := e'])
      && e'.id == e.id && e'.userId == e.userId && e'.courseId == e.courseId
      && e'.completedDate == e.completedDate && e'.dueDate == e.dueDate && e'.assignedBy == e.assignedBy
      && e'.status == status.GetOr(e.status)
      && e'.progress == progress.GetOr(e.progress)
      && e'.score == (if score.Some? then score else e.score)
  {
    match EnrollmentIndexById(st.enrollments, enrollmentId)
    case None => None
    case Some(i) =>
      var e := st.enrollments[i];
      var e1 := if status.Some? then e.(status := status.value) else e;
      var e2 := if progress.Some? then e1.(progress := progress.value) else e1;
      var e3 := if score.Some? then e2.(score := score) else e2;
      Some((st.(enrollments := st.enrollments[i := e3]), e3))
  }

  /** Supplying no field leaves the store as it was. */
  lemma UpdateEnrollmentNothing(st: Store, enrollmentId: int)
    requires EnrollmentIndexById(st.enrollments, enrollmentId).Some?
    ensures UpdateEnrollment(st, enrollmentId, None, None, None).value.0 == st
  {
    var i := EnrollmentIndexById(st.enrollments, enrollmentId).value;
    assert st.enrollments[i := st.enrollments[i]] == st.enrollments;
  }

  /** Repeating an update changes nothing further. */
  lemma UpdateEnrollmentIdempotent(st: Store, enrollmentId: int, status: Option<EnrollmentStatus>, progress: Option<int>, score: Option<real>)
    requires EnrollmentIndexById(st.enrollments, enrollmentId).Some?
    ensures var st1 := UpdateEnrollment(st, enrollmentId, status, progress, score).value.0;
      var again := UpdateEnrollment(st1, enrollmentId, status, progress, score);
      again.Some? && again.value.0 == st1
  {
    var i := EnrollmentIndexById(st.enrollments, enrollmentId).value;
    var st1 := UpdateEnrollment(st, enrollmentId, status, progress, score).value.0;
    var e' := UpdateEnrollment(st, enrollmentId, status, progress, score).value.1;
    assert st1.enrollments == st.enrollments[i := e'];
    assert forall j :: 0 <= j < |st1.enrollments| ==> st1.enrollments[j].id == st.enrollments[j].id;
    assert EnrollmentIndexById(st1.enrollments, enrollmentId) == Some(i) by {
      SameIdsSameIndex(st.enrollments, st1.enrollments, enrollmentId);
    }
    assert st1.enrollments[i := st1.enrollments[i]] == st1.enrollments;
  }

  /** Lookup by id only looks at the ids. */
  lemma {:induction false} SameIdsSameIndex(a: seq<Enrollment>, b: seq<Enrollment>, id: int)
    requires |a| == |b|
    requires forall j :: 0 <= j < |a| ==> a[j].id == b[j].id
    ensures EnrollmentIndexById(a, id) == EnrollmentIndexById(b, id)
  {
    if a != [] {
      SameIdsSameIndex(a[1..], b[1..], id);
    }
  }
}
