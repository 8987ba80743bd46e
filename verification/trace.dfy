/** Any sequence of the server's writing endpoints, applied to the store one
    after another, keeps the store's uniqueness guarantees: one enrollment
    and at most one certificate per (user, course), distinct certificate
    numbers, and one supervisor row per (supervisor, member).  A request
    answered with an error leaves the store as it was (nothing is
    committed).  `Update` is `crud.update_enrollment`, which no route of
    back_end/main.py calls; it is kept so that the helper is covered too. */
module Trace {
  import opened Wrappers
  import opened Models
  import opened Db
  import Crud
  import Lifecycle
  import Enrollments

  datatype Op =
    | Enroll(user: User, courseId: int, today: int)
    | AssignToMember(caller: User, memberId: int, courseId: int)
    | SupervisorAssign(caller: User, memberId: int, courseId: int, today: int)
    | SupervisorRemove(caller: User, enrollmentId: int)
    | ReportProgress(user: User, courseId: int, payload: Option<int>, today: int)
    | Complete(user: User, courseId: int, today: int)
    | LinkSupervisor(supervisorId: int, memberId: int)
    | UnlinkSupervisor(supervisorId: int, memberId: int)
    | Update(enrollmentId: int, status: Option<EnrollmentStatus>, progress: Option<int>, score: Option<real>)

  /** Replacing one enrollment by one with the same user and course keeps
      the enrollments unique. */
  lemma SameKeysKeepUnique(es: seq<Enrollment>, i: nat, e: Enrollment)
    requires i < |es| && e.userId == es[i].userId && e.courseId == es[i].courseId
    ensures UniqueEnrollments(es) ==> UniqueEnrollments(es[i := e])
  {
  }

  /** The store after one request. */
  function Step(st: Store, op: Op): (st': Store)
    ensures Valid(st) ==> Valid(st')
    ensures st'.courses == st.courses
  {
    match op
    case Enroll(user, courseId, today) =>
      (match Enrollments.EnrollInCourse(st, user, courseId, today)
       case Ok(r) => r.0
       case Err(_) => st)
    case AssignToMember(caller, memberId, courseId) =>
      (match Enrollments.AssignCourseToMember(st, caller, memberId, courseId)
       case Ok(r) => r.0
       case Err(_) => st)
    case SupervisorAssign(caller, memberId, courseId, today) =>
      (match Enrollments.SupervisorAssignCourse(st, caller, memberId, courseId, today)
       case Ok(r) => r.0
       case Err(_) => st)
    case SupervisorRemove(caller, enrollmentId) =>
      (match Enrollments.SupervisorRemoveCourse(st, caller, enrollmentId)
       case Ok(r) => r
       case Err(_) => st)
    case ReportProgress(user, courseId, payload, today) =>
      (match Lifecycle.UpdateProgress(st, user, courseId, payload, today)
       case Ok(r) =>
         var i := EnrollmentIndex(st.enrollments, user.id, courseId).value;
         SameKeysKeepUnique(st.enrollments, i, Lifecycle.Advance(st.enrollments[i], Lifecycle.PayloadProgress(payload), today));
         r.0
       case Err(_) => st)
    case Complete(user, courseId, today) =>
      (match Lifecycle.MarkCourseComplete(st, user, courseId, today)
       case Ok(r) =>
         var i := EnrollmentIndex(st.enrollments, user.id, courseId).value;
         assert r.enrollments == st.enrollments[i := r.enrollments[i]];
         SameKeysKeepUnique(st.enrollments, i, r.enrollments[i]);
         r
       case Err(_) => st)
    case LinkSupervisor(s, m) =>
      (match Crud.AssignSupervisor(st, s, m)
       case Ok(r) => r.0
       case Err(_) => st)
    case UnlinkSupervisor(s, m) => Crud.UnassignSupervisor(st, s, m).0
    case Update(enrollmentId, status, progress, score) =>
      (match Crud.UpdateEnrollment(st, enrollmentId, status, progress, score)
       case Some(r) =>
         var i := EnrollmentIndexById(st.enrollments, enrollmentId).value;
         SameKeysKeepUnique(st.enrollments, i, r.1);
         r.0
       case None => st)
  }

  /** The store after a sequence of requests, first to last. */
  function Run(st: Store, ops: seq<Op>): (st': Store)
    ensures Valid(st) ==> Valid(st')
    ensures st'.courses == st.courses
    decreases |ops|
  {
    if ops == [] then st else Run(Step(st, ops[0]), ops[1..])
  }

  /** In any reachable store there is at most one certificate per
      (user, course): the store starting empty, whatever requests follow. */
  lemma OneCertificatePerCourse(courses: seq<Course>, users: map<int, User>, ops: seq<Op>, i: nat, j: nat)
    requires Db.UsersKeyed(users)
    requires var st := Run(Store(users, courses, [], [], [], 0, 0, 0, 0), ops);
      i < j < |st.certificates|
    ensures var st := Run(Store(users, courses, [], [], [], 0, 0, 0, 0), ops);
      !(st.certificates[i].userId == st.certificates[j].userId && st.certificates[i].courseId == st.certificates[j].courseId)
  {
    var st0 := Store(users, courses, [], [], [], 0, 0, 0, 0);
    assert Valid(st0);
  }
}
