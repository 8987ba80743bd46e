/** Creating and removing enrollments (back_end/main.py): self-enrollment,
    the manager and supervisor assign-course endpoints, the supervisor
    remove-course and member-enrollments endpoints, and the role and team
    checks guarding them.  Creation is idempotent on (user, course). */
module Enrollments {
  import opened Wrappers
  import opened Models
  import opened Db
  import Crud
  import Seqs

  /** How a create request was answered: the new row's id, or the row that
      was already there (the manager endpoint does not report its id). */
  datatype CreateReply = Created(enrollmentId: int) | AlreadyEnrolled(existingId: Option<int>)

  /** The titles the team endpoints accept, compared with the user's role value. */
  const ManagerTitles: seq<string> := ["Team Leader", "Care Manager", "Admin", "Director"]

  /** `user.role in allowed_roles`.  Of the six roles only Admin passes:
      the other three titles name no role. */
  function IsManager(u: User): (b: bool)
    ensures b <==> u.role == Admin
  {
    Models.ManagerTitlesAreNotRoles(u.role);
    RoleValue(u.role) in ManagerTitles
  }

  /** Appends an enrollment with the next id; the store is otherwise untouched. */
  function CreateEnrollment(st: Store, e: Enrollment): (r: (Store, int))
    requires e.id == st.nextEnrollmentId
    requires EnrollmentIndex(st.enrollments, e.userId, e.courseId).None?
    ensures r.0.enrollments == st.enrollments + [e] && r.1 == e.id
    ensures r.0 == st.(enrollments := r.0.enrollments, nextEnrollmentId := st.nextEnrollmentId + 1)
    ensures UniqueEnrollments(st.enrollments) ==> UniqueEnrollments(r.0.enrollments)
    ensures EnrollmentIndex(r.0.enrollments, e.userId, e.courseId) == Some(|st.enrollments|)
  {
    var es := st.enrollments + [e];
    assert es[|st.enrollments|] == e;
    assert forall j :: 0 <= j < |st.enrollments| ==> es[j] == st.enrollments[j];
    PrefixIndex(st.enrollments, e);
    (st.(enrollments := es, nextEnrollmentId := st.nextEnrollmentId + 1), e.id)
  }

  /** Appending the first row for a (user, course) makes it the one found. */
  lemma {:induction false} PrefixIndex(es: seq<Enrollment>, e: Enrollment)
    requires EnrollmentIndex(es, e.userId, e.courseId).None?
    ensures EnrollmentIndex(es + [e], e.userId, e.courseId) == Some(|es|)
  {
    var es' := es + [e];
    assert es'[|es|] == e;
    var r := EnrollmentIndex(es', e.userId, e.courseId);
    assert r.Some?;
    assert r.value >= |es| by {
      assert forall j :: 0 <= j < |es| ==> es'[j] == es[j];
    }
  }

  /** `enroll_in_course`: 404 for an unknown course; the existing enrollment
      of the user in the course if there is one; otherwise a new not-started
      enrollment at progress 0, due `expiry_days` from today. */
  function EnrollInCourse(st: Store, user: User, courseId: int, today: int): (r: Result<(Store, CreateReply)>)
    ensures FindCourse(st.courses, courseId).None? <==> r == Err(NotFound)
    ensures r.Err? ==> r.error == NotFound
    ensures r.Ok? && EnrollmentIndex(st.enrollments, user.id, courseId).Some? ==>
      var i := EnrollmentIndex(st.enrollments, user.id, courseId).value;
      r.value == (st, AlreadyEnrolled(Some(st.enrollments[i].id)))
    ensures r.Ok? && EnrollmentIndex(st.enrollments, user.id, courseId).None? ==>
      && r.value.1 == Created(st.nextEnrollmentId)
      && |r.value.0.enrollments| == |st.enrollments| + 1
      && r.value.0.enrollments[..|st.enrollments|] == st.enrollments
      && var e := r.value.0.enrollments[|st.enrollments|];
      && e.userId == user.id && e.courseId == courseId && e.id == st.nextEnrollmentId
      && e.status == NotStarted && e.progress == 0 && e.assignedBy.None?
      && e.score.None? && e.completedDate.None?
      && e.dueDate == Some(today + FindCourse(st.courses, courseId).value.expiryDays)
    ensures r.Ok? ==> EnrollmentIndex(r.value.0.enrollments, user.id, courseId).Some?
    ensures r.Ok? ==> r.value.0 == st.(enrollments := r.value.0.enrollments, nextEnrollmentId := r.value.0.nextEnrollmentId)
    ensures r.Ok? && UniqueEnrollments(st.enrollments) ==> UniqueEnrollments(r.value.0.enrollments)
  {
    match FindCourse(st.courses, courseId)
    case None => Err(NotFound)
    case Some(course) =>
      match EnrollmentIndex(st.enrollments, user.id, courseId)
      case Some(i) => Ok((st, AlreadyEnrolled(Some(st.enrollments[i].id))))
      case None =>
        var e := NewEnrollment(st.nextEnrollmentId, user.id, courseId, Some(today + course.expiryDays), None);
        var (st', id) := CreateEnrollment(st, e);
        assert st'.enrollments[..|st.enrollments|] == st.enrollments;
        Ok((st', Created(id)))
  }

  /** Enrolling a second time returns the first enrollment and changes nothing. */
  lemma EnrollIdempotent(st: Store, user: User, courseId: int, today: int, later: int)
    requires EnrollInCourse(st, user, courseId, today).Ok?
    ensures var st1 := EnrollInCourse(st, user, courseId, today).value.0;
      var again := EnrollInCourse(st1, user, courseId, later);
      again.Ok? && again.value.0 == st1 && again.value.1.AlreadyEnrolled?
  {
  }

  /** `assign_course_to_member`: 403 unless the caller passes the manager
      check, 404 for an unknown member or course; an existing enrollment is
      left as it is, otherwise a not-started one assigned by the caller is
      created. */
  function AssignCourseToMember(st: Store, caller: User, memberId: int, courseId: int): (r: Result<(Store, CreateReply)>)
    ensures !IsManager(caller) ==> r == Err(Forbidden)
    ensures IsManager(caller) && memberId !in st.users ==> r == Err(NotFound)
    ensures IsManager(caller) && memberId in st.users && FindCourse(st.courses, courseId).None? ==> r == Err(NotFound)
    ensures r.Ok? <==> IsManager(caller) && memberId in st.users && FindCourse(st.courses, courseId).Some?
    ensures r.Ok? && EnrollmentIndex(st.enrollments, memberId, courseId).Some? ==> r.value == (st, AlreadyEnrolled(None))
    ensures r.Ok? && EnrollmentIndex(st.enrollments, memberId, courseId).None? ==>
      && r.value.1 == Created(st.nextEnrollmentId)
      && |r.value.0.enrollments| == |st.enrollments| + 1
      && r.value.0.enrollments[..|st.enrollments|] == st.enrollments
      && var e := r.value.0.enrollments[|st.enrollments|];
      && e.userId == memberId && e.courseId == courseId && e.status == NotStarted && e.progress == 0
      && e.assignedBy == Some(caller.id) && e.dueDate.None?
    ensures r.Ok? ==> EnrollmentIndex(r.value.0.enrollments, memberId, courseId).Some?
    ensures r.Ok? ==> r.value.0 == st.(enrollments := r.value.0.enrollments, nextEnrollmentId := r.value.0.nextEnrollmentId)
    ensures r.Ok? && UniqueEnrollments(st.enrollments) ==> UniqueEnrollments(r.value.0.enrollments)
  {
    if !IsManager(caller) then Err(Forbidden)
    else if memberId !in st.users then Err(NotFound)
    else match FindCourse(st.courses, courseId)
      case None => Err(NotFound)
      case Some(course) =>
        match EnrollmentIndex(st.enrollments, memberId, courseId)
        case Some(_) => Ok((st, AlreadyEnrolled(None)))
        case None =>
          var e := NewEnrollment(st.nextEnrollmentId, memberId, courseId, None, Some(caller.id));
          var (st', id) := CreateEnrollment(st, e);
          assert st'.enrollments[..|st.enrollments|] == st.enrollments;
          Ok((st', Created(id)))
  }

  /** The supervisor endpoints' guard: 403 unless the caller has the
      Supervisor role and `memberId` is in their team. */
  function SupervisorGuard(st: Store, caller: User, memberId: int): (r: Result<()>)
    ensures r.Ok? <==> caller.role == Supervisor && memberId in Crud.TeamForSupervisor(st, caller.id)
    ensures r.Err? ==> r.error == Forbidden
  {
    if caller.role != Supervisor then Err(Forbidden)
    else if memberId !in Crud.TeamForSupervisor(st, caller.id) then Err(Forbidden)
    else Ok(())
  }

  /** `supervisor_assign_course`: the supervisor guard, then 404 for an
      unknown member or course; an existing enrollment is reported by id,
      otherwise a not-started one due `expiry_days` from today is created. */
  function SupervisorAssignCourse(st: Store, caller: User, memberId: int, courseId: int, today: int): (r: Result<(Store, CreateReply)>)
    ensures SupervisorGuard(st, caller, memberId).Err? ==> r == Err(Forbidden)
    ensures r.Ok? <==> SupervisorGuard(st, caller, memberId).Ok? && FindCourse(st.courses, courseId).Some?
    ensures r.Ok? && EnrollmentIndex(st.enrollments, memberId, courseId).Some? ==>
      var i := EnrollmentIndex(st.enrollments, memberId, courseId).value;
      r.value == (st, AlreadyEnrolled(Some(st.enrollments[i].id)))
    ensures r.Ok? && EnrollmentIndex(st.enrollments, memberId, courseId).None? ==>
      && r.value.1 == Created(st.nextEnrollmentId)
      && |r.value.0.enrollments| == |st.enrollments| + 1
      && r.value.0.enrollments[..|st.enrollments|] == st.enrollments
      && var e := r.value.0.enrollments[|st.enrollments|];
      && e.userId == memberId && e.courseId == courseId && e.status == NotStarted && e.progress == 0
      && e.assignedBy == Some(caller.id)
      && e.dueDate == Some(today + FindCourse(st.courses, courseId).value.expiryDays)
    ensures r.Ok? ==> EnrollmentIndex(r.value.0.enrollments, memberId, courseId).Some?
    ensures r.Ok? ==> r.value.0 == st.(enrollments := r.value.0.enrollments, nextEnrollmentId := r.value.0.nextEnrollmentId)
    ensures r.Ok? && UniqueEnrollments(st.enrollments) ==> UniqueEnrollments(r.value.0.enrollments)
  {
    match SupervisorGuard(st, caller, memberId)
    case Err(err) => Err(err)
    case Ok(_) =>
      if memberId !in st.users then Err(NotFound)
      else match FindCourse(st.courses, courseId)
        case None => Err(NotFound)
        case Some(course) =>
          match EnrollmentIndex(st.enrollments, memberId, courseId)
          case Some(i) => Ok((st, AlreadyEnrolled(Some(st.enrollments[i].id))))
          case None =>
            var e := NewEnrollment(st.nextEnrollmentId, memberId, courseId, Some(today + course.expiryDays), Some(caller.id));
            var (st', id) := CreateEnrollment(st, e);
            assert st'.enrollments[..|st.enrollments|] == st.enrollments;
            Ok((st', Created(id)))
  }

  /** `get_supervisor_member_enrollments`: the guard, then every enrollment
      of the member in row order. */
  function SupervisorMemberEnrollments(st: Store, caller: User, memberId: int): (r: Result<seq<Enrollment>>)
    ensures r.Ok? <==> SupervisorGuard(st, caller, memberId).Ok?
    ensures r.Err? ==> r.error == Forbidden
    ensures r.Ok? ==> forall e :: e in r.value <==> e in st.enrollments && e.userId == memberId
    ensures r.Ok? ==> Seqs.IsSubsequence(r.value, st.enrollments)
  {
    match SupervisorGuard(st, caller, memberId)
    case Err(err) => Err(err)
    case Ok(_) =>
      Seqs.FilterIsSubsequence(st.enrollments, (e: Enrollment) => e.userId == memberId);
      Ok(Seqs.Filter(st.enrollments, (e: Enrollment) => e.userId == memberId))
  }

  /** `supervisor_remove_course`: 403 for a non-supervisor, 404 for an
      unknown enrollment id, 403 when its owner is not in the caller's team;
      otherwise exactly that row is deleted. */
  function SupervisorRemoveCourse(st: Store, caller: User, enrollmentId: int): (r: Result<Store>)
    ensures caller.role != Supervisor ==> r == Err(Forbidden)
    ensures caller.role == Supervisor && EnrollmentIndexById(st.enrollments, enrollmentId).None? ==> r == Err(NotFound)
    ensures r.Ok? <==>
      && caller.role == Supervisor
      && EnrollmentIndexById(st.enrollments, enrollmentId).Some?
      && st.enrollments[EnrollmentIndexById(st.enrollments, enrollmentId).value].userId in Crud.TeamForSupervisor(st, caller.id)
    ensures r.Ok? ==>
      var i := EnrollmentIndexById(st.enrollments, enrollmentId).value;
      && r.value.enrollments == st.enrollments[..i] + st.enrollments[i + 1..]
      && r.value == st.(enrollments := r.value.enrollments)
    ensures r.Ok? && UniqueEnrollments(st.enrollments) ==> UniqueEnrollments(r.value.enrollments)
  {
    if caller.role != Supervisor then Err(Forbidden)
    else match EnrollmentIndexById(st.enrollments, enrollmentId)
      case None => Err(NotFound)
      case Some(i) =>
        if st.enrollments[i].userId !in Crud.TeamForSupervisor(st, caller.id) then Err(Forbidden)
        else
          var rest := st.enrollments[..i] + st.enrollments[i + 1..];
          assert forall j :: 0 <= j < i ==> rest[j] == st.enrollments[j];
          assert forall j :: i <= j < |rest| ==> rest[j] == st.enrollments[j + 1];
          Ok(st.(enrollments := rest))
  }
}
