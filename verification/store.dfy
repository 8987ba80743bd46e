/** The database as an in-memory value: one sequence per table in row order,
    users keyed by their primary key, and the counters that hand out fresh
    row ids.  A query's `.first()` is the first matching row. */
module Db {
  import opened Wrappers
  import opened Models

  datatype Store = Store(
    users: map<int, User>,
    courses: seq<Course>,
    enrollments: seq<Enrollment>,
    certificates: seq<Certificate>,
    pairs: seq<SupervisorPair>,
    nextEnrollmentId: int,
    nextCertificateId: int,
    nextCertificateNo: nat,
    nextPairId: int)

  /** `Course.id == courseId`, first match. */
  function FindCourse(courses: seq<Course>, courseId: int): (r: Option<Course>)
    ensures r.Some? ==> r.value in courses && r.value.id == courseId
    ensures r.None? ==> forall i :: 0 <= i < |courses| ==> courses[i].id != courseId
  {
    if courses == [] then None
    else if courses[0].id == courseId then Some(courses[0])
    else FindCourse(courses[1..], courseId)
  }

  /** Position of the first enrollment of `userId` in `courseId`. */
  function EnrollmentIndex(es: seq<Enrollment>, userId: int, courseId: int): (r: Option<nat>)
    ensures r.Some? ==> r.value < |es| && es[r.value].userId == userId && es[r.value].courseId == courseId
    ensures r.Some? ==> forall j :: 0 <= j < r.value ==> !(es[j].userId == userId && es[j].courseId == courseId)
    ensures r.None? <==> forall j :: 0 <= j < |es| ==> !(es[j].userId == userId && es[j].courseId == courseId)
  {
    if es == [] then None
    else if es[0].userId == userId && es[0].courseId == courseId then Some(0)
    else match EnrollmentIndex(es[1..], userId, courseId)
      case None => None
      case Some(i) => Some(i + 1)
  }

  /** Position of the first enrollment whose row id is `id`. */
  function EnrollmentIndexById(es: seq<Enrollment>, id: int): (r: Option<nat>)
    ensures r.Some? ==> r.value < |es| && es[r.value].id == id
    ensures r.Some? ==> forall j :: 0 <= j < r.value ==> es[j].id != id
    ensures r.None? <==> forall j :: 0 <= j < |es| ==> es[j].id != id
  {
    if es == [] then None
    else if es[0].id == id then Some(0)
    else match EnrollmentIndexById(es[1..], id)
      case None => None
      case Some(i) => Some(i + 1)
  }

  predicate HasCertificate(certs: seq<Certificate>, userId: int, courseId: int) {
    exists i :: 0 <= i < |certs| && certs[i].userId == userId && certs[i].courseId == courseId
  }

  /** At most one enrollment per (user, course). */
  ghost predicate UniqueEnrollments(es: seq<Enrollment>) {
    forall i, j :: 0 <= i < j < |es| ==> !(es[i].userId == es[j].userId && es[i].courseId == es[j].courseId)
  }

  /** At most one certificate per (user, course), and distinct certificate
      numbers below the next one to be handed out. */
  ghost predicate UniqueCertificates(certs: seq<Certificate>, nextNo: nat) {
    && (forall i, j :: 0 <= i < j < |certs| ==> !(certs[i].userId == certs[j].userId && certs[i].courseId == certs[j].courseId))
    && (forall i, j :: 0 <= i < j < |certs| ==> certs[i].certificateNo != certs[j].certificateNo)
    && (forall i :: 0 <= i < |certs| ==> certs[i].certificateNo < nextNo)
  }

  /** At most one row per (supervisor, member). */
  ghost predicate UniquePairs(pairs: seq<SupervisorPair>) {
    forall i, j :: 0 <= i < j < |pairs| ==> !(pairs[i].supervisorId == pairs[j].supervisorId && pairs[i].memberId == pairs[j].memberId)
  }

  /** Each user is stored under its own id. */
  ghost predicate UsersKeyed(users: map<int, User>) {
    forall k :: k in users ==> users[k].id == k
  }

  /** The uniqueness guarantees every operation of the model keeps. */
  ghost predicate Valid(st: Store) {
    && UsersKeyed(st.users)
    && UniqueEnrollments(st.enrollments)
    && UniqueCertificates(st.certificates, st.nextCertificateNo)
    && UniquePairs(st.pairs)
  }

  /** Under uniqueness, the first enrollment of a (user, course) is the only one. */
  lemma UniqueEnrollmentIndex(es: seq<Enrollment>, userId: int, courseId: int, j: nat)
    requires UniqueEnrollments(es)
    requires j < |es| && es[j].userId == userId && es[j].courseId == courseId
    ensures EnrollmentIndex(es, userId, courseId) == Some(j)
  {
  }
}
