/** The enrollment lifecycle of back_end/main.py: reporting progress
    (`update_progress`), forcing completion (`mark_course_complete`), and the
    certificate either of them issues on completion.

    `today` is the current day.  A missing course behind an enrollment makes
    the source fail with an attribute error before it commits; the model
    answers `InternalError` and leaves the store as it was. */
module Lifecycle {
  import opened Wrappers
  import opened Models
  import opened Db

  /** What `update_progress` answers besides the new store. */
  datatype ProgressReply = ProgressReply(progress: int, status: EnrollmentStatus)

  /** `int(payload.get("progress", 0))`: an absent field reads as 0. */
  function PayloadProgress(payload: Option<int>): (n: int)
    ensures payload.None? ==> n == 0
    ensures payload.Some? ==> n == payload.value
  {
    payload.GetOr(0)
  }

  /** `enrollment.score or 100.0`: a missing or zero score counts as 100. */
  function CertificateScore(score: Option<real>): (s: real)
    ensures score.Some? && score.value != 0.0 ==> s == score.value
    ensures score.None? || score.value == 0.0 ==> s == 100.0
  {
    if score.Some? && score.value != 0.0 then score.value else 100.0
  }

  /** The status and progress step of `update_progress` on one enrollment:
      progress is merged with `max` (never lowered, never clamped),
      not-started moves to in-progress on a positive report, and reaching
      100 completes, stamping the completion day. */
  function Advance(e: Enrollment, p: int, today: int): (e': Enrollment)
    ensures e'.progress >= e.progress && e'.progress >= p
    ensures e'.progress == e.progress || e'.progress == p
    ensures e'.progress >= 100 ==> e'.status == Completed
    ensures e.status == Completed ==> e'.status == Completed
    ensures e'.status == InProgress ==> e.status == InProgress || (e.status == NotStarted && p > 0)
    ensures e'.status == NotStarted ==> e.status == NotStarted && p <= 0
    ensures e'.status == Overdue ==> e.status == Overdue
    ensures e.status == NotStarted && p > 0 && e'.progress < 100 ==> e'.status == InProgress
    ensures e'.progress < 100 ==> e'.status == e.status || (e.status == NotStarted && p > 0)
    ensures e'.completedDate != e.completedDate ==> e.status != Completed && e'.status == Completed && e'.completedDate == Some(today)
    ensures e.status != Completed && e'.status == Completed ==> e'.completedDate == Some(today)
    ensures e.status == Completed ==> e'.completedDate == e.completedDate
    ensures e'.id == e.id && e'.userId == e.userId && e'.courseId == e.courseId
    ensures e'.score == e.score && e'.dueDate == e.dueDate && e'.assignedBy == e.assignedBy
  {
    var status := if e.status == NotStarted && p > 0 then InProgress else e.status;
    var progress := if e.progress >= p then e.progress else p;
    if progress >= 100 && status != Completed then
      e.(status := Completed, progress := progress, completedDate := Some(today))
    else
      e.(status := status, progress := progress)
  }

  /** Advancing by a report no larger than the stored progress only ever
      changes the status: the stored progress is kept. */
  lemma AdvanceLowerKeepsProgress(e: Enrollment, p: int, today: int)
    requires p <= e.progress
    ensures Advance(e, p, today).progress == e.progress
  {
  }

  /** Reports are absorbed: advancing twice by the same report is advancing once. */
  lemma AdvanceIdempotent(e: Enrollment, p: int, today: int)
    ensures Advance(Advance(e, p, today), p, today) == Advance(e, p, today)
  {
  }

  /** The certificate step: nothing when one exists for (user, course);
      otherwise a new certificate expiring `expiry_days` after today, which
      fails when the course is missing. */
  function IssueCertificate(st: Store, userId: int, courseId: int, score: Option<real>, today: int): (r: Result<Store>)
    ensures HasCertificate(st.certificates, userId, courseId) ==> r == Ok(st)
    ensures r.Err? ==> r.error == InternalError && FindCourse(st.courses, courseId).None?
    ensures !HasCertificate(st.certificates, userId, courseId) && FindCourse(st.courses, courseId).Some? ==> r.Ok?
    ensures r.Ok? ==> HasCertificate(r.value.certificates, userId, courseId)
    ensures r.Ok? && r.value != st ==>
      && !HasCertificate(st.certificates, userId, courseId)
      && FindCourse(st.courses, courseId).Some?
      && |r.value.certificates| == |st.certificates| + 1
      && r.value.certificates[..|st.certificates|] == st.certificates
      && var c := r.value.certificates[|st.certificates|];
      && c.userId == userId && c.courseId == courseId
      && c.certificateNo == st.nextCertificateNo
      && c.expiryDate == today + FindCourse(st.courses, courseId).value.expiryDays
      && c.score == CertificateScore(score)
      && r.value == st.(certificates := r.value.certificates,
                        nextCertificateId := st.nextCertificateId + 1,
                        nextCertificateNo := st.nextCertificateNo + 1)
    ensures r.Ok? && UniqueCertificates(st.certificates, st.nextCertificateNo) ==>
      UniqueCertificates(r.value.certificates, r.value.nextCertificateNo)
  {
    if HasCertificate(st.certificates, userId, courseId) then Ok(st)
    else match FindCourse(st.courses, courseId)
      case None => Err(InternalError)
      case Some(course) =>
        var cert := Certificate(st.nextCertificateId, st.nextCertificateNo, userId, courseId,
                                today + course.expiryDays, CertificateScore(score));
        var certs := st.certificates + [cert];
        assert certs[|st.certificates|] == cert;
        assert certs[..|st.certificates|] == st.certificates;
        Ok(st.(certificates := certs,
               nextCertificateId := st.nextCertificateId + 1,
               nextCertificateNo := st.nextCertificateNo + 1))
  }

  /** `update_progress` for the user's enrollment in `courseId`: 404 when the
      user has none; otherwise the enrollment advances (see `Advance`), and
      when this report completes it, a certificate is issued unless one
      exists. Nothing but that enrollment and the certificates changes. */
  function UpdateProgress(st: Store, user: User, courseId: int, payload: Option<int>, today: int): (r: Result<(Store, ProgressReply)>)
    ensures r == Err(NotFound) <==> EnrollmentIndex(st.enrollments, user.id, courseId).None?
    ensures (&& EnrollmentIndex(st.enrollments, user.id, courseId).Some?
             && (FindCourse(st.courses, courseId).Some? || HasCertificate(st.certificates, user.id, courseId)))
            ==> r.Ok?
    ensures r.Err? ==> r.error == NotFound || (r.error == InternalError && FindCourse(st.courses, courseId).None?)
    ensures r.Ok? ==>
      var i := EnrollmentIndex(st.enrollments, user.id, courseId).value;
      var e := st.enrollments[i];
      var st' := r.value.0;
      var e' := Advance(e, PayloadProgress(payload), today);
      && |st'.enrollments| == |st.enrollments|
      && st'.enrollments == st.enrollments[i := e']
      && r.value.1 == ProgressReply(e'.progress, e'.status)
      && st'.users == st.users && st'.courses == st.courses && st'.pairs == st.pairs
      && st'.nextEnrollmentId == st.nextEnrollmentId && st'.nextPairId == st.nextPairId
      && (e.status != Completed && e'.status == Completed ==> HasCertificate(st'.certificates, user.id, courseId))
      && (st'.certificates != st.certificates ==>
            e.status != Completed && e'.status == Completed && !HasCertificate(st.certificates, user.id, courseId))
      && (forall k :: 0 <= k < |st.certificates| ==> k < |st'.certificates| && st'.certificates[k] == st.certificates[k])
      && (UniqueCertificates(st.certificates, st.nextCertificateNo) ==> UniqueCertificates(st'.certificates, st'.nextCertificateNo))
      && (e.status != Completed && e'.status == Completed ==>
            IssueCertificate(st.(enrollments := st'.enrollments), user.id, courseId, e.score, today) == Ok(st'))
      && (!(e.status != Completed && e'.status == Completed) ==>
            && st'.certificates == st.certificates
            && st'.nextCertificateId == st.nextCertificateId
            && st'.nextCertificateNo == st.nextCertificateNo)
  {
    match EnrollmentIndex(st.enrollments, user.id, courseId)
    case None => Err(NotFound)
    case Some(i) =>
      var e := st.enrollments[i];
      var e' := Advance(e, PayloadProgress(payload), today);
      var st1 := st.(enrollments := st.enrollments[i := e']);
      var reply := ProgressReply(e'.progress, e'.status);
      if e.status != Completed && e'.status == Completed then
        match IssueCertificate(st1, user.id, courseId, e.score, today)
        case Err(err) => Err(err)
        case Ok(st2) => Ok((st2, reply))
      else
        Ok((st1, reply))
  }

  /** `mark_course_complete`: 404 (and no change) without an enrollment;
      otherwise the enrollment is completed at exactly 100 whatever it was
      before, and a certificate exists afterwards. */
  function MarkCourseComplete(st: Store, user: User, courseId: int, today: int): (r: Result<Store>)
    ensures r == Err(NotFound) <==> EnrollmentIndex(st.enrollments, user.id, courseId).None?
    ensures (&& EnrollmentIndex(st.enrollments, user.id, courseId).Some?
             && (FindCourse(st.courses, courseId).Some? || HasCertificate(st.certificates, user.id, courseId)))
            ==> r.Ok?
    ensures r.Err? ==> r.error == NotFound || (r.error == InternalError && FindCourse(st.courses, courseId).None?)
    ensures r.Ok? ==>
      var i := EnrollmentIndex(st.enrollments, user.id, courseId).value;
      var e := st.enrollments[i];
      && |r.value.enrollments| == |st.enrollments|
      && var e' := r.value.enrollments[i];
      && (forall j :: 0 <= j < |st.enrollments| && j != i ==> r.value.enrollments[j] == st.enrollments[j])
      && e'.status == Completed && e'.progress == 100 && e'.completedDate == Some(today)
      && e'.id == e.id && e'.userId == e.userId && e'.courseId == e.courseId && e'.score == e.score
      && e'.dueDate == e.dueDate && e'.assignedBy == e.assignedBy
      && HasCertificate(r.value.certificates, user.id, courseId)
      && (r.value.certificates == st.certificates ==>
            r.value.nextCertificateId == st.nextCertificateId && r.value.nextCertificateNo == st.nextCertificateNo)
      && r.value.users == st.users && r.value.courses == st.courses && r.value.pairs == st.pairs
      && r.value.nextEnrollmentId == st.nextEnrollmentId && r.value.nextPairId == st.nextPairId
      && (forall k :: 0 <= k < |st.certificates| ==> k < |r.value.certificates| && r.value.certificates[k] == st.certificates[k])
      && (r.value.certificates != st.certificates ==> !HasCertificate(st.certificates, user.id, courseId))
      && (UniqueCertificates(st.certificates, st.nextCertificateNo) ==> UniqueCertificates(r.value.certificates, r.value.nextCertificateNo))
      && IssueCertificate(st.(enrollments := r.value.enrollments), user.id, courseId, e.score, today) == r
  {
    match EnrollmentIndex(st.enrollments, user.id, courseId)
    case None => Err(NotFound)
    case Some(i) =>
      var e := st.enrollments[i];
      var e' := e.(status := Completed, progress := 100, completedDate := Some(today));
      IssueCertificate(st.(enrollments := st.enrollments[i := e']), user.id, courseId, e.score, today)
  }

  /** Reporting any progress on a completed enrollment keeps it completed and
      issues nothing. */
  lemma UpdateProgressAfterCompletion(st: Store, user: User, courseId: int, payload: Option<int>, today: int)
    requires EnrollmentIndex(st.enrollments, user.id, courseId).Some?
    requires st.enrollments[EnrollmentIndex(st.enrollments, user.id, courseId).value].status == Completed
    ensures var r := UpdateProgress(st, user, courseId, payload, today);
      r.Ok? && r.value.1.status == Completed && r.value.0.certificates == st.certificates
  {
  }

  /** Once completed, forcing completion again re-stamps the day and resets
      progress to 100 but issues no second certificate. */
  lemma MarkCompleteTwice(st: Store, user: User, courseId: int, today: int, later: int)
    requires MarkCourseComplete(st, user, courseId, today).Ok?
    ensures var st1 := MarkCourseComplete(st, user, courseId, today).value;
      var r := MarkCourseComplete(st1, user, courseId, later);
      r.Ok? && r.value.certificates == st1.certificates
  {
    var st1 := MarkCourseComplete(st, user, courseId, today).value;
    var i := EnrollmentIndex(st.enrollments, user.id, courseId).value;
    SameKeysSameIndex(st.enrollments, st1.enrollments, user.id, courseId);
  }

  /** The (user, course) lookup only looks at user and course ids. */
  lemma {:induction false} SameKeysSameIndex(a: seq<Enrollment>, b: seq<Enrollment>, userId: int, courseId: int)
    requires |a| == |b|
    requires forall j :: 0 <= j < |a| ==> a[j].userId == b[j].userId && a[j].courseId == b[j].courseId
    ensures EnrollmentIndex(a, userId, courseId) == EnrollmentIndex(b, userId, courseId)
  {
    if a != [] {
      SameKeysSameIndex(a[1..], b[1..], userId, courseId);
    }
  }
}
