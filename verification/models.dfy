/** The persisted entities of the training portal (back_end/models.py):
    the enumerations with their wire values, and one record per table with
    the column defaults a freshly created row gets.

    Timestamps are whole days (`int`); the optional columns are `Option`s. */
module Models {
  import opened Wrappers

  datatype UserRole = Carer | OfficeStaff | Nurse | Supervisor | Admin | Driver

  /** The string each role is stored and sent as. */
  function RoleValue(r: UserRole): string {
    match r
    case Carer => "Carer"
    case OfficeStaff => "Office Staff"
    case Nurse => "Nurse"
    case Supervisor => "Supervisor"
    case Admin => "Admin"
    case Driver => "Driver"
  }

  /** `UserRole(s)`: the role whose value is `s`, if any. */
  function RoleFromValue(s: string): (r: Option<UserRole>)
    ensures r.Some? ==> RoleValue(r.value) == s
    ensures r.None? ==> forall role :: RoleValue(role) != s
  {
    if s == "Carer" then Some(Carer)
    else if s == "Office Staff" then Some(OfficeStaff)
    else if s == "Nurse" then Some(Nurse)
    else if s == "Supervisor" then Some(Supervisor)
    else if s == "Admin" then Some(Admin)
    else if s == "Driver" then Some(Driver)
    else None
  }

  /** Every role survives the trip through its value, so the six values
      are distinct. */
  lemma RoleValueRoundTrip(r: UserRole)
    ensures RoleFromValue(RoleValue(r)) == Some(r)
  {
  }

  /** The manager titles that the team endpoints and the web pages test for
      are not roles a user can have. */
  lemma ManagerTitlesAreNotRoles(r: UserRole)
    ensures RoleValue(r) != "Team Leader"
    ensures RoleValue(r) != "Care Manager"
    ensures RoleValue(r) != "Director"
  {
  }

  datatype CourseCategory = Mandatory | Specialist | Advanced | Optional

  function CategoryValue(c: CourseCategory): string {
    match c
    case Mandatory => "Mandatory"
    case Specialist => "Specialist"
    case Advanced => "Advanced"
    case Optional => "Optional"
  }

  /** Only two ways of delivering a course exist. */
  datatype CourseDeliveryType = Video | LiveSession

  function DeliveryValue(d: CourseDeliveryType): string {
    match d
    case Video => "video"
    case LiveSession => "live_session"
  }

  datatype EnrollmentStatus = NotStarted | InProgress | Completed | Overdue

  /** The hyphenated strings the API sends for each status. */
  function StatusValue(s: EnrollmentStatus): string {
    match s
    case NotStarted => "not-started"
    case InProgress => "in-progress"
    case Completed => "completed"
    case Overdue => "overdue"
  }

  /** `EnrollmentStatus(s)`: exactly the four hyphenated values name a
      status; anything else is rejected. */
  function StatusFromValue(s: string): (r: Option<EnrollmentStatus>)
    ensures r.Some? <==> s in {"not-started", "in-progress", "completed", "overdue"}
    ensures r.Some? ==> StatusValue(r.value) == s
  {
    if s == "not-started" then Some(NotStarted)
    else if s == "in-progress" then Some(InProgress)
    else if s == "completed" then Some(Completed)
    else if s == "overdue" then Some(Overdue)
    else None
  }

  lemma StatusValueRoundTrip(s: EnrollmentStatus)
    ensures StatusFromValue(StatusValue(s)) == Some(s)
  {
  }

  datatype User = User(
    id: int,
    name: string,
    email: string,
    role: UserRole,
    branch: Option<string>,
    managerId: Option<int>,
    lastLogin: Option<int>)

  datatype Course = Course(
    id: int,
    title: string,
    description: string,
    category: CourseCategory,
    modules: int,
    expiryDays: int,
    assignedRoles: seq<string>,
    deliveryType: CourseDeliveryType)

  datatype Enrollment = Enrollment(
    id: int,
    userId: int,
    courseId: int,
    status: EnrollmentStatus,
    progress: int,
    score: Option<real>,
    completedDate: Option<int>,
    dueDate: Option<int>,
    assignedBy: Option<int>)

  /** `certificateNo` stands for the random `certificate_id` string. */
  datatype Certificate = Certificate(
    id: int,
    certificateNo: nat,
    userId: int,
    courseId: int,
    expiryDate: int,
    score: real)

  datatype Notification = Notification(
    id: int,
    userId: int,
    title: string,
    message: string,
    kind: string,
    read: bool)

  /** One row of `assigned_supervisors`. */
  datatype SupervisorPair = SupervisorPair(id: int, supervisorId: int, memberId: int)

  /** A course row created with only its required columns. */
  function NewCourse(id: int, title: string, description: string, category: CourseCategory): (c: Course)
    ensures c.id == id && c.title == title && c.description == description && c.category == category
    ensures c.expiryDays == 365 && c.modules == 1
    ensures c.assignedRoles == [] && c.deliveryType == Video
  {
    Course(id, title, description, category, 1, 365, [], Video)
  }

  /** An enrollment row created without status or progress: it starts
      not-started at 0, and nothing bounds progress to 0..100. */
  function NewEnrollment(id: int, userId: int, courseId: int, dueDate: Option<int>, assignedBy: Option<int>): (e: Enrollment)
    ensures e.id == id && e.userId == userId && e.courseId == courseId
    ensures e.status == NotStarted && e.progress == 0
    ensures e.score.None? && e.completedDate.None?
    ensures e.dueDate == dueDate && e.assignedBy == assignedBy
  {
    Enrollment(id, userId, courseId, NotStarted, 0, None, None, dueDate, assignedBy)
  }

  /** A notification row starts unread. */
  function NewNotification(id: int, userId: int, title: string, message: string, kind: string): (n: Notification)
    ensures n.id == id && n.userId == userId && n.title == title && n.message == message && n.kind == kind
    ensures !n.read
  {
    Notification(id, userId, title, message, kind, false)
  }
}
