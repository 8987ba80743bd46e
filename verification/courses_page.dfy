/** The course list page (frontend/src/pages/Courses.js): a search and
    category filter over the catalogue, and status tabs that look up the
    user's enrollment in each course. */
module CoursesPage {
  import opened Wrappers
  import Seqs
  import Text
  import Client
  import Models

  /** `normalizeStatus`: a missing or empty status reads as not started;
      any other status is upper-cased as it is. */
  function NormalizeStatus(status: Option<string>): (r: string)
    ensures status.None? || status.value == "" ==> r == "NOT_STARTED"
    ensures status.Some? && status.value != "" ==> |r| == |status.value|
    ensures status.Some? && status.value != "" ==>
      forall i :: 0 <= i < |r| ==> r[i] == Text.UpperChar(status.value[i])
  {
    if status.None? || status.value == "" then "NOT_STARTED" else Text.Upper(status.value)
  }

  /** Position `i` holds the first enrollment in the course. */
  predicate FirstWithCourse(enrollments: seq<Client.Enrollment>, courseId: int, i: int) {
    && 0 <= i < |enrollments|
    && enrollments[i].courseId == courseId
    && forall j :: 0 <= j < i ==> enrollments[j].courseId != courseId
  }

  /** `getEnrollment`: the first enrollment in the course, if any. */
  function GetEnrollment(enrollments: seq<Client.Enrollment>, courseId: int): (r: Option<Client.Enrollment>)
    ensures r.None? <==> forall i :: 0 <= i < |enrollments| ==> enrollments[i].courseId != courseId
    ensures r.Some? ==> r.value.courseId == courseId && exists i :: FirstWithCourse(enrollments, courseId, i) && enrollments[i] == r.value
  {
    match Seqs.FindIndex(enrollments, (e: Client.Enrollment) => e.courseId == courseId)
    case None => None
    case Some(i) => Some(enrollments[i])
  }

  /** The search box matches the title or the description, ignoring case. */
  predicate MatchesSearch(c: Client.Course, query: string) {
    var q := Text.Lower(query);
    Text.Contains(Text.Lower(c.title), q) || Text.Contains(Text.Lower(c.description), q)
  }

  /** The category badges: "all", or the course's category ignoring case. */
  predicate MatchesCategory(c: Client.Course, selected: string) {
    selected == "all" || Text.Lower(c.category) == Text.Lower(selected)
  }

  /** `filteredCourses`. */
  function FilteredCourses(courses: seq<Client.Course>, query: string, selected: string): (r: seq<Client.Course>)
    ensures forall c :: c in r <==> c in courses && MatchesSearch(c, query) && MatchesCategory(c, selected)
    ensures Seqs.IsSubsequence(r, courses)
  {
    var keep := (c: Client.Course) => MatchesSearch(c, query) && MatchesCategory(c, selected);
    Seqs.FilterIsSubsequence(courses, keep);
    Seqs.Filter(courses, keep)
  }

  /** With an empty search and the "all" category nothing is filtered out. */
  lemma NoFilterKeepsAll(courses: seq<Client.Course>)
    ensures FilteredCourses(courses, "", "all") == courses
  {
    assert Text.Lower("") == "";
    forall c: Client.Course
      ensures MatchesSearch(c, "")
    {
      Text.ContainsEmpty(Text.Lower(c.title));
    }
    Seqs.FilterAll(courses, (c: Client.Course) => MatchesSearch(c, "") && MatchesCategory(c, "all"));
  }

  /** The normalised status of the user's enrollment in a course. */
  function CourseState(enrollments: seq<Client.Enrollment>, courseId: int): string {
    var e := GetEnrollment(enrollments, courseId);
    NormalizeStatus(if e.Some? then Some(e.value.status) else None)
  }

  /** The `switch` inside `getFilteredByStatus`. */
  predicate InTab(tab: string, state: string) {
    if tab == "IN_PROGRESS" then state == "IN_PROGRESS"
    else if tab == "COMPLETED" then state == "COMPLETED"
    else if tab == "NOT_STARTED" then state == "NOT_STARTED"
    else true
  }

  /** `getFilteredByStatus(tab)` over the already filtered courses. */
  function FilteredByStatus(filtered: seq<Client.Course>, enrollments: seq<Client.Enrollment>, tab: string): (r: seq<Client.Course>)
    ensures forall c :: c in r <==> c in filtered && InTab(tab, CourseState(enrollments, c.id))
    ensures Seqs.IsSubsequence(r, filtered)
  {
    var keep := (c: Client.Course) => InTab(tab, CourseState(enrollments, c.id));
    Seqs.FilterIsSubsequence(filtered, keep);
    Seqs.Filter(filtered, keep)
  }

  /** A key other than the three tab names keeps every filtered course. */
  lemma OtherTabKeepsAll(filtered: seq<Client.Course>, enrollments: seq<Client.Enrollment>, tab: string)
    requires tab != "IN_PROGRESS" && tab != "COMPLETED" && tab != "NOT_STARTED"
    ensures FilteredByStatus(filtered, enrollments, tab) == filtered
  {
    Seqs.FilterAll(filtered, (c: Client.Course) => InTab(tab, CourseState(enrollments, c.id)));
  }

  /** No course is in two of the three status tabs. */
  lemma TabsDisjoint(filtered: seq<Client.Course>, enrollments: seq<Client.Enrollment>, c: Client.Course)
    ensures c in FilteredByStatus(filtered, enrollments, "IN_PROGRESS") ==>
      c !in FilteredByStatus(filtered, enrollments, "COMPLETED") && c !in FilteredByStatus(filtered, enrollments, "NOT_STARTED")
    ensures c in FilteredByStatus(filtered, enrollments, "COMPLETED") ==>
      c !in FilteredByStatus(filtered, enrollments, "NOT_STARTED")
  {
  }

  /** The server's hyphenated statuses upper-case to hyphenated strings,
      never to the tab names with underscores: an in-progress or
      not-started enrollment lands in neither of those two tabs. */
  lemma HyphenatedStatusMissesTabs(s: Models.EnrollmentStatus)
    requires s == Models.InProgress || s == Models.NotStarted
    ensures var state := NormalizeStatus(Some(Models.StatusValue(s)));
      state != "IN_PROGRESS" && state != "NOT_STARTED" && state != "COMPLETED"
  {
    var v := Models.StatusValue(s);
    var state := NormalizeStatus(Some(v));
    assert v[2] == '-' || v[3] == '-';
    assert state[2] == Text.UpperChar(v[2]) && state[3] == Text.UpperChar(v[3]);
    assert "IN_PROGRESS"[2] == '_' && "NOT_STARTED"[3] == '_';
  }

  /** A completed enrollment does reach the COMPLETED tab. */
  lemma CompletedStatusHitsTab()
    ensures NormalizeStatus(Some(Models.StatusValue(Models.Completed))) == "COMPLETED"
  {
    var state := NormalizeStatus(Some("completed"));
    assert |state| == 9;
    assert forall i :: 0 <= i < 9 ==> state[i] == "COMPLETED"[i];
  }

  /** When every enrollment carries one of the server's status values, the
      NOT_STARTED tab holds exactly the courses without an enrollment. */
  lemma NotStartedMeansUnenrolled(filtered: seq<Client.Course>, enrollments: seq<Client.Enrollment>, c: Client.Course)
    requires forall i :: 0 <= i < |enrollments| ==> Models.StatusFromValue(enrollments[i].status).Some?
    requires c in filtered
    ensures c in FilteredByStatus(filtered, enrollments, "NOT_STARTED") <==> GetEnrollment(enrollments, c.id).None?
  {
    var e := GetEnrollment(enrollments, c.id);
    if e.Some? {
      var s := Models.StatusFromValue(e.value.status).value;
      assert Models.StatusValue(s) == e.value.status;
      if s == Models.InProgress || s == Models.NotStarted {
        HyphenatedStatusMissesTabs(s);
      } else if s == Models.Completed {
        CompletedStatusHitsTab();
      } else {
        var state := NormalizeStatus(Some("overdue"));
        assert |state| != |"NOT_STARTED"|;
      }
    }
  }
}
