/** The "continue learning" list of the learner dashboard
    (frontend/src/pages/Dashboard.js): up to three started, unfinished
    enrollments, each shown with its course. */
module Dashboard {
  import opened Wrappers
  import Seqs
  import Client

  /** An enrollment is listed when it is in progress, or has some progress
      and is not completed. */
  function Active(e: Client.Enrollment): (b: bool)
    ensures b ==> e.status != "completed"
    ensures e.status == "in-progress" ==> b
    ensures e.status != "in-progress" ==> (b <==> e.progress > 0 && e.status != "completed")
  {
    e.status == "in-progress" || (e.progress > 0 && e.status != "completed")
  }

  /** `{ ...course, enrollment }`: the course may be missing, in which case
      only the enrollment is shown. */
  datatype Item = Item(course: Option<Client.Course>, enrollment: Client.Enrollment)

  /** The first course with the enrollment's course id. */
  function CourseFor(courses: seq<Client.Course>, e: Client.Enrollment): (r: Option<Client.Course>)
    ensures r.Some? ==> r.value in courses && r.value.id == e.courseId
    ensures r.None? <==> forall i :: 0 <= i < |courses| ==> courses[i].id != e.courseId
  {
    Seqs.Find(courses, (c: Client.Course) => c.id == e.courseId)
  }

  /** `activeCoursesList`. */
  function ActiveCourses(courses: seq<Client.Course>, enrollments: seq<Client.Enrollment>): (r: seq<Item>)
    ensures |r| <= 3
    ensures forall i :: 0 <= i < |r| ==> r[i].enrollment in enrollments && Active(r[i].enrollment)
    ensures forall i :: 0 <= i < |r| ==> r[i].enrollment.status != "completed"
    ensures forall i :: 0 <= i < |r| ==> r[i].course == CourseFor(courses, r[i].enrollment)
    ensures var active := Seqs.Filter(enrollments, Active);
      |r| == (if |active| < 3 then |active| else 3)
      && forall i :: 0 <= i < |r| ==> r[i].enrollment == active[i]
  {
    var active := Seqs.Filter(enrollments, Active);
    var first := if |active| < 3 then active else active[..3];
    assert forall i :: 0 <= i < |first| ==> first[i] in active;
    seq(|first|, i requires 0 <= i < |first| => Item(CourseFor(courses, first[i]), first[i]))
  }

  /** The list is a prefix of the active enrollments, so an enrollment is
      left out only when three earlier ones are listed. */
  lemma ActiveLeftOutOnlyWhenFull(courses: seq<Client.Course>, enrollments: seq<Client.Enrollment>, e: Client.Enrollment)
    requires e in enrollments && Active(e)
    requires forall i :: 0 <= i < |ActiveCourses(courses, enrollments)| ==> ActiveCourses(courses, enrollments)[i].enrollment != e
    ensures |ActiveCourses(courses, enrollments)| == 3
  {
    var active := Seqs.Filter(enrollments, Active);
    assert e in active;
    var k :| 0 <= k < |active| && active[k] == e;
  }
}
