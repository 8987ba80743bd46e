/** The course catalogue a user sees (`get_courses` in back_end/main.py):
    the courses open to the user's role plus the courses the user is
    enrolled in, in catalogue order, each course id once. */
module Catalog {
  import opened Models
  import opened Db
  import Seqs

  /** The user has some enrollment in the course. */
  predicate IsEnrolled(es: seq<Enrollment>, userId: int, courseId: int) {
    EnrollmentIndex(es, userId, courseId).Some?
  }

  /** A course is listed when its `assigned_roles` name the user's role or
      the user is enrolled in it. */
  function Visible(st: Store, user: User, c: Course): (b: bool)
    ensures b <==>
      || RoleValue(user.role) in c.assignedRoles
      || exists i :: 0 <= i < |st.enrollments| && st.enrollments[i].userId == user.id && st.enrollments[i].courseId == c.id
  {
    RoleValue(user.role) in c.assignedRoles || IsEnrolled(st.enrollments, user.id, c.id)
  }

  /** The ids of a list of courses. */
  function IdsOf(cs: seq<Course>): (ids: set<int>)
    ensures forall i :: 0 <= i < |cs| ==> cs[i].id in ids
  {
    set i | 0 <= i < |cs| :: cs[i].id
  }

  predicate DistinctIds(cs: seq<Course>) {
    forall i, j :: 0 <= i < j < |cs| ==> cs[i].id != cs[j].id
  }

  /** Appending a course with a new id keeps the ids distinct and adds
      that id. */
  lemma AppendNewId(cs: seq<Course>, c: Course)
    requires DistinctIds(cs) && c.id !in IdsOf(cs)
    ensures DistinctIds(cs + [c])
    ensures IdsOf(cs + [c]) == IdsOf(cs) + {c.id}
  {
    var cs' := cs + [c];
    assert forall i :: 0 <= i < |cs| ==> cs'[i] == cs[i];
    assert cs'[|cs|] == c;
  }

  /** One pass over the catalogue that keeps each visible course whose id
      has not been listed yet. */
  method GetCourses(st: Store, user: User) returns (r: seq<Course>)
    ensures forall i :: 0 <= i < |r| ==> r[i] in st.courses && Visible(st, user, r[i])
    ensures forall i, j :: 0 <= i < j < |r| ==> r[i].id != r[j].id
    ensures forall c :: c in st.courses && Visible(st, user, c) ==> exists i :: 0 <= i < |r| && r[i].id == c.id
    ensures Seqs.IsSubsequence(r, st.courses)
  {
    r := [];
    var seen: set<int> := {};
    var k := 0;
    while k < |st.courses|
      invariant 0 <= k <= |st.courses|
      invariant forall i :: 0 <= i < |r| ==> r[i] in st.courses && Visible(st, user, r[i])
      invariant DistinctIds(r)
      invariant seen == IdsOf(r)
      invariant forall j :: 0 <= j < k && Visible(st, user, st.courses[j]) ==> st.courses[j].id in seen
      invariant Seqs.IsSubsequence(r, st.courses[..k])
    {
      var c := st.courses[k];
      assert st.courses[..k + 1] == st.courses[..k] + [c];
      Seqs.SubsequenceSnoc(r, st.courses[..k], c);
      if Visible(st, user, c) && c.id !in seen {
        AppendNewId(r, c);
        r := r + [c];
        seen := seen + {c.id};
      }
      k := k + 1;
    }
    assert st.courses[..k] == st.courses;
  }
}
