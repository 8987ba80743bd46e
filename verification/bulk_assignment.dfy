/** The admin's bulk course assignment page
    (frontend/src/pages/BulkCourseAssignment.js): every loaded user is
    assigned except those explicitly excluded; the search only narrows
    what is displayed. */
module BulkAssignment {
  import Seqs
  import Client

  /** The page's form state: the selected course (`""` for none), the
      excluded user ids and the search term. */
  datatype Form = Form(course: string, excluded: set<int>, search: string)

  /** `toggleUserExclusion`: flips the membership of one id. */
  function Toggle(excluded: set<int>, userId: int): (r: set<int>)
    ensures userId in r <==> userId !in excluded
    ensures forall k :: k != userId ==> (k in r <==> k in excluded)
  {
    if userId in excluded then excluded - {userId} else excluded + {userId}
  }

  /** Toggling twice restores the exclusions. */
  lemma ToggleInvolution(excluded: set<int>, userId: int)
    ensures Toggle(Toggle(excluded, userId), userId) == excluded
  {
  }

  /** `filteredUsers`. */
  function FilteredUsers(users: seq<Client.User>, search: string): (r: seq<Client.User>)
    ensures forall u :: u in r <==> u in users && Client.MatchesUserSearch(u, search)
    ensures Seqs.IsSubsequence(r, users)
  {
    var keep := (u: Client.User) => Client.MatchesUserSearch(u, search);
    Seqs.FilterIsSubsequence(users, keep);
    Seqs.Filter(users, keep)
  }

  /** `selectedUsers`: the filtered users not excluded. */
  function Selected(filtered: seq<Client.User>, excluded: set<int>): (r: seq<Client.User>)
    ensures forall u :: u in r <==> u in filtered && u.id !in excluded
  {
    Seqs.Filter(filtered, (u: Client.User) => u.id !in excluded)
  }

  /** `excludedUsers`: the filtered users excluded. */
  function Excluded(filtered: seq<Client.User>, excluded: set<int>): (r: seq<Client.User>)
    ensures forall u :: u in r <==> u in filtered && u.id in excluded
  {
    Seqs.Filter(filtered, (u: Client.User) => u.id in excluded)
  }

  /** The two lists split the filtered users: each user is in exactly one,
      and the lengths add up. */
  lemma SelectedExcludedPartition(filtered: seq<Client.User>, excluded: set<int>)
    ensures |Selected(filtered, excluded)| + |Excluded(filtered, excluded)| == |filtered|
    ensures forall u :: u in filtered ==> (u in Selected(filtered, excluded) <==> u !in Excluded(filtered, excluded))
  {
    Seqs.FilterPartition(filtered, (u: Client.User) => u.id !in excluded, (u: Client.User) => u.id in excluded);
  }

  /** `userIdsToAssign`: the ids of all loaded users not excluded, in order.
      The search term plays no part. */
  function IdsToAssign(users: seq<Client.User>, excluded: set<int>): (r: seq<int>)
    ensures |r| <= |users|
    ensures forall k :: k in r <==> k !in excluded && exists i :: 0 <= i < |users| && users[i].id == k
  {
    if users == [] then []
    else
      var rest := IdsToAssign(users[1..], excluded);
      assert forall i :: 1 <= i < |users| ==> users[i] == users[1..][i - 1];
      assert forall i :: 0 <= i < |users[1..]| ==> users[1..][i] == users[i + 1];
      (if users[0].id !in excluded then [users[0].id] else []) + rest
  }

  predicate UniqueIds(users: seq<Client.User>) {
    forall i, j :: 0 <= i < j < |users| ==> users[i].id != users[j].id
  }

  function IdSet(users: seq<Client.User>): set<int> {
    set i | 0 <= i < |users| :: users[i].id
  }

  lemma IdSetCons(users: seq<Client.User>)
    requires users != []
    ensures IdSet(users) == {users[0].id} + IdSet(users[1..])
    ensures UniqueIds(users) ==> UniqueIds(users[1..]) && users[0].id !in IdSet(users[1..])
  {
    var rest := users[1..];
    assert forall i :: 1 <= i < |users| ==> users[i] == rest[i - 1];
    assert forall i :: 0 <= i < |rest| ==> rest[i] == users[i + 1];
  }

  lemma {:induction false} AssignedPlusExcluded(users: seq<Client.User>, excluded: set<int>)
    requires UniqueIds(users)
    ensures |IdsToAssign(users, excluded)| + |excluded * IdSet(users)| == |users|
  {
    if users != [] {
      var h, rest := users[0], users[1..];
      IdSetCons(users);
      AssignedPlusExcluded(rest, excluded);
      if h.id in excluded {
        assert excluded * IdSet(users) == (excluded * IdSet(rest)) + {h.id};
      } else {
        assert excluded * IdSet(users) == excluded * IdSet(rest);
      }
    }
  }

  /** The "To be assigned" figure, `allUsers.length - excludedUserIds.size`,
      is the number of ids sent, given distinct user ids and exclusions
      drawn from the loaded users. */
  lemma DisplayedCountMatches(users: seq<Client.User>, excluded: set<int>)
    requires UniqueIds(users)
    requires excluded <= IdSet(users)
    ensures |users| - |excluded| == |IdsToAssign(users, excluded)|
  {
    AssignedPlusExcluded(users, excluded);
    assert excluded * IdSet(users) == excluded;
  }

  /** What pressing "Assign" does. */
  datatype Outcome = NoCourse | NoUsers | Assign(course: string, userIds: seq<int>)

  /** `handleBulkAssign`: no request without a course or without users to
      assign; otherwise one request with the ids to assign. */
  function HandleBulkAssign(form: Form, users: seq<Client.User>): (o: Outcome)
    ensures o == NoCourse <==> form.course == ""
    ensures o == NoUsers <==> form.course != "" && IdsToAssign(users, form.excluded) == []
    ensures o.Assign? ==> o.course == form.course && o.userIds == IdsToAssign(users, form.excluded) && o.userIds != []
  {
    if form.course == "" then NoCourse
    else
      var ids := IdsToAssign(users, form.excluded);
      if ids == [] then NoUsers else Assign(form.course, ids)
  }

  /** The form after a successful assignment or the Reset button. */
  function Reset(form: Form): (r: Form)
    ensures r.course == "" && r.excluded == {} && r.search == ""
  {
    Form("", {}, "")
  }

  /** After a reset every loaded user is shown and would be assigned, but
      nothing is sent until a course is chosen again. */
  lemma AfterReset(form: Form, users: seq<Client.User>)
    ensures FilteredUsers(users, Reset(form).search) == users
    ensures IdsToAssign(users, Reset(form).excluded) == seq(|users|, i requires 0 <= i < |users| => users[i].id)
    ensures HandleBulkAssign(Reset(form), users) == NoCourse
  {
    forall u: Client.User
      ensures Client.MatchesUserSearch(u, "")
    {
      Client.EmptySearchMatches(u);
    }
    Seqs.FilterAll(users, (u: Client.User) => Client.MatchesUserSearch(u, ""));
    AllIds(users);
  }

  lemma {:induction false} AllIds(users: seq<Client.User>)
    ensures IdsToAssign(users, {}) == seq(|users|, i requires 0 <= i < |users| => users[i].id)
  {
    if users != [] {
      AllIds(users[1..]);
    }
  }
}
