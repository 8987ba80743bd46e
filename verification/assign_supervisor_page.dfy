/** The admin's "assign supervisor" page
    (frontend/src/pages/AssignSupervisor.js): the loaded users are split
    into supervisors and assignable members by their normalised role, and
    the form only submits with both choices made. */
module AssignSupervisorPage {
  import opened Wrappers
  import Text
  import Seqs
  import Models
  import Client
  import Db
  import AdminApi
  import Crud

  /** `role.trim().toLowerCase()`. */
  function NormalizeRole(role: string): (r: string)
    ensures forall i :: 0 <= i < |r| ==> !Text.IsUpperAscii(r[i])
    ensures r == [] || (!Text.IsWhitespace(r[0]) && !Text.IsWhitespace(r[|r| - 1]))
    ensures |r| <= |role|
  {
    Text.Lower(Text.Trim(role))
  }

  /** A normalised role is its own normal form. */
  lemma NormalizeIdempotent(role: string)
    ensures NormalizeRole(NormalizeRole(role)) == NormalizeRole(role)
  {
    var r := NormalizeRole(role);
    Text.TrimUntouched(r);
    Text.LowerIdempotent(Text.Trim(role));
  }

  /** Every user with the role normalised, in the order loaded. */
  function Normalized(users: seq<Client.User>): (r: seq<Client.User>)
    ensures |r| == |users|
    ensures forall i :: 0 <= i < |r| ==> r[i] == users[i].(role := NormalizeRole(users[i].role))
  {
    seq(|users|, i requires 0 <= i < |users| => users[i].(role := NormalizeRole(users[i].role)))
  }

  /** The titles the page treats as supervisors. */
  predicate IsSupervisorTitle(role: string) {
    role == "team leader" || role == "care manager"
  }

  /** `supervisors`: the normalised users with a supervisor title. */
  function Supervisors(users: seq<Client.User>): (r: seq<Client.User>)
    ensures forall u :: u in r <==> u in Normalized(users) && IsSupervisorTitle(u.role)
  {
    Seqs.Filter(Normalized(users), (u: Client.User) => IsSupervisorTitle(u.role))
  }

  /** `members`: the normalised users that are neither supervisors nor
      `admin`. */
  function Members(users: seq<Client.User>): (r: seq<Client.User>)
    ensures forall u :: u in r <==> u in Normalized(users) && !IsSupervisorTitle(u.role) && u.role != "admin"
  {
    Seqs.Filter(Normalized(users), (u: Client.User) => !IsSupervisorTitle(u.role) && u.role != "admin")
  }

  /** No user is offered on both sides, and every user but an admin is
      offered on one. */
  lemma SupervisorsMembersSplit(users: seq<Client.User>)
    ensures forall u :: u in Supervisors(users) ==> u !in Members(users)
    ensures forall i :: 0 <= i < |users| ==>
      var n := Normalized(users)[i];
      n in Supervisors(users) || n in Members(users) || n.role == "admin"
  {
    var ns := Normalized(users);
    forall i | 0 <= i < |users|
      ensures var n := ns[i]; n in Supervisors(users) || n in Members(users) || n.role == "admin"
    {
      assert ns[i] in ns;
    }
  }

  /** How each role the server can send comes out of the normalisation:
      none is a supervisor title, and only `Admin` becomes `admin`. */
  lemma NormalizeRoleValue(r: Models.UserRole)
    ensures !IsSupervisorTitle(NormalizeRole(Models.RoleValue(r)))
    ensures NormalizeRole(Models.RoleValue(r)) == "admin" <==> r == Models.Admin
  {
    var v := Models.RoleValue(r);
    Text.TrimUntouched(v);
    var n := NormalizeRole(v);
    assert n == Text.Lower(v);
    assert n[0] == Text.LowerChar(v[0]);
    if r == Models.Admin {
      assert n == "admin";
    }
  }

  /** With the roles the server actually sends, the page offers no
      supervisor at all, and a user with the `Supervisor` role is offered
      as a member. */
  lemma NoSupervisorsForServerRoles(users: seq<Client.User>)
    requires forall i :: 0 <= i < |users| ==> Models.RoleFromValue(users[i].role).Some?
    ensures Supervisors(users) == []
    ensures forall i :: 0 <= i < |users| && users[i].role == "Supervisor" ==> Normalized(users)[i] in Members(users)
  {
    var ns := Normalized(users);
    forall i | 0 <= i < |users|
      ensures !IsSupervisorTitle(ns[i].role)
      ensures users[i].role == "Supervisor" ==> ns[i].role != "admin"
    {
      var r := Models.RoleFromValue(users[i].role).value;
      NormalizeRoleValue(r);
    }
    Seqs.FilterNone(ns, (u: Client.User) => IsSupervisorTitle(u.role));
    forall i | 0 <= i < |users| && users[i].role == "Supervisor"
      ensures ns[i] in Members(users)
    {
      assert ns[i] in ns;
    }
  }

  /** The choices on the form, as the ids the selects hold (`""` for
      none). */
  datatype Selection = Selection(supervisor: string, member: string)

  /** `handleAssign`, and `handleUnassign` on the other page, which has the
      same guard: the (supervisor, member) request sent, if any. */
  function Submit(sel: Selection): (call: Option<(string, string)>)
    ensures call.Some? <==> sel.supervisor != "" && sel.member != ""
    ensures call.Some? ==> call.value == (sel.supervisor, sel.member)
  {
    if sel.supervisor == "" || sel.member == "" then None else Some((sel.supervisor, sel.member))
  }

  /** What the admin request wrapper resolves to: it returns `res.json()`
      without looking at the HTTP status, so any JSON answer, a refusal
      included, resolves; only a failed fetch or a body that is not JSON
      rejects. */
  datatype Reply = JsonBody(status: nat) | NoJson

  /** The form after the request, on either page: cleared whenever the
      request resolves, whatever its status, and kept when it rejects. */
  function AfterRequest(sel: Selection, reply: Reply): (sel': Selection)
    ensures reply.JsonBody? ==> Submit(sel').None? && sel' == Selection("", "")
    ensures reply.NoJson? ==> sel' == sel
  {
    if reply.JsonBody? then Selection("", "") else sel
  }

  /** Unassigning a pair that does not exist is refused with a 404, and the
      page still clears the form and reports success. */
  lemma RefusedUnassignClears(st: Db.Store, supervisorId: int, memberId: int, sel: Selection)
    requires !Crud.HasPair(st.pairs, supervisorId, memberId)
    ensures var r := AdminApi.UnassignSupervisorApi(st, supervisorId, memberId);
      && r.Err? && StatusCode(r.error) == 404
      && AfterRequest(sel, JsonBody(StatusCode(r.error))) == Selection("", "")
  {
  }
}
