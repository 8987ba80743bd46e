/** The admin's "unassign supervisor" page
    (frontend/src/pages/UnassignSupervisor.js): here the loaded users are
    split by their role exactly as sent, comparing case-sensitively. */
module UnassignSupervisorPage {
  import opened Wrappers
  import Seqs
  import Models
  import Client

  predicate IsSupervisorRole(role: string) {
    role == "Supervisor" || role == "supervisor"
  }

  /** `sups`. */
  function Supervisors(users: seq<Client.User>): (r: seq<Client.User>)
    ensures forall u :: u in r <==> u in users && IsSupervisorRole(u.role)
    ensures Seqs.IsSubsequence(r, users)
  {
    var keep := (u: Client.User) => IsSupervisorRole(u.role);
    Seqs.FilterIsSubsequence(users, keep);
    Seqs.Filter(users, keep)
  }

  /** `team`: everyone but the supervisors and `Admin`. */
  function Team(users: seq<Client.User>): (r: seq<Client.User>)
    ensures forall u :: u in r <==> u in users && !IsSupervisorRole(u.role) && u.role != "Admin"
    ensures Seqs.IsSubsequence(r, users)
  {
    var keep := (u: Client.User) => !IsSupervisorRole(u.role) && u.role != "Admin";
    Seqs.FilterIsSubsequence(users, keep);
    Seqs.Filter(users, keep)
  }

  /** The users with role exactly `Admin`. */
  function Admins(users: seq<Client.User>): (r: seq<Client.User>)
    ensures forall u :: u in r <==> u in users && u.role == "Admin"
  {
    Seqs.Filter(users, (u: Client.User) => u.role == "Admin")
  }

  /** The two lists are disjoint and together hold every user whose role
      is not `Admin`. */
  lemma SupervisorsTeamSplit(users: seq<Client.User>)
    ensures forall u :: u in Supervisors(users) ==> u !in Team(users)
    ensures forall u :: u in users && u.role != "Admin" <==> u in Supervisors(users) || u in Team(users)
  {
  }

  /** Counting: supervisors, team and admins add up to all users. */
  lemma {:induction false} SplitCounts(users: seq<Client.User>)
    ensures |Supervisors(users)| + |Team(users)| + |Admins(users)| == |users|
  {
    if users != [] {
      SplitCounts(users[1..]);
    }
  }

  /** With the roles the server sends, the supervisor list is exactly the
      users whose role is `UserRole.SUPERVISOR`. */
  lemma SupervisorsAreSupervisorRole(users: seq<Client.User>)
    requires forall i :: 0 <= i < |users| ==> Models.RoleFromValue(users[i].role).Some?
    ensures forall u :: u in Supervisors(users) <==> u in users && Models.RoleFromValue(u.role) == Some(Models.Supervisor)
  {
  }
}
