/** The two administration endpoints of back_end/main.py that edit the
    supervisor/member relation.  Neither takes a token: any caller may use
    them, so the model has no caller parameter. */
module AdminApi {
  import opened Wrappers
  import opened Db
  import Crud

  /** `assign_supervisor_api`: the id of the row for the pair, old or new;
      a 500 with nothing stored when a new row would name an id that is no
      user. */
  function AssignSupervisorApi(st: Store, supervisorId: int, memberId: int): (r: Result<(Store, int)>)
    ensures r.Err? <==> !Crud.HasPair(st.pairs, supervisorId, memberId) && (supervisorId !in st.users || memberId !in st.users)
    ensures r.Err? ==> r.error == InternalError && StatusCode(r.error) == 500
    ensures r.Ok? ==> Crud.HasPair(r.value.0.pairs, supervisorId, memberId)
    ensures r.Ok? ==> exists i :: 0 <= i < |r.value.0.pairs| && r.value.0.pairs[i].id == r.value.1 && Crud.IsPair(r.value.0.pairs[i], supervisorId, memberId)
    ensures Crud.HasPair(st.pairs, supervisorId, memberId) ==> r.Ok? && r.value.0 == st
  {
    match Crud.AssignSupervisor(st, supervisorId, memberId)
    case Err(e) => Err(e)
    case Ok((st', row)) =>
      if Crud.HasPair(st.pairs, supervisorId, memberId) then
        var i :| 0 <= i < |st.pairs| && st.pairs[i] == row;
        Ok((st', row.id))
      else
        assert st'.pairs[|st.pairs|] == row;
        Ok((st', row.id))
  }

  /** `unassign_supervisor_api`: 404 when there was no such pair; otherwise
      the pair is gone. */
  function UnassignSupervisorApi(st: Store, supervisorId: int, memberId: int): (r: Result<Store>)
    ensures r.Err? <==> !Crud.HasPair(st.pairs, supervisorId, memberId)
    ensures r.Err? ==> r.error == NotFound
    ensures r.Ok? && UniquePairs(st.pairs) ==> !Crud.HasPair(r.value.pairs, supervisorId, memberId)
    ensures r.Ok? ==> |r.value.pairs| == |st.pairs| - 1 && r.value.users == st.users
  {
    var (st', found) := Crud.UnassignSupervisor(st, supervisorId, memberId);
    if found then Ok(st') else Err(NotFound)
  }

  /** Unassigning a pair that was just assigned succeeds, and the member
      leaves the supervisor's team again. */
  lemma AssignThenUnassign(st: Store, supervisorId: int, memberId: int)
    requires UniquePairs(st.pairs)
    ensures var a := AssignSupervisorApi(st, supervisorId, memberId);
      a.Ok? ==>
      var r := UnassignSupervisorApi(a.value.0, supervisorId, memberId);
      && r.Ok?
      && !Crud.HasPair(r.value.pairs, supervisorId, memberId)
      && memberId !in Crud.TeamForSupervisor(r.value, supervisorId)
  {
    var a := AssignSupervisorApi(st, supervisorId, memberId);
    if a.Ok? {
      assert UniquePairs(a.value.0.pairs);
    }
  }
}
