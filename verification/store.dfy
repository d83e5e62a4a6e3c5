/**
 * The store's commands as pure transformations of the loaded dataset. Each
 * command of the source loads the document, validates, mutates and saves; here
 * an `Ok(d')` is the dataset that would be saved and an `Err(msg)` means the
 * command returns before saving anything.
 */
module Store {
  import opened Wrappers
  import opened Records
  import Seqs

  const GroupNotFound := "Group not found"
  const ServerNotFound := "Server not found"

  /** The error `add_server` reports for an unknown group. */
  function UnknownGroup(gid: string): string {
    "Group with id " + gid + " not found"
  }

  /** Loading: a missing document reads as the empty dataset. */
  function LoadData(stored: Option<Data>): (d: Data)
    ensures stored.None? ==> d.groups == [] && d.servers == []
    ensures stored.Some? ==> d == stored.value
  {
    match stored
    case None => Empty
    case Some(data) => data
  }

  /** `add_group`: appends a new group under the caller-supplied fresh id. */
  function AddGroup(d: Data, freshId: string, name: string): (r: Result<Data, string>)
    ensures r.Ok?
    ensures |r.value.groups| == |d.groups| + 1
    ensures r.value.groups[..|d.groups|] == d.groups
    ensures r.value.groups[|d.groups|] == Group(freshId, name)
    ensures r.value.servers == d.servers
  {
    Ok(Data(d.groups + [Group(freshId, name)], d.servers))
  }

  /** `add_server`: appends the caller's server verbatim once its group is known to exist. */
  function AddServer(d: Data, server: Server): (r: Result<Data, string>)
    ensures r.Err? <==> !HasGroup(d.groups, server.groupId)
    ensures r.Err? ==> r.error == UnknownGroup(server.groupId)
    ensures r.Ok? ==> r.value.groups == d.groups
    ensures r.Ok? ==> |r.value.servers| == |d.servers| + 1
    ensures r.Ok? ==> r.value.servers[..|d.servers|] == d.servers
    ensures r.Ok? ==> r.value.servers[|d.servers|] == server
  {
    if !HasGroup(d.groups, server.groupId) then Err(UnknownGroup(server.groupId))
    else Ok(Data(d.groups, d.servers + [server]))
  }

  /** `update_group`: overwrites the first group whose id matches. */
  function UpdateGroup(d: Data, group: Group): (r: Result<Data, string>)
    ensures r.Err? <==> !HasGroup(d.groups, group.id)
    ensures r.Err? ==> r.error == GroupNotFound
    ensures r.Ok? ==> r.value.servers == d.servers && |r.value.groups| == |d.groups|
    ensures r.Ok? ==> exists i :: FirstGroupAt(d.groups, group.id, i) && r.value.groups[i] == group
                          && forall j :: 0 <= j < |d.groups| && j != i ==> r.value.groups[j] == d.groups[j]
  {
    match Seqs.Position(d.groups, (g: Group) => g.id == group.id)
    case None => Err(GroupNotFound)
    case Some(i) =>
      assert FirstGroupAt(d.groups, group.id, i);
      Ok(Data(d.groups[i := group], d.servers))
  }

  /** `update_server`: overwrites the first server whose id matches; `groupId` is not re-validated. */
  function UpdateServer(d: Data, server: Server): (r: Result<Data, string>)
    ensures r.Err? <==> !HasServer(d.servers, server.id)
    ensures r.Err? ==> r.error == ServerNotFound
    ensures r.Ok? ==> r.value.groups == d.groups && |r.value.servers| == |d.servers|
    ensures r.Ok? ==> exists i :: FirstServerAt(d.servers, server.id, i) && r.value.servers[i] == server
                          && forall j :: 0 <= j < |d.servers| && j != i ==> r.value.servers[j] == d.servers[j]
  {
    match Seqs.Position(d.servers, (s: Server) => s.id == server.id)
    case None => Err(ServerNotFound)
    case Some(i) =>
      assert FirstServerAt(d.servers, server.id, i);
      Ok(Data(d.groups, d.servers[i := server]))
  }

  /** `delete_group`: removes the first group with the id, then every server filed under that id. */
  function DeleteGroup(d: Data, id: string): (r: Result<Data, string>)
    ensures r.Err? <==> !HasGroup(d.groups, id)
    ensures r.Err? ==> r.error == GroupNotFound
    ensures r.Ok? ==> exists i :: FirstGroupAt(d.groups, id, i) && r.value.groups == Seqs.RemoveAt(d.groups, i)
    ensures r.Ok? ==> forall s :: s in r.value.servers <==> s in d.servers && s.groupId != id
    ensures r.Ok? ==> forall s :: multiset(r.value.servers)[s] == if s.groupId == id then 0 else multiset(d.servers)[s]
    ensures r.Ok? ==> Seqs.Subsequence(r.value.servers, d.servers)
  {
    match Seqs.Position(d.groups, (g: Group) => g.id == id)
    case None => Err(GroupNotFound)
    case Some(i) =>
      assert FirstGroupAt(d.groups, id, i);
      Ok(Data(Seqs.RemoveAt(d.groups, i), Seqs.Retain(d.servers, (s: Server) => s.groupId != id)))
  }

  /** `delete_server`: removes the first server with the id. */
  function DeleteServer(d: Data, id: string): (r: Result<Data, string>)
    ensures r.Err? <==> !HasServer(d.servers, id)
    ensures r.Err? ==> r.error == ServerNotFound
    ensures r.Ok? ==> r.value.groups == d.groups && |r.value.servers| == |d.servers| - 1
    ensures r.Ok? ==> exists i :: FirstServerAt(d.servers, id, i) && r.value.servers == Seqs.RemoveAt(d.servers, i)
  {
    match Seqs.Position(d.servers, (s: Server) => s.id == id)
    case None => Err(ServerNotFound)
    case Some(i) =>
      assert FirstServerAt(d.servers, id, i);
      Ok(Data(d.groups, Seqs.RemoveAt(d.servers, i)))
  }
}
