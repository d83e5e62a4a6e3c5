/**
 * Properties of the store's commands: which of them preserve referential
 * integrity and unique ids, what delete_group cascades to, and what a
 * create-then-rename sequence leaves behind.
 */
module Properties {
  import opened Wrappers
  import opened Records
  import Seqs
  import Store
  import Commands

  // ---------------------------------------------------------------- add_group

  /** A new group can only add targets for group references, never take one away. */
  lemma AddGroupPreservesIntact(d: Data, freshId: string, name: string)
    requires Intact(d)
    ensures Intact(Store.AddGroup(d, freshId, name).value)
  {
  }

  /** A fresh id keeps group ids unique, and the new group is then the only one with that id. */
  lemma AddGroupFreshKeepsIdsUnique(d: Data, freshId: string, name: string)
    requires UniqueGroupIds(d.groups)
    requires !HasGroup(d.groups, freshId)
    ensures UniqueGroupIds(Store.AddGroup(d, freshId, name).value.groups)
    ensures FirstGroupAt(Store.AddGroup(d, freshId, name).value.groups, freshId, |d.groups|)
  {
  }

  // --------------------------------------------------------------- add_server

  /** add_server admits a server only when its group exists, so integrity survives. */
  lemma AddServerPreservesIntact(d: Data, server: Server)
    requires Intact(d)
    ensures Store.AddServer(d, server).Ok? ==> Intact(Store.AddServer(d, server).value)
  {
  }

  /** add_server stores the caller's id as given: an id already in use is accepted and duplicated. */
  lemma AddServerAcceptsDuplicateId(d: Data, server: Server)
    requires HasGroup(d.groups, server.groupId)
    requires HasServer(d.servers, server.id)
    ensures Store.AddServer(d, server).Ok?
    ensures !UniqueServerIds(Store.AddServer(d, server).value.servers)
  {
  }

  // ------------------------------------------------------------- update_group

  /** Renaming a group keeps every group id in place, so integrity and uniqueness survive. */
  lemma UpdateGroupPreservesInvariants(d: Data, group: Group)
    ensures var r := Store.UpdateGroup(d, group);
      r.Ok? ==> forall j :: 0 <= j < |d.groups| ==> r.value.groups[j].id == d.groups[j].id
    ensures var r := Store.UpdateGroup(d, group);
      r.Ok? && Intact(d) ==> Intact(r.value)
    ensures var r := Store.UpdateGroup(d, group);
      r.Ok? && UniqueGroupIds(d.groups) ==> UniqueGroupIds(r.value.groups)
  {
  }

  // ------------------------------------------------------------ update_server

  /**
   * update_server keeps integrity exactly when the replacement names an
   * existing group: the command itself never checks this.
   */
  lemma UpdateServerIntactIff(d: Data, server: Server)
    requires Intact(d)
    requires HasServer(d.servers, server.id)
    ensures Store.UpdateServer(d, server).Ok?
    ensures Intact(Store.UpdateServer(d, server).value) <==> HasGroup(d.groups, server.groupId)
  {
  }

  /** A concrete dataset where update_server succeeds and leaves a dangling group reference. */
  lemma UpdateServerCanDangle()
    ensures var d := Data([Group("g", "lab")], [Server("s", "box", "root", "h", 22, "key", "k", "g")]);
      var r := Store.UpdateServer(d, Server("s", "box", "root", "h", 22, "key", "k", "gone"));
      Intact(d) && r.Ok? && !Intact(r.value)
  {
  }

  // ------------------------------------------------------------- delete_group

  /** The cascade restores integrity: no remaining server can name the removed group id. */
  lemma DeleteGroupPreservesIntact(d: Data, id: string)
    requires Intact(d)
    ensures Store.DeleteGroup(d, id).Ok? ==> Intact(Store.DeleteGroup(d, id).value)
  {
  }

  /** With unique group ids, the deleted id is gone from both collections. */
  lemma DeleteGroupRemovesId(d: Data, id: string)
    requires UniqueGroupIds(d.groups)
    requires HasGroup(d.groups, id)
    ensures Store.DeleteGroup(d, id).Ok?
    ensures !HasGroup(Store.DeleteGroup(d, id).value.groups, id)
    ensures forall s | s in Store.DeleteGroup(d, id).value.servers :: s.groupId != id
    ensures UniqueGroupIds(Store.DeleteGroup(d, id).value.groups)
  {
  }

  /** Deleting a group that no server belongs to leaves the server list exactly as it was. */
  lemma DeleteEmptyGroupKeepsServers(d: Data, id: string)
    requires HasGroup(d.groups, id)
    requires forall s | s in d.servers :: s.groupId != id
    ensures Store.DeleteGroup(d, id).Ok?
    ensures Store.DeleteGroup(d, id).value.servers == d.servers
  {
    Seqs.RetainAll(d.servers, (s: Server) => s.groupId != id);
  }

  /** Two groups, three servers: deleting the first group leaves exactly the second group and its server. */
  lemma CascadeExample()
    ensures var g1 := Group("g1", "work");
      var g2 := Group("g2", "home");
      var s1 := Server("s1", "a", "u", "h1", 22, "password", "", "g1");
      var s2 := Server("s2", "b", "u", "h2", 22, "password", "", "g1");
      var s3 := Server("s3", "c", "u", "h3", 22, "password", "", "g2");
      Store.DeleteGroup(Data([g1, g2], [s1, s2, s3]), "g1") == Ok(Data([g2], [s3]))
  {
    var g1 := Group("g1", "work");
    var g2 := Group("g2", "home");
    var s1 := Server("s1", "a", "u", "h1", 22, "password", "", "g1");
    var s2 := Server("s2", "b", "u", "h2", 22, "password", "", "g1");
    var s3 := Server("s3", "c", "u", "h3", 22, "password", "", "g2");
    assert "g2" != "g1";
    var keep := (s: Server) => s.groupId != "g1";
    assert Seqs.Position([g1, g2], (g: Group) => g.id == "g1") == Some(0);
    assert Seqs.RemoveAt([g1, g2], 0) == [g2];
    assert Seqs.Retain([s3], keep) == [s3] by {
      assert [s3][1..] == [];
    }
    assert Seqs.Retain([s2, s3], keep) == [s3] by {
      assert [s2, s3][1..] == [s3];
    }
    assert Seqs.Retain([s1, s2, s3], keep) == [s3] by {
      assert [s1, s2, s3][1..] == [s2, s3];
    }
  }

  // ------------------------------------------------------------ delete_server

  /** Removing a server removes no group, so the remaining references stay valid. */
  lemma DeleteServerPreservesIntact(d: Data, id: string)
    requires Intact(d)
    ensures Store.DeleteServer(d, id).Ok? ==> Intact(Store.DeleteServer(d, id).value)
  {
  }

  /** With unique server ids, the deleted server is the only one removed and its id is gone. */
  lemma DeleteServerRemovesId(d: Data, id: string)
    requires UniqueServerIds(d.servers)
    requires HasServer(d.servers, id)
    ensures Store.DeleteServer(d, id).Ok?
    ensures !HasServer(Store.DeleteServer(d, id).value.servers, id)
    ensures UniqueServerIds(Store.DeleteServer(d, id).value.servers)
  {
  }

  // ------------------------------------------------------- command sequences

  /** Creating a group and then renaming it by its id keeps the id and changes only the name. */
  lemma CreateThenRenameKeepsId(d: Data, freshId: string, name: string, newName: string)
    requires !HasGroup(d.groups, freshId)
    ensures var d1 := Store.AddGroup(d, freshId, name).value;
      Store.UpdateGroup(d1, Group(freshId, newName)) == Ok(Data(d.groups + [Group(freshId, newName)], d.servers))
  {
    var d1 := Store.AddGroup(d, freshId, name).value;
    var r := Store.UpdateGroup(d1, Group(freshId, newName));
    forall j | 0 <= j < |d.groups|
      ensures d1.groups[j].id != freshId
    {
      assert d1.groups[j] == d.groups[j];
      assert d.groups[j] in d.groups;
    }
    assert d1.groups[|d.groups|] in d1.groups;
    var i :| FirstGroupAt(d1.groups, freshId, i) && r.value.groups[i] == Group(freshId, newName)
      && forall j :: 0 <= j < |d1.groups| && j != i ==> r.value.groups[j] == d1.groups[j];
    assert i == |d.groups|;
    assert r.value.groups == d.groups + [Group(freshId, newName)];
  }

  /**
   * Referential integrity of the stored document survives every command
   * except an update_server whose new group id names no group.
   */
  lemma ExecutePreservesIntact(stored: Option<Data>, cmd: Commands.Command, freshId: string)
    requires stored.Some? ==> Intact(stored.value)
    requires cmd.UpdateServer? ==> HasGroup(Store.LoadData(stored).groups, cmd.server.groupId)
    ensures var o := Commands.Execute(stored, cmd, freshId);
      o.stored.Some? ==> Intact(o.stored.value)
  {
    var d := Store.LoadData(stored);
    assert Intact(d);
    match cmd
    case GetGroups =>
    case GetServers =>
    case AddGroup(name) => AddGroupPreservesIntact(d, freshId, name);
    case AddServer(server) => AddServerPreservesIntact(d, server);
    case UpdateGroup(group) => UpdateGroupPreservesInvariants(d, group);
    case UpdateServer(server) =>
      if HasServer(d.servers, server.id) {
        UpdateServerIntactIff(d, server);
      }
    case DeleteGroup(id) => DeleteGroupPreservesIntact(d, id);
    case DeleteServer(id) => DeleteServerPreservesIntact(d, id);
  }

  /** On first run (no document), queries answer empty and nothing is written. */
  lemma FirstRunQueriesCreateNothing(cmd: Commands.Command, freshId: string)
    requires cmd.IsQuery()
    ensures Commands.Execute(None, cmd, freshId).stored == None
    ensures Commands.Execute(None, cmd, freshId).reply in {Ok(Commands.Groups([])), Ok(Commands.Servers([]))}
  {
  }

  /** On first run, only add_group can succeed among the mutations: every other command has nothing to find. */
  lemma FirstRunOnlyAddGroupSucceeds(cmd: Commands.Command, freshId: string)
    requires !cmd.IsQuery() && !cmd.AddGroup?
    ensures Commands.Execute(None, cmd, freshId) == Commands.Outcome(None, Commands.Execute(None, cmd, freshId).reply)
    ensures Commands.Execute(None, cmd, freshId).reply.Err?
  {
  }
}
