/**
 * The command interface as the GUI invokes it: every call loads the stored
 * document (absent on first run), runs one command, and saves the resulting
 * dataset only when the command succeeds.
 */
module Commands {
  import opened Wrappers
  import opened Records
  import Store

  /** The store commands registered with the GUI bridge. */
  datatype Command =
    | GetGroups
    | GetServers
    | AddGroup(name: string)
    | AddServer(server: Server)
    | UpdateGroup(group: Group)
    | UpdateServer(server: Server)
    | DeleteGroup(id: string)
    | DeleteServer(id: string)
  {
    /** The read-only projections. */
    predicate IsQuery() {
      GetGroups? || GetServers?
    }
  }

  /** What a successful command hands back: nothing, or one of the two collections. */
  datatype Reply = Done | Groups(groups: seq<Group>) | Servers(servers: seq<Server>)

  /** The document left in storage after a call, and the call's reply. */
  datatype Outcome = Outcome(stored: Option<Data>, reply: Result<Reply, string>)

  /** The dataset transformation a mutating command performs; it fails only on a reference to a missing record. */
  function Mutate(d: Data, cmd: Command, freshId: string): (r: Result<Data, string>)
    requires !cmd.IsQuery()
    ensures r.Err? <==>
      || (cmd.AddServer? && !HasGroup(d.groups, cmd.server.groupId))
      || (cmd.UpdateGroup? && !HasGroup(d.groups, cmd.group.id))
      || (cmd.DeleteGroup? && !HasGroup(d.groups, cmd.id))
      || (cmd.UpdateServer? && !HasServer(d.servers, cmd.server.id))
      || (cmd.DeleteServer? && !HasServer(d.servers, cmd.id))
  {
    match cmd
    case AddGroup(name) => Store.AddGroup(d, freshId, name)
    case AddServer(server) => Store.AddServer(d, server)
    case UpdateGroup(group) => Store.UpdateGroup(d, group)
    case UpdateServer(server) => Store.UpdateServer(d, server)
    case DeleteGroup(id) => Store.DeleteGroup(d, id)
    case DeleteServer(id) => Store.DeleteServer(d, id)
  }

  /**
   * One load, run, save cycle against the stored document. `freshId` stands
   * for the UUID `add_group` would generate.
   */
  function Execute(stored: Option<Data>, cmd: Command, freshId: string): (o: Outcome)
    ensures o.reply.Err? ==> o.stored == stored
    ensures cmd.IsQuery() ==> o.stored == stored && o.reply.Ok?
    ensures cmd.GetGroups? ==> o.reply == Ok(Groups(if stored.None? then [] else stored.value.groups))
    ensures cmd.GetServers? ==> o.reply == Ok(Servers(if stored.None? then [] else stored.value.servers))
    ensures !cmd.IsQuery() && o.reply.Ok? ==> o.reply.value == Done && o.stored.Some?
    ensures cmd.AddGroup? ==> o.reply.Ok?
    ensures !cmd.IsQuery() ==> (o.reply.Ok? <==> Mutate(Store.LoadData(stored), cmd, freshId).Ok?)
    ensures !cmd.IsQuery() && o.reply.Ok? ==> o.stored == Some(Mutate(Store.LoadData(stored), cmd, freshId).value)
  {
    var d := Store.LoadData(stored);
    match cmd
    case GetGroups => Outcome(stored, Ok(Groups(d.groups)))
    case GetServers => Outcome(stored, Ok(Servers(d.servers)))
    case _ =>
      match Mutate(d, cmd, freshId)
      case Err(e) => Outcome(stored, Err(e))
      case Ok(d') => Outcome(Some(d'), Ok(Done))
  }
}
