/**
 * The persisted entities of the bookmark store: groups, servers that belong to
 * a group, and the dataset holding both in insertion order.
 */
module Records {

  /** Rust's `u16`: the only width the port field can take. */
  type U16 = n: int | 0 <= n < 0x1_0000

  /** A remote-login target. `authType` is a free string; only "password" and "key" can be launched. */
  datatype Server = Server(
    id: string,
    name: string,
    username: string,
    host: string,
    port: U16,
    authType: string,
    authInfo: string,
    groupId: string)

  /** A named bucket of servers. */
  datatype Group = Group(id: string, name: string)

  /** The whole persisted document: both collections, in insertion order. */
  datatype Data = Data(groups: seq<Group>, servers: seq<Server>)

  /** The dataset a first run starts from. */
  const Empty := Data([], [])

  /** Some group carries the id `gid` (`groups.iter().any(|g| g.id == gid)`). */
  predicate HasGroup(groups: seq<Group>, gid: string): (b: bool)
    ensures b <==> exists i :: 0 <= i < |groups| && groups[i].id == gid
  {
    exists g | g in groups :: g.id == gid
  }

  /** Some server carries the id `sid`. */
  predicate HasServer(servers: seq<Server>, sid: string): (b: bool)
    ensures b <==> exists i :: 0 <= i < |servers| && servers[i].id == sid
  {
    exists s | s in servers :: s.id == sid
  }

  /** Referential integrity: every server names a group present in the same dataset. */
  ghost predicate Intact(d: Data) {
    forall s | s in d.servers :: HasGroup(d.groups, s.groupId)
  }

  /** No two groups share an id. */
  ghost predicate UniqueGroupIds(groups: seq<Group>) {
    forall i, j | 0 <= i < j < |groups| :: groups[i].id != groups[j].id
  }

  /** No two servers share an id. */
  ghost predicate UniqueServerIds(servers: seq<Server>) {
    forall i, j | 0 <= i < j < |servers| :: servers[i].id != servers[j].id
  }

  /** `i` is the first index of a group with id `id`. */
  ghost predicate FirstGroupAt(groups: seq<Group>, id: string, i: int) {
    && 0 <= i < |groups|
    && groups[i].id == id
    && forall j :: 0 <= j < i ==> groups[j].id != id
  }

  /** `i` is the first index of a server with id `id`. */
  ghost predicate FirstServerAt(servers: seq<Server>, id: string, i: int) {
    && 0 <= i < |servers|
    && servers[i].id == id
    && forall j :: 0 <= j < i ==> servers[j].id != id
  }
}
