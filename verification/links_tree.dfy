/** Directory entries and link counts, as OS/xv6-public/sysfile.c and fs.c keep them: the state, the
    calls link, unlink and create, and the freeing of inodes, with link in two parts because it gives
    up the lock of the linked inode in between. */
module LinksTree {

  const ROOT: int := 1   // ROOTINO; inode 0 stands for an empty directory entry

  datatype Kind = Unused | Dir | File | Dev

  datatype Dirent = Dirent(inum: int, name: string)

  datatype Inode = Inode(kind: Kind, nlink: int, ents: seq<Dirent>)

  type Table = seq<Inode>

  /** pending: the inodes whose count a link call has raised and not yet either named or lowered again. */
  datatype State = State(t: Table, pending: multiset<int>)

  const NoEntry: Dirent := Dirent(0, "")

  // ---------------------------------------------------------------- directories

  /** dirlookup: the first entry in use with the name; -1 if there is none. */
  function Lookup(ents: seq<Dirent>, name: string): (k: int)
    ensures -1 <= k < |ents| && (k >= 0 ==> ents[k].inum != 0 && ents[k].name == name)
    ensures k == -1 <==> forall j :: 0 <= j < |ents| ==> ents[j].inum == 0 || ents[j].name != name
  {
    if ents == [] then -1
    else
      var k := Lookup(ents[..|ents| - 1], name);
      if k >= 0 then k
      else if ents[|ents| - 1].inum != 0 && ents[|ents| - 1].name == name then |ents| - 1 else -1
  }

  /** The first entry that is not in use; the end of the directory if there is none. */
  function Slot(ents: seq<Dirent>): (k: nat)
    ensures k <= |ents| && (k < |ents| ==> ents[k].inum == 0) && forall j :: 0 <= j < k ==> ents[j].inum != 0
  {
    if ents == [] then 0
    else
      var k := Slot(ents[..|ents| - 1]);
      if k < |ents| - 1 || ents[|ents| - 1].inum == 0 then k else |ents|
  }

  function Put(ents: seq<Dirent>, k: nat, e: Dirent): seq<Dirent>
    requires k <= |ents|
  {
    if k < |ents| then ents[k := e] else ents + [e]
  }

  /** dirlink, when the name is not there yet. */
  function Dirlink(ents: seq<Dirent>, name: string, inum: int): seq<Dirent> { Put(ents, Slot(ents), Dirent(inum, name)) }

  /** isdirempty: looks at the entries behind the first two. */
  predicate IsDirEmpty(ents: seq<Dirent>) { forall k :: 2 <= k < |ents| ==> ents[k].inum == 0 }

  // ---------------------------------------------------------------- events

  datatype Event =
    | LinkStart(ip: int)
    | LinkDone(ip: int, dp: int, name: string)
    | LinkBad(ip: int)
    | Unlink(dp: int, name: string)
    | Create(dp: int, name: string, ip: int, kind: Kind)   // ip is what ialloc returns
    | Free(ip: int)                                        // the last iput of an inode without links

  predicate InUse(t: Table, i: int) { 0 < i < |t| && t[i].kind != Unused }

  predicate IsDir(t: Table, i: int) { 0 < i < |t| && t[i].kind == Dir }

  /** A directory that still has a name. */
  predicate LiveDir(t: Table, i: int) { IsDir(t, i) && t[i].nlink > 0 }

  /** New names are only put into directories that have not been unlinked. */
  predicate Enabled(s: State, e: Event) {
    match e
    case LinkStart(ip) => InUse(s.t, ip) && !IsDir(s.t, ip)
    case LinkDone(ip, dp, name) => ip in s.pending && LiveDir(s.t, dp) && Lookup(s.t[dp].ents, name) == -1
    case LinkBad(ip) => ip in s.pending
    case Unlink(dp, _) => IsDir(s.t, dp)
    case Create(dp, name, ip, kind) =>
      LiveDir(s.t, dp) && 0 < ip < |s.t| && s.t[ip].kind == Unused && kind != Unused && Lookup(s.t[dp].ents, name) == -1
    case Free(ip) => InUse(s.t, ip) && s.t[ip].nlink == 0
  }

  function AddLinks(t: Table, i: int, n: int): Table {
    if 0 <= i < |t| then t[i := t[i].(nlink := t[i].nlink + n)] else t
  }

  function SetEnts(t: Table, i: int, ents: seq<Dirent>): Table {
    if 0 <= i < |t| then t[i := t[i].(ents := ents)] else t
  }

  /** The inode that Unlink(dp, name) is about, when nothing stands in the way; otherwise -1. */
  function Target(t: Table, dp: int, name: string): int {
    if !IsDir(t, dp) || name == "." || name == ".." || Lookup(t[dp].ents, name) == -1 then -1
    else
      var ip := t[dp].ents[Lookup(t[dp].ents, name)].inum;
      if IsDir(t, ip) && !IsDirEmpty(t[ip].ents) then -1 else ip
  }

  /** The entry is cleared, a directory's ".." stops counting for its container, and the inode loses a link. */
  function Unlinked(t: Table, dp: int, name: string): Table {
    var ip := Target(t, dp, name);
    if ip == -1 then t
    else
      var t1 := SetEnts(t, dp, t[dp].ents[Lookup(t[dp].ents, name) := NoEntry]);
      var t2 := if IsDir(t, ip) then AddLinks(t1, dp, -1) else t1;
      AddLinks(t2, ip, -1)
  }

  function Dots(ip: int, dp: int): seq<Dirent> { [Dirent(ip, "."), Dirent(dp, "..")] }

  function Created(t: Table, dp: int, name: string, ip: int, kind: Kind): Table {
    if 0 <= ip < |t| && 0 <= dp < |t| then
      var t1 := t[ip := Inode(kind, 1, if kind == Dir then Dots(ip, dp) else [])];
      var t2 := if kind == Dir then AddLinks(t1, dp, 1) else t1;
      SetEnts(t2, dp, Dirlink(t2[dp].ents, name, ip))
    else t
  }

  function Apply(s: State, e: Event): State {
    if !Enabled(s, e) then s
    else match e
      case LinkStart(ip) => State(AddLinks(s.t, ip, 1), s.pending + multiset{ip})
      case LinkDone(ip, dp, name) => State(SetEnts(s.t, dp, Dirlink(s.t[dp].ents, name, ip)), s.pending - multiset{ip})
      case LinkBad(ip) => State(AddLinks(s.t, ip, -1), s.pending - multiset{ip})
      case Unlink(dp, name) => s.(t := Unlinked(s.t, dp, name))
      case Create(dp, name, ip, kind) => s.(t := Created(s.t, dp, name, ip, kind))
      case Free(ip) => s.(t := s.t[ip := Inode(Unused, 0, [])])
  }

  function Exec(s: State, run: seq<Event>): State
    decreases |run|
  {
    if run == [] then s else Exec(Apply(s, run[0]), run[1..])
  }

  // ---------------------------------------------------------------- counting

  /** Entries other than "." that name i. */
  function Names(ents: seq<Dirent>, i: int): nat {
    if ents == [] then 0 else Names(ents[..|ents| - 1], i) + One(ents[|ents| - 1], i)
  }

  function One(e: Dirent, i: int): nat { if e.inum == i && e.name != "." then 1 else 0 }

  /** What inode d contributes to the count of i: only directories that have a name themselves count. */
  function Share(x: Inode, i: int): nat { if x.kind == Dir && x.nlink > 0 then Names(x.ents, i) else 0 }

  function Refs(t: Table, i: int): nat {
    if t == [] then 0 else Refs(t[..|t| - 1], i) + Share(t[|t| - 1], i)
  }

  // ---------------------------------------------------------------- the invariant

  /** Each count is the number of names, plus the link calls under way. */
  ghost predicate Counted(s: State) {
    forall i :: 0 < i < |s.t| ==> CountOk(s, i)
  }

  ghost predicate CountOk(s: State, i: int)
    requires 0 < i < |s.t|
  {
    if s.t[i].kind == Unused then Refs(s.t, i) == 0 && s.pending[i] == 0
    else s.t[i].nlink == Refs(s.t, i) + s.pending[i]
  }

  function Up(t: Table, d: int): int { if IsDir(t, d) && |t[d].ents| > 1 then t[d].ents[1].inum else ROOT }

  /** "." and ".." come first, and no other entry has these names; names are not repeated. */
  ghost predicate DirShape(t: Table, d: int)
    requires 0 <= d < |t|
  {
    var ents := t[d].ents;
    && |ents| >= 2 && ents[0] == Dirent(d, ".") && ents[1].name == ".." && 0 < ents[1].inum < |t|
    && (forall j, k :: 0 <= j < k < |ents| && ents[j].inum != 0 && ents[k].inum != 0 ==> ents[j].name != ents[k].name)
  }

  /** An entry behind the dots, in a directory with a name: a directory under it has it as its container
      and under no other name; the root is under no name. */
  ghost predicate EntryOk(t: Table, d: int, k: int)
    requires 0 <= d < |t| && 0 <= k < |t[d].ents|
  {
    var i := t[d].ents[k].inum;
    i != 0 ==>
      && InUse(t, i) && i != ROOT
      && (IsDir(t, i) ==> LiveDir(t, i) && Up(t, i) == d
                          && forall j :: 2 <= j < |t[d].ents| && t[d].ents[j].inum == i ==> j == k)
  }

  ghost predicate Contained(t: Table, d: int) {
    d == ROOT || exists k :: NamedAt(t, Up(t, d), k, d)
  }

  predicate NamedAt(t: Table, e: int, k: int, d: int) { LiveDir(t, e) && 2 <= k < |t[e].ents| && t[e].ents[k].inum == d }

  ghost predicate Tree(t: Table) {
    && LiveDir(t, ROOT) && Up(t, ROOT) == ROOT && t[0].kind == Unused
    && (forall d :: IsDir(t, d) ==> DirShape(t, d))
    && (forall d :: LiveDir(t, d) ==> LiveDir(t, Up(t, d)) && Contained(t, d))
    && (forall d :: IsDir(t, d) && !LiveDir(t, d) ==> IsDirEmpty(t[d].ents))
    && (forall d, k :: LiveDir(t, d) && 2 <= k < |t[d].ents| ==> EntryOk(t, d, k))
  }

  /** Only inodes that are not directories are being linked. */
  ghost predicate PendingOk(s: State) {
    forall i :: i in s.pending ==> InUse(s.t, i) && !IsDir(s.t, i)
  }

  ghost predicate Inv(s: State) { Counted(s) && Tree(s.t) && PendingOk(s) }
}
