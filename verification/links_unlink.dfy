/** unlink keeps the link counts and the tree; and with it every run does. */
module LinksUnlink {
  import opened LinksTree
  import opened LinksSafety

  /** What unlink knows about the entry it clears. */
  ghost predicate Doomed(t: Table, dp: int, k: int, ip: int) {
    && Tree(t) && LiveDir(t, dp) && 2 <= k < |t[dp].ents| && t[dp].ents[k].inum == ip && ip != 0 && ip != dp && ip != ROOT
    && InUse(t, ip) && EntryOk(t, dp, k)
    && (IsDir(t, ip) ==> LiveDir(t, ip) && Up(t, ip) == dp && IsDirEmpty(t[ip].ents))
  }

  lemma TargetDoomed(t: Table, dp: int, name: string)
    requires Tree(t) && Target(t, dp, name) != -1
    ensures Doomed(t, dp, Lookup(t[dp].ents, name), Target(t, dp, name))
  {
    var k := Lookup(t[dp].ents, name);
    assert DirShape(t, dp);
    assert t[dp].ents[k].name == name;
    assert LiveDir(t, dp);
    assert EntryOk(t, dp, k);
  }

  // ---------------------------------------------------------------- counts of an empty directory

  /** No live directory has an empty directory as its container. */
  lemma NoChildren(t: Table, ip: int, d: int)
    requires Tree(t) && LiveDir(t, ip) && ip != ROOT && IsDirEmpty(t[ip].ents) && LiveDir(t, d)
    ensures Up(t, d) != ip
  {
    assert Contained(t, d);
    assert forall k :: NamedAt(t, ip, k, d) ==> d == 0;
  }

  /** An empty directory is named once, where unlink found it. */
  lemma OnlyName(t: Table, dp: int, k: int, ip: int, d: int)
    requires Doomed(t, dp, k, ip) && IsDir(t, ip) && 0 <= d < |t|
    ensures Share(t[d], ip) == if d == dp then 1 else 0
  {
    if LiveDir(t, d) {
      var ents := t[d].ents;
      assert DirShape(t, d);
      NoChildren(t, ip, d);
      forall m | 0 <= m < |ents| && !(d == dp && m == k) ensures One(ents[m], ip) == 0 {
        if m >= 2 { assert EntryOk(t, d, m); }
      }
      NamesOnly(ents, if d == dp then k else -1, ip);
      if d == dp { BehindDots(t, d, k); }
    }
  }

  lemma EmptyNames(t: Table, ip: int, i: int)
    requires IsDir(t, ip) && DirShape(t, ip) && IsDirEmpty(t[ip].ents) && 0 < i
    ensures Names(t[ip].ents, i) == if i == Up(t, ip) then 1 else 0
  {
    NamesOnly(t[ip].ents, 1, i);
  }

  /** So it has one link, and its container has at least two. */
  lemma EmptyDirCounts(s: State, dp: int, k: int, ip: int)
    requires Inv(s) && Doomed(s.t, dp, k, ip) && IsDir(s.t, ip)
    ensures s.t[ip].nlink == 1 && s.t[dp].nlink >= 2
  {
    var t := s.t;
    forall e | 0 <= e < |t| && e != dp ensures Share(t[e], ip) == 0 { OnlyName(t, dp, k, ip, e); }
    RefsOnly(t, dp, ip);
    OnlyName(t, dp, k, ip, dp);
    assert CountOk(s, ip) && CountOk(s, dp);
    assert DirShape(t, ip) && DirShape(t, ROOT);
    UpCounts(t, ip);
    if dp == ROOT {
      UpCounts(t, ROOT);
      Both(t, ROOT, ip, dp);
    } else {
      ContainerCounts(t, dp, ip);
      NoChildren(t, ip, dp);
      Both(t, Up(t, dp), ip, dp);
    }
  }

  lemma Both(t: Table, d: int, e: int, i: int)
    requires 0 <= d < |t| && 0 <= e < |t| && d != e
    ensures Refs(t, i) >= Share(t[d], i) + Share(t[e], i)
  {
    if d < e { RefsTwo(t, d, e, i); } else { RefsTwo(t, e, d, i); }
  }

  lemma ContainerCounts(t: Table, d: int, ip: int)
    requires Tree(t) && LiveDir(t, d) && d != ROOT
    ensures LiveDir(t, Up(t, d)) && Share(t[Up(t, d)], d) >= 1
  {
    assert Contained(t, d) && DirShape(t, Up(t, d));
    var k :| NamedAt(t, Up(t, d), k, d);
    EntryCounts(t, Up(t, d), k);
  }

  // ---------------------------------------------------------------- the counts after unlink

  lemma UnlinkCounts(s: State, dp: int, name: string, i: int)
    requires Inv(s) && Target(s.t, dp, name) != -1 && 0 < i
    ensures var ip := Target(s.t, dp, name);
            Refs(Unlinked(s.t, dp, name), i) ==
            Refs(s.t, i) - (if i == ip then 1 else 0) - (if IsDir(s.t, ip) && i == dp then 1 else 0)
  {
    hide Inv, Tree, Contained, EntryOk, DirShape, Doomed, Lookup, Names, Refs;
    var t, ip := s.t, Target(s.t, dp, name);
    var ents := t[dp].ents;
    var k := Lookup(ents, name);
    TargetDoomed(t, dp, name) by { InvTree(s); }
    DoomedFacts(t, dp, k, ip);
    var t1 := SetEnts(t, dp, ents[k := NoEntry]);
    NamesPut(ents, k, NoEntry, i);
    RefsUpdate(t, dp, t[dp].(ents := ents[k := NoEntry]), i);
    assert Refs(t1, i) + (if i == ip then 1 else 0) == Refs(t, i);
    if IsDir(t, ip) {
      EmptyDirCounts(s, dp, k, ip);
      var t2 := AddLinks(t1, dp, -1);
      RefsUpdate(t1, dp, t1[dp].(nlink := t1[dp].nlink - 1), i);
      assert Refs(t2, i) == Refs(t1, i);
      EmptyNames(t, ip, i);
      RefsUpdate(t2, ip, t2[ip].(nlink := 0), i);
    } else {
      RefsUpdate(t1, ip, t1[ip].(nlink := t1[ip].nlink - 1), i);
    }
  }

  lemma InvTree(s: State)
    requires Inv(s)
    ensures Tree(s.t)
  {}

  lemma DoomedFacts(t: Table, dp: int, k: int, ip: int)
    requires Doomed(t, dp, k, ip)
    ensures 0 < dp < |t| && 0 < ip < |t| && t[dp].kind == Dir && t[dp].nlink > 0 && 2 <= k < |t[dp].ents| && t[dp].ents[k].inum == ip
    ensures t[dp].ents[k].name != "." && DirShape(t, dp) && ip != dp && ip != ROOT && InUse(t, ip)
    ensures IsDir(t, ip) ==> DirShape(t, ip) && IsDirEmpty(t[ip].ents) && Up(t, ip) == dp && LiveDir(t, ip)
  {
    assert DirShape(t, dp);
    BehindDots(t, dp, k);
  }

  // ---------------------------------------------------------------- the tree after unlink

  /** u is t without the entry, and without the directory it named. */
  ghost predicate Removes(t: Table, u: Table, dp: int, k: int, ip: int) {
    && Doomed(t, dp, k, ip) && |u| == |t|
    && (forall i :: 0 <= i < |t| && i != dp && i != ip ==> u[i] == t[i])
    && LiveDir(u, dp) && u[dp].ents == t[dp].ents[k := NoEntry]
    && u[ip].kind == t[ip].kind && u[ip].ents == t[ip].ents && (IsDir(t, ip) ==> u[ip].nlink == 0)
  }

  lemma UnlinkRemoves(s: State, dp: int, name: string)
    requires Inv(s) && Target(s.t, dp, name) != -1
    ensures Removes(s.t, Unlinked(s.t, dp, name), dp, Lookup(s.t[dp].ents, name), Target(s.t, dp, name))
  {
    var k, ip := Lookup(s.t[dp].ents, name), Target(s.t, dp, name);
    TargetDoomed(s.t, dp, name);
    if IsDir(s.t, ip) { EmptyDirCounts(s, dp, k, ip); }
  }

  lemma RemovesDirs(t: Table, u: Table, dp: int, k: int, ip: int, d: int)
    requires Removes(t, u, dp, k, ip)
    ensures IsDir(u, d) == IsDir(t, d) && InUse(u, d) == InUse(t, d) && Up(u, d) == Up(t, d)
    ensures LiveDir(u, d) == (LiveDir(t, d) && d != ip)
  {}

  lemma RemovesShape(t: Table, u: Table, dp: int, k: int, ip: int, d: int)
    requires Removes(t, u, dp, k, ip) && IsDir(u, d)
    ensures DirShape(u, d)
  {
    assert DirShape(t, d);
  }

  lemma RemovesContained(t: Table, u: Table, dp: int, k: int, ip: int, d: int)
    requires Removes(t, u, dp, k, ip) && LiveDir(u, d)
    ensures LiveDir(u, Up(u, d)) && Contained(u, d)
  {
    RemovesDirs(t, u, dp, k, ip, d);
    assert LiveDir(t, Up(t, d)) && Contained(t, d);
    if IsDir(t, ip) { NoChildren(t, ip, d); }
    RemovesDirs(t, u, dp, k, ip, Up(t, d));
    if d != ROOT {
      var m :| NamedAt(t, Up(t, d), m, d);
      assert NamedAt(u, Up(u, d), m, d);
    }
  }

  lemma RemovesEntry(t: Table, u: Table, dp: int, k: int, ip: int, d: int, m: int)
    requires Removes(t, u, dp, k, ip) && LiveDir(u, d) && 2 <= m < |u[d].ents|
    ensures EntryOk(u, d, m)
  {
    RemovesDirs(t, u, dp, k, ip, d);
    var i := u[d].ents[m].inum;
    if i != 0 {
      RemovesDirs(t, u, dp, k, ip, i);
      assert EntryOk(t, d, m) && EntryOk(t, dp, k);
    }
  }

  lemma RemovesTree(t: Table, u: Table, dp: int, k: int, ip: int)
    requires Removes(t, u, dp, k, ip)
    ensures Tree(u)
  {
    hide DirShape, EntryOk, Contained;
    RemovesDirs(t, u, dp, k, ip, ROOT);
    forall d | IsDir(u, d) ensures DirShape(u, d) { RemovesShape(t, u, dp, k, ip, d); }
    forall d | LiveDir(u, d) ensures LiveDir(u, Up(u, d)) && Contained(u, d) { RemovesContained(t, u, dp, k, ip, d); }
    forall d | IsDir(u, d) && !LiveDir(u, d) ensures IsDirEmpty(u[d].ents) { RemovesDirs(t, u, dp, k, ip, d); }
    forall d, m | LiveDir(u, d) && 2 <= m < |u[d].ents| ensures EntryOk(u, d, m) { RemovesEntry(t, u, dp, k, ip, d, m); }
  }

  /** The count of the inode that unlink finds is at least 1: the panic in sys_unlink is out of reach. */
  lemma NoUnlinkPanic(s: State, dp: int, name: string)
    requires Inv(s) && Target(s.t, dp, name) != -1
    ensures var ip := Target(s.t, dp, name); InUse(s.t, ip) && s.t[ip].nlink >= 1
  {
    var ip := Target(s.t, dp, name);
    var k := Lookup(s.t[dp].ents, name);
    TargetDoomed(s.t, dp, name);
    DoomedFacts(s.t, dp, k, ip);
    EntryCounts(s.t, dp, k);
    RefsOne(s.t, dp, ip);
    assert CountOk(s, ip);
  }

  lemma UnlinkKeeps(s: State, dp: int, name: string)
    requires Inv(s)
    ensures Inv(s.(t := Unlinked(s.t, dp, name)))
  {
    hide Tree, Refs, Removes, Doomed, Unlinked, Target;
    var u := s.(t := Unlinked(s.t, dp, name));
    var ip := Target(s.t, dp, name);
    if ip == -1 {
      NoTarget(s.t, dp, name);
    } else {
      UnlinkedInodes(s, dp, name);
      UnlinkRemoves(s, dp, name);
      RemovesTree(s.t, u.t, dp, Lookup(s.t[dp].ents, name), ip);
      forall i | 0 < i < |u.t| ensures CountOk(u, i) {
        UnlinkCounts(s, dp, name, i);
        assert CountOk(s, i);
      }
      forall i | i in u.pending ensures InUse(u.t, i) && !IsDir(u.t, i) { assert i in s.pending; }
    }
  }

  lemma NoTarget(t: Table, dp: int, name: string)
    requires Target(t, dp, name) == -1
    ensures Unlinked(t, dp, name) == t
  {}

  lemma UnlinkedInodes(s: State, dp: int, name: string)
    requires Inv(s) && Target(s.t, dp, name) != -1
    ensures var u := Unlinked(s.t, dp, name); var ip := Target(s.t, dp, name);
            |u| == |s.t| && 0 < ip < |u| && 0 < dp < |u| && ip != dp && InUse(s.t, ip) && IsDir(s.t, dp)
            && (forall i :: 0 <= i < |u| ==>
                  u[i].kind == s.t[i].kind
                  && u[i].nlink == s.t[i].nlink - (if i == ip then 1 else 0) - (if IsDir(s.t, ip) && i == dp then 1 else 0))
  {
    TargetDoomed(s.t, dp, name);
    DoomedFacts(s.t, dp, Lookup(s.t[dp].ents, name), Target(s.t, dp, name));
  }

  // ---------------------------------------------------------------- unlink, entry by entry

  /** Entry k is one that unlink(name) takes out of dp: in use, under that name, which is neither dot, and not
      of a directory with an entry behind its own dots. */
  ghost predicate Removable(t: Table, dp: int, name: string, k: int) {
    && 0 < dp < |t| && t[dp].kind == Dir && 0 <= k < |t[dp].ents|
    && t[dp].ents[k].inum != 0 && t[dp].ents[k].name == name && name != "." && name != ".."
    && var ip := t[dp].ents[k].inum;
       0 < ip < |t| && (t[ip].kind == Dir ==> forall m :: 2 <= m < |t[ip].ents| ==> t[ip].ents[m].inum == 0)
  }

  /** Entry k of dp is empty, its inode has one link fewer, and dp too if it was a directory. */
  ghost predicate TakenOut(t: Table, u: Table, dp: int, k: int)
    requires 0 <= dp < |t| && 0 <= k < |t[dp].ents|
  {
    var ip := t[dp].ents[k].inum;
    && |u| == |t| && ip != dp && 0 < ip < |t|
    && u[dp].kind == Dir && u[dp].ents == t[dp].ents[k := Dirent(0, "")]
    && u[dp].nlink == t[dp].nlink - (if t[ip].kind == Dir then 1 else 0)
    && u[ip] == t[ip].(nlink := t[ip].nlink - 1)
    && forall i :: 0 <= i < |t| && i != dp && i != ip ==> u[i] == t[i]
  }

  lemma TargetTakenOut(t: Table, dp: int, name: string)
    requires var ip := Target(t, dp, name); ip != -1 && ip != dp && 0 < ip < |t|
    ensures TakenOut(t, Unlinked(t, dp, name), dp, Lookup(t[dp].ents, name))
  {
    hide Lookup;
  }

  /** A name is there once. */
  lemma OneEntry(t: Table, dp: int, name: string, k: int)
    requires 0 < dp < |t| && DirShape(t, dp) && 0 <= k < |t[dp].ents| && t[dp].ents[k].inum != 0 && t[dp].ents[k].name == name
    ensures Lookup(t[dp].ents, name) == k
  {}

  /** unlink removes a name if and only if there is an entry to take out; then it takes out that entry. */
  lemma UnlinkExact(s: State, dp: int, name: string)
    requires Inv(s) && IsDir(s.t, dp)
    ensures Target(s.t, dp, name) != -1 <==> exists k :: Removable(s.t, dp, name, k)
    ensures Target(s.t, dp, name) != -1 ==>
              var k := Lookup(s.t[dp].ents, name);
              Removable(s.t, dp, name, k) && TakenOut(s.t, Unlinked(s.t, dp, name), dp, k)
  {
    hide Refs, TakenOut, Doomed, EntryOk, Contained, Unlinked;
    assert DirShape(s.t, dp);
    var k := Lookup(s.t[dp].ents, name);
    if Target(s.t, dp, name) != -1 {
      TargetDoomed(s.t, dp, name);
      DoomedFacts(s.t, dp, k, Target(s.t, dp, name));
      assert Removable(s.t, dp, name, k);
      TargetTakenOut(s.t, dp, name);
    }
    if m :| Removable(s.t, dp, name, m) {
      OneEntry(s.t, dp, name, m);
    }
  }

  /** And then the name is gone. */
  lemma NameGone(t: Table, u: Table, dp: int, name: string, k: int)
    requires 0 < dp < |t| && DirShape(t, dp) && Removable(t, dp, name, k) && TakenOut(t, u, dp, k)
    ensures forall m :: 0 <= m < |u[dp].ents| && u[dp].ents[m].inum != 0 ==> u[dp].ents[m].name != name
  {
    forall m | 0 <= m < |u[dp].ents| && u[dp].ents[m].inum != 0 ensures u[dp].ents[m].name != name {
      if u[dp].ents[m].name == name {
        OneEntry(t, dp, name, k);
        OneEntry(t, dp, name, m);
      }
    }
  }

  // ---------------------------------------------------------------- every run

  lemma StepKeeps(s: State, e: Event)
    requires Inv(s)
    ensures Inv(Apply(s, e))
  {
    hide Inv, Unlinked, Created;
    if Enabled(s, e) {
      match e
      case LinkStart(ip) => LinkStartKeeps(s, ip);
      case LinkDone(ip, dp, name) => LinkDoneKeeps(s, ip, dp, name);
      case LinkBad(ip) => LinkBadKeeps(s, ip);
      case Unlink(dp, name) => UnlinkKeeps(s, dp, name);
      case Create(dp, name, ip, kind) => CreateKeeps(s, dp, name, ip, kind);
      case Free(ip) => FreeKeeps(s, ip);
    }
  }

  /** In every reachable state, between any two steps of any calls, a count is the number of names plus
      the link calls in between, and the directories form a tree. */
  lemma {:induction false} LinkInvariant(s: State, run: seq<Event>)
    requires Inv(s)
    ensures Inv(Exec(s, run))
    decreases |run|
  {
    if run != [] {
      StepKeeps(s, run[0]);
      LinkInvariant(Apply(s, run[0]), run[1..]);
    }
  }

  /** When no link call is under way, each inode in use has as many links as names, and nothing names an
      inode that is free. */
  lemma AtRest(s: State, run: seq<Event>, i: int)
    requires Inv(s) && Exec(s, run).pending == multiset{} && 0 < i < |Exec(s, run).t|
    ensures var t := Exec(s, run).t; if t[i].kind == Unused then Refs(t, i) == 0 else t[i].nlink == Refs(t, i)
  {
    LinkInvariant(s, run);
    assert CountOk(Exec(s, run), i);
  }

  // ---------------------------------------------------------------- everything hangs on the root

  function Climb(t: Table, d: int, n: nat): int
    decreases n
  {
    if n == 0 then d else Climb(t, Up(t, d), n - 1)
  }

  ghost predicate Rooted(t: Table, d: int) { exists n: nat :: Climb(t, d, n) == ROOT }

  ghost predicate AllRooted(t: Table) { forall d :: LiveDir(t, d) ==> Rooted(t, d) }

  /** The directories with a name are, but for the one that is new, those of before, and hang where they hung. */
  ghost predicate SameUps(t: Table, u: Table, gone: int) {
    forall d :: LiveDir(t, d) && d != gone ==> Up(u, d) == Up(t, d) && LiveDir(t, Up(t, d)) && Up(t, d) != gone
  }

  lemma {:induction false} ClimbSame(t: Table, u: Table, gone: int, d: int, n: nat)
    requires SameUps(t, u, gone) && LiveDir(t, d) && d != gone
    ensures Climb(u, d, n) == Climb(t, d, n)
    decreases n
  {
    if n > 0 { ClimbSame(t, u, gone, Up(t, d), n - 1); }
  }

  lemma RootedSame(t: Table, u: Table, gone: int, d: int)
    requires SameUps(t, u, gone) && LiveDir(t, d) && d != gone && Rooted(t, d)
    ensures Rooted(u, d)
  {
    var n: nat :| Climb(t, d, n) == ROOT;
    ClimbSame(t, u, gone, d, n);
  }

  lemma AddsRooted(t: Table, u: Table, dp: int, name: string, ip: int)
    requires Adds(t, u, dp, name, ip) && AllRooted(t)
    ensures AllRooted(u)
  {
    forall d | LiveDir(t, d) ensures Up(u, d) == Up(t, d) && LiveDir(t, Up(t, d)) && Up(t, d) != 0 {
      AddsDirs(t, u, dp, name, ip, d);
    }
    assert SameUps(t, u, 0);
    forall d | LiveDir(u, d) ensures Rooted(u, d) {
      AddsDirs(t, u, dp, name, ip, d);
      if d == ip {
        RootedSame(t, u, 0, dp);
        var n: nat :| Climb(u, dp, n) == ROOT;
        assert Climb(u, ip, n + 1) == ROOT;
      } else {
        RootedSame(t, u, 0, d);
      }
    }
  }

  lemma RemovesRooted(t: Table, u: Table, dp: int, k: int, ip: int)
    requires Removes(t, u, dp, k, ip) && AllRooted(t)
    ensures AllRooted(u)
  {
    forall d | LiveDir(t, d) && d != ip ensures Up(u, d) == Up(t, d) && LiveDir(t, Up(t, d)) && Up(t, d) != ip {
      RemovesDirs(t, u, dp, k, ip, d);
      if IsDir(t, ip) { NoChildren(t, ip, d); }
    }
    assert SameUps(t, u, ip);
    forall d | LiveDir(u, d) ensures Rooted(u, d) {
      RemovesDirs(t, u, dp, k, ip, d);
      RootedSame(t, u, ip, d);
    }
  }

  /** Files and directories without a name come and go without the tree noticing. */
  lemma QuietRooted(t: Table, u: Table)
    requires Tree(t) && AllRooted(t) && forall d :: LiveDir(u, d) == LiveDir(t, d) && (LiveDir(t, d) ==> Up(u, d) == Up(t, d))
    ensures AllRooted(u)
  {
    assert SameUps(t, u, 0);
    forall d | LiveDir(u, d) ensures Rooted(u, d) { RootedSame(t, u, 0, d); }
  }

  lemma StepRooted(s: State, e: Event)
    requires Inv(s) && AllRooted(s.t)
    ensures AllRooted(Apply(s, e).t)
  {
    hide Tree, AllRooted, Adds, Removes, Created, Unlinked, Target, Counted, Lookup, Dirlink;
    if Enabled(s, e) {
      match e
      case LinkDone(ip, dp, name) =>
        LinkDoneAdds(s, ip, dp, name);
        AddsRooted(s.t, Apply(s, e).t, dp, name, ip);
      case Create(dp, name, ip, kind) =>
        CreateAdds(s, dp, name, ip, kind);
        AddsRooted(s.t, Apply(s, e).t, dp, name, ip);
      case Unlink(dp, name) =>
        if Target(s.t, dp, name) == -1 {
          NoTarget(s.t, dp, name);
        } else {
          UnlinkRemoves(s, dp, name);
          RemovesRooted(s.t, Apply(s, e).t, dp, Lookup(s.t[dp].ents, name), Target(s.t, dp, name));
        }
      case LinkStart(ip) => QuietRooted(s.t, Apply(s, e).t);
      case LinkBad(ip) => QuietRooted(s.t, Apply(s, e).t);
      case Free(ip) => QuietRooted(s.t, Apply(s, e).t);
    }
  }

  /** From every directory with a name the ".." entries lead to the root, in every reachable state. */
  lemma {:induction false} RootReached(s: State, run: seq<Event>)
    requires Inv(s) && AllRooted(s.t)
    ensures AllRooted(Exec(s, run).t)
    decreases |run|
  {
    if run != [] {
      StepKeeps(s, run[0]);
      StepRooted(s, run[0]);
      RootReached(Apply(s, run[0]), run[1..]);
    }
  }

  // ---------------------------------------------------------------- a fresh file system

  /** What mkfs leaves: the root, named by its own "..", and n unused inodes. */
  function Fresh(n: nat): Table {
    [Inode(Unused, 0, []), Inode(Dir, 1, Dots(ROOT, ROOT))] + seq(n, _ => Inode(Unused, 0, []))
  }

  lemma FreshGood(n: nat)
    ensures Inv(State(Fresh(n), multiset{})) && AllRooted(Fresh(n))
  {
    var t := Fresh(n);
    var s := State(t, multiset{});
    assert Up(t, ROOT) == ROOT;
    assert forall d :: IsDir(t, d) ==> d == ROOT;
    forall i | 0 < i < |t| ensures CountOk(s, i) {
      RefsOnly(t, ROOT, i);
      DotsNames(ROOT, ROOT, i);
    }
    assert Climb(t, ROOT, 0) == ROOT;
  }
}
