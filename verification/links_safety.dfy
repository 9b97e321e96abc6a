/** In every run of link, unlink, create and iput, each link count is the number of names of its inode,
    and the directories form a tree below the root. */
module LinksSafety {
  import opened LinksTree

  // ---------------------------------------------------------------- counting

  lemma {:induction false} NamesPut(ents: seq<Dirent>, k: nat, e: Dirent, i: int)
    requires k <= |ents|
    ensures Names(Put(ents, k, e), i) + (if k < |ents| then One(ents[k], i) else 0) == Names(ents, i) + One(e, i)
  {
    var n := |ents| - 1;
    if k == |ents| {
      assert (ents + [e])[..|ents|] == ents;
    } else if k == n {
      assert ents[k := e][..n] == ents[..n];
    } else {
      assert ents[k := e][..n] == ents[..n][k := e];
      NamesPut(ents[..n], k, e, i);
    }
  }

  lemma {:induction false} RefsUpdate(t: Table, d: int, x: Inode, i: int)
    requires 0 <= d < |t|
    ensures Refs(t[d := x], i) + Share(t[d], i) == Refs(t, i) + Share(x, i)
  {
    var n := |t| - 1;
    if d == n {
      assert t[d := x][..n] == t[..n];
    } else {
      assert t[d := x][..n] == t[..n][d := x];
      RefsUpdate(t[..n], d, x, i);
    }
  }

  lemma {:induction false} RefsOne(t: Table, d: int, i: int)
    requires 0 <= d < |t|
    ensures Refs(t, i) >= Share(t[d], i)
  {
    if d < |t| - 1 { RefsOne(t[..|t| - 1], d, i); }
  }

  lemma {:induction false} RefsTwo(t: Table, d: int, e: int, i: int)
    requires 0 <= d < e < |t|
    ensures Refs(t, i) >= Share(t[d], i) + Share(t[e], i)
  {
    if e < |t| - 1 { RefsTwo(t[..|t| - 1], d, e, i); } else { RefsOne(t[..|t| - 1], d, i); }
  }

  lemma {:induction false} RefsOnly(t: Table, d: int, i: int)
    requires forall e :: 0 <= e < |t| && e != d ==> Share(t[e], i) == 0
    ensures Refs(t, i) == if 0 <= d < |t| then Share(t[d], i) else 0
  {
    if t != [] {
      var r := t[..|t| - 1];
      assert forall e :: 0 <= e < |r| ==> r[e] == t[e];
      RefsOnly(r, d, i);
    }
  }

  lemma {:induction false} NamesOnly(ents: seq<Dirent>, k: int, i: int)
    requires forall m :: 0 <= m < |ents| && m != k ==> One(ents[m], i) == 0
    ensures Names(ents, i) == if 0 <= k < |ents| then One(ents[k], i) else 0
  {
    if ents != [] {
      var r := ents[..|ents| - 1];
      assert forall m :: 0 <= m < |r| ==> r[m] == ents[m];
      NamesOnly(r, k, i);
    }
  }

  lemma {:induction false} NamesAtLeast(ents: seq<Dirent>, k: int, i: int)
    requires 0 <= k < |ents|
    ensures Names(ents, i) >= One(ents[k], i)
  {
    if k < |ents| - 1 { NamesAtLeast(ents[..|ents| - 1], k, i); }
  }

  // ---------------------------------------------------------------- small facts about directories

  lemma BehindDots(t: Table, d: int, k: int)
    requires 0 <= d < |t| && DirShape(t, d) && d != 0 && 2 <= k < |t[d].ents| && t[d].ents[k].inum != 0
    ensures t[d].ents[k].name != "." && t[d].ents[k].name != ".."
  {}

  /** An entry behind the dots counts. */
  lemma EntryCounts(t: Table, d: int, k: int)
    requires LiveDir(t, d) && DirShape(t, d) && 2 <= k < |t[d].ents| && t[d].ents[k].inum != 0
    ensures Share(t[d], t[d].ents[k].inum) >= 1
  {
    BehindDots(t, d, k);
    NamesAtLeast(t[d].ents, k, t[d].ents[k].inum);
  }

  /** And so does "..". */
  lemma UpCounts(t: Table, d: int)
    requires LiveDir(t, d) && DirShape(t, d)
    ensures Share(t[d], Up(t, d)) >= 1
  {
    NamesAtLeast(t[d].ents, 1, Up(t, d));
  }

  lemma SlotBehindDots(t: Table, d: int)
    requires 0 < d < |t| && DirShape(t, d)
    ensures Slot(t[d].ents) >= 2
  {}

  lemma NewNameNotDots(t: Table, d: int, name: string)
    requires 0 < d < |t| && DirShape(t, d) && Lookup(t[d].ents, name) == -1
    ensures name != "." && name != ".."
  {
    assert t[d].ents[0] == Dirent(d, ".") && t[d].ents[1].name == "..";
  }

  // ---------------------------------------------------------------- the tree does not change

  /** Same kinds and entries; directories have the same counts. */
  ghost predicate SameTree(a: Table, b: Table) {
    |a| == |b| && forall i :: 0 <= i < |a| ==>
      a[i].kind == b[i].kind && a[i].ents == b[i].ents && (a[i].kind == Dir ==> a[i].nlink == b[i].nlink)
  }

  lemma SameTreeKeeps(a: Table, b: Table)
    requires Tree(a) && SameTree(a, b)
    ensures Tree(b)
  {
    assert forall d :: LiveDir(b, d) == LiveDir(a, d) && IsDir(b, d) == IsDir(a, d) && Up(b, d) == Up(a, d) && InUse(b, d) == InUse(a, d);
    forall d | IsDir(b, d) ensures DirShape(b, d) { assert DirShape(a, d); }
    forall d | LiveDir(b, d) ensures LiveDir(b, Up(b, d)) && Contained(b, d) {
      assert LiveDir(a, Up(a, d)) && Contained(a, d);
      if d != ROOT {
        var k :| NamedAt(a, Up(a, d), k, d);
        assert NamedAt(b, Up(b, d), k, d);
      }
    }
    forall d, k | LiveDir(b, d) && 2 <= k < |b[d].ents| ensures EntryOk(b, d, k) { assert EntryOk(a, d, k); }
  }

  lemma {:induction false} SameTreeRefs(a: Table, b: Table, i: int)
    requires SameTree(a, b)
    ensures Refs(a, i) == Refs(b, i)
  {
    if a != [] {
      var n := |a| - 1;
      assert forall j :: 0 <= j < n ==> a[..n][j] == a[j] && b[..n][j] == b[j];
      SameTreeRefs(a[..n], b[..n], i);
    }
  }

  lemma LinkStartKeeps(s: State, ip: int)
    requires Inv(s) && Enabled(s, LinkStart(ip))
    ensures Inv(Apply(s, LinkStart(ip)))
  {
    var u := Apply(s, LinkStart(ip));
    SameTreeKeeps(s.t, u.t);
    forall i | 0 < i < |u.t| ensures CountOk(u, i) {
      SameTreeRefs(s.t, u.t, i);
      assert CountOk(s, i);
    }
    forall i | i in u.pending ensures InUse(u.t, i) && !IsDir(u.t, i) {
      assert i == ip || i in s.pending;
    }
  }

  lemma LinkBadKeeps(s: State, ip: int)
    requires Inv(s) && Enabled(s, LinkBad(ip))
    ensures Inv(Apply(s, LinkBad(ip)))
  {
    var u := Apply(s, LinkBad(ip));
    assert InUse(s.t, ip) && !IsDir(s.t, ip);
    SameTreeKeeps(s.t, u.t);
    forall i | 0 < i < |u.t| ensures CountOk(u, i) {
      SameTreeRefs(s.t, u.t, i);
      assert CountOk(s, i);
    }
    forall i | i in u.pending ensures InUse(u.t, i) && !IsDir(u.t, i) {
      assert i in s.pending;
    }
  }

  // ---------------------------------------------------------------- a name is added

  lemma DirlinkCounts(t: Table, dp: int, name: string, ip: int, i: int)
    requires LiveDir(t, dp) && DirShape(t, dp) && name != "." && ip != 0 && 0 < i
    ensures var u := SetEnts(t, dp, Dirlink(t[dp].ents, name, ip));
            Refs(u, i) == Refs(t, i) + if i == ip then 1 else 0
  {
    var ents := t[dp].ents;
    var x := t[dp].(ents := Dirlink(ents, name, ip));
    NamesPut(ents, Slot(ents), Dirent(ip, name), i);
    RefsUpdate(t, dp, x, i);
  }

  /** The directory dp after the entry was added. */
  lemma DirlinkShape(t: Table, dp: int, name: string, ip: int)
    requires IsDir(t, dp) && DirShape(t, dp) && Lookup(t[dp].ents, name) == -1
    ensures var u := SetEnts(t, dp, Dirlink(t[dp].ents, name, ip));
            DirShape(u, dp) && Up(u, dp) == Up(t, dp) && 2 <= Slot(t[dp].ents) < |u[dp].ents|
            && u[dp].ents[Slot(t[dp].ents)] == Dirent(ip, name)
            && forall k :: 0 <= k < |u[dp].ents| && k != Slot(t[dp].ents) ==> k < |t[dp].ents| && u[dp].ents[k] == t[dp].ents[k]
  {
    SlotBehindDots(t, dp);
  }

  /** u is t with the name in dp for ip, which is a file, or a new directory under dp. */
  ghost predicate Adds(t: Table, u: Table, dp: int, name: string, ip: int) {
    && Tree(t) && LiveDir(t, dp) && Lookup(t[dp].ents, name) == -1 && ip != dp && InUse(u, ip) && |u| == |t|
    && (forall i :: 0 <= i < |t| && i != dp && i != ip ==> u[i] == t[i])
    && LiveDir(u, dp) && u[dp].ents == Dirlink(t[dp].ents, name, ip)
    && ((!IsDir(u, ip) && !IsDir(t, ip)) || (t[ip].kind == Unused && u[ip] == Inode(Dir, 1, Dots(ip, dp))))
  }

  lemma AddsDirs(t: Table, u: Table, dp: int, name: string, ip: int, d: int)
    requires Adds(t, u, dp, name, ip)
    ensures d != ip ==> IsDir(u, d) == IsDir(t, d) && LiveDir(u, d) == LiveDir(t, d) && Up(u, d) == Up(t, d)
    ensures InUse(t, d) ==> InUse(u, d)
    ensures ip != ROOT && !IsDir(t, ip)
  {
    assert LiveDir(t, ROOT) && DirShape(t, dp);
    DirlinkShape(t, dp, name, ip);
  }

  lemma AddsShape(t: Table, u: Table, dp: int, name: string, ip: int, d: int)
    requires Adds(t, u, dp, name, ip) && IsDir(u, d)
    ensures DirShape(u, d)
  {
    AddsDirs(t, u, dp, name, ip, d);
    if d != ip {
      assert DirShape(t, d);
      DirlinkShape(t, dp, name, ip);
      assert DirShape(SetEnts(t, dp, Dirlink(t[dp].ents, name, ip)), dp);
    }
  }

  lemma AddsContained(t: Table, u: Table, dp: int, name: string, ip: int, d: int)
    requires Adds(t, u, dp, name, ip) && LiveDir(u, d)
    ensures LiveDir(u, Up(u, d)) && Contained(u, d)
  {
    assert DirShape(t, dp);
    DirlinkShape(t, dp, name, ip);
    AddsDirs(t, u, dp, name, ip, d);
    if d == ip {
      assert NamedAt(u, Up(u, d), Slot(t[dp].ents), d);
    } else {
      assert LiveDir(t, Up(t, d)) && Contained(t, d);
      AddsDirs(t, u, dp, name, ip, Up(t, d));
      if d != ROOT {
        var k :| NamedAt(t, Up(t, d), k, d);
        assert NamedAt(u, Up(u, d), k, d);
      }
    }
  }

  lemma UnusedUnnamed(t: Table, d: int, ip: int)
    requires Tree(t) && LiveDir(t, d) && 0 < ip < |t| && t[ip].kind == Unused
    ensures forall j :: 2 <= j < |t[d].ents| ==> t[d].ents[j].inum != ip
  {
    forall j | 2 <= j < |t[d].ents| ensures t[d].ents[j].inum != ip { assert EntryOk(t, d, j); }
  }

  lemma AddsEntry(t: Table, u: Table, dp: int, name: string, ip: int, d: int, k: int)
    requires Adds(t, u, dp, name, ip) && LiveDir(u, d) && 2 <= k < |u[d].ents|
    ensures EntryOk(u, d, k)
  {
    assert DirShape(t, dp);
    DirlinkShape(t, dp, name, ip);
    AddsDirs(t, u, dp, name, ip, d);
    if d != ip {
      var i := u[d].ents[k].inum;
      AddsDirs(t, u, dp, name, ip, i);
      if d == dp && k == Slot(t[dp].ents) {
        if IsDir(u, ip) { UnusedUnnamed(t, d, ip); }
      } else {
        assert EntryOk(t, d, k);
      }
    }
  }

  lemma AddsTree(t: Table, u: Table, dp: int, name: string, ip: int)
    requires Adds(t, u, dp, name, ip)
    ensures Tree(u)
  {
    hide DirShape, EntryOk, Contained, Dirlink;
    AddsDirs(t, u, dp, name, ip, ROOT);
    forall d | IsDir(u, d) ensures DirShape(u, d) { AddsShape(t, u, dp, name, ip, d); }
    forall d | LiveDir(u, d) ensures LiveDir(u, Up(u, d)) && Contained(u, d) { AddsContained(t, u, dp, name, ip, d); }
    forall d | IsDir(u, d) && !LiveDir(u, d) ensures IsDirEmpty(u[d].ents) { AddsDirs(t, u, dp, name, ip, d); }
    forall d, k | LiveDir(u, d) && 2 <= k < |u[d].ents| ensures EntryOk(u, d, k) { AddsEntry(t, u, dp, name, ip, d, k); }
  }

  lemma LinkDoneAdds(s: State, ip: int, dp: int, name: string)
    requires Inv(s) && Enabled(s, LinkDone(ip, dp, name))
    ensures Adds(s.t, Apply(s, LinkDone(ip, dp, name)).t, dp, name, ip) && name != "." && DirShape(s.t, dp)
  {
    assert InUse(s.t, ip) && !IsDir(s.t, ip) && DirShape(s.t, dp);
    NewNameNotDots(s.t, dp, name);
  }

  lemma LinkDoneKeeps(s: State, ip: int, dp: int, name: string)
    requires Inv(s) && Enabled(s, LinkDone(ip, dp, name))
    ensures Inv(Apply(s, LinkDone(ip, dp, name)))
  {
    hide Tree, Adds, Refs, DirShape, Lookup, Dirlink;
    var u := Apply(s, LinkDone(ip, dp, name));
    LinkDoneAdds(s, ip, dp, name);
    AddsTree(s.t, u.t, dp, name, ip);
    forall i | 0 < i < |u.t| ensures CountOk(u, i) {
      DirlinkCounts(s.t, dp, name, ip, i);
      assert CountOk(s, i);
    }
    forall i | i in u.pending ensures InUse(u.t, i) && !IsDir(u.t, i) { assert i in s.pending; }
  }

  lemma DotsNames(ip: int, dp: int, i: int)
    ensures Names(Dots(ip, dp), i) == if i == dp then 1 else 0
  {
    var d := Dots(ip, dp);
    var first := [Dirent(ip, ".")];
    assert first[..0] == [] && d[..1] == first && d[..|d| - 1] == first;
    assert Names(first, i) == Names(first[..0], i) + One(first[0], i) == 0;
    assert Names(d, i) == Names(first, i) + One(d[1], i);
  }

  lemma CreateCounts(t: Table, dp: int, name: string, ip: int, kind: Kind, i: int)
    requires LiveDir(t, dp) && DirShape(t, dp) && 0 < ip < |t| && t[ip].kind == Unused && kind != Unused && name != "." && 0 < i
    ensures Refs(Created(t, dp, name, ip, kind), i) ==
            Refs(t, i) + (if i == ip then 1 else 0) + (if kind == Dir && i == dp then 1 else 0)
  {
    var x := Inode(kind, 1, if kind == Dir then Dots(ip, dp) else []);
    var t1 := t[ip := x];
    RefsUpdate(t, ip, x, i);
    DotsNames(ip, dp, i);
    var y := t1[dp].(nlink := t1[dp].nlink + 1);
    var t2 := if kind == Dir then AddLinks(t1, dp, 1) else t1;
    RefsUpdate(t1, dp, y, i);
    assert Refs(t2, i) == Refs(t1, i);
    DirlinkCounts(t2, dp, name, ip, i);
  }

  lemma CreateAdds(s: State, dp: int, name: string, ip: int, kind: Kind)
    requires Inv(s) && Enabled(s, Create(dp, name, ip, kind))
    ensures Adds(s.t, Created(s.t, dp, name, ip, kind), dp, name, ip) && name != "." && DirShape(s.t, dp) && ip !in s.pending
  {
    assert DirShape(s.t, dp) && CountOk(s, ip);
    NewNameNotDots(s.t, dp, name);
  }

  /** Besides dp, whose count grows with a directory, and ip, nothing changes. */
  lemma CreatedInodes(t: Table, dp: int, name: string, ip: int, kind: Kind)
    requires 0 < ip < |t| && 0 < dp < |t| && ip != dp && kind != Unused
    ensures var u := Created(t, dp, name, ip, kind);
            |u| == |t| && u[ip].kind == kind && u[ip].nlink == 1 && u[dp].kind == t[dp].kind
            && u[dp].nlink == t[dp].nlink + (if kind == Dir then 1 else 0)
            && forall i :: 0 <= i < |t| && i != dp && i != ip ==> u[i] == t[i]
  {}

  lemma CreateKeeps(s: State, dp: int, name: string, ip: int, kind: Kind)
    requires Inv(s) && Enabled(s, Create(dp, name, ip, kind))
    ensures Inv(Apply(s, Create(dp, name, ip, kind)))
  {
    hide Tree, Adds, Refs, DirShape, Lookup, Created;
    var u := Apply(s, Create(dp, name, ip, kind));
    CreateAdds(s, dp, name, ip, kind);
    CreatedInodes(s.t, dp, name, ip, kind);
    AddsTree(s.t, u.t, dp, name, ip);
    forall i | 0 < i < |u.t| ensures CountOk(u, i) {
      CreateCounts(s.t, dp, name, ip, kind, i);
      assert CountOk(s, i) && CountOk(s, ip);
    }
    forall i | i in u.pending ensures InUse(u.t, i) && !IsDir(u.t, i) { assert i in s.pending; }
  }

  // ---------------------------------------------------------------- an inode is freed

  /** Nothing names an inode without references. */
  lemma NoName(t: Table, i: int, d: int, k: int)
    requires Tree(t) && 0 < i && Refs(t, i) == 0 && LiveDir(t, d) && 1 <= k < |t[d].ents|
    ensures t[d].ents[k].inum != i
  {
    assert DirShape(t, d);
    RefsOne(t, d, i);
    if t[d].ents[k].inum == i {
      if k == 1 { UpCounts(t, d); } else { EntryCounts(t, d, k); }
    }
  }

  lemma FreeKeeps(s: State, ip: int)
    requires Inv(s) && Enabled(s, Free(ip))
    ensures Inv(Apply(s, Free(ip)))
  {
    var t, u := s.t, Apply(s, Free(ip));
    assert CountOk(s, ip);
    assert Refs(t, ip) == 0 && s.pending[ip] == 0;
    forall i | 0 < i < |t| ensures CountOk(u, i) {
      RefsUpdate(t, ip, Inode(Unused, 0, []), i);
      assert CountOk(s, i);
    }
    FreeTree(t, ip);
    forall i | i in u.pending ensures InUse(u.t, i) && !IsDir(u.t, i) { assert i in s.pending; }
  }

  lemma FreeTree(t: Table, ip: int)
    requires Tree(t) && InUse(t, ip) && !LiveDir(t, ip) && Refs(t, ip) == 0
    ensures Tree(t[ip := Inode(Unused, 0, [])])
  {
    var u := t[ip := Inode(Unused, 0, [])];
    assert LiveDir(t, ROOT);
    assert forall d :: d != ip ==> LiveDir(u, d) == LiveDir(t, d) && IsDir(u, d) == IsDir(t, d) && Up(u, d) == Up(t, d) && InUse(u, d) == InUse(t, d);
    forall d | IsDir(u, d) ensures DirShape(u, d) { assert DirShape(t, d); }
    forall d | LiveDir(u, d) ensures LiveDir(u, Up(u, d)) && Contained(u, d) {
      assert LiveDir(t, Up(t, d)) && Contained(t, d) && Up(t, d) != ip;
      if d != ROOT {
        var k :| NamedAt(t, Up(t, d), k, d);
        assert NamedAt(u, Up(u, d), k, d);
      }
    }
    forall d, k | LiveDir(u, d) && 2 <= k < |u[d].ents| ensures EntryOk(u, d, k) {
      assert EntryOk(t, d, k);
      NoName(t, ip, d, k);
    }
  }
}
