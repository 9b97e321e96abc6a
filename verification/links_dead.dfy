/** Names put into a directory that has been unlinked: create and link of OS/xv6-public/sysfile.c look the
    directory up by path, which "." of a working directory still does after rmdir, and do not test its count. */
module LinksDead {
  import opened LinksTree
  import opened LinksSafety
  import opened LinksUnlink

  /** A directory somebody still has open, without a name. */
  predicate DeadDir(t: Table, i: int) { IsDir(t, i) && t[i].nlink <= 0 }

  /** What create does, whether or not dp has a name. */
  ghost predicate Creatable(s: State, dp: int, name: string, ip: int, kind: Kind) {
    IsDir(s.t, dp) && 0 < ip < |s.t| && s.t[ip].kind == Unused && kind != Unused && Lookup(s.t[dp].ents, name) == -1
  }

  function Create(s: State, dp: int, name: string, ip: int, kind: Kind): State { s.(t := Created(s.t, dp, name, ip, kind)) }

  /** What a whole link call does when it succeeds. */
  function Link(s: State, ip: int, dp: int, name: string): State
    requires 0 <= dp < |s.t|
  {
    s.(t := SetEnts(AddLinks(s.t, ip, 1), dp, Dirlink(s.t[dp].ents, name, ip)))
  }

  lemma DeadFacts(s: State, dp: int)
    requires Inv(s) && DeadDir(s.t, dp)
    ensures s.t[dp].nlink == 0 && Refs(s.t, dp) == 0 && DirShape(s.t, dp) && IsDirEmpty(s.t[dp].ents)
  {
    assert CountOk(s, dp);
  }

  /** No directory with a name has an entry for it. */
  lemma DeadUnnamed(s: State, dp: int, d: int, k: int)
    requires Inv(s) && DeadDir(s.t, dp)
    ensures !NamedAt(s.t, d, k, dp)
  {
    DeadFacts(s, dp);
    if NamedAt(s.t, d, k, dp) { NoName(s.t, dp, d, k); }
  }

  /** A directory made in a dead one makes it count as alive, though nothing contains it. */
  lemma DeadParentLoose(s: State, dp: int, name: string, ip: int, kind: Kind)
    requires Inv(s) && DeadDir(s.t, dp) && Creatable(s, dp, name, ip, kind) && dp != ROOT
    ensures !Contained(Created(s.t, dp, name, ip, kind), dp)
  {
    hide Tree, Refs;
    var u := Created(s.t, dp, name, ip, kind);
    CreatedInodes(s.t, dp, name, ip, kind);
    DeadFacts(s, dp);
    DirlinkShape(s.t, dp, name, ip);
    assert u[dp].ents == Dirlink(s.t[dp].ents, name, ip);
    forall k ensures !NamedAt(u, Up(u, dp), k, dp) {
      DeadUnnamed(s, dp, Up(u, dp), k);
    }
  }

  /** create keeps counts and tree if and only if the directory still has a name. */
  lemma CreateKeepsIff(s: State, dp: int, name: string, ip: int, kind: Kind)
    requires Inv(s) && Creatable(s, dp, name, ip, kind)
    ensures Inv(Create(s, dp, name, ip, kind)) <==> s.t[dp].nlink > 0
  {
    var u := Create(s, dp, name, ip, kind);
    if s.t[dp].nlink > 0 {
      assert u == Apply(s, Event.Create(dp, name, ip, kind));
      CreateKeeps(s, dp, name, ip, kind);
    } else {
      DeadBreaks(s, dp, name, ip, kind);
    }
  }

  lemma DeadBreaks(s: State, dp: int, name: string, ip: int, kind: Kind)
    requires Inv(s) && Creatable(s, dp, name, ip, kind) && s.t[dp].nlink <= 0
    ensures !Tree(Create(s, dp, name, ip, kind).t)
  {
    hide Refs, Counted, Contained;
    var u := Create(s, dp, name, ip, kind);
    CreatedInodes(s.t, dp, name, ip, kind);
    DeadFacts(s, dp);
    DirlinkShape(s.t, dp, name, ip);
    assert LiveDir(s.t, ROOT);
    if kind == Dir {
      DeadParentLoose(s, dp, name, ip, kind);
      assert LiveDir(u.t, dp);
    } else {
      assert !LiveDir(u.t, dp) && IsDir(u.t, dp) && u.t[dp].ents[Slot(s.t[dp].ents)].inum == ip;
    }
  }

  lemma LinkStarted(s: State, ip: int, dp: int)
    requires Inv(s) && InUse(s.t, ip) && !IsDir(s.t, ip) && IsDir(s.t, dp)
    ensures var u := Apply(s, LinkStart(ip)); Inv(u) && ip in u.pending && u.t[dp] == s.t[dp] && u.pending - multiset{ip} == s.pending
  {
    LinkStartKeeps(s, ip);
  }

  /** And so does link. */
  lemma LinkKeepsIff(s: State, ip: int, dp: int, name: string)
    requires Inv(s) && InUse(s.t, ip) && !IsDir(s.t, ip) && IsDir(s.t, dp) && Lookup(s.t[dp].ents, name) == -1
    ensures Inv(Link(s, ip, dp, name)) <==> s.t[dp].nlink > 0
  {
    hide Inv, Lookup, Dirlink;
    var u := Link(s, ip, dp, name);
    if s.t[dp].nlink > 0 {
      LinkStarted(s, ip, dp);
      var m := Apply(s, LinkStart(ip));
      assert u == Apply(m, LinkDone(ip, dp, name));
      LinkDoneKeeps(m, ip, dp, name);
    } else {
      DeadLinkBreaks(s, ip, dp, name);
    }
  }

  lemma DeadLinkBreaks(s: State, ip: int, dp: int, name: string)
    requires Inv(s) && InUse(s.t, ip) && !IsDir(s.t, ip) && IsDir(s.t, dp) && Lookup(s.t[dp].ents, name) == -1 && s.t[dp].nlink <= 0
    ensures !Inv(Link(s, ip, dp, name))
  {
    hide Refs, Counted, Contained;
    var u := Link(s, ip, dp, name);
    DeadFacts(s, dp);
    DirlinkShape(s.t, dp, name, ip);
    assert !LiveDir(u.t, dp) && IsDir(u.t, dp) && u.t[dp].ents[Slot(s.t[dp].ents)].inum == ip;
  }

  /** A file made in a dead directory is lost when the directory is freed: it has a link for ever, and no name. */
  lemma FileLost(s: State, dp: int, name: string, ip: int, kind: Kind)
    requires Inv(s) && DeadDir(s.t, dp) && Creatable(s, dp, name, ip, kind) && kind != Dir
    ensures var u := Create(s, dp, name, ip, kind);
            Enabled(u, Free(dp)) && var v := Apply(u, Free(dp));
            |v.t| == |s.t| && v.t[ip] == Inode(kind, 1, []) && Refs(v.t, ip) == 0 && v.pending[ip] == 0
  {
    var u := Create(s, dp, name, ip, kind);
    DeadFacts(s, dp);
    assert CountOk(s, ip);
    var x := Inode(kind, 1, []);
    RefsUpdate(s.t, ip, x, ip);
    var t1 := s.t[ip := x];
    var y := t1[dp].(ents := Dirlink(t1[dp].ents, name, ip));
    RefsUpdate(t1, dp, y, ip);
    assert u.t == t1[dp := y];
    RefsUpdate(u.t, dp, Inode(Unused, 0, []), ip);
  }

  lemma LookupNew(name: string)
    requires name != "." && name != ".."
    ensures Lookup(Dots(ROOT, ROOT), name) == -1 && Dirlink(Dots(ROOT, ROOT), name, 2) == Dots(ROOT, ROOT) + [Dirent(2, name)]
    ensures Lookup(Dots(ROOT, ROOT) + [Dirent(2, name)], name) == 2
    ensures Lookup(Dots(2, ROOT), name) == -1
  {
    SlotFull(Dots(ROOT, ROOT));
  }

  lemma SlotFull(ents: seq<Dirent>)
    requires forall j :: 0 <= j < |ents| ==> ents[j].inum != 0
    ensures Slot(ents) == |ents|
  {}

  const Nothing: Inode := Inode(Unused, 0, [])

  /** The tables behind mkdir and behind rmdir. */
  function Made(name: string): Table {
    [Nothing, Inode(Dir, 2, Dots(ROOT, ROOT) + [Dirent(2, name)]), Inode(Dir, 1, Dots(2, ROOT)), Nothing]
  }

  function Removed(): Table {
    [Nothing, Inode(Dir, 1, Dots(ROOT, ROOT) + [NoEntry]), Inode(Dir, 0, Dots(2, ROOT)), Nothing]
  }

  lemma MakeDir(name: string)
    requires name != "." && name != ".."
    ensures Apply(State(Fresh(2), multiset{}), Event.Create(ROOT, name, 2, Dir)) == State(Made(name), multiset{})
  {
    hide Lookup, Dirlink;
    LookupNew(name);
  }

  lemma RemoveDir(name: string)
    requires name != "." && name != ".."
    ensures Apply(State(Made(name), multiset{}), Unlink(ROOT, name)) == State(Removed(), multiset{})
  {
    hide Lookup, Dirlink;
    LookupNew(name);
    var t := Made(name);
    assert Target(t, ROOT, name) == 2;
    var ents := t[ROOT].ents[2 := NoEntry];
    assert ents == Dots(ROOT, ROOT) + [NoEntry];
    var t1 := SetEnts(t, ROOT, ents);
    assert AddLinks(AddLinks(t1, ROOT, -1), 2, -1) == Removed();
  }

  /** Such a directory is easy to come by: mkdir d, and rmdir d by somebody else. */
  lemma DeadReachable(name: string)
    requires name != "." && name != ".."
    ensures var run := [Event.Create(ROOT, name, 2, Dir), Unlink(ROOT, name)];
            var s := Exec(State(Fresh(2), multiset{}), run);
            Inv(s) && DeadDir(s.t, 2) && Creatable(s, 2, name, 3, File)
  {
    hide Apply, Lookup, Inv;
    var s0 := State(Fresh(2), multiset{});
    var a, b := Event.Create(ROOT, name, 2, Dir), Unlink(ROOT, name);
    FreshGood(2);
    LinkInvariant(s0, [a, b]);
    assert [a, b][1..] == [b] && [b][1..] == [];
    MakeDir(name);
    RemoveDir(name);
    LookupNew(name);
    assert Exec(s0, [a, b]) == Exec(State(Made(name), multiset{}), [b]) == Exec(State(Removed(), multiset{}), []);
  }
}
