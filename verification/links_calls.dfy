/** dirlookup, dirlink, isdirempty, sys_link, sys_unlink and create as they are written, over the inode
    table. Path names are resolved beforehand: 0 stands for an inode that was not found. */
module LinksCalls {
  import opened LinksTree
  import opened LinksSafety
  import opened LinksUnlink
  import LinksDead

  lemma {:induction false} FirstMatch(ents: seq<Dirent>, name: string, k: int)
    requires 0 <= k < |ents| && ents[k].inum != 0 && ents[k].name == name
    requires forall j :: 0 <= j < k ==> ents[j].inum == 0 || ents[j].name != name
    ensures Lookup(ents, name) == k
  {
    var r := ents[..|ents| - 1];
    assert forall j :: 0 <= j < |r| ==> r[j] == ents[j];
    if k < |r| { FirstMatch(r, name, k); }
  }

  lemma SlotIs(ents: seq<Dirent>, k: nat)
    requires k <= |ents| && (k < |ents| ==> ents[k].inum == 0) && forall j :: 0 <= j < k ==> ents[j].inum != 0
    ensures Slot(ents) == k
  {}

  /** The entry fills the first one that is not in use, or goes to the end if there is none. */
  ghost predicate Entered(a: seq<Dirent>, b: seq<Dirent>, e: Dirent) { exists k :: EnteredAt(a, b, e, k) }

  ghost predicate EnteredAt(a: seq<Dirent>, b: seq<Dirent>, e: Dirent, k: int) {
    0 <= k <= |a| && (forall j :: 0 <= j < k ==> a[j].inum != 0)
    && if k < |a| then a[k].inum == 0 && b == a[k := e] else b == a + [e]
  }

  lemma DirlinkEnters(ents: seq<Dirent>, name: string, inum: int)
    ensures Entered(ents, Dirlink(ents, name, inum), Dirent(inum, name))
  {
    assert EnteredAt(ents, Dirlink(ents, name, inum), Dirent(inum, name), Slot(ents));
  }

  /** ip has one link more, and the name for it in dp. */
  ghost predicate Linked(t: Table, u: Table, ip: int, dp: int, name: string)
    requires 0 <= dp < |t|
  {
    && |u| == |t| && 0 <= ip < |t| && ip != dp && u[ip] == t[ip].(nlink := t[ip].nlink + 1)
    && u[dp] == t[dp].(ents := u[dp].ents) && Entered(t[dp].ents, u[dp].ents, Dirent(ip, name))
    && forall i :: 0 <= i < |t| && i != dp && i != ip ==> u[i] == t[i]
  }

  lemma LinkExact(s: State, ip: int, dp: int, name: string)
    requires 0 <= dp < |s.t| && 0 <= ip < |s.t| && ip != dp
    ensures Linked(s.t, LinksDead.Link(s, ip, dp, name).t, ip, dp, name)
  {
    DirlinkEnters(s.t[dp].ents, name, ip);
    hide Entered, Dirlink;
  }

  /** ip is new, of the kind, with one link, and with its dots if it is a directory, which makes dp a link
      more; and its name is in dp. */
  ghost predicate Made(t: Table, u: Table, dp: int, name: string, ip: int, kind: Kind)
    requires 0 <= dp < |t|
  {
    && |u| == |t| && 0 <= ip < |t| && ip != dp
    && u[ip] == Inode(kind, 1, if kind == Dir then [Dirent(ip, "."), Dirent(dp, "..")] else [])
    && u[dp] == t[dp].(nlink := t[dp].nlink + (if kind == Dir then 1 else 0), ents := u[dp].ents)
    && Entered(t[dp].ents, u[dp].ents, Dirent(ip, name))
    && forall i :: 0 <= i < |t| && i != dp && i != ip ==> u[i] == t[i]
  }

  lemma CreateExact(s: State, dp: int, name: string, ip: int, kind: Kind)
    requires 0 <= dp < |s.t| && 0 <= ip < |s.t| && ip != dp
    ensures Made(s.t, LinksDead.Create(s, dp, name, ip, kind).t, dp, name, ip, kind)
  {
    DirlinkEnters(s.t[dp].ents, name, ip);
    hide Entered, Dirlink;
  }

  class FileTree {
    var t: Table
    ghost var pending: multiset<int>

    ghost function View(): State reads this { State(t, pending) }

    ghost predicate Valid() reads this { Inv(View()) }

    constructor (n: nat)
      ensures Valid() && View() == State(Fresh(n), multiset{})
    {
      t := Fresh(n);
      pending := multiset{};
      new;
      FreshGood(n);
    }

    /** dirlookup: the offset of the entry, in entries; -1 if there is none. */
    method DirLookup(dp: int, name: string) returns (k: int)
      requires 0 <= dp < |t|
      ensures k == Lookup(t[dp].ents, name)
      ensures k == -1 || (0 <= k < |t[dp].ents| && t[dp].ents[k].inum != 0 && t[dp].ents[k].name == name)
      ensures forall j :: 0 <= j < (if k == -1 then |t[dp].ents| else k) ==> t[dp].ents[j].inum == 0 || t[dp].ents[j].name != name
    {
      k := 0;
      while k < |t[dp].ents|
        invariant 0 <= k <= |t[dp].ents|
        invariant forall j :: 0 <= j < k ==> t[dp].ents[j].inum == 0 || t[dp].ents[j].name != name
      {
        if t[dp].ents[k].inum != 0 && t[dp].ents[k].name == name {
          FirstMatch(t[dp].ents, name, k);
          return;
        }
        k := k + 1;
      }
      k := -1;
    }

    /** dirlink: fails exactly if the name is there. */
    method DirLink(dp: int, name: string, inum: int) returns (ok: bool)
      requires 0 <= dp < |t|
      modifies this`t
      ensures ok == (Lookup(old(t)[dp].ents, name) == -1)
      ensures t == if ok then SetEnts(old(t), dp, Dirlink(old(t)[dp].ents, name, inum)) else old(t)
      ensures ok <==> forall k :: 0 <= k < |old(t)[dp].ents| && old(t)[dp].ents[k].inum != 0 ==> old(t)[dp].ents[k].name != name
      ensures ok ==> Entered(old(t)[dp].ents, t[dp].ents, Dirent(inum, name))
    {
      var found := DirLookup(dp, name);
      if found != -1 {
        return false;
      }
      var off := 0;
      while off < |t[dp].ents| && t[dp].ents[off].inum != 0
        invariant 0 <= off <= |t[dp].ents| && forall j :: 0 <= j < off ==> t[dp].ents[j].inum != 0
      {
        off := off + 1;
      }
      SlotIs(t[dp].ents, off);
      DirlinkEnters(t[dp].ents, name, inum);
      t := t[dp := t[dp].(ents := Put(t[dp].ents, off, Dirent(inum, name)))];
      ok := true;
    }

    method DirEmpty(dp: int) returns (empty: bool)
      requires 0 <= dp < |t|
      ensures empty == IsDirEmpty(t[dp].ents)
      ensures empty <==> forall m :: 2 <= m < |t[dp].ents| ==> t[dp].ents[m].inum == 0
    {
      var off := 2;
      while off < |t[dp].ents|
        invariant 2 <= off && forall k :: 2 <= k < off && k < |t[dp].ents| ==> t[dp].ents[k].inum == 0
      {
        if t[dp].ents[off].inum != 0 {
          return false;
        }
        off := off + 1;
      }
      empty := true;
    }

    /** sys_link. ip is what namei found for the old path, dp what nameiparent found for the new one. The
        count of ip goes up first and comes down again on failure. The count of dp is not looked at. */
    method SysLink(ip: int, dp: int, name: string) returns (r: int)
      requires Valid() && (ip == 0 || InUse(t, ip)) && (dp == 0 || IsDir(t, dp))
      modifies this
      ensures r == 0 || r == -1
      ensures r == 0 <==> old(ip != 0 && t[ip].kind != Dir && dp != 0
                              && forall k :: 0 <= k < |t[dp].ents| && t[dp].ents[k].inum != 0 ==> t[dp].ents[k].name != name)
      ensures r == 0 ==> Linked(old(t), t, ip, dp, name)
      ensures r == 0 ==> View() == LinksDead.Link(old(View()), ip, dp, name)
      ensures r == 0 && old(t[dp].nlink) > 0 ==> View() == Exec(old(View()), [LinkStart(ip), LinkDone(ip, dp, name)])
      ensures r == -1 ==> View() == old(View())
      ensures Valid() <==> (r == 0 ==> old(t[dp].nlink) > 0)
    {
      hide Inv, Lookup, Dirlink, Exec, Entered, Linked;
      if ip == 0 || t[ip].kind == Dir {
        return -1;
      }
      ghost var s0 := View();
      t := t[ip := t[ip].(nlink := t[ip].nlink + 1)];
      if dp != 0 {
        var ok := DirLink(dp, name, ip);
        if ok {
          LinkExact(s0, ip, dp, name);
          LinksDead.LinkKeepsIff(s0, ip, dp, name);
          if s0.t[dp].nlink > 0 {
            LinkTwoSteps(s0, ip, dp, name);
          }
          return 0;
        }
      }
      t := t[ip := t[ip].(nlink := t[ip].nlink - 1)];
      return -1;
    }

    /** sys_unlink of a name in dp, a directory; 0 if it was not found. */
    method SysUnlink(dp: int, name: string) returns (r: int)
      requires Valid() && (dp == 0 || IsDir(t, dp))
      modifies this`t
      ensures Valid()
      ensures r == 0 || r == -1
      ensures r == 0 <==> exists k :: Removable(old(t), dp, name, k)
      ensures r == 0 ==> exists k :: Removable(old(t), dp, name, k) && TakenOut(old(t), t, dp, k)
      ensures r == 0 ==> forall m :: 0 <= m < |t[dp].ents| && t[dp].ents[m].inum != 0 ==> t[dp].ents[m].name != name
      ensures r == -1 ==> t == old(t)
      ensures View() == if dp == 0 then old(View()) else Apply(old(View()), Unlink(dp, name))
    {
      hide Inv, Lookup, IsDirEmpty, Removable, TakenOut;
      if dp == 0 || name == "." || name == ".." {
        NotRemovable(t, dp, name);
        return -1;
      }
      ghost var s0 := View();
      UnlinkExact(s0, dp, name);
      StepKeeps(s0, Unlink(dp, name));
      var off := DirLookup(dp, name);
      if off == -1 {
        return -1;
      }
      var ip := t[dp].ents[off].inum;
      EntryInUse(s0, dp, off, name);
      if t[ip].kind == Dir {
        var empty := DirEmpty(ip);
        if !empty {
          return -1;
        }
      }
      NoUnlinkPanic(s0, dp, name);
      UnlinkedInodes(s0, dp, name);
      var isdir := t[ip].kind == Dir;
      t := t[dp := t[dp].(ents := t[dp].ents[off := NoEntry])];
      if isdir {
        t := t[dp := t[dp].(nlink := t[dp].nlink - 1)];
      }
      t := t[ip := t[ip].(nlink := t[ip].nlink - 1)];
      assert t == Unlinked(s0.t, dp, name);
      ShapeOf(s0, dp);
      NameGone(s0.t, t, dp, name, off);
      return 0;
    }

    /** ialloc: the first inode that is not used; running out of inodes is a panic. */
    method IAlloc() returns (ip: int)
      ensures if exists i :: 0 < i < |t| && t[i].kind == Unused then 0 < ip < |t| && t[ip].kind == Unused else ip == 0
      ensures forall i :: 0 < i < ip ==> t[i].kind != Unused
    {
      ip := 1;
      while ip < |t| && t[ip].kind != Unused
        invariant 1 <= ip && forall i :: 0 < i < ip && i < |t| ==> t[i].kind != Unused
        decreases |t| - ip
      {
        ip := ip + 1;
      }
      if ip >= |t| {
        ip := 0;
      }
    }

    /** create in dp, whose count is not looked at. Returns the inode, new or old, or 0; an existing file is
        handed out only if a file was asked for. `panicked` is the call of panic when inodes run out, or when
        the name is the ".." of a directory without a name and that inode is free again. */
    method Create(dp: int, name: string, kind: Kind) returns (r: int, panicked: bool)
      requires Valid() && IsDir(t, dp) && kind != Unused
      modifies this`t
      ensures old(Lookup(t[dp].ents, name)) != -1 ==>
                View() == old(View()) && 0 < old(t[dp].ents[Lookup(t[dp].ents, name)].inum) < |t|
                && var i := old(t[dp].ents[Lookup(t[dp].ents, name)].inum);
                   r == (if kind == File && t[i].kind == File then i else 0) && panicked == (t[i].kind == Unused)
                   && (panicked ==> t[dp].nlink <= 0)
      ensures old(Lookup(t[dp].ents, name)) == -1 ==>
                if panicked then View() == old(View()) && forall i :: 0 < i < |t| ==> t[i].kind != Unused
                else (forall i :: 0 < i < r && i < |old(t)| ==> old(t)[i].kind != Unused)
                     && LinksDead.Creatable(old(View()), dp, name, r, kind) && Made(old(t), t, dp, name, r, kind)
                     && View() == LinksDead.Create(old(View()), dp, name, r, kind)
                     && (old(t[dp].nlink) > 0 ==> View() == Apply(old(View()), Event.Create(dp, name, r, kind)))
      ensures Valid() <==> (old(Lookup(t[dp].ents, name)) == -1 && !panicked ==> old(t[dp].nlink) > 0)
    {
      hide Inv, Lookup, Dirlink, Entered, Made;
      panicked := false;
      ghost var s0 := View();
      var off := DirLookup(dp, name);
      if off != -1 {
        var i := t[dp].ents[off].inum;
        NameInRange(s0, dp, off, name);
        panicked := t[i].kind == Unused;
        r := if kind == File && t[i].kind == File then i else 0;
        return;
      }
      var ip := IAlloc();
      if ip == 0 {
        return 0, true;
      }
      t := t[ip := Inode(kind, 1, [])];
      if kind == Dir {
        t := t[dp := t[dp].(nlink := t[dp].nlink + 1)];
        var dot := DirLink(ip, ".", ip);
        FirstDot(ip);
        var dotdot := DirLink(ip, "..", dp);
        SecondDot(ip, dp);
      }
      CreatedInOrder(s0.t, t, dp, name, ip, kind);
      var ok := DirLink(dp, name, ip);
      CreateExact(s0, dp, name, ip, kind);
      LinksDead.CreateKeepsIff(s0, dp, name, ip, kind);
      r := ip;
    }
  }

  lemma ExecTwo(s: State, a: Event, b: Event)
    ensures Exec(s, [a, b]) == Apply(Apply(s, a), b)
  {
    assert [a, b][1..] == [b] && [b][1..] == [];
    assert Exec(Apply(s, a), [b]) == Exec(Apply(Apply(s, a), b), []);
  }

  /** On a directory with a name a whole link call is two steps of the machine. */
  lemma LinkTwoSteps(s: State, ip: int, dp: int, name: string)
    requires Inv(s) && InUse(s.t, ip) && !IsDir(s.t, ip) && LiveDir(s.t, dp) && Lookup(s.t[dp].ents, name) == -1
    ensures Exec(s, [LinkStart(ip), LinkDone(ip, dp, name)]) == LinksDead.Link(s, ip, dp, name)
  {
    hide Inv, Lookup, Dirlink, Exec;
    LinksDead.LinkStarted(s, ip, dp);
    ExecTwo(s, LinkStart(ip), LinkDone(ip, dp, name));
  }

  lemma NotRemovable(t: Table, dp: int, name: string)
    requires dp == 0 || name == "." || name == ".."
    ensures forall k :: !Removable(t, dp, name, k)
  {}

  lemma ShapeOf(s: State, dp: int)
    requires Inv(s) && IsDir(s.t, dp)
    ensures DirShape(s.t, dp)
  {}

  lemma EntryInUse(s: State, dp: int, k: int, name: string)
    requires Inv(s) && IsDir(s.t, dp) && k == Lookup(s.t[dp].ents, name) != -1 && name != "." && name != ".."
    ensures 0 < s.t[dp].ents[k].inum < |s.t|
  {
    assert DirShape(s.t, dp) && LiveDir(s.t, dp);
    assert EntryOk(s.t, dp, k);
  }

  /** In a directory without a name ".." may be that of an inode that is free again. */
  lemma NameInRange(s: State, dp: int, k: int, name: string)
    requires Inv(s) && IsDir(s.t, dp) && k == Lookup(s.t[dp].ents, name) != -1
    ensures 0 < s.t[dp].ents[k].inum < |s.t| && (LiveDir(s.t, dp) ==> InUse(s.t, s.t[dp].ents[k].inum))
  {
    assert DirShape(s.t, dp);
    if LiveDir(s.t, dp) { assert LiveDir(s.t, Up(s.t, dp)); }
    if k >= 2 && LiveDir(s.t, dp) { assert EntryOk(s.t, dp, k); }
  }

  lemma FirstDot(ip: int)
    ensures Lookup([], ".") == -1 && Dirlink([], ".", ip) == [Dirent(ip, ".")]
  {}

  lemma SecondDot(ip: int, dp: int)
    requires ip != 0
    ensures Lookup([Dirent(ip, ".")], "..") == -1 && Dirlink([Dirent(ip, ".")], "..", dp) == Dots(ip, dp)
  {
    SlotIs([Dirent(ip, ".")], 1);
  }

  /** The order of the stores in create makes no difference to the outcome. */
  lemma CreatedInOrder(t: Table, u: Table, dp: int, name: string, ip: int, kind: Kind)
    requires 0 < dp < |t| && 0 < ip < |t| && ip != dp && kind != Unused && |u| == |t|
    requires u == t[ip := Inode(kind, 1, if kind == Dir then Dots(ip, dp) else [])]
                   [dp := t[dp].(nlink := t[dp].nlink + if kind == Dir then 1 else 0)]
    ensures u[dp].ents == t[dp].ents && SetEnts(u, dp, Dirlink(u[dp].ents, name, ip)) == Created(t, dp, name, ip, kind)
  {}
}
