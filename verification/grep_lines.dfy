/** The loop of grep in OS/xv6-public/grep.c, which cuts what it reads into lines inside one buffer. */
module GrepLines {
  import opened GrepMatch

  const BUFSIZE: int := 1024
  const NUL: char := '\0'

  // ---------------------------------------------------------------- lines

  /** Position of the first newline; the length if there is none. */
  function Newline(s: string): (i: nat)
    ensures i <= |s| && (i < |s| ==> s[i] == '\n') && forall k :: 0 <= k < i ==> s[k] != '\n'
  {
    if s == "" || s[0] == '\n' then 0 else 1 + Newline(s[1..])
  }

  /** The complete lines, without their newlines. */
  function Lines(s: string): seq<string>
    decreases |s|
  {
    var i := Newline(s);
    if i == |s| then [] else [s[..i]] + Lines(s[i + 1..])
  }

  /** What stands behind the last newline. */
  function Tail(s: string): (r: string)
    decreases |s|
    ensures |r| <= |s|
  {
    var i := Newline(s);
    if i == |s| then s else Tail(s[i + 1..])
  }

  ghost function Echo(pattern: string, line: string): string {
    if Found(pattern, line) then line + "\n" else ""
  }

  /** The lines that match, each with its newline. */
  ghost function Printed(pattern: string, lines: seq<string>): string {
    if lines == [] then ""
    else Echo(pattern, lines[0]) + Printed(pattern, lines[1..])
  }

  function Concat(chunks: seq<string>): string { if chunks == [] then "" else chunks[0] + Concat(chunks[1..]) }

  /** The lines the loop takes out of what read returns, when it has kept `carry`: a buffer without any
      newline is thrown away. */
  function Seen(carry: string, chunks: seq<string>): seq<string>
    decreases |chunks|
  {
    if chunks == [] then [] else Lines(carry + chunks[0]) + Seen(Kept(carry + chunks[0]), chunks[1..])
  }

  function Kept(data: string): string { if Newline(data) == |data| then "" else Tail(data) }

  /** What is kept in the buffer after all of them. */
  function KeptAfter(carry: string, chunks: seq<string>): string
    decreases |chunks|
  {
    if chunks == [] then carry else KeptAfter(Kept(carry + chunks[0]), chunks[1..])
  }

  lemma {:induction false} SeenSnoc(carry: string, chunks: seq<string>, c: string)
    ensures Seen(carry, chunks + [c]) == Seen(carry, chunks) + Lines(KeptAfter(carry, chunks) + c)
    ensures KeptAfter(carry, chunks + [c]) == Kept(KeptAfter(carry, chunks) + c)
    decreases |chunks|
  {
    hide Lines, Kept;
    var all := chunks + [c];
    if chunks == [] {
      assert all[1..] == [] && Seen(Kept(carry + c), []) == [];
    } else {
      assert all[1..] == chunks[1..] + [c];
      SeenSnoc(Kept(carry + chunks[0]), chunks[1..], c);
    }
  }

  lemma {:induction false} ConcatSnoc(chunks: seq<string>, c: string)
    ensures Concat(chunks + [c]) == Concat(chunks) + c
    decreases |chunks|
  {
    var all := chunks + [c];
    if chunks == [] {
      assert all[1..] == [] && c + "" == c;
    } else {
      assert all[1..] == chunks[1..] + [c];
      ConcatSnoc(chunks[1..], c);
    }
  }

  lemma SeenNone(pattern: string)
    ensures Seen("", []) == [] && Printed(pattern, []) == "" && KeptAfter("", []) == "" && Concat([]) == ""
  {}

  // ---------------------------------------------------------------- lines and output by themselves

  function Unlines(lines: seq<string>): string { if lines == [] then "" else lines[0] + "\n" + Unlines(lines[1..]) }

  /** There is one way to cut a text into lines and a rest: Lines and Tail. */
  lemma {:induction false} LinesIff(s: string, lines: seq<string>, rest: string)
    ensures s == Unlines(lines) + rest && '\n' !in rest && (forall k :: 0 <= k < |lines| ==> '\n' !in lines[k])
            <==> lines == Lines(s) && rest == Tail(s)
    decreases |s|, |lines|
  {
    hide Lines, Tail, Newline;
    LinesWhole(s);
    if s == Unlines(lines) + rest && '\n' !in rest && forall k :: 0 <= k < |lines| ==> '\n' !in lines[k] {
      if lines == [] {
        NoLines(s);
      } else {
        FirstLine(lines[0], Unlines(lines[1..]) + rest);
        assert s == lines[0] + "\n" + (Unlines(lines[1..]) + rest);
        assert '\n' !in lines[0];
        LinesIff(Unlines(lines[1..]) + rest, lines[1..], rest);
      }
    }
  }

  lemma FirstLine(l: string, s: string)
    ensures '\n' !in l ==> Lines(l + "\n" + s) == [l] + Lines(s) && Tail(l + "\n" + s) == Tail(s)
  {
    hide Lines, Tail;
    if '\n' !in l {
      FirstNewline(l, s);
      LinesCons(l + "\n" + s);
    }
  }

  lemma FirstNewline(l: string, s: string)
    requires '\n' !in l
    ensures var t := l + "\n" + s; Newline(t) == |l| && t[..|l|] == l && t[|l| + 1..] == s && Newline(t) < |t|
  {
    var t := l + "\n" + s;
    assert forall k :: 0 <= k < |l| ==> t[k] == l[k];
    assert t[|l|] == '\n';
  }

  lemma LinesWhole(s: string)
    ensures s == Unlines(Lines(s)) + Tail(s) && '\n' !in Tail(s) && forall k :: 0 <= k < |Lines(s)| ==> '\n' !in Lines(s)[k]
  {
    LinesJoined(s);
    LinesPlain(s);
    TailPlain(s);
  }

  lemma {:induction false} LinesJoined(s: string)
    ensures s == Unlines(Lines(s)) + Tail(s)
    decreases |s|
  {
    hide Lines, Tail, Newline;
    LinesCons(s);
    var i := Newline(s);
    if i < |s| {
      var r := s[i + 1..];
      LinesJoined(r);
      assert s == s[..i] + "\n" + r;
      assert ([s[..i]] + Lines(r))[1..] == Lines(r);
      assert s[..i] + "\n" + (Unlines(Lines(r)) + Tail(r)) == s[..i] + "\n" + Unlines(Lines(r)) + Tail(r);
    }
  }

  lemma {:induction false} LinesPlain(s: string)
    ensures forall k :: 0 <= k < |Lines(s)| ==> '\n' !in Lines(s)[k]
    decreases |s|
  {
    hide Lines, Tail, Newline;
    LinesCons(s);
    var i := Newline(s);
    if i < |s| {
      LinesPlain(s[i + 1..]);
      assert '\n' !in s[..i];
    }
  }

  /** What is printed: of each line in turn, itself and a newline if it matches. */
  lemma {:induction false} PrintedNext(pattern: string, lines: seq<string>, line: string)
    ensures Printed(pattern, lines + [line]) == Printed(pattern, lines) + if Found(pattern, line) then line + "\n" else ""
    decreases |lines|
  {
    var all := lines + [line];
    if lines == [] {
      assert all[1..] == [] && Printed(pattern, []) == "";
    } else {
      assert all[1..] == lines[1..] + [line];
      PrintedNext(pattern, lines[1..], line);
    }
  }

  // ---------------------------------------------------------------- the loop

  /** strchr(p, '\n') in a buffer that holds NUL at m and none before; -1 is the null pointer. */
  method StrChr(buf: array<char>, p: nat, m: nat) returns (q: int)
    requires p <= m < buf.Length && buf[m] == NUL && forall k :: p <= k < m ==> buf[k] != NUL
    ensures q == if Newline(buf[p..m]) == m - p then -1 else p + Newline(buf[p..m])
  {
    q := p;
    while buf[q] != NUL && buf[q] != '\n'
      invariant p <= q <= m && forall k :: p <= k < q ==> buf[k] != '\n'
      decreases m - q
    {
      q := q + 1;
    }
    NewlineIs(buf[p..m], q - p);
    if buf[q] == NUL {
      q := -1;
    }
  }

  lemma {:induction false} NewlineIs(s: string, i: nat)
    requires i <= |s| && (forall k :: 0 <= k < i ==> s[k] != '\n') && (i < |s| ==> s[i] == '\n')
    ensures Newline(s) == i
  {}

  lemma {:induction false} PrintedJoin(pattern: string, a: seq<string>, b: seq<string>)
    ensures Printed(pattern, a + b) == Printed(pattern, a) + Printed(pattern, b)
  {
    if a == [] {
      assert a + b == b;
    } else {
      assert (a + b)[1..] == a[1..] + b;
      PrintedJoin(pattern, a[1..], b);
    }
  }

  lemma PrintedOne(pattern: string, line: string, rest: seq<string>)
    ensures Printed(pattern, [line] + rest) == Echo(pattern, line) + Printed(pattern, rest)
  {
    assert ([line] + rest)[1..] == rest;
  }

  /** One complete line buf[p..q]: its newline gives way to a NUL for the matcher, and comes back when
      the line is printed. */
  method OneLine(buf: array<char>, p: nat, q: nat, pattern: string) returns (out: string)
    requires p <= q < buf.Length && buf[q] == '\n'
    modifies buf
    ensures out == Echo(pattern, old(buf[p..q]))
    ensures forall k :: 0 <= k < buf.Length && k != q ==> buf[k] == old(buf[k])
  {
    hide Found;
    ghost var line := buf[p..q];
    buf[q] := NUL;
    assert buf[p..q] == line;
    var found := Match(pattern, buf[p..q]);
    out := "";
    if found {
      buf[q] := '\n';
      assert buf[p..q + 1] == line + "\n";
      out := buf[p..q + 1];
    }
  }

  /** The lines in front of p are dealt with. */
  ghost predicate Upto(pattern: string, s: string, p: int, out: string) {
    && 0 <= p <= |s| && (p == 0 || '\n' in s)
    && out + Printed(pattern, Lines(s[p..])) == Printed(pattern, Lines(s)) && Tail(s[p..]) == Tail(s)
  }

  lemma UptoStart(pattern: string, s: string)
    ensures Upto(pattern, s, 0, "")
  {
    assert s[0..] == s;
  }

  lemma UptoNext(pattern: string, s: string, p: int, out: string)
    requires Upto(pattern, s, p, out) && Newline(s[p..]) < |s| - p
    ensures var i := Newline(s[p..]); Upto(pattern, s, p + i + 1, out + Echo(pattern, s[p..p + i]))
  {
    hide Printed, Lines, Tail, Echo;
    var r := s[p..];
    var i := Newline(r);
    LinesCons(r);
    assert r[i] == s[p + i] == '\n';
    assert r[..i] == s[p..p + i] && r[i + 1..] == s[p + i + 1..];
    PrintedOne(pattern, r[..i], Lines(r[i + 1..]));
  }

  lemma UptoEnd(pattern: string, s: string, p: int, out: string)
    requires Upto(pattern, s, p, out) && Newline(s[p..]) == |s| - p
    ensures out == Printed(pattern, Lines(s)) && s[p..] == Tail(s) && (p == 0 <==> '\n' !in s)
  {
    LinesCons(s[p..]);
    HasNewline(s);
    if p == 0 { assert s[p..] == s; }
  }

  /** The inner loop: prints the matching lines of buf[..m] and returns where the last newline ends.
      The newlines in front of p may have become NULs; the rest of the buffer is as it was. */
  method DoLines(buf: array<char>, m: nat, pattern: string) returns (out: string, p: nat)
    requires m < buf.Length && buf[m] == NUL && NUL !in buf[..m]
    modifies buf
    ensures out == Printed(pattern, Lines(old(buf[..m])))
    ensures p <= m && buf[p..m] == Tail(old(buf[..m])) && (p == 0 <==> '\n' !in old(buf[..m]))
  {
    hide Echo, Upto, Newline, Tail, Printed, Lines;
    ghost var s := buf[..m];
    forall k | 0 <= k < m ensures buf[k] != NUL { assert s[k] in s; }
    out, p := "", 0;
    UptoStart(pattern, s);
    assert s[0..] == s == buf[0..m];
    var q := StrChr(buf, p, m);
    while q != -1
      invariant 0 <= p <= m && buf[m] == NUL && forall k :: p <= k < m ==> buf[k] == s[k]
      invariant q == if Newline(s[p..]) == m - p then -1 else p + Newline(s[p..])
      invariant Upto(pattern, s, p, out)
      decreases m - p
    {
      UptoNext(pattern, s, p, out);
      ghost var next := out + Echo(pattern, s[p..q]);
      assert Upto(pattern, s, q + 1, next);
      assert s[p..q] == buf[p..q];
      var line := OneLine(buf, p, q, pattern);
      out := out + line;
      assert out == next;
      p := q + 1;
      assert buf[p..m] == s[p..];
      q := StrChr(buf, p, m);
    }
    UptoEnd(pattern, s, p, out);
    assert buf[p..m] == s[p..];
  }

  /** read: some bytes of what is left, at most as many as asked for. */
  method Read(left: nat, asked: nat) returns (n: nat)
    requires left > 0 && asked > 0
    ensures 0 < n <= left && n <= asked
  {
    n :| 0 < n <= left && n <= asked;
  }

  method Copy(buf: array<char>, m: nat, input: string, pos: nat, n: nat)
    requires m + n <= buf.Length && pos + n <= |input|
    modifies buf
    ensures buf[..m + n] == old(buf[..m]) + input[pos..pos + n]
  {
    var i := 0;
    while i < n
      invariant 0 <= i <= n && buf[..m] == old(buf[..m])
      invariant forall k :: m <= k < m + i ==> buf[k] == input[pos + (k - m)]
    {
      buf[m + i] := input[pos + i];
      i := i + 1;
    }
    assert buf[m..m + n] == input[pos..pos + n];
    assert buf[..m + n] == buf[..m] + buf[m..m + n];
  }

  /** memmove(buf, p, m - p). */
  method Move(buf: array<char>, p: nat, m: nat)
    requires p <= m <= buf.Length
    modifies buf
    ensures buf[..m - p] == old(buf[p..m])
  {
    var i := 0;
    while i < m - p
      invariant 0 <= i <= m - p
      invariant forall k :: 0 <= k < i ==> buf[k] == old(buf[p + k])
      invariant forall k :: i <= k < buf.Length ==> buf[k] == old(buf[k])
    {
      buf[i] := buf[p + i];
      i := i + 1;
    }
  }

  /** What follows a read: the lines of buf[..m], and the rest moved to the front. */
  method DoChunk(buf: array<char>, m: nat, pattern: string) returns (out: string, left: nat)
    requires m < buf.Length && NUL !in buf[..m]
    modifies buf
    ensures out == Printed(pattern, Lines(old(buf[..m])))
    ensures left <= m && (left == 0 || left < m) && buf[..left] == Kept(old(buf[..m]))
  {
    hide Printed, Lines, Tail;
    ghost var s := buf[..m];
    HasNewline(s);
    buf[m] := NUL;
    assert buf[..m] == s;
    var p;
    out, p := DoLines(buf, m, pattern);
    left := m;
    if p == 0 {
      left := 0;
    }
    if left > 0 {
      ghost var tail := buf[p..m];
      Move(buf, p, m);
      left := m - p;
      assert buf[..left] == tail;
    }
  }

  lemma {:induction false} KeptClean(s: string)
    requires NUL !in s
    ensures NUL !in Kept(s)
  {
    TailClean(s);
  }

  lemma {:induction false} TailClean(s: string)
    requires NUL !in s
    ensures NUL !in Tail(s)
    decreases |s|
  {
    if Newline(s) < |s| { TailClean(s[Newline(s) + 1..]); }
  }

  /** grep on an input without NULs. Whatever the sizes of the reads, it prints the matching lines among
      those it gets to see. */
  method Grep(pattern: string, input: string) returns (out: string, ghost chunks: seq<string>)
    requires NUL !in input
    ensures Concat(chunks) == input && NonEmpty(chunks)
    ensures out == Printed(pattern, Seen("", chunks))
    ensures ReadsFit("", chunks)
    ensures FullReads("", chunks) && ShortLines(input) ==> out == Printed(pattern, Lines(input))
  {
    hide Found, Printed, Lines, Tail, Seen, Kept, Concat, KeptAfter, ReadsFit, FullReads, ShortLines;
    ReadsFitNone();
    var buf := new char[BUFSIZE];
    var m, pos := 0, 0;
    out, chunks := "", [];
    SeenNone(pattern);
    while pos < |input|
      invariant 0 <= pos <= |input| && 0 <= m < BUFSIZE - 1
      invariant buf[..m] == KeptAfter("", chunks) && NUL !in buf[..m]
      invariant Concat(chunks) == input[..pos] && NonEmpty(chunks)
      invariant out == Printed(pattern, Seen("", chunks)) && ReadsFit("", chunks)
      decreases |input| - pos
    {
      ghost var carry := buf[..m];
      var n := Read(|input| - pos, BUFSIZE - m - 1);
      ghost var chunk := input[pos..pos + n];
      Copy(buf, m, input, pos, n);
      m := m + n;
      assert NUL !in carry + chunk;
      KeptClean(carry + chunk);
      SeenSnoc("", chunks, chunk);
      ConcatSnoc(chunks, chunk);
      ReadsFitSnoc("", chunks, chunk);
      PrintedJoin(pattern, Seen("", chunks), Lines(carry + chunk));
      assert input[..pos] + chunk == input[..pos + n];
      var lines;
      lines, m := DoChunk(buf, m, pattern);
      out := out + lines;
      chunks := chunks + [chunk];
      pos := pos + n;
    }
    assert input[..pos] == input && "" + input == input;
    if FullReads("", chunks) && ShortLines(input) { FilesExact("", chunks); }
  }

  // ---------------------------------------------------------------- which lines the loop gets to see

  lemma {:induction false} HasNewline(s: string)
    ensures Newline(s) < |s| <==> '\n' in s
  {
    if Newline(s) == |s| { assert forall k :: 0 <= k < |s| ==> s[k] != '\n'; }
  }

  /** Text behind the last newline of a text is joined to what follows. */
  lemma {:induction false} LinesJoin(a: string, b: string)
    ensures Lines(a + b) == Lines(a) + Lines(Tail(a) + b)
    ensures Tail(a + b) == Tail(Tail(a) + b)
    decreases |a|
  {
    hide Lines, Tail;
    var i := Newline(a);
    LinesCons(a);
    if i < |a| {
      NewlineIs(a + b, i);
      LinesCons(a + b);
      assert (a + b)[..i] == a[..i] && (a + b)[i + 1..] == a[i + 1..] + b;
      LinesJoin(a[i + 1..], b);
      assert Lines(a + b) == [a[..i]] + (Lines(a[i + 1..]) + Lines(Tail(a) + b));
    } else {
      assert [] + Lines(a + b) == Lines(a + b);
    }
  }

  lemma {:induction false} LinesCons(s: string)
    ensures var i := Newline(s);
            if i == |s| then Lines(s) == [] && Tail(s) == s
            else Lines(s) == [s[..i]] + Lines(s[i + 1..]) && Tail(s) == Tail(s[i + 1..])
  {}

  lemma {:induction false} NoLines(s: string)
    requires '\n' !in s
    ensures Lines(s) == [] && Tail(s) == s
  {
    HasNewline(s);
  }

  lemma {:induction false} TailPlain(s: string)
    ensures '\n' !in Tail(s)
    decreases |s|
  {
    HasNewline(s);
    if Newline(s) < |s| { TailPlain(s[Newline(s) + 1..]); }
  }

  /** The characters of some lines, with their newlines. */
  function Size(lines: seq<string>): nat { if lines == [] then 0 else |lines[0]| + 1 + Size(lines[1..]) }

  lemma {:induction false} SizeJoin(a: seq<string>, b: seq<string>)
    ensures Size(a + b) == Size(a) + Size(b)
  {
    if a == [] {
      assert a + b == b;
    } else {
      assert (a + b)[1..] == a[1..] + b;
      SizeJoin(a[1..], b);
    }
  }

  lemma {:induction false} SizeLines(s: string)
    ensures Size(Lines(s)) == |s| - |Tail(s)|
    decreases |s|
  {
    hide Lines, Tail, Newline;
    LinesCons(s);
    var i := Newline(s);
    if i < |s| {
      SizeLines(s[i + 1..]);
      assert ([s[..i]] + Lines(s[i + 1..]))[1..] == Lines(s[i + 1..]);
    }
  }

  /** A tail that holds a newline hides what stands in front of it. */
  lemma TailOf(a: string, b: string)
    requires '\n' in b
    ensures Tail(a + b) == Tail(b)
  {
    LinesJoin(a, b);
    TailPlain(a);
    TailOfPlain(Tail(a), b);
  }

  lemma TailOfPlain(a: string, b: string)
    requires '\n' !in a && '\n' in b
    ensures Tail(a + b) == Tail(b)
  {
    HasNewline(b);
    var i := Newline(b);
    NewlineIs(a + b, |a| + i);
    assert (a + b)[|a| + i + 1..] == b[i + 1..];
  }

  /** No read without a newline is followed, later, by a read with one. */
  predicate Whole(chunks: seq<string>) {
    forall i, j :: 0 <= i < j < |chunks| && '\n' in chunks[j] ==> '\n' in chunks[i]
  }

  predicate NonEmpty(chunks: seq<string>) { forall i :: 0 <= i < |chunks| ==> chunks[i] != "" }

  lemma {:induction false} ConcatHas(chunks: seq<string>)
    ensures '\n' in Concat(chunks) <==> exists j :: 0 <= j < |chunks| && '\n' in chunks[j]
  {
    if chunks != [] {
      ConcatHas(chunks[1..]);
      if j :| 0 <= j < |chunks| && '\n' in chunks[j] {
        if j > 0 { assert chunks[1..][j - 1] == chunks[j]; }
      }
    }
  }

  lemma KeptPlain(s: string)
    ensures '\n' !in Kept(s)
  {
    TailPlain(s);
  }

  /** What the loop sees is never longer than the complete lines, even if nothing had been thrown away. */
  lemma {:induction false} SeenBound(carry: string, chunks: seq<string>)
    requires '\n' !in carry
    ensures if '\n' in Concat(chunks) then Size(Seen(carry, chunks)) <= |carry| + |Concat(chunks)| - |Tail(Concat(chunks))|
            else Seen(carry, chunks) == []
    decreases |chunks|
  {
    if chunks != [] {
      var data, rest := carry + chunks[0], Concat(chunks[1..]);
      KeptPlain(data);
      HasNewline(data);
      SeenBound(Kept(data), chunks[1..]);
      SizeJoin(Lines(data), Seen(Kept(data), chunks[1..]));
      SizeLines(data);
      if '\n' in rest {
        TailOf(chunks[0], rest);
      } else if '\n' in chunks[0] {
        LinesJoin(chunks[0], rest);
        TailOfPlain(carry, chunks[0]);
        TailPlain(chunks[0]);
        NoLines(Tail(chunks[0]) + rest);
      } else {
        NoLines(data);
      }
    }
  }

  /** Dropping a read in front of a newline loses characters for good. */
  lemma DropLoses(carry: string, chunks: seq<string>)
    requires '\n' !in carry && chunks != [] && chunks[0] != "" && '\n' !in chunks[0] && '\n' in Concat(chunks[1..])
    ensures Seen(carry, chunks) != Lines(carry + Concat(chunks))
  {
    hide Lines, Tail, Concat, Seen, Size;
    var data, rest := carry + chunks[0], Concat(chunks[1..]);
    DroppedFirst(carry, chunks);
    SeenBound("", chunks[1..]);
    SizeLines(data + rest);
    TailOf(data, rest);
  }

  lemma {:induction false} DroppedFirst(carry: string, chunks: seq<string>)
    requires '\n' !in carry && chunks != [] && '\n' !in chunks[0]
    ensures Seen(carry, chunks) == Seen("", chunks[1..])
    ensures carry + Concat(chunks) == carry + chunks[0] + Concat(chunks[1..])
  {
    hide Lines, Tail, Newline;
    var data := carry + chunks[0];
    NoLines(data);
    HasNewline(data);
    assert carry + Concat(chunks) == data + Concat(chunks[1..]);
    assert [] + Seen("", chunks[1..]) == Seen("", chunks[1..]);
  }

  /** The loop sees exactly the complete lines of the input if and only if no read without a newline
      comes before one with a newline. */
  lemma {:induction false} SeenExactIff(carry: string, chunks: seq<string>)
    requires NonEmpty(chunks) && '\n' !in carry
    ensures Seen(carry, chunks) == Lines(carry + Concat(chunks)) <==> Whole(chunks)
    decreases |chunks|
  {
    if chunks == [] {
      NoLines(carry + "");
      return;
    }
    var data, rest := carry + chunks[0], Concat(chunks[1..]);
    assert carry + Concat(chunks) == data + rest;
    ConcatHas(chunks[1..]);
    WholeTail(chunks);
    assert chunks[0] != "";
    if '\n' in chunks[0] {
      HasNewline(data);
      TailPlain(data);
      LinesJoin(data, rest);
      SeenExactIff(Tail(data), chunks[1..]);
      Cancel(Lines(data), Seen(Tail(data), chunks[1..]), Lines(Tail(data) + rest));
    } else if '\n' in rest {
      DropLoses(carry, chunks);
    } else {
      SeenBound(carry, chunks);
      NoLines(data + rest);
    }
  }

  /** Two reads, the first of which brings no newline: grep sees the line "b" instead of "ab". */
  lemma ShortReadCutsLine()
    ensures Seen("", ["a", "b\n"]) == ["b"] && Lines(Concat(["a", "b\n"])) == ["ab"]
  {
    hide Lines, Tail, Newline, Kept;
    var chunks, rest := ["a", "b\n"], ["b\n"];
    assert chunks[1..] == rest && rest[1..] == [];
    assert Concat(rest) == "b\n" && Concat(chunks) == "a" + "b\n" == "ab\n";
    OneLineOnly("b");
    OneLineOnly("ab");
    DroppedFirst("", chunks);
    assert "b\n" == "b" + "\n" == "" + rest[0] && "ab\n" == "ab" + "\n";
    assert Seen("", rest) == Lines("" + rest[0]) + Seen(Kept("" + rest[0]), rest[1..]);
    assert ["b"] + [] == ["b"];
  }

  lemma OneLineOnly(s: string)
    requires '\n' !in s
    ensures Lines(s + "\n") == [s]
  {
    var t := s + "\n";
    NewlineIs(t, |s|);
    LinesCons(t);
    assert t[..|s|] == s && t[|s| + 1..] == "";
    NoLines("");
  }

  lemma Cancel<T>(a: seq<T>, b: seq<T>, c: seq<T>)
    ensures a + b == a + c <==> b == c
  {
    assert (a + b)[|a|..] == b && (a + c)[|a|..] == c;
  }

  lemma WholeTail(chunks: seq<string>)
    requires chunks != []
    ensures var later := exists j :: 0 <= j < |chunks[1..]| && '\n' in chunks[1..][j];
            if '\n' in chunks[0] then Whole(chunks) <==> Whole(chunks[1..])
            else Whole(chunks) <==> !later
  {
    var r := chunks[1..];
    assert forall i :: 0 <= i < |r| ==> r[i] == chunks[i + 1];
    if Whole(chunks) {
      forall i, j | 0 <= i < j < |r| && '\n' in r[j] ensures '\n' in r[i] {
        assert '\n' in chunks[j + 1];
      }
    }
    forall i, j | 0 <= i < j < |chunks| && '\n' in chunks[j]
      ensures '\n' in r[j - 1] && (i > 0 ==> chunks[i] == r[i - 1])
    {
    }
  }

  // ---------------------------------------------------------------- regular files

  /** No read brings more than there is room for, with one byte left over for the NUL. */
  predicate ReadsFit(carry: string, chunks: seq<string>)
    decreases |chunks|
  {
    chunks == [] || (|carry| + |chunks[0]| <= 1023 && ReadsFit(Kept(carry + chunks[0]), chunks[1..]))
  }

  lemma ReadsFitNone()
    ensures ReadsFit("", [])
  {}

  lemma {:induction false} ReadsFitSnoc(carry: string, chunks: seq<string>, c: string)
    requires ReadsFit(carry, chunks) && |KeptAfter(carry, chunks)| + |c| <= 1023
    ensures ReadsFit(carry, chunks + [c])
    decreases |chunks|
  {
    hide Kept;
    var all := chunks + [c];
    if chunks == [] {
      assert all[1..] == [];
    } else {
      assert all[1..] == chunks[1..] + [c];
      ReadsFitSnoc(Kept(carry + chunks[0]), chunks[1..], c);
    }
  }

  /** Every read returns as much as the buffer has room for, except the last. */
  predicate FullReads(carry: string, chunks: seq<string>)
    decreases |chunks|
  {
    chunks == []
    || ((|chunks| > 1 ==> |carry| + |chunks[0]| == 1023) && FullReads(Kept(carry + chunks[0]), chunks[1..]))
  }

  /** Some newline in every stretch as long as the buffer. */
  predicate ShortLines(s: string) {
    forall a :: 0 <= a && a + 1023 <= |s| ==> '\n' in Stretch(s, a)
  }

  function Stretch(s: string, a: int): string
    requires 0 <= a && a + 1023 <= |s|
  {
    s[a..a + 1023]
  }

  lemma {:induction false} TailSuffix(s: string)
    ensures |Tail(s)| <= |s| && s[|s| - |Tail(s)|..] == Tail(s)
    decreases |s|
  {
    hide Tail, Newline;
    LinesCons(s);
    var i := Newline(s);
    if i < |s| {
      TailSuffix(s[i + 1..]);
      assert s[|s| - |Tail(s)|..] == s[i + 1..][|s| - i - 1 - |Tail(s)|..];
    }
  }

  lemma ShortSuffix(s: string, k: nat)
    requires ShortLines(s) && k <= |s|
    ensures ShortLines(s[k..])
  {
    forall a | 0 <= a && a + 1023 <= |s[k..]| ensures '\n' in Stretch(s[k..], a) {
      assert Stretch(s[k..], a) == Stretch(s, k + a);
    }
  }

  /** With reads that fill the buffer, a file whose lines fit in it is searched completely. */
  lemma {:induction false} FilesExact(carry: string, chunks: seq<string>)
    requires NonEmpty(chunks) && '\n' !in carry && FullReads(carry, chunks) && ShortLines(carry + Concat(chunks))
    ensures Seen(carry, chunks) == Lines(carry + Concat(chunks))
    decreases |chunks|
  {
    if chunks == [] {
      NoLines(carry + "");
      return;
    }
    var data, rest := carry + chunks[0], Concat(chunks[1..]);
    assert carry + Concat(chunks) == data + rest;
    hide Lines, Tail, ShortLines;
    HasNewline(data);
    if '\n' in chunks[0] {
      TailPlain(data);
      LinesJoin(data, rest);
      ShortTail(data, rest);
      FilesExact(Tail(data), chunks[1..]);
    } else {
      OnlyLast(carry, chunks);
      assert data + rest == data;
      NoLines(data);
    }
  }

  lemma ShortTail(data: string, rest: string)
    requires ShortLines(data + rest)
    ensures ShortLines(Tail(data) + rest)
  {
    TailSuffix(data);
    var k := |data| - |Tail(data)|;
    assert (data + rest)[k..] == Tail(data) + rest;
    ShortSuffix(data + rest, k);
  }

  /** A full buffer holds a newline, so a read without one is the last. */
  lemma OnlyLast(carry: string, chunks: seq<string>)
    requires chunks != [] && '\n' !in carry && '\n' !in chunks[0]
    requires FullReads(carry, chunks) && ShortLines(carry + Concat(chunks))
    ensures Concat(chunks[1..]) == "" && Seen(Kept(carry + chunks[0]), chunks[1..]) == []
  {
    hide ShortLines;
    if |chunks| > 1 { FullHas(carry, chunks); }
  }

  lemma FullHas(carry: string, chunks: seq<string>)
    requires |chunks| > 1 && FullReads(carry, chunks) && ShortLines(carry + Concat(chunks))
    ensures '\n' in carry + chunks[0]
  {
    assert Stretch(carry + Concat(chunks), 0) == carry + chunks[0];
  }
}
