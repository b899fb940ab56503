/** The line protocol of the control endpoint: the in-place newline deframer of
    src/control_endpoint.c and the commands that src/ctl_cli.c sends, one per line. */
module LineProtocol {
  import opened LittleEndian
  import opened JsonEscape

  // ---------------------------------------------------------------- deframing

  /** Lines handed over, in order, and the bytes kept for later. */
  datatype Deframed = Deframed(lines: seq<Bytes>, rest: Bytes)

  /** Offset of the first newline, or the length. */
  function LineEnd(s: Bytes): (n: nat)
    ensures n <= |s| && (n < |s| ==> s[n] == NEWLINE) && NEWLINE !in s[..n]
  {
    if s == [] || s[0] == NEWLINE then 0 else
    var n := 1 + LineEnd(s[1..]);
    assert s[..n] == [s[0]] + s[1..][..n - 1];
    n
  }

  /** Empty lines are skipped. */
  function Handed(line: Bytes): seq<Bytes> {
    if line == [] then [] else [line]
  }

  function Then(lines: seq<Bytes>, d: Deframed): Deframed {
    Deframed(lines + d.lines, d.rest)
  }

  function Deframe(s: Bytes): Deframed {
    var n := LineEnd(s);
    if n == |s| then Deframed([], s) else Then(Handed(s[..n]), Deframe(s[n + 1..]))
  }

  lemma LineEndIs(s: Bytes, n: nat)
    requires n <= |s| && (n < |s| ==> s[n] == NEWLINE) && NEWLINE !in s[..n]
    ensures LineEnd(s) == n
  {
    var m := LineEnd(s);
    if m < n {
      Within(s, n, m);
    }
  }

  lemma Within(s: Bytes, n: nat, k: nat)
    requires k < n <= |s| && s[k] == NEWLINE
    ensures NEWLINE in s[..n]
  {
    assert s[k] == s[..n][k];
  }

  lemma ThenThen(a: seq<Bytes>, b: seq<Bytes>, d: Deframed)
    ensures Then(a, Then(b, d)) == Then(a + b, d)
  {
    assert a + (b + d.lines) == a + b + d.lines;
  }

  lemma DeframeLine(line: Bytes, s: Bytes)
    requires NEWLINE !in line
    ensures Deframe(line + [NEWLINE] + s) == Then(Handed(line), Deframe(s))
  {
    var w := line + [NEWLINE] + s;
    assert w[..|line|] == line && w[|line| + 1..] == s;
    LineEndIs(w, |line|);
  }

  lemma SplitAppend(a: Bytes, b: Bytes, n: nat)
    requires n < |a|
    ensures a + b == a[..n] + [a[n]] + (a[n + 1..] + b)
  {
  }

  lemma ThenNothing(d: Deframed)
    ensures Then([], d) == d
  {
  }

  lemma FirstLine(a: Bytes, b: Bytes)
    requires LineEnd(a) < |a|
    ensures var line, later := a[..LineEnd(a)], a[LineEnd(a) + 1..];
      Deframe(a) == Then(Handed(line), Deframe(later)) && Deframe(a + b) == Then(Handed(line), Deframe(later + b))
  {
    SplitAppend(a, b, LineEnd(a));
    DeframeLine(a[..LineEnd(a)], a[LineEnd(a) + 1..] + b);
  }

  /** Deframing what was kept together with what comes later is deframing the whole. */
  lemma {:induction false} DeframeAppend(a: Bytes, b: Bytes)
    ensures Deframe(a + b) == Then(Deframe(a).lines, Deframe(Deframe(a).rest + b))
    decreases |a|
  {
    var n := LineEnd(a);
    if n == |a| {
      ThenNothing(Deframe(a + b));
    } else {
      var line, later := a[..n], a[n + 1..];
      FirstLine(a, b);
      DeframeAppend(later, b);
      ThenThen(Handed(line), Deframe(later).lines, Deframe(Deframe(later).rest + b));
    }
  }

  function Joined(chunks: seq<Bytes>): Bytes {
    if chunks == [] then [] else Joined(chunks[..|chunks| - 1]) + chunks[|chunks| - 1]
  }

  /** One read after another, each with what the reads before it kept. */
  function Feed(chunks: seq<Bytes>): Deframed {
    if chunks == [] then Deframed([], []) else
    var d := Feed(chunks[..|chunks| - 1]);
    Then(d.lines, Deframe(d.rest + chunks[|chunks| - 1]))
  }

  /** However the bytes are cut into reads, the same lines come out. */
  lemma {:induction false} ChunkIndependence(chunks: seq<Bytes>)
    ensures Feed(chunks) == Deframe(Joined(chunks))
  {
    if chunks == [] {
      assert Deframe([]) == Deframed([], []);
    } else {
      ChunkIndependence(chunks[..|chunks| - 1]);
      DeframeAppend(Joined(chunks[..|chunks| - 1]), chunks[|chunks| - 1]);
    }
  }

  // ---------------------------------------------------------------- sending

  function Sent(lines: seq<Bytes>): Bytes {
    if lines == [] then [] else lines[0] + [NEWLINE] + Sent(lines[1..])
  }

  predicate OneLine(line: Bytes) {
    line != [] && NEWLINE !in line
  }

  function NonEmpty(lines: seq<Bytes>): seq<Bytes> {
    if lines == [] then [] else Handed(lines[0]) + NonEmpty(lines[1..])
  }

  predicate NoNewlines(lines: seq<Bytes>) {
    forall i :: 0 <= i < |lines| ==> NEWLINE !in lines[i]
  }

  /** Of lines and an unfinished one, the deframer hands over all that are not empty, in order,
      and keeps the unfinished one. */
  lemma {:induction false} DeframeSent(lines: seq<Bytes>, last: Bytes)
    requires NoNewlines(lines) && NEWLINE !in last
    ensures Deframe(Sent(lines) + last) == Deframed(NonEmpty(lines), last)
  {
    if lines == [] {
      assert Sent(lines) + last == last && last[..|last|] == last;
      LineEndIs(last, |last|);
    } else {
      DeframeSent(lines[1..], last);
      DeframeLine(lines[0], Sent(lines[1..]) + last);
      assert Sent(lines) + last == lines[0] + [NEWLINE] + (Sent(lines[1..]) + last);
    }
  }

  lemma SentCons(line: Bytes, more: seq<Bytes>, last: Bytes)
    ensures Sent([line] + more) + last == line + [NEWLINE] + (Sent(more) + last)
  {
    assert ([line] + more)[1..] == more;
  }

  lemma NoNewlinesCons(line: Bytes, more: seq<Bytes>)
    requires NEWLINE !in line && NoNewlines(more)
    ensures NoNewlines([line] + more)
  {
  }

  /** Every byte string is such lines and an unfinished one. */
  lemma {:induction false} Cut(s: Bytes) returns (lines: seq<Bytes>, last: Bytes)
    ensures NoNewlines(lines) && NEWLINE !in last && s == Sent(lines) + last
    decreases |s|
  {
    var n := LineEnd(s);
    if n == |s| {
      lines, last := [], s;
      assert s[..n] == s && Sent([]) + s == s;
    } else {
      var more;
      more, last := Cut(s[n + 1..]);
      lines := [s[..n]] + more;
      NoNewlinesCons(s[..n], more);
      SentCons(s[..n], more, last);
      assert s == s[..n] + [NEWLINE] + s[n + 1..];
    }
  }

  /** For every byte string: cut at its newlines, the lines that are not empty are handed over,
      in order, and what follows the last newline is kept. */
  lemma DeframeIs(s: Bytes) returns (lines: seq<Bytes>, last: Bytes)
    ensures NoNewlines(lines) && NEWLINE !in last && s == Sent(lines) + last
    ensures Deframe(s) == Deframed(NonEmpty(lines), last)
  {
    lines, last := Cut(s);
    DeframeSent(lines, last);
  }

  lemma {:induction false} NoneEmpty(lines: seq<Bytes>)
    requires forall i :: 0 <= i < |lines| ==> lines[i] != []
    ensures NonEmpty(lines) == lines
  {
    if lines != [] {
      NoneEmpty(lines[1..]);
      assert [lines[0]] + lines[1..] == lines;
    }
  }

  /** Lines arrive as they were sent, in order, whatever the chunking, if and only if none is
      empty or has a raw newline. */
  lemma LinesArriveIff(lines: seq<Bytes>, chunks: seq<Bytes>)
    requires Joined(chunks) == Sent(lines)
    ensures Feed(chunks) == Deframed(lines, []) <==> forall i :: 0 <= i < |lines| ==> OneLine(lines[i])
  {
    ChunkIndependence(chunks);
    HandedAreLines(Sent(lines));
    if forall i :: 0 <= i < |lines| ==> OneLine(lines[i]) {
      DeframeSent(lines, []);
      NoneEmpty(lines);
      assert Sent(lines) + [] == Sent(lines);
    }
  }

  /** And no other line arrives as itself. */
  lemma LineArrivesIff(line: Bytes)
    ensures Deframe(line + [NEWLINE]) == Deframed([line], []) <==> OneLine(line)
  {
    var w := line + [NEWLINE];
    if OneLine(line) {
      DeframeLine(line, []);
      assert line + [NEWLINE] + [] == w;
    }
    HandedAreLines(w);
    if Deframe(w) == Deframed([line], []) {
      assert OneLine(Deframe(w).lines[0]);
    }
  }

  /** No line handed over contains a newline or is empty. */
  lemma {:induction false} HandedAreLines(s: Bytes)
    ensures forall i :: 0 <= i < |Deframe(s).lines| ==> OneLine(Deframe(s).lines[i])
    decreases |s|
  {
    var n := LineEnd(s);
    if n < |s| {
      HandedAreLines(s[n + 1..]);
    }
  }

  /** A command line of the client: an escaped argument between fields that it copies as they
      are, among them the correlation id and the path. */
  datatype Command = Command(head: Bytes, arg: Bytes, tail: Bytes)

  function Line(c: Command): Bytes {
    c.head + Escape(c.arg) + c.tail
  }

  lemma LineOneLine(c: Command)
    ensures OneLine(Line(c)) <==> NEWLINE !in c.head && NEWLINE !in c.tail
  {
    NoControlCharacters(c.arg);
  }

  /** Commands survive the line protocol, whatever bytes their arguments hold and however the
      stream is cut, if and only if the fields copied as they are hold no newline: an escaped
      string has none. */
  lemma CommandsArrive(cmds: seq<Command>, lines: seq<Bytes>, chunks: seq<Bytes>)
    requires |lines| == |cmds| && (forall i :: 0 <= i < |cmds| ==> lines[i] == Line(cmds[i])) && Joined(chunks) == Sent(lines)
    ensures Feed(chunks) == Deframed(lines, [])
       <==> forall i :: 0 <= i < |cmds| ==> NEWLINE !in cmds[i].head && NEWLINE !in cmds[i].tail
  {
    forall i | 0 <= i < |cmds|
      ensures OneLine(lines[i]) <==> NEWLINE !in cmds[i].head && NEWLINE !in cmds[i].tail
    {
      LineOneLine(cmds[i]);
    }
    LinesArriveIff(lines, chunks);
  }

  // ---------------------------------------------------------------- the deframer in place

  class Connection {
    var buf: array<byte>
    var len: nat
    var handed: seq<Bytes>   // lines given to the endpoint, oldest first

    ghost predicate Valid()
      reads this
    {
      len <= buf.Length
    }

    ghost function Kept(): Bytes
      reads this, buf
      requires Valid()
    {
      buf[..len]
    }

    constructor ()
      ensures Valid() && fresh(buf) && Kept() == [] && handed == []
    {
      buf := new byte[0];
      len, handed := 0, [];
    }

    method Append(chunk: Bytes)
      requires Valid()
      modifies this`buf, this`len, buf
      ensures Valid() && (buf == old(buf) || fresh(buf)) && Kept() == old(Kept()) + chunk
    {
      var nb := Grown(buf, len, len + |chunk|);
      buf := nb;
      Copy(buf, len, chunk);
      len := len + |chunk|;
      assert buf[..len] == old(buf[..len]) + chunk;
    }

    /** `conn_read_cb`: append, hand over every complete line, move the rest to the front. */
    method OnRead(chunk: Bytes)
      requires Valid()
      modifies this, buf
      ensures Valid() && (buf == old(buf) || fresh(buf))
      ensures var d := Deframe(old(Kept()) + chunk); handed == old(handed) + d.lines && Kept() == d.rest
    {
      Append(chunk);
      var start := Scan();
      Shift(start);
    }

    method Shift(start: nat)
      requires Valid() && start <= len
      modifies this`len, buf
      ensures Valid() && Kept() == old(Kept())[start..]
    {
      ghost var all := Kept();
      if start > 0 {
        len := len - start;
        Move(buf, 0, start, len);
      }
      assert buf[..len] == all[start..];
    }

    /** The scan for newlines; `start` is where the first incomplete line begins. */
    method Scan() returns (start: nat)
      requires Valid()
      modifies this`handed
      ensures start <= len && handed == old(handed) + Deframe(Kept()).lines && Kept()[start..] == Deframe(Kept()).rest
    {
      start := 0;
      var i := 0;
      ghost var all, before := Kept(), handed;
      ScanStart(all, before);
      while i < len
        invariant 0 <= start <= i <= len && Scanning(all, before, handed, start, i)
      {
        ScanStep(all, before, handed, start, i);
        start := Look(start, i);
        i := i + 1;
      }
      ScanEnd(all, before, handed, start);
    }

    /** One turn: at a newline, hand over the line that ends here unless it is empty. */
    method Look(start: nat, i: nat) returns (next: nat)
      requires Valid() && start <= i < len
      modifies this`handed
      ensures handed == HandedAt(Kept(), old(handed), start, i) && next == NextStart(Kept(), start, i)
    {
      next := start;
      if buf[i] == NEWLINE {
        if i - start > 0 {
          handed := handed + [buf[start..i]];
        }
        next := i + 1;
      }
      assert Kept()[start..i] == buf[start..i];
    }
  }

  function HandedAt(all: Bytes, handed: seq<Bytes>, start: int, i: int): seq<Bytes>
    requires 0 <= start <= i < |all|
  {
    if all[i] == NEWLINE && start < i then handed + [all[start..i]] else handed
  }

  function NextStart(all: Bytes, start: int, i: int): int
    requires 0 <= start <= i < |all|
  {
    if all[i] == NEWLINE then i + 1 else start
  }

  /** The scan of `all` stands at `i`; the lines before `start` are handed over. */
  ghost predicate Scanning(all: Bytes, before: seq<Bytes>, handed: seq<Bytes>, start: int, i: int) {
    && 0 <= start <= i <= |all| && NEWLINE !in all[start..i]
    && Then(handed, Deframe(all[start..])) == Then(before, Deframe(all))
  }

  lemma ScanStart(all: Bytes, before: seq<Bytes>)
    ensures Scanning(all, before, before, 0, 0)
  {
    assert all[0..] == all;
  }

  lemma ScanKeep(all: Bytes, before: seq<Bytes>, handed: seq<Bytes>, start: int, i: int)
    requires Scanning(all, before, handed, start, i) && i < |all| && all[i] != NEWLINE
    ensures Scanning(all, before, handed, start, i + 1)
  {
    forall k | start <= k < i + 1
      ensures all[k] != NEWLINE
    {
      assert k < i ==> all[k] == all[start..i][k - start];
    }
  }

  lemma SplitAt(all: Bytes, start: int, i: int)
    requires 0 <= start <= i < |all|
    ensures all[start..] == all[start..i] + [all[i]] + all[i + 1..]
  {
  }

  lemma ScanHand(all: Bytes, before: seq<Bytes>, handed: seq<Bytes>, start: int, i: int)
    requires Scanning(all, before, handed, start, i) && i < |all| && all[i] == NEWLINE
    ensures Scanning(all, before, handed + Handed(all[start..i]), i + 1, i + 1)
  {
    var line := all[start..i];
    SplitAt(all, start, i);
    DeframeLine(line, all[i + 1..]);
    ThenThen(handed, Handed(line), Deframe(all[i + 1..]));
  }

  lemma ScanStep(all: Bytes, before: seq<Bytes>, handed: seq<Bytes>, start: int, i: int)
    requires Scanning(all, before, handed, start, i) && i < |all|
    ensures Scanning(all, before, HandedAt(all, handed, start, i), NextStart(all, start, i), i + 1)
  {
    if all[i] == NEWLINE {
      ScanHand(all, before, handed, start, i);
      assert HandedAt(all, handed, start, i) == handed + Handed(all[start..i]);
    } else {
      ScanKeep(all, before, handed, start, i);
    }
  }

  lemma ScanEnd(all: Bytes, before: seq<Bytes>, handed: seq<Bytes>, start: int)
    requires Scanning(all, before, handed, start, |all|)
    ensures handed == before + Deframe(all).lines && all[start..] == Deframe(all).rest
  {
    assert all[start..][..|all[start..]|] == all[start..|all|];
    LineEndIs(all[start..], |all[start..]|);
    assert handed + [] == handed;
  }
}
