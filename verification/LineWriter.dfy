/** Whole lines from arbitrary chunks, through a filter (cd/log.go). */
module LineWriter {
  import opened Options
  import opened Selections
  import opened Strings

  // ----- cutting text into lines

  /** The newline-terminated lines of s, and the text after the last newline. */
  function Lines(s: string): seq<string>
    decreases |s|
  {
    var i := IndexOf(s, '\n');
    if i == -1 then [] else [s[..i + 1]] + Lines(s[i + 1..])
  }

  function Partial(s: string): string
    decreases |s|
  {
    var i := IndexOf(s, '\n');
    if i == -1 then s else Partial(s[i + 1..])
  }

  /** bytes.SplitAfter(s, "\n"): never empty. */
  function SplitAfter(s: string): (pieces: seq<string>)
    ensures pieces != []
  {
    Lines(s) + [Partial(s)]
  }

  function Last<T>(s: seq<T>): T
    requires s != []
  {
    s[|s| - 1]
  }

  function Front<T>(s: seq<T>): seq<T>
    requires s != []
  {
    s[..|s| - 1]
  }

  function Concat(pieces: seq<string>): string {
    if pieces == [] then "" else pieces[0] + Concat(pieces[1..])
  }

  predicate IsLine(s: string) {
    s != "" && s[|s| - 1] == '\n' && '\n' !in s[..|s| - 1]
  }

  predicate AllLines(pieces: seq<string>) {
    forall i :: 0 <= i < |pieces| ==> IsLine(pieces[i])
  }

  lemma NoCut(s: string)
    requires '\n' !in s
    ensures Lines(s) == [] && Partial(s) == s
  {
  }

  /** s is these lines followed by this rest, which has no newline. */
  ghost predicate IsCut(s: string, lines: seq<string>, rest: string) {
    Concat(lines) + rest == s && AllLines(lines) && '\n' !in rest
  }

  lemma CutCons(line: string, s: string, lines: seq<string>, rest: string)
    requires IsLine(line) && IsCut(s, lines, rest)
    ensures IsCut(line + s, [line] + lines, rest)
  {
    assert ([line] + lines)[1..] == lines;
  }

  lemma OneMoreLine(s: string, i: nat, lines: seq<string>, rest: string)
    requires i < |s| && s[i] == '\n' && '\n' !in s[..i] && IsCut(s[i + 1..], lines, rest)
    ensures IsCut(s, [s[..i + 1]] + lines, rest)
  {
    assert s[..i + 1][..i] == s[..i];
    CutCons(s[..i + 1], s[i + 1..], lines, rest);
    assert s[..i + 1] + s[i + 1..] == s;
  }

  /** Lines and Partial cut s that way... */
  lemma {:induction false} LinesMeaning(s: string)
    ensures IsCut(s, Lines(s), Partial(s))
    decreases |s|
  {
    if '\n' !in s {
      NoCut(s);
    } else {
      var i := IndexOf(s, '\n');
      LinesMeaning(s[i + 1..]);
      OneMoreLine(s, i, Lines(s[i + 1..]), Partial(s[i + 1..]));
    }
  }

  /** ...and there is no other way. */
  lemma {:induction false} CutUnique(s: string, lines: seq<string>, rest: string)
    requires IsCut(s, lines, rest)
    ensures lines == Lines(s) && rest == Partial(s)
    decreases |lines|
  {
    if lines == [] {
      assert Concat(lines) + rest == rest;
      NoCut(rest);
    } else {
      var tail := Concat(lines[1..]) + rest;
      assert s == lines[0] + tail;
      LineFirst(lines[0], tail);
      CutUnique(tail, lines[1..], rest);
    }
  }

  lemma {:induction false} CutAppend(s: string, a: seq<string>, r: string, more: string, b: seq<string>, rest: string)
    requires IsCut(s, a, r) && IsCut(r + more, b, rest)
    ensures IsCut(s + more, a + b, rest)
    decreases |a|
  {
    if a == [] {
      assert a + b == b && Concat(a) + r == r;
    } else {
      var tail := Concat(a[1..]) + r;
      assert s == a[0] + tail;
      CutAppend(tail, a[1..], r, more, b, rest);
      CutCons(a[0], tail + more, a[1..] + b, rest);
      assert [a[0]] + (a[1..] + b) == a + b;
      assert a[0] + (tail + more) == s + more;
    }
  }

  lemma LineFirst(line: string, tail: string)
    requires IsLine(line)
    ensures Lines(line + tail) == [line] + Lines(tail) && Partial(line + tail) == Partial(tail)
  {
    var s, body := line + tail, line[..|line| - 1];
    assert s == body + ['\n'] + tail;
    FirstIndex(body, '\n', tail);
    assert s[|body|] == '\n';
    assert s[..|line|] == line && s[|line|..] == tail;
  }

  // ----- the writers

  predicate Ignored(ignore: seq<string>, s: string) {
    exists i :: 0 <= i < |ignore| && Contains(s, ignore[i])
  }

  function Kept(ignore: seq<string>, pieces: seq<string>): seq<string> {
    if pieces == [] then []
    else (if Ignored(ignore, pieces[0]) then [] else [pieces[0]]) + Kept(ignore, pieces[1..])
  }

  lemma {:induction false} KeptAppend(ignore: seq<string>, a: seq<string>, b: seq<string>)
    ensures Kept(ignore, a + b) == Kept(ignore, a) + Kept(ignore, b)
  {
    if a == [] {
      assert a + b == b;
    } else {
      assert (a + b)[0] == a[0] && (a + b)[1..] == a[1..] + b;
      KeptAppend(ignore, a[1..], b);
    }
  }

  lemma KeptUpTo(ignore: seq<string>, pieces: seq<string>, i: nat)
    requires 0 < i <= |pieces|
    ensures Kept(ignore, pieces[..i]) == Kept(ignore, pieces[..i - 1]) + Kept(ignore, [pieces[i - 1]])
  {
    assert pieces[..i] == pieces[..i - 1] + [pieces[i - 1]];
    KeptAppend(ignore, pieces[..i - 1], [pieces[i - 1]]);
  }

  /** The terminal, or a cloud log: each call is one entry, and any call may fail. */
  class Sink {
    var received: seq<string>

    constructor ()
      ensures received == []
    {
      received := [];
    }

    method WriteString(s: string) returns (ok: bool)
      modifies this
      ensures received == if ok then old(received) + [s] else old(received)
    {
      ok := *;
      if ok {
        received := received + [s];
      }
    }
  }

  class IgnoreWriter {
    const ignore: seq<string>
    const sink: Sink

    constructor (sink: Sink, ignore: seq<string>)
      ensures this.sink == sink && this.ignore == ignore
    {
      this.sink, this.ignore := sink, ignore;
    }

    method WriteString(s: string) returns (ok: bool)
      modifies sink
      ensures ok ==> sink.received == old(sink.received) + Kept(ignore, [s])
      ensures ok ==> sink.received == old(sink.received) + if HasIgnored(ignore, s) then [] else [s]
      ensures !ok ==> sink.received == old(sink.received) && !Ignored(ignore, s) && !HasIgnored(ignore, s)
    {
      IgnoredMeaning(ignore, s);
      for i := 0 to |ignore|
        invariant forall j :: 0 <= j < i ==> !Contains(s, ignore[j])
      {
        if Contains(s, ignore[i]) {
          return true;
        }
      }
      ok := sink.WriteString(s);
    }
  }

  /** What one Write emits and then keeps: all pieces but the last, and the last. */
  function Pieces(buf: string, p: string): (pieces: seq<string>)
    ensures pieces != []
  {
    [buf + SplitAfter(p)[0]] + SplitAfter(p)[1..]
  }

  class LineWriter {
    const sw: IgnoreWriter
    var buf: string

    constructor (sw: IgnoreWriter)
      ensures this.sw == sw && buf == ""
    {
      this.sw, buf := sw, "";
    }

    /** On failure the piece that could not be written stays buffered, and what followed it is dropped. */
    method Write(p: string) returns (n: nat, ok: bool)
      modifies this, sw.sink
      ensures n == if ok then |p| else 0
      ensures ok ==> buf == Last(Pieces(old(buf), p))
      ensures ok ==> sw.sink.received == old(sw.sink.received) + Kept(sw.ignore, Front(Pieces(old(buf), p)))
      ensures !ok ==> WriteStopped(old(sw.sink.received), Pieces(old(buf), p), sw.sink.received, buf, sw.ignore)
    {
      var lines := SplitAfter(p);
      ghost var pieces := Pieces(buf, p);
      buf := buf + lines[0];
      for i := 1 to |lines|
        invariant buf == pieces[i - 1]
        invariant sw.sink.received == old(sw.sink.received) + Kept(sw.ignore, pieces[..i - 1])
      {
        var written := sw.WriteString(buf);
        if !written {
          assert StoppedAt(old(sw.sink.received), pieces, i - 1, sw.sink.received, buf, sw.ignore);
          return 0, false;
        }
        KeptUpTo(sw.ignore, pieces, i);
        buf := "";
        buf := buf + lines[i];
        assert "" + lines[i] == lines[i];
      }
      n, ok := |p|, true;
    }

    method Flush() returns (ok: bool)
      modifies this, sw.sink
      ensures buf == ""
      ensures ok && old(buf) == "" ==> sw.sink.received == old(sw.sink.received)
      ensures ok && old(buf) != "" ==> sw.sink.received == old(sw.sink.received) + Kept(sw.ignore, [old(buf)])
      ensures !ok ==> sw.sink.received == old(sw.sink.received) && !Ignored(sw.ignore, old(buf))
    {
      if |buf| == 0 {
        return true;
      }
      ok := sw.WriteString(buf);
      buf := "";
    }
  }

  /** A write that got as far as some line: those before it went out, and it is what the buffer holds. */
  ghost predicate WriteStopped(before: seq<string>, pieces: seq<string>,
                               received: seq<string>, buf: string, ignore: seq<string>) {
    exists k :: 0 <= k < |pieces| - 1 && StoppedAt(before, pieces, k, received, buf, ignore)
  }

  ghost predicate StoppedAt(before: seq<string>, pieces: seq<string>, k: nat,
                            received: seq<string>, buf: string, ignore: seq<string>)
    requires k < |pieces|
  {
    received == before + Kept(ignore, pieces[..k]) && buf == pieces[k] && !Ignored(ignore, pieces[k])
  }

  // ----- any number of writes

  /** The pieces a run of successful writes emits, and the buffer it ends with. */
  function Emitted(buf: string, chunks: seq<string>): seq<string>
    decreases |chunks|
  {
    if chunks == [] then []
    else Front(Pieces(buf, chunks[0])) + Emitted(Last(Pieces(buf, chunks[0])), chunks[1..])
  }

  function Buffered(buf: string, chunks: seq<string>): string
    decreases |chunks|
  {
    if chunks == [] then buf else Buffered(Last(Pieces(buf, chunks[0])), chunks[1..])
  }

  /** A buffer without a newline makes no difference to where the lines are cut. */
  lemma OneWrite(buf: string, p: string)
    requires '\n' !in buf
    ensures Front(Pieces(buf, p)) == Lines(buf + p) && Last(Pieces(buf, p)) == Partial(buf + p)
  {
    PiecesCut(buf, p);
    CutUnique(buf + p, Front(Pieces(buf, p)), Last(Pieces(buf, p)));
  }

  lemma PiecesCut(buf: string, p: string)
    requires '\n' !in buf
    ensures IsCut(buf + p, Front(Pieces(buf, p)), Last(Pieces(buf, p)))
  {
    LinesMeaning(p);
    PiecesOf(buf, Lines(p), Partial(p));
    if Lines(p) == [] {
      assert Concat([]) + (buf + p) == buf + p;
    } else {
      PrefixedCut(buf, p, Lines(p), Partial(p));
    }
  }

  lemma PiecesOf(buf: string, lines: seq<string>, rest: string)
    ensures var pieces := [buf + (lines + [rest])[0]] + (lines + [rest])[1..];
      && Last(pieces) == (if lines == [] then buf + rest else rest)
      && Front(pieces) == if lines == [] then [] else [buf + lines[0]] + lines[1..]
  {
    if lines != [] {
      assert (lines + [rest])[1..] == lines[1..] + [rest];
    }
  }

  lemma PrefixedCut(buf: string, p: string, lines: seq<string>, rest: string)
    requires '\n' !in buf && IsCut(p, lines, rest) && lines != []
    ensures IsCut(buf + p, [buf + lines[0]] + lines[1..], rest)
  {
    var tail := Concat(lines[1..]) + rest;
    LineWithPrefix(buf, lines[0]);
    assert IsCut(tail, lines[1..], rest);
    CutCons(buf + lines[0], tail, lines[1..], rest);
    assert buf + lines[0] + tail == buf + p;
  }

  lemma LineWithPrefix(buf: string, line: string)
    requires '\n' !in buf && IsLine(line)
    ensures IsLine(buf + line)
  {
    assert (buf + line)[..|buf + line| - 1] == buf + line[..|line| - 1];
  }

  /** However the input is chunked, exactly its lines come out, and its last partial line stays behind. */
  lemma ChunksDoNotMatter(buf: string, chunks: seq<string>)
    requires '\n' !in buf
    ensures Emitted(buf, chunks) == Lines(buf + Concat(chunks))
    ensures Buffered(buf, chunks) == Partial(buf + Concat(chunks))
  {
    WritesCut(buf, chunks);
    CutUnique(buf + Concat(chunks), Emitted(buf, chunks), Buffered(buf, chunks));
  }

  lemma {:induction false} WritesCut(buf: string, chunks: seq<string>)
    requires '\n' !in buf
    ensures IsCut(buf + Concat(chunks), Emitted(buf, chunks), Buffered(buf, chunks))
    decreases |chunks|
  {
    if chunks == [] {
      assert Concat([]) + buf == buf + Concat(chunks);
    } else {
      var rest := Last(Pieces(buf, chunks[0]));
      PiecesCut(buf, chunks[0]);
      WritesCut(rest, chunks[1..]);
      WriteThenMore(buf, chunks[0], Concat(chunks[1..]), Emitted(rest, chunks[1..]), Buffered(rest, chunks[1..]));
    }
  }

  lemma WriteThenMore(buf: string, p: string, later: string, lines: seq<string>, rest: string)
    requires '\n' !in buf && IsCut(Last(Pieces(buf, p)) + later, lines, rest)
    ensures IsCut(buf + (p + later), Front(Pieces(buf, p)) + lines, rest)
  {
    PiecesCut(buf, p);
    CutAppend(buf + p, Front(Pieces(buf, p)), Last(Pieces(buf, p)), later, lines, rest);
    assert buf + p + later == buf + (p + later);
  }

  /** Nothing is lost or invented: output and buffer together are the input, and the buffer holds no newline. */
  lemma InputAccountedFor(chunks: seq<string>)
    ensures Concat(Emitted("", chunks)) + Buffered("", chunks) == Concat(chunks)
    ensures AllLines(Emitted("", chunks)) && '\n' !in Buffered("", chunks)
  {
    WritesCut("", chunks);
    assert "" + Concat(chunks) == Concat(chunks);
  }

  /** What a filter keeps: the pieces without an ignored substring, and no others. */
  lemma {:induction false} KeptMeaning(ignore: seq<string>, pieces: seq<string>, x: string)
    ensures x in Kept(ignore, pieces) <==> x in pieces && !HasIgnored(ignore, x)
  {
    if pieces != [] {
      KeptMeaning(ignore, pieces[1..], x);
      IgnoredMeaning(ignore, pieces[0]);
      assert x in pieces <==> x == pieces[0] || x in pieces[1..];
    }
  }

  ghost predicate OccursIn(sub: string, s: string) {
    exists i :: 0 <= i <= |s| && sub <= s[i..]
  }

  /** One of the ignored strings occurs in s. */
  ghost predicate HasIgnored(ignore: seq<string>, s: string) {
    exists k :: 0 <= k < |ignore| && OccursIn(ignore[k], s)
  }

  lemma IgnoredMeaning(ignore: seq<string>, s: string)
    ensures Ignored(ignore, s) <==> HasIgnored(ignore, s)
  {
    forall k | 0 <= k < |ignore| ensures Contains(s, ignore[k]) <==> OccursIn(ignore[k], s) {
      ContainsMeaning(s, ignore[k]);
    }
  }

  ghost function Unignored(ignore: seq<string>): string -> Option<string> {
    s => if HasIgnored(ignore, s) then None else Some(s)
  }

  /** Each such piece once, as it was, and in order. */
  lemma {:induction false} KeptInOrder(ignore: seq<string>, pieces: seq<string>)
    ensures IsSelection(pieces, Unignored(ignore), Kept(ignore, pieces))
    decreases |pieces|
  {
    if pieces == [] {
      EmptySelection(Unignored(ignore));
    } else {
      var n := |pieces| - 1;
      assert pieces[..n] + [pieces[n]] == pieces;
      KeptInOrder(ignore, pieces[..n]);
      IgnoredMeaning(ignore, pieces[n]);
      SelectedOneMore(ignore, pieces[..n], pieces[n], Unignored(ignore));
    }
  }

  lemma SelectedOneMore(ignore: seq<string>, front: seq<string>, last: string, f: string -> Option<string>)
    requires f(last) == if Ignored(ignore, last) then None else Some(last)
    requires IsSelection(front, f, Kept(ignore, front))
    ensures IsSelection(front + [last], f, Kept(ignore, front + [last]))
  {
    SelectionGrows(front, f, Kept(ignore, front), last);
    KeptOneMore(ignore, front, last);
  }

  lemma KeptOneMore(ignore: seq<string>, front: seq<string>, last: string)
    ensures Kept(ignore, front + [last]) == Kept(ignore, front) + if Ignored(ignore, last) then [] else [last]
  {
    KeptAppend(ignore, front, [last]);
    assert [last][1..] == [];
  }

  // ----- a whole stream

  /** All the text of a stream: its lines, then what is left of it, if anything. */
  function LinesAndTail(s: string): seq<string> {
    Lines(s) + if Partial(s) == "" then [] else [Partial(s)]
  }

  method WriteAll(lw: LineWriter, chunks: seq<string>) returns (ok: bool)
    modifies lw, lw.sw.sink
    ensures ok ==> lw.buf == Buffered(old(lw.buf), chunks)
    ensures ok ==> lw.sw.sink.received == old(lw.sw.sink.received) + Kept(lw.sw.ignore, Emitted(old(lw.buf), chunks))
    decreases |chunks|
  {
    if chunks == [] {
      return true;
    }
    OneMoreChunk(lw.sw.ignore, lw.buf, chunks);
    var _, written := lw.Write(chunks[0]);
    if !written {
      return false;
    }
    ok := WriteAll(lw, chunks[1..]);
  }

  lemma OneMoreChunk(ignore: seq<string>, buf: string, chunks: seq<string>)
    requires chunks != []
    ensures var pieces, later := Pieces(buf, chunks[0]), chunks[1..];
      && Buffered(buf, chunks) == Buffered(Last(pieces), later)
      && Kept(ignore, Emitted(buf, chunks)) == Kept(ignore, Front(pieces)) + Kept(ignore, Emitted(Last(pieces), later))
  {
    var pieces := Pieces(buf, chunks[0]);
    KeptAppend(ignore, Front(pieces), Emitted(Last(pieces), chunks[1..]));
  }

  /** A program that writes its whole output through a fresh LineWriter and flushes before it exits. */
  method Stream(lw: LineWriter, chunks: seq<string>) returns (ok: bool)
    requires lw.buf == ""
    modifies lw, lw.sw.sink
    ensures ok ==>
      lw.sw.sink.received == old(lw.sw.sink.received) + Kept(lw.sw.ignore, LinesAndTail(Concat(chunks)))
    ensures ok ==>
      IsStreamed(Concat(chunks), lw.sw.ignore, old(lw.sw.sink.received), lw.sw.sink.received)
  {
    StreamKept(lw.sw.ignore, chunks);
    KeptStreamed(Concat(chunks), lw.sw.ignore, lw.sw.sink.received);
    ok := WriteAll(lw, chunks);
    if ok {
      ok := lw.Flush();
    }
  }

  /** However the text is cut at its newlines, what arrived are its lines and its tail, the ignored ones apart. */
  ghost predicate IsStreamed(text: string, ignore: seq<string>, before: seq<string>, after: seq<string>) {
    && before <= after
    && forall lines, rest :: IsCut(text, lines, rest) ==>
         IsSelection(lines + if rest == "" then [] else [rest], Unignored(ignore), after[|before|..])
  }

  lemma KeptStreamed(text: string, ignore: seq<string>, before: seq<string>)
    ensures IsStreamed(text, ignore, before, before + Kept(ignore, LinesAndTail(text)))
  {
    var kept := Kept(ignore, LinesAndTail(text));
    KeptInOrder(ignore, LinesAndTail(text));
    assert (before + kept)[|before|..] == kept;
    forall lines, rest | IsCut(text, lines, rest)
      ensures IsSelection(lines + if rest == "" then [] else [rest], Unignored(ignore), kept)
    {
      CutUnique(text, lines, rest);
    }
  }

  lemma StreamKept(ignore: seq<string>, chunks: seq<string>)
    ensures var kept, rest := Kept(ignore, Emitted("", chunks)), Buffered("", chunks);
      Kept(ignore, LinesAndTail(Concat(chunks))) == kept + if rest == "" then [] else Kept(ignore, [rest])
  {
    ChunksDoNotMatter("", chunks);
    var text := Concat(chunks);
    assert "" + text == text;
    KeptAppend(ignore, Lines(text), [Partial(text)]);
    assert Lines(text) + [] == Lines(text);
  }
}
