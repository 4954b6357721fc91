/**
  Reading a response's usage as its bytes flow past (internal/gateway/metering.go): the
  scanner keeps only the current partial line, however the network cuts the stream.
  What one line tells is a given function of the line and what is known so far.
 */
module Scanner {
  import opened Meter

  newtype Byte = x: int | 0 <= x < 256
  type Bytes = seq<Byte>

  const NEWLINE: Byte := 10
  const MAX_LINE := 0x10_0000

  /** What the lines so far have told: the model and the token counts, once they were seen. */
  datatype Found = Found(seen: bool, model: string, usage: Usage)

  const NOTHING_FOUND := Found(false, "", Usage(0, 0, 0, 0, 0))

  /** The first newline, or the length. */
  function Newline(s: Bytes): (i: nat)
    ensures i <= |s| && (i < |s| ==> s[i] == NEWLINE) && NEWLINE !in s[..i]
  {
    if s == [] || s[0] == NEWLINE then 0 else
      assert s == [s[0]] + s[1..];
      1 + Newline(s[1..])
  }

  /** The finished lines of a stream, and what follows the last newline. */
  function Lines(s: Bytes): seq<Bytes>
    decreases |s|
  {
    var i := Newline(s);
    if i == |s| then [] else [s[..i]] + Lines(s[i + 1..])
  }

  function Rest(s: Bytes): Bytes
    decreases |s|
  {
    var i := Newline(s);
    if i == |s| then s else Rest(s[i + 1..])
  }

  /** The stream line by line, a trailing partial line included. */
  function WithRest(lines: seq<Bytes>, rest: Bytes): seq<Bytes> {
    if rest == [] then lines else lines + [rest]
  }

  function AllLines(s: Bytes): seq<Bytes> {
    WithRest(Lines(s), Rest(s))
  }

  /** What a list of lines tells, one after another. */
  function Told(handle: (Found, Bytes) -> Found, found: Found, lines: seq<Bytes>): Found {
    if lines == [] then found else handle(Told(handle, found, lines[..|lines| - 1]), lines[|lines| - 1])
  }

  lemma FirstLine(s: Bytes)
    ensures var i := Newline(s);
            if i == |s| then Lines(s) == [] && Rest(s) == s
            else Lines(s) == [s[..i]] + Lines(s[i + 1..]) && Rest(s) == Rest(s[i + 1..])
  {
    hide Newline, Lines, Rest;
    LinesFromTheFirst(s);
    RestFromTheFirst(s);
  }

  lemma LinesFromTheFirst(s: Bytes)
    ensures Lines(s) == if Newline(s) == |s| then [] else [s[..Newline(s)]] + Lines(s[Newline(s) + 1..])
  {
    hide Newline, Rest;
  }

  lemma RestFromTheFirst(s: Bytes)
    ensures Rest(s) == if Newline(s) == |s| then s else Rest(s[Newline(s) + 1..])
  {
    hide Newline, Lines;
  }

  lemma NoneTold(handle: (Found, Bytes) -> Found, found: Found)
    ensures Told(handle, found, []) == found
  {
  }

  lemma TellOne(handle: (Found, Bytes) -> Found, found: Found, lines: seq<Bytes>, line: Bytes)
    ensures Told(handle, found, lines + [line]) == handle(Told(handle, found, lines), line)
  {
    assert (lines + [line])[..|lines|] == lines;
  }

  /** The cap keeps the end of a partial line. */
  function Capped(line: Bytes): (r: Bytes)
    ensures |r| <= MAX_LINE && |r| <= |line| && r == line[|line| - |r|..]
    ensures |r| < MAX_LINE ==> r == line
  {
    if |line| > MAX_LINE then line[|line| - MAX_LINE..] else line
  }

  class UsageScanner {
    const handle: (Found, Bytes) -> Found
    var line: Bytes
    var found: Found

    constructor (handle: (Found, Bytes) -> Found)
      ensures this.handle == handle && line == [] && found == NOTHING_FOUND
    {
      this.handle := handle;
      line, found := [], NOTHING_FOUND;
    }

    method Feed(p: Bytes)
      modifies this
      ensures found == Told(handle, old(found), Lines(old(line) + p))
      ensures line == Capped(Rest(old(line) + p)) && |line| <= MAX_LINE
    {
      hide Lines, Rest, Told;
      line := line + p;
      ghost var whole := line;
      ghost var told: seq<Bytes> := [];
      NoneTold(handle, found);
      assert told + Lines(line) == Lines(whole);
      var i := Newline(line);
      while i < |line|
        invariant i == Newline(line)
        invariant Lines(whole) == told + Lines(line) && Rest(whole) == Rest(line)
        invariant found == Told(handle, old(found), told)
        decreases |line|
      {
        FirstLine(line);
        TellOne(handle, old(found), told, line[..i]);
        assert told + ([line[..i]] + Lines(line[i + 1..])) == (told + [line[..i]]) + Lines(line[i + 1..]);
        found := handle(found, line[..i]);
        told := told + [line[..i]];
        line := line[i + 1..];
        i := Newline(line);
      }
      FirstLine(line);
      assert told + [] == told;
      if |line| > MAX_LINE {
        line := line[|line| - MAX_LINE..];
      }
    }

    /** Processes any trailing partial line and tells whether usage was found. */
    method Finish() returns (seen: bool)
      modifies this
      ensures found == Told(handle, old(found), WithRest([], old(line)))
      ensures line == [] && seen == found.seen
    {
      if |line| > 0 {
        found := handle(found, line);
        line := [];
      }
      return found.seen;
    }
  }

  // ------------------------------------------------------------ chunking does not matter

  function Joined(chunks: seq<Bytes>): Bytes {
    if chunks == [] then [] else Joined(chunks[..|chunks| - 1]) + chunks[|chunks| - 1]
  }

  /** The scanner's partial line after a run of feeds. */
  function Buffered(chunks: seq<Bytes>): (line: Bytes)
    ensures |line| <= MAX_LINE
  {
    if chunks == [] then []
    else Capped(Rest(Buffered(chunks[..|chunks| - 1]) + chunks[|chunks| - 1]))
  }

  /** The lines it has handled by then. */
  function Handled(chunks: seq<Bytes>): seq<Bytes> {
    if chunks == [] then []
    else
      var before := chunks[..|chunks| - 1];
      Handled(before) + Lines(Buffered(before) + chunks[|chunks| - 1])
  }

  /** And once it has finished. */
  function Scanned(chunks: seq<Bytes>): seq<Bytes> {
    WithRest(Handled(chunks), Buffered(chunks))
  }

  /** No line of the stream, the trailing one included, is longer than the cap. */
  ghost predicate Fits(s: Bytes) {
    forall l <- AllLines(s) :: |l| <= MAX_LINE
  }

  lemma {:induction false} NewlineOfPrefix(a: Bytes, b: Bytes)
    ensures Newline(a + b) == if Newline(a) < |a| then Newline(a) else |a| + Newline(b)
    decreases |a|
  {
    if a == [] {
      assert a + b == b;
    } else if a[0] != NEWLINE {
      assert (a + b)[1..] == a[1..] + b;
      NewlineOfPrefix(a[1..], b);
    }
  }

  /** What follows the last newline is where the next bytes go on. */
  lemma {:induction false} LinesOfBoth(a: Bytes, b: Bytes)
    ensures Lines(a + b) == Lines(a) + Lines(Rest(a) + b)
    ensures Rest(a + b) == Rest(Rest(a) + b)
    decreases |a|
  {
    hide Lines, Rest;
    var i := Newline(a);
    NewlineOfPrefix(a, b);
    FirstLine(a);
    FirstLine(a + b);
    if i < |a| {
      var tail := a[i + 1..];
      assert (a + b)[..i] == a[..i] && (a + b)[i + 1..] == tail + b;
      LinesOfBoth(tail, b);
      assert [a[..i]] + (Lines(tail) + Lines(Rest(a) + b)) == ([a[..i]] + Lines(tail)) + Lines(Rest(a) + b);
    } else {
      assert [] + Lines(a + b) == Lines(a + b);
    }
  }

  lemma {:induction false} RestHasNoNewline(s: Bytes)
    ensures NEWLINE !in Rest(s) && Newline(Rest(s)) == |Rest(s)|
    decreases |s|
  {
    var i := Newline(s);
    if i < |s| {
      RestHasNoNewline(s[i + 1..]);
    } else {
      assert s[..|s|] == s;
    }
  }

  /** A partial line only grows, so a stream that fits has only prefixes that fit. */
  lemma RestFits(a: Bytes, b: Bytes)
    requires Fits(a + b)
    ensures Fits(a) && |Rest(a)| <= MAX_LINE
  {
    LinesOfBoth(a, b);
    RestHasNoNewline(a);
    var r := Rest(a);
    NewlineOfPrefix(r, b);
    forall l <- Lines(a) ensures |l| <= MAX_LINE {
      assert l in Lines(a + b) && l in AllLines(a + b);
    }
    var i := Newline(r + b);
    if i < |r + b| {
      assert Lines(r + b)[0] == (r + b)[..i];
      assert (r + b)[..i] in Lines(a + b) && (r + b)[..i] in AllLines(a + b);
    } else if r != [] {
      assert Rest(a + b) == r + b && r + b in AllLines(a + b);
    }
  }

  /** Whatever the cuts, a stream whose lines fit is scanned as if it had come whole. */
  lemma {:induction false} ChunkingDoesNotMatter(chunks: seq<Bytes>)
    requires Fits(Joined(chunks))
    ensures Handled(chunks) == Lines(Joined(chunks)) && Buffered(chunks) == Rest(Joined(chunks))
    ensures Scanned(chunks) == AllLines(Joined(chunks))
    decreases |chunks|
  {
    hide Lines, Rest, Fits;
    if chunks == [] {
      NoLines();
    } else {
      var before, last := chunks[..|chunks| - 1], chunks[|chunks| - 1];
      RestFits(Joined(before), last);
      ChunkingDoesNotMatter(before);
      LinesOfBoth(Joined(before), last);
      assert Joined(chunks) + [] == Joined(chunks);
      RestFits(Joined(chunks), []);
    }
  }

  lemma NoLines()
    ensures Lines([]) == [] && Rest([]) == []
  {
  }

  /** The stream a byte at a time. */
  function OneByOne(s: Bytes): (chunks: seq<Bytes>)
    ensures |chunks| == |s| && forall i :: 0 <= i < |s| ==> chunks[i] == [s[i]]
  {
    seq(|s|, i requires 0 <= i < |s| => [s[i]])
  }

  lemma {:induction false} OneByOneJoins(s: Bytes)
    ensures Joined(OneByOne(s)) == s
    decreases |s|
  {
    if s != [] {
      var n := |s| - 1;
      assert OneByOne(s)[..n] == OneByOne(s[..n]);
      OneByOneJoins(s[..n]);
      assert s[..n] + [s[n]] == s;
    }
  }

  /** Fed a byte at a time, the scanner never handles a line longer than its buffer. */
  lemma {:induction false} OneByOneStaysShort(s: Bytes)
    ensures forall l <- Scanned(OneByOne(s)) :: |l| <= MAX_LINE
    ensures NEWLINE !in Buffered(OneByOne(s))
    ensures forall l <- Handled(OneByOne(s)) :: |l| <= MAX_LINE
    decreases |s|
  {
    if s != [] {
      hide Lines, Rest, Buffered, Handled;
      var n := |s| - 1;
      var before, b := OneByOne(s[..n]), s[n];
      assert OneByOne(s) == before + [[b]];
      OneByOneStaysShort(s[..n]);
      FeedIsBuffered(before, [b]);
      OneMoreByte(Buffered(before), b);
      RestHasNoNewline(Buffered(before) + [b]);
    } else {
      assert OneByOne(s) == [];
    }
  }

  lemma OneMoreByte(buf: Bytes, b: Byte)
    requires NEWLINE !in buf && |buf| <= MAX_LINE
    ensures forall l <- Lines(buf + [b]) :: |l| <= MAX_LINE
  {
    var s := buf + [b];
    var i := Newline(s);
    if i < |s| {
      assert forall k :: 0 <= k < |buf| ==> s[k] == buf[k] && buf[k] in buf;
      assert s[i + 1..] == [];
      NoLines();
    }
  }

  /** The exact condition: every way of cutting a stream is scanned alike when, and only when, its lines fit. */
  lemma ChunkingNeverMattersExactlyWhen(s: Bytes)
    ensures (forall chunks: seq<Bytes> :: Joined(chunks) == s ==> Scanned(chunks) == AllLines(s)) <==> Fits(s)
  {
    hide Joined, Scanned, AllLines, Fits;
    if Fits(s) {
      forall chunks: seq<Bytes> | Joined(chunks) == s ensures Scanned(chunks) == AllLines(s) {
        ChunkingDoesNotMatter(chunks);
      }
    } else {
      OneByOneJoins(s);
      ShortLinesFit(s);
    }
  }

  lemma ShortLinesFit(s: Bytes)
    ensures Scanned(OneByOne(s)) == AllLines(s) ==> Fits(s)
  {
    OneByOneStaysShort(s);
  }

  // ------------------------------------------------------------ the recorder fires once

  /** Whose usage it is, known before the response. */
  datatype Base = Base(account: string, person: string, request: string, session: string)

  datatype Recorded = Recorded(base: Base, model: string, usage: Usage)

  datatype ReadEnd = More | EndOfFile | Failed

  /** What the recorder is told of a response that came in these chunks. */
  function Report(handle: (Found, Bytes) -> Found, base: Base, recorder: bool, chunks: seq<Bytes>): (r: seq<Recorded>)
    ensures |r| <= 1
  {
    var found := Told(handle, NOTHING_FOUND, Scanned(chunks));
    if found.seen && recorder then [Recorded(base, found.model, found.usage)] else []
  }

  /** A response body on its way through: bytes pass untouched while a copy feeds the scanner. */
  class MeteringBody {
    const scan: UsageScanner
    const base: Base
    const recorder: bool
    var done: bool
    var recorded: seq<Recorded>
    ghost var chunks: seq<Bytes>

    ghost predicate Valid()
      reads this, scan
    {
      && (!done ==> recorded == [] && scan.line == Buffered(chunks)
                    && scan.found == Told(scan.handle, NOTHING_FOUND, Handled(chunks)))
      && (done ==> recorded == Report(scan.handle, base, recorder, chunks))
    }

    constructor (handle: (Found, Bytes) -> Found, base: Base, recorder: bool)
      ensures Valid() && fresh(scan) && scan.handle == handle && this.base == base && this.recorder == recorder
      ensures !done && chunks == [] && recorded == []
    {
      scan := new UsageScanner(handle);
      this.base, this.recorder := base, recorder;
      done, recorded, chunks := false, [], [];
    }

    /** One read of the inner body; its bytes go on to the client as they are. */
    method Read(got: Bytes, end: ReadEnd) returns (passed: Bytes)
      requires Valid()
      modifies this, scan
      ensures Valid() && passed == got
      ensures chunks == if old(done) || got == [] then old(chunks) else old(chunks) + [got]
      ensures done == (old(done) || end == EndOfFile)
      ensures old(done) ==> recorded == old(recorded)
    {
      hide Report, Buffered, Told;
      if |got| > 0 {
        scan.Feed(got);
        if !done {
          FeedIsBuffered(chunks, got);
          ToldOfBoth(scan.handle, NOTHING_FOUND, Handled(chunks), Lines(Buffered(chunks) + got));
          chunks := chunks + [got];
        }
      }
      if end == EndOfFile {
        Emit();
      }
      passed := got;
    }

    method Close()
      requires Valid()
      modifies this, scan
      ensures Valid() && done && chunks == old(chunks)
      ensures old(done) ==> recorded == old(recorded)
    {
      Emit();
    }

    method Emit()
      requires Valid()
      modifies this, scan
      ensures Valid() && done && chunks == old(chunks)
      ensures if old(done) then recorded == old(recorded)
              else scan.found == Told(scan.handle, NOTHING_FOUND, Scanned(chunks))
                   && recorded == if scan.found.seen && recorder then [Recorded(base, scan.found.model, scan.found.usage)] else []
    {
      if done {
        return;
      }
      hide Told, Handled, Buffered, Scanned, WithRest;
      FinishTells(scan.handle, chunks);
      done := true;
      var seen := scan.Finish();
      assert scan.found == Told(scan.handle, NOTHING_FOUND, Scanned(chunks));
      if !seen || !recorder {
        return;
      }
      recorded := recorded + [Recorded(base, scan.found.model, scan.found.usage)];
    }
  }

  lemma FinishTells(handle: (Found, Bytes) -> Found, chunks: seq<Bytes>)
    ensures Told(handle, Told(handle, NOTHING_FOUND, Handled(chunks)), WithRest([], Buffered(chunks)))
            == Told(handle, NOTHING_FOUND, Scanned(chunks))
  {
    hide Told, Handled, Buffered;
    ToldOfBoth(handle, NOTHING_FOUND, Handled(chunks), WithRest([], Buffered(chunks)));
    assert Handled(chunks) + WithRest([], Buffered(chunks)) == Scanned(chunks);
  }

  lemma FeedIsBuffered(chunks: seq<Bytes>, got: Bytes)
    ensures Buffered(chunks + [got]) == Capped(Rest(Buffered(chunks) + got))
    ensures Handled(chunks + [got]) == Handled(chunks) + Lines(Buffered(chunks) + got)
  {
    assert (chunks + [got])[..|chunks|] == chunks;
  }

  lemma {:induction false} ToldOfBoth(handle: (Found, Bytes) -> Found, found: Found, a: seq<Bytes>, b: seq<Bytes>)
    ensures Told(handle, found, a + b) == Told(handle, Told(handle, found, a), b)
    decreases |b|
  {
    if b == [] {
      assert a + b == a;
    } else {
      var n := |b| - 1;
      assert (a + b)[..|a + b| - 1] == a + b[..n];
      ToldOfBoth(handle, found, a, b[..n]);
    }
  }

  /**
    Once a response has ended, and its lines fit, exactly one usage record is made of it if
    there is a recorder and usage was seen in its lines, and none otherwise; the record is
    whose request it was with the model and the counts its lines told last.
   */
  lemma AResponseIsRecordedExactlyWhen(b: MeteringBody)
    requires b.Valid() && b.done && Fits(Joined(b.chunks))
    ensures var found := Told(b.scan.handle, NOTHING_FOUND, AllLines(Joined(b.chunks)));
            && (b.recorded != [] <==> b.recorder && found.seen)
            && (b.recorded != [] ==> b.recorded == [Recorded(b.base, found.model, found.usage)])
  {
    hide Fits, Scanned, AllLines, Told;
    ChunkingDoesNotMatter(b.chunks);
  }

  /** Before it has ended nothing is recorded. */
  lemma NothingIsRecordedBeforeTheEnd(b: MeteringBody)
    requires b.Valid() && !b.done
    ensures b.recorded == []
  {
  }

  function WithNewlines(lines: seq<Bytes>): Bytes {
    if lines == [] then [] else lines[0] + [NEWLINE] + WithNewlines(lines[1..])
  }

  /** The lines with their newlines, and what follows the last one, are the stream; no newline is inside any. */
  lemma {:induction false} LinesAreTheStream(s: Bytes)
    ensures WithNewlines(Lines(s)) + Rest(s) == s
    ensures NEWLINE !in Rest(s) && forall l <- Lines(s) :: NEWLINE !in l
    decreases |s|
  {
    hide Lines, Rest;
    var i := Newline(s);
    FirstLine(s);
    if i < |s| {
      LinesAreTheStream(s[i + 1..]);
      var rest := Lines(s[i + 1..]);
      assert ([s[..i]] + rest)[1..] == rest;
      assert s == s[..i] + [NEWLINE] + s[i + 1..];
      assert WithNewlines([s[..i]] + rest) + Rest(s) == s[..i] + [NEWLINE] + (WithNewlines(rest) + Rest(s));
    } else {
      assert s[..i] == s;
      assert WithNewlines([]) + s == s;
    }
  }

  /** What is recorded of a response does not depend on how it was cut into reads. */
  lemma TheRecordIsTheWholeStreams(handle: (Found, Bytes) -> Found, base: Base, recorder: bool, chunks: seq<Bytes>)
    requires Fits(Joined(chunks))
    ensures Report(handle, base, recorder, chunks) == Report(handle, base, recorder, [Joined(chunks)])
  {
    hide Fits, Scanned, AllLines;
    var whole := [Joined(chunks)];
    assert whole[..0] == [] && Joined(whole) == [] + Joined(chunks) == Joined(chunks);
    ChunkingDoesNotMatter(chunks);
    ChunkingDoesNotMatter(whole);
  }
}
