/** The JSONL summary channel: the harness writes one line per feature, the runner reads lines
    until the end of the stream, however the bytes are cut into reads. */
module SummaryStream {
  import opened Seqs
  import opened Utf8
  import opened Json

  type Summary = seq<Entry>

  /** What the harness writes: each entry on a line of its own. */
  function WriteAll(entries: Summary): Bytes {
    if entries == [] then [] else MarshalEntry(entries[0]) + [NEWLINE] + WriteAll(entries[1..])
  }

  /** The entries of some lines; a line that does not parse is dropped. */
  function DecodeLines(lines: seq<Bytes>): Summary {
    if lines == [] then []
    else match UnmarshalEntry(lines[0] + [NEWLINE])
      case None => DecodeLines(lines[1..])
      case Some(e) => [e] + DecodeLines(lines[1..])
  }

  /** The lines of a stream that end in a newline. */
  function CompleteLines(stream: Bytes): seq<Bytes> {
    var pieces := Split(stream, NEWLINE);
    pieces[..|pieces| - 1]
  }

  function DecodeStream(stream: Bytes): Summary {
    DecodeLines(CompleteLines(stream))
  }

  // ----- The reader -----

  /** How the byte stream ends: the peer closed it, or reading failed. */
  datatype End = Eof | ReadFailure

  datatype Read = Line(bytes: Bytes) | NoLine(end: End)

  /** A buffered reader over a connection that will deliver `chunks`. */
  class Connection {
    var buffered: Bytes
    var chunks: seq<Bytes>
    const end: End

    constructor (chunks: seq<Bytes>, end: End)
      ensures this.end == end && Remaining() == Flatten(chunks)
    {
      this.buffered, this.chunks, this.end := [], chunks, end;
    }

    ghost function Remaining(): Bytes
      reads this
    {
      buffered + Flatten(chunks)
    }

    /** bufio.Reader.ReadBytes with a newline as delimiter. */
    method ReadLine() returns (r: Read)
      modifies this
      ensures NEWLINE !in old(Remaining()) ==> r == NoLine(end)
      ensures NEWLINE in old(Remaining()) ==> r.Line?
      ensures r.Line? ==> |r.bytes| >= 1 && old(Remaining()) == r.bytes + Remaining()
      ensures r.Line? ==> NEWLINE !in r.bytes[..|r.bytes| - 1] && r.bytes[|r.bytes| - 1] == NEWLINE
    {
      var i := 0;
      while i == |buffered| || buffered[i] != NEWLINE
        invariant i <= |buffered| && NEWLINE !in buffered[..i]
        invariant Remaining() == old(Remaining())
        decreases |chunks|, |buffered| - i
      {
        if i < |buffered| {
          i := i + 1;
        } else if chunks == [] {
          return NoLine(end);
        } else {
          assert buffered + (chunks[0] + Flatten(chunks[1..])) == buffered + chunks[0] + Flatten(chunks[1..]);
          buffered, chunks := buffered + chunks[0], chunks[1..];
        }
      }
      r := Line(buffered[..i + 1]);
      buffered := buffered[i + 1..];
    }
  }

  /** summaryServer after accepting: the summary sent on the channel, None if it is closed instead. */
  method Serve(conn: Connection) returns (sent: Option<Summary>)
    modifies conn
    ensures conn.end.Eof? ==> sent == Some(DecodeStream(old(conn.Remaining())))
    ensures conn.end.ReadFailure? ==> sent == None
  {
    hide UnmarshalEntry;
    var summary: Summary := [];
    while true
      invariant summary + DecodeStream(conn.Remaining()) == DecodeStream(old(conn.Remaining()))
      decreases |conn.Remaining()|
    {
      ghost var before := conn.Remaining();
      var r := conn.ReadLine();
      match r
      case NoLine(end) =>
        if end == ReadFailure {
          return None;
        }
        SplitNone(before, NEWLINE);
        assert DecodeStream(before) == [] && summary + [] == summary;
        return Some(summary);
      case Line(bytes) =>
        LineStep(bytes, conn.Remaining());
        match UnmarshalEntry(bytes)
        case None =>
        case Some(entry) => summary := summary + [entry];
    }
  }

  /** Reading one line off the front of a stream. */
  lemma LineStep(line: Bytes, rest: Bytes)
    requires |line| >= 1 && NEWLINE !in line[..|line| - 1] && line[|line| - 1] == NEWLINE
    ensures DecodeStream(line + rest)
         == (match UnmarshalEntry(line) case None => [] case Some(e) => [e]) + DecodeStream(rest)
  {
    var head := line[..|line| - 1];
    assert head + [NEWLINE] == line;
    SplitHead(head, NEWLINE, rest);
    var lines := CompleteLines(line + rest);
    assert lines == [head] + CompleteLines(rest);
    assert lines[1..] == CompleteLines(rest);
  }

  // ----- Round trip -----

  lemma WrittenLineStep(e: Entry, more: Bytes)
    ensures DecodeStream(MarshalEntry(e) + [NEWLINE] + more) == [SanitizeEntry(e)] + DecodeStream(more)
  {
    var line := MarshalEntry(e) + [NEWLINE];
    EntryHasNoNewline(e);
    assert line[..|line| - 1] == MarshalEntry(e);
    LineStep(line, more);
    EntryRoundTrip(e);
  }

  lemma {:induction false} DecodeWriteAll(entries: Summary)
    ensures DecodeStream(WriteAll(entries)) == Map(entries, SanitizeEntry)
  {
    hide MarshalEntry, UnmarshalEntry;
    if entries != [] {
      DecodeWriteAll(entries[1..]);
      WrittenLineStep(entries[0], WriteAll(entries[1..]));
      assert Map(entries, SanitizeEntry)
          == [SanitizeEntry(entries[0])] + Map(entries[1..], SanitizeEntry);
    }
  }

  ghost predicate EntryValid(e: Entry) {
    Valid(e.name) && Valid(e.outcome) && Valid(e.message)
  }

  /** The reader rebuilds the writer's sequence exactly when its texts are UTF-8; otherwise the
      ill-formed bytes, and only those, are replaced. */
  lemma StreamRoundTrip(entries: Summary)
    ensures DecodeStream(WriteAll(entries)) == Map(entries, SanitizeEntry)
    ensures DecodeStream(WriteAll(entries)) == entries
       <==> forall i :: 0 <= i < |entries| ==> EntryValid(entries[i])
  {
    hide DecodeStream, WriteAll;
    DecodeWriteAll(entries);
    SanitizedAll(entries);
  }

  lemma SanitizedAll(entries: Summary)
    ensures Map(entries, SanitizeEntry) == entries
       <==> forall i :: 0 <= i < |entries| ==> EntryValid(entries[i])
  {
    hide SanitizeEntry, EntryValid;
    forall i | 0 <= i < |entries|
      ensures SanitizeEntry(entries[i]) == entries[i] <==> EntryValid(entries[i])
    {
      SanitizedEntry(entries[i]);
    }
  }

  lemma SanitizedEntry(e: Entry)
    ensures SanitizeEntry(e) == e <==> EntryValid(e)
  {
    SanitizeFixesExactlyInvalid(e.name);
    SanitizeFixesExactlyInvalid(e.outcome);
    SanitizeFixesExactlyInvalid(e.message);
  }

  // ----- Cut streams -----

  /** A newline-free head is the first complete line. */
  lemma FirstLine(head: Bytes, rest: Bytes)
    requires NEWLINE !in head
    ensures CompleteLines(head + [NEWLINE] + rest) == [head] + CompleteLines(rest)
  {
    SplitHead(head, NEWLINE, rest);
  }

  lemma {:induction false} SplitConcat(a: Bytes, b: Bytes)
    ensures CompleteLines(a) <= CompleteLines(a + b)
  {
    if NEWLINE in a {
      FirstNewline(a);
      var i: nat :| i < |a| && a[i] == NEWLINE && NEWLINE !in a[..i];
      var (head, rest) := (a[..i], a[i + 1..]);
      FirstLine(head, rest);
      FirstLine(head, rest + b);
      SplitConcat(rest, b);
      hide CompleteLines;
      assert a == head + [NEWLINE] + rest;
      assert a + b == head + [NEWLINE] + (rest + b);
    } else {
      SplitNone(a, NEWLINE);
    }
  }

  lemma {:induction false} FirstNewline(a: Bytes)
    requires NEWLINE in a
    ensures exists i: nat :: i < |a| && a[i] == NEWLINE && NEWLINE !in a[..i]
  {
    if a[0] == NEWLINE {
      assert NEWLINE !in a[..0];
    } else {
      FirstNewline(a[1..]);
      var i: nat :| i < |a[1..]| && a[1..][i] == NEWLINE && NEWLINE !in a[1..][..i];
      assert a[..i + 1] == [a[0]] + a[1..][..i];
    }
  }

  lemma {:induction false} DecodeLinesConcat(a: seq<Bytes>, b: seq<Bytes>)
    ensures DecodeLines(a + b) == DecodeLines(a) + DecodeLines(b)
  {
    hide DecodeLines;
    if a == [] {
      NoLines();
      assert a + b == b;
    } else {
      DecodeLinesConcat(a[1..], b);
      FirstLineDecodes(a);
      FirstLineDecodes(a + b);
      assert (a + b)[1..] == a[1..] + b;
      Regroup(DecodeLines([a[0]]), DecodeLines(a[1..]), DecodeLines(b));
    }
  }

  lemma NoLines()
    ensures DecodeLines([]) == []
  {
  }

  lemma FirstLineDecodes(lines: seq<Bytes>)
    requires lines != []
    ensures DecodeLines(lines) == DecodeLines([lines[0]]) + DecodeLines(lines[1..])
  {
    hide UnmarshalEntry;
    NoLines();
    var first := [lines[0]];
    assert first[1..] == [];
  }

  /** Cutting any stream at any byte yields a prefix of its entries, never one that was not written. */
  lemma CutYieldsPrefix(stream: Bytes, n: nat)
    requires n <= |stream|
    ensures DecodeStream(stream[..n]) <= DecodeStream(stream)
  {
    var (a, b) := (stream[..n], stream[n..]);
    assert a + b == stream;
    SplitConcat(a, b);
    var (short, long) := (CompleteLines(a), CompleteLines(stream));
    assert long == short + long[|short|..];
    DecodeLinesConcat(short, long[|short|..]);
  }

  /** Each entry is on a line that ends in a line feed. */
  lemma LinesEndInLineFeed(entries: Summary, e: Entry)
    ensures WriteAll(entries + [e]) == WriteAll(entries) + MarshalEntry(e) + [0x0A]
  {
    hide MarshalEntry;
    WriteConcat(entries, [e]);
    WriteOne(e);
    Regroup(WriteAll(entries), MarshalEntry(e), [0x0A]);
  }

  lemma WriteOne(e: Entry)
    ensures WriteAll([e]) == MarshalEntry(e) + [0x0A]
  {
    hide MarshalEntry;
    var one := [e];
    assert one[1..] == [];
    assert WriteAll(one[1..]) == [];
  }

  lemma {:induction false} WriteConcat(a: Summary, b: Summary)
    ensures WriteAll(a + b) == WriteAll(a) + WriteAll(b)
  {
    hide MarshalEntry;
    if a == [] {
      assert a + b == b;
    } else {
      WriteConcat(a[1..], b);
      assert (a + b)[1..] == a[1..] + b;
      Regroup(MarshalEntry(a[0]) + [NEWLINE], WriteAll(a[1..]), WriteAll(b));
    }
  }
}
