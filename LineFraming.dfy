/**
 * The line framer of src/line-buffer.ts (and its compiled copy
 * dist/debug/line-buffer.js): text is accumulated in a buffer and cut at
 * every `\r?\n`; the completed, non-empty lines are emitted on the line
 * subject and returned, and the unterminated tail stays buffered.
 */
module LineFraming {
  import opened Wrappers
  import opened JsText

  /** `(chunk || '')`: a missing chunk reads as the empty string. */
  function ChunkText(chunk: Option<string>): string {
    chunk.GetOr([])
  }

  /** Drops one `\r` at the end of a segment that was followed by `\n`. */
  function StripCR(segment: string): string {
    if segment != [] && Last(segment) == '\r' then AllButLast(segment) else segment
  }

  /** The pieces of `text` between the `\n`s, before any `\r` is removed. */
  function Segments(text: string): (s: seq<string>)
    ensures |s| == |Split(text, '\n')| - 1
  {
    AllButLast(Split(text, '\n'))
  }

  /** A line a feed can return: non-empty and without `\n`. */
  predicate IsLine(l: string) {
    l != [] && '\n' !in l
  }

  /** `StripCR` on every segment. */
  function StripEach(segments: seq<string>): (r: seq<string>)
    ensures |r| == |segments|
    ensures forall i :: 0 <= i < |r| ==> r[i] == StripCR(segments[i])
  {
    if segments == [] then [] else [StripCR(segments[0])] + StripEach(segments[1..])
  }

  /** `text.split(/\r?\n/)`. The regular expression matches at the earliest
      `\r\n` or `\n`, so each piece but the last loses the `\r` that directly
      precedes its `\n`; the last piece is the text after the last `\n`. */
  function SplitLines(text: string): (parts: seq<string>)
    ensures |parts| == |Split(text, '\n')|
  {
    StripEach(Segments(text)) + [Last(Split(text, '\n'))]
  }

  /** Every string is a line a feed can return: non-empty and without `\n`. */
  predicate AllLines(lines: seq<string>) {
    forall i :: 0 <= i < |lines| ==> IsLine(lines[i])
  }

  /** No string holds a `\n`. */
  predicate NoLineFeeds(lines: seq<string>) {
    forall i :: 0 <= i < |lines| ==> '\n' !in lines[i]
  }

  /** `lines.filter(v => !!v)`: the non-empty strings, in order. */
  function NonEmpty(lines: seq<string>): (r: seq<string>)
    ensures |r| <= |lines|
    ensures NoLineFeeds(lines) ==> AllLines(r)
  {
    if lines == [] then []
    else (if lines[0] != [] then [lines[0]] else []) + NonEmpty(lines[1..])
  }

  /** The lines a feed returns when the buffer, after the chunk is appended, holds `text`. */
  function Completed(text: string): (lines: seq<string>)
    ensures AllLines(lines)
  {
    var parts := SplitLines(text);
    assert NoLineFeeds(AllButLast(parts)) by {
      forall i | 0 <= i < |parts| - 1 ensures '\n' !in parts[i] {
        assert parts[i] == StripCR(Segments(text)[i]);
        assert Segments(text)[i] == Split(text, '\n')[i];
      }
    }
    NonEmpty(AllButLast(parts))
  }

  /** What the buffer keeps: the text after the last `\n` (all of it if there is none). */
  function Tail(text: string): (t: string)
    ensures '\n' !in t
  {
    Last(SplitLines(text))
  }

  class LineBuffer {
    /** `_buffer`: text received but not yet terminated. */
    var buffer: string
    /** Every value passed to `_lineSubject.next`, in order. */
    var lineEvents: seq<string>
    /** How many times `_drainSubject.next()` was called. */
    var drainEvents: nat

    constructor ()
      ensures buffer == [] && lineEvents == [] && drainEvents == 0
    {
      buffer := [];
      lineEvents := [];
      drainEvents := 0;
    }

    /** `feed(chunk)`. */
    method Feed(chunk: Option<string>) returns (lines: seq<string>)
      modifies this
      ensures buffer == Tail(old(buffer) + ChunkText(chunk))
      ensures lines == Completed(old(buffer) + ChunkText(chunk))
      ensures lineEvents == old(lineEvents) + lines
      ensures drainEvents == old(drainEvents)
    {
      var text := buffer + ChunkText(chunk);
      var parts := SplitLines(text);
      FeedParts(text);
      if |parts| > 1 {
        buffer := parts[|parts| - 1];
        lines := NonEmpty(parts[..|parts| - 1]);
        Emit(lines);
      } else {
        buffer := text;
        lines := [];
      }
    }

    /** Each line goes to `_lineSubject.next`, in order. */
    method Emit(lines: seq<string>)
      modifies this`lineEvents
      ensures lineEvents == old(lineEvents) + lines
    {
      var i := 0;
      while i < |lines|
        invariant 0 <= i <= |lines|
        invariant lineEvents == old(lineEvents) + lines[..i]
      {
        assert lines[..i + 1] == lines[..i] + [lines[i]];
        lineEvents := lineEvents + [lines[i]];
        i := i + 1;
      }
      assert lines[..i] == lines;
    }

    /** `drain()`. */
    method Drain()
      modifies this
      ensures buffer == [] && drainEvents == old(drainEvents) + 1
      ensures lineEvents == old(lineEvents)
    {
      buffer := [];
      drainEvents := drainEvents + 1;
    }
  }

  /** Text that ends with `\r\n` leaves nothing in the buffer. */
  lemma TerminatedTail(x: string)
    ensures Tail(x + "\r\n") == []
  {
    SegmentsAppend(x, "\r\n");
    var t := Tail(x);
    assert t + "\r\n" == (t + "\r") + ['\n'] + [];
    SplitAtSeparator(t + "\r", [], '\n');
  }

  /** How `feed` reads the pieces of `text.split(/\r?\n/)`: with more than one,
      the last is kept and the others are filtered; with one, that is all of `text`. */
  lemma FeedParts(text: string)
    ensures var parts := SplitLines(text);
      && (|parts| > 1 ==> Tail(text) == parts[|parts| - 1] && Completed(text) == NonEmpty(parts[..|parts| - 1]))
      && (|parts| <= 1 ==> Tail(text) == text && Completed(text) == [])
  {
    var parts := SplitLines(text);
    assert Tail(text) == parts[|parts| - 1];
    assert Completed(text) == NonEmpty(parts[..|parts| - 1]);
    if |parts| <= 1 {
      SplitSingle(text, '\n');
      assert Segments(text) == [] && parts == [text];
    }
  }

  /** Without a `\n` nothing is completed and everything stays buffered. */
  lemma NoLineFeedNoLines(text: string)
    requires '\n' !in text
    ensures Completed(text) == [] && Tail(text) == text
  {
    SplitSingle(text, '\n');
  }

  /** Each segment's own terminator: `\r\n` when the `\r` was taken off, else `\n`. */
  function Terminator(segment: string): string {
    if segment != [] && Last(segment) == '\r' then "\r\n" else "\n"
  }

  /** The lines of the split, each followed by the terminator it was cut at. */
  function Reframe(segments: seq<string>): string {
    if segments == [] then [] else StripCR(segments[0]) + Terminator(segments[0]) + Reframe(segments[1..])
  }

  lemma {:induction false} ReframeJoin(parts: seq<string>)
    requires |parts| > 0
    ensures Reframe(AllButLast(parts)) + Last(parts) == Join(parts, "\n")
    decreases |parts|
  {
    if |parts| > 1 {
      ReframeJoin(parts[1..]);
      assert AllButLast(parts)[1..] == AllButLast(parts[1..]);
      var p := parts[0];
      assert StripCR(p) + Terminator(p) == p + "\n";
    }
  }

  /** The lines (blank ones included), each with its own terminator, followed by
      the new buffer, give back the text that was fed. */
  lemma Reconstruct(text: string)
    ensures Reframe(Segments(text)) + Tail(text) == text
  {
    JoinSplit(text, '\n');
    ReframeJoin(Split(text, '\n'));
  }

  lemma {:induction false} NonEmptyAppend(a: seq<string>, b: seq<string>)
    ensures NonEmpty(a + b) == NonEmpty(a) + NonEmpty(b)
    decreases |a|
  {
    if a != [] {
      NonEmptyAppend(a[1..], b);
      assert (a + b)[1..] == a[1..] + b;
    } else {
      assert a + b == b;
    }
  }

  /** Feeding `a` and then `b` returns, in total, the lines one feed of `a + b`
      returns, and leaves the same buffer. */
  lemma ChunkIndependence(buffer: string, a: string, b: string)
    ensures Completed(buffer + a) + Completed(Tail(buffer + a) + b) == Completed(buffer + a + b)
    ensures Tail(Tail(buffer + a) + b) == Tail(buffer + a + b)
  {
    var x := buffer + a;
    var rest := Tail(x) + b;
    SegmentsAppend(x, b);
    StripEachAppend(Segments(x), Segments(rest));
    NonEmptyAppend(StripEach(Segments(x)), StripEach(Segments(rest)));
    CompletedOf(x);
    CompletedOf(rest);
    CompletedOf(x + b);
    assert x + b == buffer + a + b;
  }

  /** The segments of `x + b`: those of `x`, then those of the buffer `x`
      leaves followed by `b`; the text after the last `\n` is the same. */
  lemma SegmentsAppend(x: string, b: string)
    ensures Segments(x + b) == Segments(x) + Segments(Tail(x) + b)
    ensures Tail(x + b) == Tail(Tail(x) + b)
  {
    var px := Split(x, '\n');
    var py := Split(Last(px) + b, '\n');
    SplitAppend(x, b, '\n');
    assert Split(x + b, '\n') == AllButLast(px) + py;
    assert Tail(x) == Last(px);
    assert Segments(x + b) == AllButLast(px) + AllButLast(py);
  }

  lemma StripEachAppend(a: seq<string>, b: seq<string>)
    ensures StripEach(a + b) == StripEach(a) + StripEach(b)
  {
    var r := StripEach(a + b);
    assert forall i :: 0 <= i < |r| ==> r[i] == (StripEach(a) + StripEach(b))[i];
  }

  /** The completed lines are the non-empty segments, each without its `\r`. */
  lemma CompletedOf(text: string)
    ensures Completed(text) == NonEmpty(StripEach(Segments(text)))
  {
    var parts := SplitLines(text);
    assert AllButLast(parts) == StripEach(Segments(text));
  }

  /** Lines as a server sends them: `l + "\r\n"` each. */
  function Frame(lines: seq<string>): string {
    if lines == [] then [] else lines[0] + "\r\n" + Frame(lines[1..])
  }


  lemma {:induction false} SplitFrame(lines: seq<string>)
    requires AllLines(lines)
    ensures |Split(Frame(lines), '\n')| == |lines| + 1
    ensures Last(Split(Frame(lines), '\n')) == []
    ensures forall i :: 0 <= i < |lines| ==> Split(Frame(lines), '\n')[i] == lines[i] + "\r"
    decreases |lines|
  {
    if lines != [] {
      SplitFrame(lines[1..]);
      var l := lines[0];
      assert Frame(lines) == (l + "\r") + ['\n'] + Frame(lines[1..]);
      SplitAtSeparator(l + "\r", Frame(lines[1..]), '\n');
      var rest := Split(Frame(lines[1..]), '\n');
      assert Split(Frame(lines), '\n') == [l + "\r"] + rest;
      forall i | 1 <= i < |lines|
        ensures Split(Frame(lines), '\n')[i] == lines[i] + "\r"
      {
        assert rest[i - 1] == lines[1..][i - 1] + "\r";
      }
    } else {
      assert Split([], '\n') == [[]];
    }
  }

  /** Framing lines and feeding them to an empty buffer returns exactly those
      lines and leaves the buffer empty. */
  lemma FrameRoundTrip(lines: seq<string>)
    requires AllLines(lines)
    ensures Completed(Frame(lines)) == lines
    ensures Tail(Frame(lines)) == []
  {
    var text := Frame(lines);
    SplitFrame(lines);
    var segments := Segments(text);
    var stripped := StripEach(segments);
    assert stripped == lines by {
      assert |stripped| == |lines|;
      forall i | 0 <= i < |lines| ensures stripped[i] == lines[i] {
        assert segments[i] == Split(text, '\n')[i];
        assert AllButLast(lines[i] + "\r") == lines[i];
      }
    }
    assert AllButLast(SplitLines(text)) == stripped;
    NonEmptyKeepsLines(lines);
  }

  lemma {:induction false} NonEmptyKeepsLines(lines: seq<string>)
    requires forall i :: 0 <= i < |lines| ==> lines[i] != []
    ensures NonEmpty(lines) == lines
    decreases |lines|
  {
    if lines != [] {
      NonEmptyKeepsLines(lines[1..]);
      assert [lines[0]] + lines[1..] == lines;
    }
  }
}
