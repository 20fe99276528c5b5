/** Streaming redaction: text is cut into segments as it arrives, the last
    characters being held back, and each segment is redacted by itself. */
module OutputGuardrails {
  import opened Text
  import ContentFilter
  import MaskEdges

  const OVERLAP := 120

  datatype FailMode = Degrade | Closed | Open

  /** An emitted window: redacted, or passed through after a budget overrun. */
  datatype Segment = Scanned(text: string) | Raw(text: string)

  datatype Scan = Scan(segments: seq<Segment>, buffer: string, stopped: bool)

  function Feed(s: Scan, chunk: string, over: bool, mode: FailMode): Scan {
    if s.stopped then s
    else
      var buffer := s.buffer + chunk;
      if over && mode == Closed then Scan(s.segments, buffer, true)
      else if over && mode == Open then Scan(s.segments + [Raw(buffer)], "", false)
      else if |buffer| > OVERLAP then
        var safe := |buffer| - OVERLAP;
        Scan(s.segments + [Scanned(buffer[..safe])], buffer[safe..], false)
      else Scan(s.segments, buffer, false)
  }

  /** The state after `n` chunks; `over[i]` is the budget reading at chunk `i`. */
  function After(chunks: seq<string>, over: seq<bool>, mode: FailMode, n: nat): Scan
    requires n <= |chunks| == |over|
  {
    if n == 0 then Scan([], "", false)
    else Feed(After(chunks, over, mode, n - 1), chunks[n - 1], over[n - 1], mode)
  }

  function Segments(chunks: seq<string>, over: seq<bool>, mode: FailMode): seq<Segment>
    requires |chunks| == |over|
  {
    var s := After(chunks, over, mode, |chunks|);
    if s.stopped || s.buffer == "" then s.segments else s.segments + [Scanned(s.buffer)]
  }

  /** The two deterministic tiers: what each detects in a text, if enabled. */
  datatype Tiers = Tiers(tier1: bool, tier2: bool, builtin: string -> seq<ContentFilter.Violation>,
                         custom: string -> seq<ContentFilter.Violation>)

  function Detected(d: Tiers, text: string): seq<ContentFilter.Violation> {
    (if d.tier1 then d.builtin(text) else []) + (if d.tier2 then d.custom(text) else [])
  }

  method RedactWindow(fold: char -> char, d: Tiers, text: string) returns (filtered: string)
    ensures filtered == Redacted(fold, d, text)
    ensures var vs := (if d.tier1 then d.builtin(text) else []) + (if d.tier2 then d.custom(text) else []);
            filtered == ContentFilter.Filtered(fold, text, vs).1
  {
    var vs: seq<ContentFilter.Violation> := [];
    if d.tier1 {
      vs := vs + d.builtin(text);
    }
    if d.tier2 {
      vs := vs + d.custom(text);
    }
    assert vs == Detected(d, text);
    var _, t := ContentFilter.DetermineAction(fold, text, vs);
    return t;
  }

  function Redacted(fold: char -> char, d: Tiers, text: string): string {
    ContentFilter.Filtered(fold, text, Detected(d, text)).1
  }

  function Emitted(s: Segment, fold: char -> char, d: Tiers): string {
    match s
    case Scanned(t) => Redacted(fold, d, t)
    case Raw(t) => t
  }

  function AllEmitted(segs: seq<Segment>, fold: char -> char, d: Tiers): (out: seq<string>)
    ensures |out| == |segs| && forall k :: 0 <= k < |out| ==> out[k] == Emitted(segs[k], fold, d)
  {
    if segs == [] then []
    else AllEmitted(segs[..|segs| - 1], fold, d) + [Emitted(segs[|segs| - 1], fold, d)]
  }

  /** One chunk: what is emitted, what is held, and whether the stream stops. */
  method ScanChunk(ghost s: Scan, held: string, chunk: string, over: bool, mode: FailMode, fold: char -> char, d: Tiers)
    returns (out: seq<string>, buffer: string, stop: bool)
    requires !s.stopped && s.buffer == held
    ensures var t := Feed(s, chunk, over, mode);
            buffer == t.buffer && stop == t.stopped &&
            AllEmitted(t.segments, fold, d) == AllEmitted(s.segments, fold, d) + out
  {
    out, buffer, stop := [], held + chunk, false;
    if over {
      if mode == Closed {
        stop := true;
        return;
      }
      if mode == Open {
        out, buffer := [buffer], "";
        return;
      }
    }
    var safe := if |buffer| > OVERLAP then |buffer| - OVERLAP else 0;
    if safe > 0 {
      var window := RedactWindow(fold, d, buffer[..safe]);
      out, buffer := [window], buffer[safe..];
    }
  }

  method ScanStream(chunks: seq<string>, over: seq<bool>, mode: FailMode, fold: char -> char, d: Tiers)
    returns (out: seq<string>)
    requires |chunks| == |over|
    ensures out == AllEmitted(Segments(chunks, over, mode), fold, d)
  {
    out := [];
    var buffer := "";
    for i := 0 to |chunks|
      invariant var s := After(chunks, over, mode, i);
                !s.stopped && s.buffer == buffer && out == AllEmitted(s.segments, fold, d)
    {
      var more, held, stop := ScanChunk(After(chunks, over, mode, i), buffer, chunks[i], over[i], mode, fold, d);
      out, buffer := out + more, held;
      if stop {
        StaysStopped(chunks, over, mode, i + 1, |chunks|);
        return;
      }
    }
    if buffer != "" {
      var window := RedactWindow(fold, d, buffer);
      out := out + [window];
    }
  }

  // ---- the segments partition the stream

  function Concat(parts: seq<string>): string {
    if parts == [] then "" else Concat(parts[..|parts| - 1]) + parts[|parts| - 1]
  }

  function Joined(segs: seq<Segment>): string {
    if segs == [] then "" else Joined(segs[..|segs| - 1]) + segs[|segs| - 1].text
  }

  lemma {:induction false} StaysStopped(chunks: seq<string>, over: seq<bool>, mode: FailMode, m: nat, n: nat)
    requires m <= n <= |chunks| == |over| && After(chunks, over, mode, m).stopped
    ensures After(chunks, over, mode, n) == After(chunks, over, mode, m)
  {
    if m < n {
      StaysStopped(chunks, over, mode, m, n - 1);
    }
  }

  /** A chunk moves text from the stream to the segments and the buffer. */
  lemma {:induction false} FeedKeepsText(s: Scan, chunk: string, over: bool, mode: FailMode)
    requires !s.stopped
    ensures var t := Feed(s, chunk, over, mode);
            && Joined(t.segments) + t.buffer == Joined(s.segments) + s.buffer + chunk
            && t.stopped == (over && mode == Closed)
            && (!t.stopped ==> |t.buffer| <= 120)
  {
    var t := Feed(s, chunk, over, mode);
    var buffer := s.buffer + chunk;
    Assoc(Joined(s.segments), s.buffer, chunk);
    if |t.segments| > |s.segments| {
      var last := t.segments[|s.segments|].text;
      assert t.segments[..|s.segments|] == s.segments;
      assert last + t.buffer == buffer;
      Assoc(Joined(s.segments), last, t.buffer);
    }
  }

  /** Emitted and held text together are the chunks read so far; at most the
      overlap is held; only a budget overrun in mode "closed" stops. */
  lemma {:induction false} ScanIsFaithful(chunks: seq<string>, over: seq<bool>, mode: FailMode, n: nat)
    requires n <= |chunks| == |over|
    requires mode == Closed ==> forall i :: 0 <= i < n - 1 ==> !over[i]
    ensures var s := After(chunks, over, mode, n);
            && Joined(s.segments) + s.buffer == Concat(chunks[..n])
            && s.stopped == (n > 0 && over[n - 1] && mode == Closed)
            && (!s.stopped ==> |s.buffer| <= 120)
  {
    if n > 0 {
      ScanIsFaithful(chunks, over, mode, n - 1);
      FeedKeepsText(After(chunks, over, mode, n - 1), chunks[n - 1], over[n - 1], mode);
      assert chunks[..n][..n - 1] == chunks[..n - 1];
    }
  }

  /** Raw text leaves only in mode "open". */
  lemma {:induction false} RawOnlyWhenOpen(chunks: seq<string>, over: seq<bool>, mode: FailMode, n: nat, k: nat)
    requires n <= |chunks| == |over| && k < |After(chunks, over, mode, n).segments|
    ensures After(chunks, over, mode, n).segments[k].Raw? ==> mode == Open
  {
    if k < |After(chunks, over, mode, n - 1).segments| {
      RawOnlyWhenOpen(chunks, over, mode, n - 1, k);
    }
  }

  /** A chunk makes at most one window, and that is raw exactly when the budget is
      overrun in mode "open"; then nothing is held back. */
  lemma {:induction false} RawExactlyOnOverrun(chunks: seq<string>, over: seq<bool>, mode: FailMode, n: nat)
    requires 0 < n <= |chunks| == |over| && !After(chunks, over, mode, n).stopped
    ensures var s, t := After(chunks, over, mode, n - 1), After(chunks, over, mode, n);
            && |s.segments| <= |t.segments| <= |s.segments| + 1 && t.segments[..|s.segments|] == s.segments
            && (mode == Open && over[n - 1] ==> |t.segments| > |s.segments| && t.buffer == "")
            && (|t.segments| > |s.segments| ==> (t.segments[|s.segments|].Raw? <==> mode == Open && over[n - 1]))
  {}

  /** How many chunks are read: all, or up to the overrun that stops. */
  function Read(over: seq<bool>, mode: FailMode): (n: nat)
    ensures n <= |over|
    ensures mode == Closed ==> forall i :: 0 <= i < n - 1 ==> !over[i]
    ensures n < |over| ==> n > 0 && mode == Closed && over[n - 1]
  {
    if over == [] then 0
    else if mode == Closed && over[0] then 1
    else
      var m := Read(over[1..], mode);
      1 + m
  }

  /** What leaves the scanner comes from segments that partition, in order, the
      chunks read; a stop in mode "closed" keeps back the text still held. */
  lemma {:induction false} SegmentsPartition(chunks: seq<string>, over: seq<bool>, mode: FailMode)
    requires |chunks| == |over|
    ensures var n := Read(over, mode);
            var stopped := n > 0 && over[n - 1] && mode == Closed;
            var joined := Joined(Segments(chunks, over, mode));
            if stopped then joined <= Concat(chunks[..n]) else joined == Concat(chunks)
  {
    var n := Read(over, mode);
    ScanIsFaithful(chunks, over, mode, n);
    var s := After(chunks, over, mode, n);
    if s.stopped {
      StaysStopped(chunks, over, mode, n, |chunks|);
    } else {
      assert n == |chunks| && chunks[..n] == chunks;
      if s.buffer != "" {
        assert Segments(chunks, over, mode)[..|s.segments|] == s.segments;
      }
    }
  }

  // ---- where the stream is cut

  function Offset(segs: seq<Segment>, k: nat): nat
    requires k <= |segs|
  {
    if k == 0 then 0 else Offset(segs, k - 1) + |segs[k - 1].text|
  }

  function Length(chunks: seq<string>, n: nat): nat
    requires n <= |chunks|
  {
    if n == 0 then 0 else Length(chunks, n - 1) + |chunks[n - 1]|
  }

  /** How much has been emitted after `n` chunks. */
  function Cut(chunks: seq<string>, over: seq<bool>, mode: FailMode, n: nat): nat
    requires n <= |chunks| == |over|
  {
    var segs := After(chunks, over, mode, n).segments;
    Offset(segs, |segs|)
  }

  lemma {:induction false} OffsetOfPrefix(a: seq<Segment>, b: seq<Segment>, k: nat)
    requires k <= |a|
    ensures Offset(a + b, k) == Offset(a, k)
  {
    if k > 0 {
      OffsetOfPrefix(a, b, k - 1);
    }
  }

  lemma {:induction false} OffsetGrows(segs: seq<Segment>, j: nat, k: nat)
    requires j <= k <= |segs|
    ensures Offset(segs, j) <= Offset(segs, k)
  {
    if j < k {
      OffsetGrows(segs, j, k - 1);
    }
  }

  predicate Stopped(over: seq<bool>, mode: FailMode, n: nat)
    requires n <= |over|
  {
    mode == Closed && exists i :: 0 <= i < n && over[i]
  }

  /** Where the stream is cut after `n` chunks, from lengths and budget readings
      alone: 120 characters back from what was received, or right there after an
      overrun in mode "open"; a stop in mode "closed" cuts no further. */
  function CutPoint(chunks: seq<string>, over: seq<bool>, mode: FailMode, n: nat): nat
    requires n <= |chunks| == |over|
  {
    if n == 0 then 0
    else
      var before, length := CutPoint(chunks, over, mode, n - 1), Length(chunks, n);
      if Stopped(over, mode, n) then before
      else if mode == Open && over[n - 1] then length
      else if length > before + 120 then length - 120
      else before
  }

  /** What has been emitted ends at the cut; the rest is held. */
  lemma {:induction false} CutIsCutPoint(chunks: seq<string>, over: seq<bool>, mode: FailMode, n: nat)
    requires n <= |chunks| == |over|
    ensures After(chunks, over, mode, n).stopped <==> Stopped(over, mode, n)
    ensures Cut(chunks, over, mode, n) == CutPoint(chunks, over, mode, n)
    ensures !Stopped(over, mode, n) ==>
              |After(chunks, over, mode, n).buffer| + Cut(chunks, over, mode, n) == Length(chunks, n)
  {
    if n > 0 {
      CutIsCutPoint(chunks, over, mode, n - 1);
      if !Stopped(over, mode, n - 1) {
        FeedCuts(After(chunks, over, mode, n - 1), chunks[n - 1], over[n - 1], mode);
      }
    }
  }

  function End(segs: seq<Segment>): nat { Offset(segs, |segs|) }

  lemma {:induction false} FeedCuts(s: Scan, chunk: string, over: bool, mode: FailMode)
    requires !s.stopped
    ensures var t := Feed(s, chunk, over, mode);
            && t.stopped == (over && mode == Closed)
            && if t.stopped then End(t.segments) == End(s.segments)
            else |t.buffer| + End(t.segments) == |s.buffer| + End(s.segments) + |chunk|
  {
    var t := Feed(s, chunk, over, mode);
    if |t.segments| > |s.segments| {
      OffsetOfPrefix(s.segments, t.segments[|s.segments|..], |s.segments|);
      assert t.segments == s.segments + t.segments[|s.segments|..];
    }
  }

  /** Away from overruns in mode "open" or "closed", everything but the last
      120 characters has been emitted. */
  lemma {:induction false} CutIsLengthMinusOverlap(chunks: seq<string>, over: seq<bool>, mode: FailMode, n: nat)
    requires n <= |chunks| == |over|
    requires mode == Degrade || forall i :: 0 <= i < n ==> !over[i]
    ensures !Stopped(over, mode, n)
    ensures CutPoint(chunks, over, mode, n) == if Length(chunks, n) > 120 then Length(chunks, n) - 120 else 0
  {
    if n > 0 {
      CutIsLengthMinusOverlap(chunks, over, mode, n - 1);
    }
  }

  /** Every boundary between segments is a cut made after some chunk, and every
      cut is a boundary. */
  lemma {:induction false} BoundariesAreCuts(chunks: seq<string>, over: seq<bool>, mode: FailMode, n: nat, k: nat)
    requires n <= |chunks| == |over| && k <= |After(chunks, over, mode, n).segments|
    ensures exists m :: 0 <= m <= n && Offset(After(chunks, over, mode, n).segments, k) == Cut(chunks, over, mode, m)
  {
    var t := After(chunks, over, mode, n);
    if n == 0 || k == |t.segments| {
      assert Offset(t.segments, k) == Cut(chunks, over, mode, n);
    } else {
      var s := After(chunks, over, mode, n - 1);
      assert t.segments == s.segments + t.segments[|s.segments|..];
      OffsetOfPrefix(s.segments, t.segments[|s.segments|..], k);
      BoundariesAreCuts(chunks, over, mode, n - 1, k);
    }
  }

  lemma {:induction false} CutsAreBoundaries(chunks: seq<string>, over: seq<bool>, mode: FailMode, m: nat, n: nat)
    requires m <= n <= |chunks| == |over|
    ensures exists k :: 0 <= k <= |After(chunks, over, mode, n).segments| &&
                        Offset(After(chunks, over, mode, n).segments, k) == Cut(chunks, over, mode, m)
  {
    var t := After(chunks, over, mode, n);
    if m == n {
      assert Offset(t.segments, |t.segments|) == Cut(chunks, over, mode, m);
    } else {
      CutsAreBoundaries(chunks, over, mode, m, n - 1);
      var s := After(chunks, over, mode, n - 1);
      var k :| 0 <= k <= |s.segments| && Offset(s.segments, k) == Cut(chunks, over, mode, m);
      assert t.segments == s.segments + t.segments[|s.segments|..];
      OffsetOfPrefix(s.segments, t.segments[|s.segments|..], k);
    }
  }

  predicate InOneSegment(segs: seq<Segment>, a: nat, b: nat) {
    exists k: nat :: k < |segs| && Offset(segs, k) <= a && b <= Offset(segs, k + 1)
  }

  lemma {:induction false} SegmentAround(segs: seq<Segment>, a: nat) returns (k: nat)
    requires a < Offset(segs, |segs|)
    ensures k < |segs| && Offset(segs, k) <= a < Offset(segs, k + 1)
  {
    k := 0;
    while Offset(segs, k + 1) <= a
      invariant k < |segs| && Offset(segs, k) <= a
      decreases |segs| - k
    {
      k := k + 1;
    }
  }

  lemma {:induction false} AroundIsUnique(segs: seq<Segment>, a: nat, i: nat, j: nat)
    requires i < |segs| && Offset(segs, i) <= a < Offset(segs, i + 1)
    requires j < |segs| && Offset(segs, j) <= a < Offset(segs, j + 1)
    ensures i == j
  {
    if i < j {
      OffsetGrows(segs, i + 1, j);
    } else if j < i {
      OffsetGrows(segs, j + 1, i);
    }
  }

  predicate NoCutInside(segs: seq<Segment>, a: nat, b: nat) {
    forall k: nat :: k <= |segs| ==> Offset(segs, k) <= a || b <= Offset(segs, k)
  }

  lemma {:induction false} NoBoundaryInside(segs: seq<Segment>, a: nat, b: nat)
    requires a < b <= Offset(segs, |segs|)
    ensures InOneSegment(segs, a, b) <==> NoCutInside(segs, a, b)
  {
    var j := SegmentAround(segs, a);
    assert InOneSegment(segs, a, b) ==> b <= Offset(segs, j + 1) by {
      if InOneSegment(segs, a, b) {
        var i: nat :| i < |segs| && Offset(segs, i) <= a && b <= Offset(segs, i + 1);
        AroundIsUnique(segs, a, i, j);
      }
    }
    assert b <= Offset(segs, j + 1) ==> NoCutInside(segs, a, b) by {
      forall k: nat | k <= |segs| && b <= Offset(segs, j + 1)
        ensures Offset(segs, k) <= a || b <= Offset(segs, k)
      {
        OffsetGrows(segs, if k <= j then k else j + 1, if k <= j then j else k);
      }
    }
  }

  /** How much leaves the scanner in the end. */
  function Emission(chunks: seq<string>, over: seq<bool>, mode: FailMode): nat
    requires |chunks| == |over|
  {
    var segs := Segments(chunks, over, mode);
    Offset(segs, |segs|)
  }

  /** Without a stop the whole stream leaves the scanner. */
  lemma {:induction false} AllIsEmitted(chunks: seq<string>, over: seq<bool>, mode: FailMode)
    requires |chunks| == |over|
    ensures Emission(chunks, over, mode) ==
            if Stopped(over, mode, |chunks|) then CutPoint(chunks, over, mode, |chunks|) else Length(chunks, |chunks|)
  {
    var s, segs := After(chunks, over, mode, |chunks|), Segments(chunks, over, mode);
    CutIsCutPoint(chunks, over, mode, |chunks|);
    OffsetOfPrefix(s.segments, segs[|s.segments|..], |s.segments|);
    assert segs == s.segments + segs[|s.segments|..];
  }

  predicate Splits(p: int, a: nat, b: nat) { a < p < b }

  /** A cut strictly inside a match splits it. */
  lemma {:induction false} CutSplits(chunks: seq<string>, over: seq<bool>, mode: FailMode, a: nat, b: nat, n: nat)
    requires n <= |chunks| == |over| && a < b <= Emission(chunks, over, mode)
    requires Splits(CutPoint(chunks, over, mode, n), a, b)
    ensures !InOneSegment(Segments(chunks, over, mode), a, b)
  {
    var s, segs := After(chunks, over, mode, |chunks|), Segments(chunks, over, mode);
    assert segs == s.segments + segs[|s.segments|..];
    NoBoundaryInside(segs, a, b);
    CutIsCutPoint(chunks, over, mode, n);
    CutsAreBoundaries(chunks, over, mode, n, |chunks|);
    var k :| 0 <= k <= |s.segments| && Offset(s.segments, k) == Cut(chunks, over, mode, n);
    OffsetOfPrefix(s.segments, segs[|s.segments|..], k);
  }

  /** A match that is split has a cut strictly inside. */
  lemma {:induction false} SplitByCut(chunks: seq<string>, over: seq<bool>, mode: FailMode, a: nat, b: nat)
    returns (n: nat)
    requires |chunks| == |over| && a < b <= Emission(chunks, over, mode)
    requires !InOneSegment(Segments(chunks, over, mode), a, b)
    ensures n <= |chunks| && Splits(CutPoint(chunks, over, mode, n), a, b)
  {
    var s, segs := After(chunks, over, mode, |chunks|), Segments(chunks, over, mode);
    assert segs == s.segments + segs[|s.segments|..];
    NoBoundaryInside(segs, a, b);
    var k: nat :| k <= |segs| && a < Offset(segs, k) < b;
    OffsetOfPrefix(s.segments, segs[|s.segments|..], k);
    BoundariesAreCuts(chunks, over, mode, |chunks|, k);
    n :| 0 <= n <= |chunks| && Offset(s.segments, k) == Cut(chunks, over, mode, n);
    CutIsCutPoint(chunks, over, mode, n);
  }

  ghost predicate CutInside(chunks: seq<string>, over: seq<bool>, mode: FailMode, a: nat, b: nat)
    requires |chunks| == |over|
  {
    exists n: nat :: n <= |chunks| && Splits(CutPoint(chunks, over, mode, n), a, b)
  }

  /** A match at [a, b) of the emitted stream lies in one segment exactly when
      no cut is strictly inside it, whatever the fail mode. */
  lemma {:induction false} MatchInOneSegmentIff(chunks: seq<string>, over: seq<bool>, mode: FailMode, a: nat, b: nat)
    requires |chunks| == |over| && a < b <= Emission(chunks, over, mode)
    ensures InOneSegment(Segments(chunks, over, mode), a, b) <==> !CutInside(chunks, over, mode, a, b)
  {
    if n: nat :| n <= |chunks| && Splits(CutPoint(chunks, over, mode, n), a, b) {
      CutSplits(chunks, over, mode, a, b, n);
    }
    if !InOneSegment(Segments(chunks, over, mode), a, b) {
      var n := SplitByCut(chunks, over, mode, a, b);
    }
  }

  ghost predicate EndInside(chunks: seq<string>, a: nat, b: nat) {
    exists n: nat :: n <= |chunks| && Splits(Length(chunks, n) - 120, a, b)
  }

  /** Away from such overruns: exactly when no chunk ends where 120 characters
      further back is strictly inside the match. */
  lemma {:induction false} MatchKeptWholeIff(chunks: seq<string>, over: seq<bool>, mode: FailMode, a: nat, b: nat)
    requires |chunks| == |over| && (mode == Degrade || forall i :: 0 <= i < |over| ==> !over[i])
    requires a < b <= Length(chunks, |chunks|)
    ensures InOneSegment(Segments(chunks, over, mode), a, b) <==> !EndInside(chunks, a, b)
  {
    CutIsLengthMinusOverlap(chunks, over, mode, |chunks|);
    AllIsEmitted(chunks, over, mode);
    if n: nat :| n <= |chunks| && Splits(Length(chunks, n) - 120, a, b) {
      CutIsLengthMinusOverlap(chunks, over, mode, n);
      CutSplits(chunks, over, mode, a, b, n);
    }
    if !InOneSegment(Segments(chunks, over, mode), a, b) {
      var n := SplitByCut(chunks, over, mode, a, b);
      CutIsLengthMinusOverlap(chunks, over, mode, n);
    }
  }

  /** One chunk of 121 to 119 + |match| characters splits a match at its start. */
  lemma {:induction false} HeldBackTooLittle(chunk: string, b: nat)
    requires 120 < |chunk| < 120 + b && b <= |chunk|
    ensures !InOneSegment(Segments([chunk], [false], Degrade), 0, b)
  {
    assert Length([chunk], 1) == |chunk| by {
      assert Length([chunk], 0) == 0;
    }
    MatchKeptWholeIff([chunk], [false], Degrade, 0, b);
  }

  /** An enabled tier detects something that blocks. */
  ghost predicate Blocking(d: Tiers, text: string) {
    || (d.tier1 && ContentFilter.AnyOf(d.builtin(text), ContentFilter.Block))
    || (d.tier2 && ContentFilter.AnyOf(d.custom(text), ContentFilter.Block))
  }

  /** None of the texts to redact is left. */
  ghost predicate Clean(fold: char -> char, vs: seq<ContentFilter.Violation>, out: string) {
    forall v :: v in vs && v.severity == ContentFilter.Redact ==> ContentFilter.FieldsGone(fold, v, out)
  }

  /** The texts to redact in a window are all removed by their own redactions,
      and none is completed by the mask of a later one. */
  ghost predicate Removable(fold: char -> char, d: Tiers, text: string) {
    MaskEdges.Compatible(fold, ContentFilter.OfSeverity(Detected(d, text), ContentFilter.Redact))
  }

  lemma {:induction false} DetectedByTiers(d: Tiers, text: string)
    ensures forall v :: v in Detected(d, text) <==>
              (d.tier1 && v in d.builtin(text)) || (d.tier2 && v in d.custom(text))
  {}

  /** What an emitted window still contains. A raw one, and one in which an enabled
      tier detects something of severity "block", is the segment itself; in any
      other no text is left that an enabled tier finds to redact. */
  lemma {:induction false} WindowMeaning(chunks: seq<string>, over: seq<bool>, mode: FailMode, fold: char -> char,
                                         d: Tiers, k: nat)
    requires |chunks| == |over| && k < |Segments(chunks, over, mode)|
    ensures var s := Segments(chunks, over, mode)[k];
            var out := AllEmitted(Segments(chunks, over, mode), fold, d)[k];
            if s.Raw? || Blocking(d, s.text) || (!d.tier1 && !d.tier2) then
              out == s.text && (s.Raw? ==> mode == Open)
            else
              Removable(fold, d, s.text) ==>
                (d.tier1 ==> Clean(fold, d.builtin(s.text), out)) && (d.tier2 ==> Clean(fold, d.custom(s.text), out))
  {
    var s := Segments(chunks, over, mode)[k];
    var vs := Detected(d, s.text);
    var rs := ContentFilter.OfSeverity(vs, ContentFilter.Redact);
    if s.Raw? {
      RawOnlyWhenOpen(chunks, over, mode, |chunks|, k);
    }
    DetectedByTiers(d, s.text);
    ContentFilter.VerdictMeaning(fold, s.text, vs);
    ContentFilter.OfSeverityMembers(vs, ContentFilter.Redact);
    if Removable(fold, d, s.text) {
      MaskEdges.CompatibleAreRemoved(fold, s.text, rs);
      TargetsGone(fold, rs, ContentFilter.Redactions(fold, s.text, rs));
    }
  }

  lemma {:induction false} TargetsGone(fold: char -> char, rs: seq<ContentFilter.Violation>, out: string)
    requires ContentFilter.Absent(fold, rs, out)
    ensures forall v :: v in rs ==> ContentFilter.FieldsGone(fold, v, out)
  {}

  /** A tier that is off does not matter. */
  lemma {:induction false} OffTierDoesNotMatter(s: Segment, fold: char -> char, d: Tiers, e: Tiers)
    requires d.tier1 == e.tier1 && d.tier2 == e.tier2
    requires (d.tier1 ==> d.builtin(s.text) == e.builtin(s.text)) && (d.tier2 ==> d.custom(s.text) == e.custom(s.text))
    ensures Emitted(s, fold, d) == Emitted(s, fold, e)
  {}
}
