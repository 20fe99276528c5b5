/** Event streams as WHATWG HTML defines them: section 9.2.5 (a stream is
    lines ended by CRLF, LF or CR) and section 9.2.6 (lines fill buffers, a
    blank line dispatches them). The printer is the one the replay of cached
    responses uses. Characters stand for the UTF-8 decoded bytes. */
module EventStream {
  import opened Text

  datatype Message = Message(event: string, data: string, lastId: string)

  datatype Buffers = Buffers(data: string, event: string, lastId: string)

  /** What one printed frame carries; `data: ` frames have no event name. */
  datatype Sent = Named(event: string, data: string) | Unnamed(data: string)

  // ---- printing

  function EventFrame(event: string, data: string): string {
    "event: " + event + "\ndata: " + data + "\n\n"
  }

  function DataFrame(data: string): string {
    "data: " + data + "\n\n"
  }

  function Frame(m: Sent): string {
    match m
    case Named(event, data) => EventFrame(event, data)
    case Unnamed(data) => DataFrame(data)
  }

  function Stream(sent: seq<Sent>): string {
    if sent == [] then "" else Frame(sent[0]) + Stream(sent[1..])
  }

  // ---- reading

  /** The rest of the stream after the line break it starts with. */
  function PastBreak(s: string): string
    requires s != ""
  {
    if s[0] == '\r' && |s| > 1 && s[1] == '\n' then s[2..] else s[1..]
  }

  /** The complete lines of a stream; `line` is what was read of the first
      one. A last line without an end is discarded. */
  function Lines(s: string, line: string): seq<string>
    decreases |s|
  {
    if s == "" then []
    else if IsBreak(s[0]) then [line] + Lines(PastBreak(s), "")
    else Lines(s[1..], line + [s[0]])
  }

  function Colon(line: string): (k: nat)
    ensures k <= |line|
    ensures forall i :: 0 <= i < k ==> line[i] != ':'
    ensures k < |line| ==> line[k] == ':'
  {
    if line == "" || line[0] == ':' then 0 else 1 + Colon(line[1..])
  }

  function FieldName(line: string): string { line[..Colon(line)] }

  function FieldValue(line: string): string {
    var k := Colon(line);
    if k == |line| then ""
    else if k + 1 < |line| && line[k + 1] == ' ' then line[k + 2..]
    else line[k + 1..]
  }

  /** One non-blank line. A line starting with a colon has the empty field
      name and is a comment; `retry` does not change what is dispatched. */
  function Field(line: string, b: Buffers): Buffers {
    var name, value := FieldName(line), FieldValue(line);
    if name == "event" then b.(event := value)
    else if name == "data" then b.(data := b.data + value + "\n")
    else if name == "id" && (forall i :: 0 <= i < |value| ==> value[i] != '\0') then b.(lastId := value)
    else b
  }

  function Dispatched(b: Buffers): Message
    requires b.data != ""
  {
    Message(if b.event == "" then "message" else b.event,
            if b.data[|b.data| - 1] == '\n' then b.data[..|b.data| - 1] else b.data,
            b.lastId)
  }

  function Read(lines: seq<string>, b: Buffers): seq<Message> {
    if lines == [] then []
    else if lines[0] != "" then Read(lines[1..], Field(lines[0], b))
    else (if b.data == "" then [] else [Dispatched(b)]) + Read(lines[1..], Buffers("", "", b.lastId))
  }

  const EMPTY := Buffers("", "", "")

  function Parse(stream: string): seq<Message> {
    var s := if stream != "" && stream[0] == '\U{FEFF}' then stream[1..] else stream;
    Read(Lines(s, ""), EMPTY)
  }

  function Received(m: Sent): Message {
    match m
    case Named(event, data) => Message(event, data, "")
    case Unnamed(data) => Message("message", data, "")
  }

  function AllReceived(sent: seq<Sent>): (r: seq<Message>)
    ensures |r| == |sent| && forall i :: 0 <= i < |sent| ==> r[i] == Received(sent[i])
  {
    if sent == [] then [] else [Received(sent[0])] + AllReceived(sent[1..])
  }

  /** Event names are the program's own constants. */
  predicate NamesFit(sent: seq<Sent>) {
    forall i :: 0 <= i < |sent| && sent[i].Named? ==> sent[i].event != "" && OneLine(sent[i].event)
  }

  predicate DataFits(sent: seq<Sent>) {
    forall i :: 0 <= i < |sent| ==> OneLine(sent[i].data)
  }

  lemma {:induction false} FrameText(event: string, data: string)
    ensures Frame(Named(event, data)) == "event: " + event + "\ndata: " + data + "\n\n"
    ensures Frame(Unnamed(data)) == "data: " + data + "\n\n"
  {}

  // ---- lines

  /** Reading a line and what ends it. */
  lemma {:induction false} LineThenRest(x: string, rest: string, line: string)
    requires OneLine(x) && rest != "" && IsBreak(rest[0])
    ensures Lines(x + rest, line) == [line + x] + Lines(PastBreak(rest), "")
  {
    if x == "" {
      assert x + rest == rest && line + x == line;
    } else {
      assert (x + rest)[0] == x[0] && (x + rest)[1..] == x[1..] + rest;
      LineThenRest(x[1..], rest, line + [x[0]]);
      assert line + [x[0]] + x[1..] == line + x;
    }
  }

  lemma {:induction false} ReadLine(x: string, rest: string, b: Buffers)
    requires OneLine(x) && x != "" && rest != "" && IsBreak(rest[0])
    ensures Read(Lines(x + rest, ""), b) == Read(Lines(PastBreak(rest), ""), Field(x, b))
  {
    LineThenRest(x, rest, "");
    assert "" + x == x;
    assert ([x] + Lines(PastBreak(rest), ""))[1..] == Lines(PastBreak(rest), "");
  }

  lemma {:induction false} ReadBlank(rest: string, b: Buffers)
    requires rest != "" && IsBreak(rest[0])
    ensures Read(Lines(rest, ""), b)
            == (if b.data == "" then [] else [Dispatched(b)])
               + Read(Lines(PastBreak(rest), ""), Buffers("", "", b.lastId))
  {
    assert ([""] + Lines(PastBreak(rest), ""))[1..] == Lines(PastBreak(rest), "");
  }

  lemma {:induction false} ColonAt(name: string, tail: string)
    requires forall i :: 0 <= i < |name| ==> name[i] != ':'
    requires tail != "" && tail[0] == ':'
    ensures Colon(name + tail) == |name|
  {
    assert (name + tail)[|name|] == ':';
    assert forall i :: 0 <= i < |name| ==> (name + tail)[i] == name[i];
  }

  lemma {:induction false} EventField(x: string, b: Buffers)
    ensures Field("event: " + x, b) == b.(event := x)
  {
    assert "event: " + x == "event" + (": " + x);
    ColonAt("event", ": " + x);
    assert ("event: " + x)[..5] == "event";
    assert ("event: " + x)[7..] == x;
  }

  lemma {:induction false} DataField(x: string, b: Buffers)
    ensures Field("data: " + x, b) == b.(data := b.data + x + "\n")
  {
    assert "data: " + x == "data" + (": " + x);
    ColonAt("data", ": " + x);
    assert ("data: " + x)[..4] == "data";
    assert ("data: " + x)[6..] == x;
  }

  // ---- one frame

  predicate Fits(m: Sent) {
    m.Named? ==> m.event != "" && OneLine(m.event)
  }

  /** The buffers once the frame's event line has been read. */
  function Opened(m: Sent): Buffers {
    Buffers("", if m.Named? then m.event else "", "")
  }

  /** A frame's event line, if it has one. */
  lemma {:induction false} EventLineIsRead(m: Sent, rest: string)
    requires Fits(m)
    ensures Read(Lines(Frame(m) + rest, ""), EMPTY)
            == Read(Lines("data: " + m.data + ("\n\n" + rest), ""), Opened(m))
  {
    var tail := "data: " + m.data + ("\n\n" + rest);
    if m.Named? {
      var line := "event: " + m.event;
      assert Frame(m) + rest == line + ("\n" + tail);
      ReadLine(line, "\n" + tail, EMPTY);
      assert PastBreak("\n" + tail) == tail;
      EventField(m.event, EMPTY);
    } else {
      assert Frame(m) + rest == tail;
    }
  }

  lemma {:induction false} DispatchedIsReceived(m: Sent)
    requires Fits(m)
    ensures Dispatched(Opened(m).(data := "" + m.data + "\n")) == Received(m)
  {
    assert ("" + m.data + "\n")[..|m.data|] == m.data;
  }

  lemma {:induction false} DataLineIsRead(d: string, tail: string, b: Buffers)
    requires OneLine(d) && tail != "" && IsBreak(tail[0])
    ensures Read(Lines("data: " + d + tail, ""), b)
            == Read(Lines(PastBreak(tail), ""), b.(data := b.data + d + "\n"))
  {
    ReadLine("data: " + d, tail, b);
    DataField(d, b);
  }

  /** The two line breaks that end a frame. */
  lemma {:induction false} EndIsRead(rest: string, b: Buffers)
    requires b.data != "" && b.lastId == ""
    ensures ("\n\n" + rest)[0] == '\n'
    ensures Read(Lines(PastBreak("\n\n" + rest), ""), b) == [Dispatched(b)] + Read(Lines(rest, ""), EMPTY)
  {
    assert ("\n\n" + rest)[1..] == "\n" + rest;
    assert ("\n" + rest)[1..] == rest;
    ReadBlank("\n" + rest, b);
  }

  lemma {:induction false} FrameIsRead(m: Sent, rest: string)
    requires Fits(m) && OneLine(m.data)
    ensures Read(Lines(Frame(m) + rest, ""), EMPTY) == [Received(m)] + Read(Lines(rest, ""), EMPTY)
  {
    var b := Opened(m).(data := "" + m.data + "\n");
    EventLineIsRead(m, rest);
    EndIsRead(rest, b);
    DataLineIsRead(m.data, "\n\n" + rest, Opened(m));
    DispatchedIsReceived(m);
  }

  // ---- a frame whose data spans lines

  /** One line adds less to the data than it has characters. */
  lemma {:induction false} FieldAddsLess(line: string, b: Buffers)
    requires b.data != "" && b.data[|b.data| - 1] == '\n'
    ensures var d := Field(line, b).data;
            d != "" && d[|d| - 1] == '\n' && |b.data| <= |d| && (|d| == |b.data| || |d| <= |b.data| + |line| - 3)
  {
    if FieldName(line) == "data" {
      assert Colon(line) == 4;
    }
  }

  /** A message no longer than what was buffered, or which lost at least a
      field name from the `added` characters. */
  predicate Short(ms: seq<Message>, buffered: nat, added: nat) {
    ms != [] && (|ms[0].data| < buffered || |ms[0].data| + 4 <= buffered + added)
  }

  /** The two line breaks after a frame's data, and what follows them. */
  predicate IsEnd(end: string) { |end| >= 2 && end[0] == '\n' && end[1] == '\n' }

  /** The next message after `s` and a blank line. */
  lemma {:induction false} NextMessageIsShort(s: string, line: string, end: string, b: Buffers)
    requires b.data != "" && b.data[|b.data| - 1] == '\n' && IsEnd(end)
    ensures Short(Read(Lines(s + end, line), b), |b.data|, |line| + |s|)
    decreases |s|
  {
    if s != "" && !IsBreak(s[0]) {
      assert (s + end)[0] == s[0] && (s + end)[1..] == s[1..] + end;
      NextMessageIsShort(s[1..], line + [s[0]], end, b);
    } else {
      assert IsBreak((s + end)[0]);
      BreakEndsLine(s + end, line, b);
      if line != "" {
        LineIsShort(s, line, end, b);
      }
    }
  }

  lemma {:induction false} LineIsShort(s: string, line: string, end: string, b: Buffers)
    requires b.data != "" && b.data[|b.data| - 1] == '\n' && IsEnd(end)
    requires (s != "" ==> IsBreak(s[0])) && line != ""
    ensures Short(Read(Lines(PastBreak(s + end), ""), Field(line, b)), |b.data|, |line| + |s|)
    decreases |s|, 0
  {
    var c := Field(line, b);
    FieldAddsLess(line, b);
    PastBreakOf(s, end);
    if s == "" || s == "\r" {
      BreakEndsLine(end[1..], "", c);
    } else {
      NextMessageIsShort(PastBreak(s), "", end, c);
    }
  }

  lemma {:induction false} PastBreakOf(s: string, end: string)
    requires (s != "" ==> IsBreak(s[0])) && IsEnd(end)
    ensures PastBreak(s + end) == if s == "" || s == "\r" then end[1..] else PastBreak(s) + end
  {
    if s == "" {
      assert s + end == end;
    } else if s == "\r" {
      PastCarriageReturn(end);
    } else {
      PastBreakWithin(s, end);
    }
  }

  lemma {:induction false} PastCarriageReturn(end: string)
    requires end != "" && end[0] == '\n'
    ensures PastBreak("\r" + end) == end[1..]
  {
    assert ("\r" + end)[2..] == end[1..];
  }

  lemma {:induction false} PastBreakWithin(s: string, end: string)
    requires s != "" && IsBreak(s[0]) && s != "\r"
    ensures PastBreak(s + end) == PastBreak(s) + end
  {
    assert |s| == 1 ==> s == [s[0]];
    if |s| > 1 && s[0] == '\r' && s[1] == '\n' {
      assert (s + end)[2..] == s[2..] + end;
    } else {
      assert (s + end)[1..] == s[1..] + end;
    }
  }

  /** A line break ends the pending line: it is dispatched if blank. */
  lemma {:induction false} BreakEndsLine(t: string, line: string, b: Buffers)
    requires t != "" && IsBreak(t[0])
    ensures line != "" ==> Read(Lines(t, line), b) == Read(Lines(PastBreak(t), ""), Field(line, b))
    ensures line == "" && b.data != ""
            ==> Read(Lines(t, line), b) != [] && Read(Lines(t, line), b)[0] == Dispatched(b)
  {
    assert ([line] + Lines(PastBreak(t), ""))[1..] == Lines(PastBreak(t), "");
  }

  function FirstBreak(s: string): (k: nat)
    requires !OneLine(s)
    ensures k < |s| && IsBreak(s[k]) && OneLine(s[..k])
  {
    if IsBreak(s[0]) then 0
    else assert !OneLine(s[1..]) by { var i :| 0 <= i < |s| && IsBreak(s[i]); assert s[1..][i - 1] == s[i]; }
         1 + FirstBreak(s[1..])
  }

  lemma {:induction false} Regroup(d0: string, d1: string, end: string)
    ensures "data: " + (d0 + d1) + end == "data: " + d0 + (d1 + end)
  {
    Assoc("data: ", d0, d1);
    Assoc("data: " + d0, d1, end);
  }

  /** What follows the first line of the data of a frame is read short. */
  lemma {:induction false} TailIsShort(d0: string, d1: string, end: string, b: Buffers)
    requires OneLine(d0) && d1 != "" && IsBreak(d1[0]) && b.data == "" && IsEnd(end)
    ensures var ms := Read(Lines("data: " + (d0 + d1) + end, ""), b); ms != [] && |ms[0].data| < |d0 + d1|
  {
    var c := b.(data := "" + d0 + "\n");
    Regroup(d0, d1, end);
    DataLineIsRead(d0, d1 + end, b);
    PastBreakOf(d1, end);
    if d1 == "\r" {
      BreakEndsLine(end[1..], "", c);
    } else {
      NextMessageIsShort(PastBreak(d1), "", end, c);
    }
  }

  lemma {:induction false} BrokenDataIsShort(d: string, end: string, b: Buffers)
    requires !OneLine(d) && b.data == "" && IsEnd(end)
    ensures var ms := Read(Lines("data: " + d + end, ""), b); ms != [] && |ms[0].data| < |d|
  {
    var k := FirstBreak(d);
    assert d == d[..k] + d[k..];
    TailIsShort(d[..k], d[k..], end, b);
  }

  lemma {:induction false} BrokenFrameIsMisread(m: Sent, rest: string)
    requires Fits(m) && !OneLine(m.data)
    ensures var ms := Read(Lines(Frame(m) + rest, ""), EMPTY); ms != [] && ms[0] != Received(m)
  {
    EventLineIsRead(m, rest);
    BrokenDataIsShort(m.data, "\n\n" + rest, Opened(m));
  }

  // ---- whole streams

  lemma {:induction false} FramesAreRead(sent: seq<Sent>)
    requires NamesFit(sent)
    ensures Read(Lines(Stream(sent), ""), EMPTY) == AllReceived(sent) <==> DataFits(sent)
  {
    if sent != [] {
      var m, rest := sent[0], Stream(sent[1..]);
      assert Fits(m);
      FramesAreRead(sent[1..]);
      if OneLine(m.data) {
        FrameIsRead(m, rest);
        var ms := Read(Lines(rest, ""), EMPTY);
        assert ([Received(m)] + ms)[1..] == ms;
        assert AllReceived(sent)[1..] == AllReceived(sent[1..]);
        assert DataFits(sent) <==> DataFits(sent[1..]) by {
          assert forall i :: 0 < i < |sent| ==> sent[i] == sent[1..][i - 1];
        }
      } else {
        BrokenFrameIsMisread(m, rest);
      }
    }
  }

  /** Printing is undone by parsing, exactly when no data has a line break. */
  lemma {:induction false} ParsingUndoesPrinting(sent: seq<Sent>)
    requires NamesFit(sent)
    ensures Parse(Stream(sent)) == AllReceived(sent) <==> DataFits(sent)
  {
    FramesAreRead(sent);
    if sent != [] {
      assert Stream(sent)[0] == Frame(sent[0])[0];
    }
  }
}
