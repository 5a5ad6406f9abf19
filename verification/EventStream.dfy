/** Server-sent event frames: what the viewer writes for a line, and what a client decodes
    (event stream interpretation, section 9.2 of the WHATWG HTML Standard). */
module EventStream {
  import opened Wrappers

  predicate Break(c: char) {
    c == '\r' || c == '\n'
  }

  ghost predicate OneLine(s: string) {
    forall i :: 0 <= i < |s| ==> !Break(s[i])
  }

  // ---------------------------------------------------------------- writing

  predicate OccursAt(s: string, pat: string, q: nat) {
    q + |pat| <= |s| && s[q..q + |pat|] == pat
  }

  /** Position of the first occurrence of pat in s at or after `from`. */
  function Find(s: string, pat: string, from: nat): (p: Option<nat>)
    ensures p.Some? ==> from <= p.value && OccursAt(s, pat, p.value)
    ensures p.Some? ==> forall q :: from <= q < p.value ==> !OccursAt(s, pat, q)
    ensures p.None? ==> forall q :: from <= q ==> !OccursAt(s, pat, q)
    decreases |s| - from
  {
    if from + |pat| > |s| then None
    else if OccursAt(s, pat, from) then Some(from)
    else Find(s, pat, from + 1)
  }

  const TYPE_TAG := "\"type\":\""

  function EventType(line: string): string {
    match Find(line, TYPE_TAG, 0)
    case None => "event"
    case Some(pos) =>
      match Find(line, "\"", pos + |TYPE_TAG|)
      case None => "event"
      case Some(end) => line[pos + |TYPE_TAG|..end]
  }

  function Trimmed(line: string): string {
    if line != "" && Break(line[|line| - 1]) then Trimmed(line[..|line| - 1]) else line
  }

  function Frame(line: string): string {
    var data := Trimmed(line);
    "event: " + EventType(data) + "\r\ndata: " + data + "\r\n\r\n"
  }

  function Stream(lines: seq<string>): string {
    if lines == [] then "" else Stream(lines[..|lines| - 1]) + Frame(lines[|lines| - 1])
  }

  // ---------------------------------------------------------------- decoding

  datatype Event = Event(kind: string, data: string)

  /** The decoder: current line, whether the last character was a carriage return, the event
      type and data buffers, and the events dispatched so far. */
  datatype Decoder = Decoder(line: string, sawCr: bool, kind: string, data: string, events: seq<Event>)

  function Start(events: seq<Event>): Decoder {
    Decoder("", false, "", "", events)
  }

  function Dispatch(d: Decoder): Decoder {
    if d.data == "" then d.(kind := "")
    else
      var data := if d.data[|d.data| - 1] == '\n' then d.data[..|d.data| - 1] else d.data;
      d.(kind := "", data := "", events := d.events + [Event(if d.kind == "" then "message" else d.kind, data)])
  }

  function WithField(d: Decoder, name: string, value: string): Decoder {
    if name == "event" then d.(kind := value)
    else if name == "data" then d.(data := d.data + value + "\n")
    else d
  }

  function EndOfLine(d: Decoder): Decoder {
    if d.line == "" then Dispatch(d)
    else
      match Find(d.line, ":", 0)
      case None => WithField(d, d.line, "")
      case Some(colon) =>
        if colon == 0 then d
        else
          var value := d.line[colon + 1..];
          WithField(d, d.line[..colon], if value != "" && value[0] == ' ' then value[1..] else value)
  }

  function Feed(d: Decoder, c: char): Decoder {
    if c == '\n' && d.sawCr then d.(sawCr := false)
    else if Break(c) then EndOfLine(d).(line := "", sawCr := c == '\r')
    else d.(line := d.line + [c], sawCr := false)
  }

  function FeedAll(d: Decoder, s: string): Decoder {
    if s == "" then d else Feed(FeedAll(d, s[..|s| - 1]), s[|s| - 1])
  }

  function Decode(s: string): seq<Event> {
    FeedAll(Start([]), s).events
  }

  // ---------------------------------------------------------------- round trip

  lemma {:induction false} FeedConcat(d: Decoder, s: string, t: string)
    ensures FeedAll(d, s + t) == FeedAll(FeedAll(d, s), t)
  {
    hide Feed;
    if t == "" {
      assert s + t == s;
    } else {
      var n := |t| - 1;
      assert (s + t)[..|s + t| - 1] == s + t[..n];
      FeedConcat(d, s, t[..n]);
    }
  }

  lemma {:induction false} FeedPlain(d: Decoder, s: string)
    requires OneLine(s) && !d.sawCr
    ensures FeedAll(d, s) == d.(line := d.line + s)
  {
    hide EndOfLine;
    if s == "" {
      assert d.line + s == d.line;
    } else {
      FeedPlain(d, s[..|s| - 1]);
      assert d.line + s == d.line + s[..|s| - 1] + [s[|s| - 1]];
    }
  }

  lemma FeedCrLf(d: Decoder)
    requires !d.sawCr
    ensures FeedAll(d, "\r\n") == EndOfLine(d).(line := "", sawCr := false)
  {
    hide EndOfLine;
    assert "\r\n"[..1] == "\r" && "\r"[..0] == "";
    assert FeedAll(d, "\r") == Feed(d, '\r');
  }

  /** A written field line sets the field it names. */
  lemma FieldLine(d: Decoder, name: string, value: string)
    requires d.line == "" && !d.sawCr && OneLine(name) && OneLine(value)
    requires name != "" && forall i :: 0 <= i < |name| ==> name[i] != ':'
    ensures FeedAll(d, name + ": " + value + "\r\n") == WithField(d, name, value)
  {
    hide EndOfLine, FeedAll;
    var text := name + ": " + value;
    FeedConcat(d, text, "\r\n");
    FeedPlain(d, text);
    assert "" + text == text;
    FeedCrLf(d.(line := text));
    FieldOf(d.(line := text), name, value);
  }

  lemma FieldOf(d: Decoder, name: string, value: string)
    requires d.line == name + ": " + value && name != "" && forall i :: 0 <= i < |name| ==> name[i] != ':'
    ensures EndOfLine(d) == WithField(d, name, value)
  {
    hide WithField;
    var n := |name|;
    assert OccursAt(d.line, ":", n);
    forall q | 0 <= q < n
      ensures !OccursAt(d.line, ":", q)
    {
      assert d.line[q] == name[q] != ':' && d.line[q..q + 1][0] == d.line[q];
    }
    assert Find(d.line, ":", 0) == Some(n);
    assert d.line[..n] == name && d.line[n + 1..] == " " + value;
  }

  lemma {:induction false} TrimmedIsPrefix(line: string)
    ensures Trimmed(line) <= line
    ensures Trimmed(line) != "" ==> !Break(Trimmed(line)[|Trimmed(line)| - 1])
  {
    if line != "" && Break(line[|line| - 1]) {
      TrimmedIsPrefix(line[..|line| - 1]);
    }
  }

  /** Only the line breaks at the end are taken off. */
  lemma {:induction false} TrimmedKeeps(s: string, tail: string)
    requires (s == "" || !Break(s[|s| - 1])) && forall i :: 0 <= i < |tail| ==> Break(tail[i])
    ensures Trimmed(s + tail) == s
  {
    if tail == "" {
      assert s + tail == s;
    } else {
      var n := |tail| - 1;
      assert (s + tail)[..|s + tail| - 1] == s + tail[..n];
      TrimmedKeeps(s, tail[..n]);
    }
  }

  /** The event type is the text between the first type tag and the next quote. */
  lemma EventTypeFound(before: string, kind: string, after: string)
    requires forall q :: 0 <= q < |before| ==> !OccursAt(before + "\"type\":\"" + kind + "\"" + after, "\"type\":\"", q)
    requires forall i :: 0 <= i < |kind| ==> kind[i] != '"'
    ensures EventType(before + "\"type\":\"" + kind + "\"" + after) == kind
  {
    hide Find;
    var line := before + "\"type\":\"" + kind + "\"" + after;
    var pos, start := |before|, |before| + 8;
    assert line[pos..pos + 8] == "\"type\":\"";
    assert OccursAt(line, TYPE_TAG, pos);
    assert Find(line, TYPE_TAG, 0) == Some(pos);
    assert line[start..] == kind + "\"" + after;
    assert line[start + |kind|] == '"' && OccursAt(line, "\"", start + |kind|);
    forall q | start <= q < start + |kind| ensures !OccursAt(line, "\"", q) {
      assert line[q] == kind[q - start];
    }
    assert Find(line, "\"", start) == Some(start + |kind|);
    assert line[start..start + |kind|] == kind;
  }

  /** Without a type tag, or without a quote after it, the type is "event". */
  lemma EventTypeMissing(line: string)
    requires (forall q :: 0 <= q ==> !OccursAt(line, "\"type\":\"", q))
             || exists p :: && 0 <= p && OccursAt(line, "\"type\":\"", p) && (forall q :: 0 <= q < p ==> !OccursAt(line, "\"type\":\"", q))
                            && forall q :: p + 8 <= q ==> !OccursAt(line, "\"", q)
    ensures EventType(line) == "event"
  {
    hide Find;
  }

  lemma EventTypeIsOneLine(data: string)
    requires OneLine(data)
    ensures OneLine(EventType(data))
  {}

  /** The event a line stands for: its type, "message" when that is empty, and its text. */
  function EventOf(line: string): Event {
    var data := Trimmed(line);
    Event(if EventType(data) == "" then "message" else EventType(data), data)
  }

  /** A frame decodes to exactly its event and leaves the decoder at a frame boundary. */
  lemma FrameDecodes(line: string, events: seq<Event>)
    requires OneLine(Trimmed(line))
    ensures FeedAll(Start(events), Frame(line)) == Start(events + [EventOf(line)])
  {
    hide FeedAll, EventType, Trimmed, EndOfLine;
    var data := Trimmed(line);
    var kind := EventType(data);
    EventTypeIsOneLine(data);
    var first, second := "event" + ": " + kind + "\r\n", "data" + ": " + data + "\r\n";
    assert Frame(line) == first + second + "\r\n";
    var d := Start(events);
    FeedConcat(d, first + second, "\r\n");
    FeedConcat(d, first, second);
    FieldLine(d, "event", kind);
    FieldLine(d.(kind := kind), "data", data);
    var filled := d.(kind := kind, data := data + "\n");
    assert "" + data + "\n" == data + "\n";
    FeedCrLf(filled);
    assert (data + "\n")[..|data|] == data;
    BlankLine(filled);
  }

  lemma BlankLine(d: Decoder)
    requires d.line == ""
    ensures EndOfLine(d) == Dispatch(d)
  {}

  function EventsOf(lines: seq<string>): seq<Event> {
    if lines == [] then [] else EventsOf(lines[..|lines| - 1]) + [EventOf(lines[|lines| - 1])]
  }

  /** Round trip: a client that has received the stream of some lines has dispatched exactly
      their events, in order. */
  lemma {:induction false} StreamDecodes(lines: seq<string>)
    requires forall i :: 0 <= i < |lines| ==> OneLine(Trimmed(lines[i]))
    ensures FeedAll(Start([]), Stream(lines)) == Start(EventsOf(lines))
    ensures Decode(Stream(lines)) == EventsOf(lines)
  {
    hide Frame, EventOf, Trimmed, FeedAll, OneLine;
    if lines == [] {
      NothingFed(Start([]));
    } else {
      var n := |lines| - 1;
      StreamDecodes(lines[..n]);
      FeedConcat(Start([]), Stream(lines[..n]), Frame(lines[n]));
      FrameDecodes(lines[n], EventsOf(lines[..n]));
    }
  }

  lemma NothingFed(d: Decoder)
    ensures FeedAll(d, "") == d
  {}

  /** Decoding only ever appends events: what is dispatched from a prefix is a prefix of what
      is dispatched from the whole. */
  lemma {:induction false} FeedAppends(d: Decoder, s: string)
    ensures d.events <= FeedAll(d, s).events
  {
    if s != "" {
      FeedAppends(d, s[..|s| - 1]);
    }
  }

  lemma PrefixDecodes(lines: seq<string>, sent: string, tail: string)
    requires forall i :: 0 <= i < |lines| ==> OneLine(Trimmed(lines[i]))
    requires sent + tail == Stream(lines)
    ensures Decode(sent) <= EventsOf(lines)
    ensures tail == "" ==> Decode(sent) == EventsOf(lines)
  {
    hide FeedAll, Stream, EventsOf, Trimmed;
    StreamDecodes(lines);
    FeedConcat(Start([]), sent, tail);
    FeedAppends(FeedAll(Start([]), sent), tail);
    assert tail == "" ==> sent + tail == sent;
  }
}
