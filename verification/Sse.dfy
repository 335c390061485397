/**
  The incremental parser for Server-Sent Events (web/src/sse.ts). Its result does not depend on
  how the network cut the text, and it reads back what sections 9.2.5 and 9.2.6 of the HTML Living
  Standard prescribe to write.
 */
module Sse {
  import opened Base
  import opened Text

  datatype Event = Event(name: string, data: string)

  // ---- frames ----------------------------------------------------------------------------

  predicate Occurs(s: string, t: string, i: nat) {
    i + |t| <= |s| && s[i..i + |t|] == t
  }

  /** Where `t` first occurs in `s`, from position k on; -1 if nowhere. */
  function IndexFrom(s: string, t: string, k: nat): (i: int)
    requires t != ""
    ensures i == -1 || (k <= i && Occurs(s, t, i))
    ensures forall j :: k <= j && (i == -1 || j < i) ==> !Occurs(s, t, j)
    decreases |s| - k
  {
    if k + |t| > |s| then -1
    else if s[k..k + |t|] == t then k
    else IndexFrom(s, t, k + 1)
  }

  function IndexOf(s: string, t: string): int
    requires t != ""
  {
    IndexFrom(s, t, 0)
  }

  const LFLF := "\n\n"
  const CRLFCRLF := "\r\n\r\n"

  /** The first blank line: where the frame before it ends, and how wide it is. */
  datatype Gap = NoGap | Gap(at: nat, width: nat)

  function FirstGap(s: string): Gap {
    var lf, crlf := IndexOf(s, LFLF), IndexOf(s, CRLFCRLF);
    if lf != -1 && (crlf == -1 || lf < crlf) then Gap(lf, 2)
    else if crlf != -1 then Gap(crlf, 4)
    else NoGap
  }

  /** A blank line sits at `at`: two line feeds, or two pairs of carriage return and line feed. */
  predicate IsGap(s: string, at: nat, width: nat) {
    && at + width <= |s|
    && ((width == 2 && s[at] == s[at + 1] == '\n') ||
        (width == 4 && s[at] == s[at + 2] == '\r' && s[at + 1] == s[at + 3] == '\n'))
  }

  lemma GapOccurs(s: string, i: nat)
    ensures Occurs(s, LFLF, i) <==> IsGap(s, i, 2)
    ensures Occurs(s, CRLFCRLF, i) <==> IsGap(s, i, 4)
  {
    if i + 2 <= |s| {
      assert s[i..i + 2] == [s[i], s[i + 1]];
    }
    if i + 4 <= |s| {
      assert s[i..i + 4] == [s[i], s[i + 1], s[i + 2], s[i + 3]];
    }
  }

  /** FirstGap finds the earliest of all blank lines. */
  lemma FirstGapIsGap(s: string)
    ensures FirstGap(s).Gap? ==> IsGap(s, FirstGap(s).at, FirstGap(s).width)
    ensures forall a, w :: IsGap(s, a, w) ==> FirstGap(s).Gap? && FirstGap(s).at <= a
  {
    var lf, crlf := IndexOf(s, LFLF), IndexOf(s, CRLFCRLF);
    if lf != -1 { GapOccurs(s, lf); }
    if crlf != -1 { GapOccurs(s, crlf); }
    forall a, w | IsGap(s, a, w) ensures FirstGap(s).Gap? && FirstGap(s).at <= a {
      GapOccurs(s, a);
    }
  }

  /** The two kinds never start at the same place, so the earliest is unique. */
  lemma FirstGapIs(s: string, at: nat, width: nat)
    requires IsGap(s, at, width)
    requires forall a, w :: IsGap(s, a, w) ==> at <= a
    ensures FirstGap(s) == Gap(at, width)
  {
    FirstGapIsGap(s);
  }

  /** The terminators cannot overlap: a blank line that would start earlier in a longer text is
      already complete in the shorter one. */
  lemma EarlierGapIsInside(s: string, more: string, at: nat, width: nat, a: nat, w: nat)
    requires IsGap(s, at, width) && IsGap(s + more, a, w) && a < at
    ensures IsGap(s, a, w)
  {
    // Otherwise its second carriage return would be the second line feed of the pair at `at`.
    assert forall i :: 0 <= i < |s| ==> (s + more)[i] == s[i];
  }

  /** So a blank line found early is still the first when more text has arrived. */
  lemma GapStays(s: string, more: string)
    requires FirstGap(s).Gap?
    ensures FirstGap(s + more) == FirstGap(s)
  {
    var at, width := FirstGap(s).at, FirstGap(s).width;
    FirstGapIsGap(s);
    forall a, w | IsGap(s + more, a, w) ensures at <= a {
      if a < at {
        EarlierGapIsInside(s, more, at, width, a, w);
      }
    }
    FirstGapIs(s + more, at, width);
  }

  // ---- one frame -----------------------------------------------------------------------------

  /** Every CR LF pair and every other CR becomes LF. */
  function Normalize(s: string): string
    decreases |s|
  {
    if s == "" then ""
    else if s[0] == '\r' then "\n" + Normalize(if |s| > 1 && s[1] == '\n' then s[2..] else s[1..])
    else [s[0]] + Normalize(s[1..])
  }

  lemma {:induction false} NormalizePlain(l: string, t: string)
    requires '\r' !in l
    ensures Normalize(l + t) == l + Normalize(t)
    decreases |l|
  {
    if l == "" {
      assert l + t == t;
    } else {
      assert (l + t)[0] == l[0] && (l + t)[1..] == l[1..] + t;
      assert l[0] in l;
      NormalizePlain(l[1..], t);
      assert l == [l[0]] + l[1..];
    }
  }

  /** What has no carriage return is left alone; and a carriage return, with or without the line feed after
      it, is one line feed. */
  lemma NormalizeMeans(a: string, b: string)
    requires '\r' !in a
    ensures Normalize(a) == a
    ensures Normalize(a + ("\r\n" + b)) == a + ("\n" + Normalize(b))
    ensures !("\n" <= b) ==> Normalize(a + ("\r" + b)) == a + ("\n" + Normalize(b))
  {
    NormalizePlain(a, "");
    assert a + "" == a;
    NormalizePlain(a, "\r\n" + b);
    assert ("\r\n" + b)[2..] == b;
    NormalizePlain(a, "\r" + b);
    assert ("\r" + b)[1..] == b;
  }

  datatype Fields = Fields(event: string, data: seq<string>)

  function OneLine(f: Fields, line: string): Fields {
    if line == "" || line[0] == ':' then f
    else
      var colon := IndexOf(line, ":");
      var field := if colon == -1 then line else line[..colon];
      var raw := if colon == -1 then "" else line[colon + 1..];
      var value := if raw != "" && raw[0] == ' ' then raw[1..] else raw;
      if field == "event" then f.(event := value)
      else if field == "data" then f.(data := f.data + [value])
      else f
  }

  function Lines(f: Fields, lines: seq<string>): Fields
    decreases |lines|
  {
    if lines == [] then f else Lines(OneLine(f, lines[0]), lines[1..])
  }

  /** A frame without data is not an event. */
  function Dispatched(f: Fields): seq<Event> {
    if f.data == [] then []
    else [Event(if f.event == "" then "message" else f.event, Join(f.data, '\n'))]
  }

  function Dispatch(frame: string): seq<Event> {
    Dispatched(Lines(Fields("", []), Split(frame, '\n')))
  }

  /** What follows "name:" in a line, without one leading space; nothing for the bare name. */
  function ValueOf(line: string, name: string): Option<string> {
    if line == name then Some("")
    else if name + ": " <= line then Some(line[|name| + 2..])
    else if name + ":" <= line then Some(line[|name| + 1..])
    else None
  }

  lemma FirstColon(line: string, name: string)
    requires ':' !in name && name + ":" <= line
    ensures IndexOf(line, ":") == |name|
  {
    assert line[|name|..|name| + 1] == ":";
    assert Occurs(line, ":", |name|);
    forall j | 0 <= j < |name| ensures !Occurs(line, ":", j) {
      assert line[j] == name[j] && line[j..j + 1] == [line[j]];
    }
  }

  lemma NoColon(name: string)
    requires ':' !in name
    ensures IndexOf(name, ":") == -1
  {
    forall j | 0 <= j < |name| ensures !Occurs(name, ":", j) {
      assert name[j..j + 1] == [name[j]] && name[j] in name;
    }
  }

  /** Field and value as the loop cuts them out of a line. */
  lemma FieldIs(line: string, name: string)
    requires line != "" && line[0] != ':' && name != "" && ':' !in name
    ensures var colon := IndexOf(line, ":");
            var raw := if colon == -1 then "" else line[colon + 1..];
            var value := if raw != "" && raw[0] == ' ' then raw[1..] else raw;
            ValueOf(line, name) == if (if colon == -1 then line else line[..colon]) == name then Some(value) else None
  {
    var colon := IndexOf(line, ":");
    if name + ":" <= line {
      FirstColon(line, name);
      assert line[..|name|] == name;
      assert name + ": " <= line <==> |line| > |name| + 1 && line[|name| + 1] == ' ' by {
        if |line| > |name| + 1 && line[|name| + 1] == ' ' {
          assert line[..|name| + 2] == name + ": ";
        }
      }
    } else if line == name {
      NoColon(name);
    } else if colon != -1 {
      CutsAtColon(line, name, colon);
    }
  }

  lemma CutsAtColon(line: string, name: string, colon: nat)
    requires Occurs(line, ":", colon) && !(name + ":" <= line)
    ensures line[..colon] != name
  {
    assert line[colon] == line[colon..colon + 1][0];
    assert line[..colon + 1] == line[..colon] + ":";
  }

  /** A line adds its value to the data if its field is "data", names the event if it is "event", and
      otherwise, comments and "id" and "retry" included, says nothing. */
  lemma LineSays(f: Fields, line: string)
    ensures OneLine(f, line).data == f.data + (if ValueOf(line, "data").Some? then [ValueOf(line, "data").value] else [])
    ensures OneLine(f, line).event == if ValueOf(line, "event").Some? then ValueOf(line, "event").value else f.event
  {
    if line == "" || line[0] == ':' {
      assert "data"[0] == 'd' && "event"[0] == 'e';
    } else {
      FieldIs(line, "data");
      FieldIs(line, "event");
    }
  }

  function DataOf(lines: seq<string>): seq<string> {
    if lines == [] then []
    else (if ValueOf(lines[0], "data").Some? then [ValueOf(lines[0], "data").value] else []) + DataOf(lines[1..])
  }

  /** The name given last. */
  function NameOf(lines: seq<string>, name: string): string
    decreases |lines|
  {
    if lines == [] then name
    else NameOf(lines[1..], if ValueOf(lines[0], "event").Some? then ValueOf(lines[0], "event").value else name)
  }

  lemma {:induction false} LinesSay(f: Fields, lines: seq<string>)
    ensures Lines(f, lines) == Fields(NameOf(lines, f.event), f.data + DataOf(lines))
    decreases |lines|
  {
    if lines != [] {
      LineSays(f, lines[0]);
      LinesSay(OneLine(f, lines[0]), lines[1..]);
      Regrouped(f.data, if ValueOf(lines[0], "data").Some? then [ValueOf(lines[0], "data").value] else [], DataOf(lines[1..]));
    }
  }

  lemma Regrouped(a: seq<string>, b: seq<string>, c: seq<string>)
    ensures (a + b) + c == a + (b + c)
  {
  }

  /** A frame is one event: the values of its data lines, joined, under the name given last, or "message" if
      there is none; without a data line it is no event. */
  lemma FrameSays(frame: string)
    ensures var lines := Split(frame, '\n');
            var name := NameOf(lines, "");
            Dispatch(frame) ==
            if DataOf(lines) == [] then []
            else [Event(if name == "" then "message" else name, Join(DataOf(lines), '\n'))]
  {
    LinesSay(Fields("", []), Split(frame, '\n'));
    assert [] + DataOf(Split(frame, '\n')) == DataOf(Split(frame, '\n'));
  }

  // ---- the stream ----------------------------------------------------------------------------

  /** The complete frames, and what is left in the buffer. */
  datatype Cuts = Cuts(frames: seq<string>, rest: string)

  function Cut(s: string): Cuts
    decreases |s|
  {
    var gap := FirstGap(s);
    FirstGapIsGap(s);
    if gap.NoGap? then Cuts([], s)
    else
      var later := Cut(s[gap.at + gap.width..]);
      Cuts([s[..gap.at]] + later.frames, later.rest)
  }

  function DispatchAll(frames: seq<string>): seq<Event> {
    if frames == [] then [] else Dispatch(Normalize(frames[0])) + DispatchAll(frames[1..])
  }

  /** String.prototype.trim removes these. */
  predicate IsBlank(c: char) {
    var n := c as int;
    9 <= n <= 13 || n == 32 || n == 160 || n == 5760 || 8192 <= n <= 8202 || n == 8232 || n == 8233 || n == 8239
    || n == 8287 || n == 12288 || n == 65279
  }

  function StripNewlines(s: string): string {
    if s != "" && s[0] == '\n' then StripNewlines(s[1..]) else s
  }

  /** What end() reports of the text that never got its blank line. */
  function Flush(buffer: string): seq<Event> {
    var rest := StripNewlines(Normalize(buffer));
    if exists i :: 0 <= i < |rest| && !IsBlank(rest[i]) then Dispatch(rest) else []
  }

  /** All events of a stream read in one piece. */
  function Parse(text: string): seq<Event> {
    DispatchAll(Cut(text).frames) + Flush(Cut(text).rest)
  }

  lemma CutOne(s: string)
    requires FirstGap(s).Gap?
    ensures var gap := FirstGap(s);
            && gap.at + gap.width <= |s| && gap.width > 0
            && var later := Cut(s[gap.at + gap.width..]);
               Cut(s) == Cuts([s[..gap.at]] + later.frames, later.rest)
  {
    FirstGapIsGap(s);
  }

  lemma {:induction false} CutIsDone(s: string)
    ensures FirstGap(Cut(s).rest).NoGap?
    decreases |s|
  {
    if FirstGap(s).Gap? {
      CutOne(s);
      CutIsDone(s[FirstGap(s).at + FirstGap(s).width..]);
    }
  }

  lemma {:induction false} DispatchAppend(a: seq<string>, b: seq<string>)
    ensures DispatchAll(a + b) == DispatchAll(a) + DispatchAll(b)
  {
    if a == [] {
      assert a + b == b;
    } else {
      assert (a + b)[0] == a[0] && (a + b)[1..] == a[1..] + b;
      DispatchAppend(a[1..], b);
    }
  }

  lemma DispatchOneMore(frames: seq<string>, frame: string)
    ensures DispatchAll(frames + [frame]) == DispatchAll(frames) + Dispatch(Normalize(frame))
  {
    DispatchAppend(frames, [frame]);
    assert [frame][1..] == [];
  }

  lemma CutNone(s: string)
    requires FirstGap(s).NoGap?
    ensures Cut(s) == Cuts([], s)
  {
  }

  /** The first frame of a text is that of the longer text, and what follows it is longer by as much. */
  lemma CutOneLonger(s: string, more: string)
    requires FirstGap(s).Gap?
    ensures var gap := FirstGap(s);
            var k := gap.at + gap.width;
            && gap.at <= k <= |s|
            && var inner, later := Cut(s[k..]), Cut(s[k..] + more);
               && Cut(s) == Cuts([s[..gap.at]] + inner.frames, inner.rest)
               && Cut(s + more) == Cuts([s[..gap.at]] + later.frames, later.rest)
  {
    CutOne(s);
    GapStays(s, more);
    CutLonger(s, more, FirstGap(s).at, FirstGap(s).width);
  }

  lemma CutLonger(s: string, more: string, at: nat, width: nat)
    requires FirstGap(s + more) == Gap(at, width) && at + width <= |s|
    ensures var later := Cut(s[at + width..] + more); Cut(s + more) == Cuts([s[..at]] + later.frames, later.rest)
  {
    CutOne(s + more);
    SliceOf(s, more, at, at + width);
  }

  lemma SliceOf(s: string, more: string, i: nat, j: nat)
    requires i <= j <= |s|
    ensures (s + more)[..i] == s[..i] && (s + more)[j..] == s[j..] + more
  {
  }

  /** Cutting what has arrived and later cutting the rest is cutting it all at once. */
  lemma {:induction false} CutAppend(s: string, more: string)
    ensures var later := Cut(Cut(s).rest + more);
            Cut(s + more) == Cuts(Cut(s).frames + later.frames, later.rest)
    decreases |s|
  {
    if FirstGap(s).Gap? {
      var gap := FirstGap(s);
      CutOne(s);
      CutOneLonger(s, more);
      var k := gap.at + gap.width;
      CutAppend(s[k..], more);
      Regroup([s[..gap.at]], Cut(s[k..]), Cut(Cut(s[k..]).rest + more));
    } else {
      CutNone(s);
      assert [] + Cut(s + more).frames == Cut(s + more).frames;
    }
  }

  lemma Regroup(first: seq<string>, inner: Cuts, later: Cuts)
    ensures first + (inner.frames + later.frames) == first + inner.frames + later.frames
  {
    Reassociate(first, inner.frames, later.frames);
  }

  /** The parser object: a buffer that never holds a complete frame between calls. `onEvent` is
      the list of events a call reports. */
  class SseParser {
    var buffer: string

    ghost predicate Valid()
      reads this
    {
      FirstGap(buffer).NoGap?
    }

    constructor ()
      ensures Valid() && buffer == ""
    {
      buffer := "";
      new;
      FirstGapIsGap("");
    }

    method Drain() returns (events: seq<Event>)
      modifies this
      ensures Valid() && events == DispatchAll(Cut(old(buffer)).frames) && buffer == Cut(old(buffer)).rest
    {
      events := [];
      ghost var frames: seq<string> := [];
      while true
        invariant Cut(old(buffer)) == Cuts(frames + Cut(buffer).frames, Cut(buffer).rest)
        invariant events == DispatchAll(frames)
        decreases |buffer|
      {
        var gap := FirstGap(buffer);
        if gap.NoGap? {
          assert frames + [] == frames;
          return;
        }
        CutOne(buffer);
        DispatchOneMore(frames, buffer[..gap.at]);
        Reassociate(frames, [buffer[..gap.at]], Cut(buffer[gap.at + gap.width..]).frames);
        frames := frames + [buffer[..gap.at]];
        events := events + Dispatch(Normalize(buffer[..gap.at]));
        buffer := buffer[gap.at + gap.width..];
      }
    }

    method Push(chunk: string) returns (events: seq<Event>)
      requires Valid()
      modifies this
      ensures Valid() && events == DispatchAll(Cut(old(buffer) + chunk).frames) && buffer == Cut(old(buffer) + chunk).rest
    {
      if chunk == "" {
        assert buffer + chunk == buffer;
        return [];
      }
      buffer := buffer + chunk;
      events := Drain();
    }

    method End() returns (events: seq<Event>)
      requires Valid()
      modifies this
      ensures Valid() && buffer == "" && events == Flush(old(buffer))
    {
      var rest := StripNewlines(Normalize(buffer));
      buffer := "";
      FirstGapIsGap("");
      events := [];
      if exists i :: 0 <= i < |rest| && !IsBlank(rest[i]) {
        events := Dispatch(rest);
      }
    }
  }

  function Concat(chunks: seq<string>): string {
    if chunks == [] then "" else Concat(chunks[..|chunks| - 1]) + chunks[|chunks| - 1]
  }

  /** However the text is cut into pushes, the events are those of one push of the whole text,
      and so those of Parse. */
  method ParseInChunks(chunks: seq<string>) returns (events: seq<Event>)
    ensures events == Parse(Concat(chunks))
  {
    var parser := new SseParser();
    events := [];
    assert chunks[..0] == [];
    for i := 0 to |chunks|
      invariant parser.Valid() && parser.buffer == Cut(Concat(chunks[..i])).rest
      invariant events == DispatchAll(Cut(Concat(chunks[..i])).frames)
    {
      CutAppend(Concat(chunks[..i]), chunks[i]);
      DispatchAppend(Cut(Concat(chunks[..i])).frames, Cut(parser.buffer + chunks[i]).frames);
      assert chunks[..i + 1][..i] == chunks[..i];
      var more := parser.Push(chunks[i]);
      events := events + more;
    }
    assert chunks[..|chunks|] == chunks;
    var last := parser.End();
    events := events + last;
  }
}
