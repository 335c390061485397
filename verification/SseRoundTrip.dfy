/**
  Events written as sections 9.2.5 and 9.2.6 of the HTML Living Standard prescribe, with either
  line ending and with comment lines anywhere, are read back by the parser in web/src/sse.ts.
 */
module SseRoundTrip {
  import opened Base
  import opened Text
  import opened Sse

  /** Neither empty nor broken. */
  predicate PlainLine(l: string) {
    l != "" && '\r' !in l && '\n' !in l
  }

  predicate IsEol(eol: string) {
    eol == "\n" || eol == "\r\n"
  }

  function DataLines(parts: seq<string>): seq<string> {
    seq(|parts|, i requires 0 <= i < |parts| => "data: " + parts[i])
  }

  /** One line for the name, one for each line of the data. */
  function EventLines(e: Event): seq<string> {
    ["event: " + e.name] + DataLines(Split(e.data, '\n'))
  }

  /** What the standard lets a writer send. */
  predicate Sendable(e: Event) {
    e.name != "" && '\r' !in e.name && '\n' !in e.name && '\r' !in e.data
  }

  function Payload(lines: seq<string>): seq<string> {
    if lines == [] then []
    else (if lines[0] != "" && lines[0][0] == ':' then [] else [lines[0]]) + Payload(lines[1..])
  }

  /** A block of lines between blank lines: an event with comments anywhere, or comments alone. */
  datatype Block = Block(lines: seq<string>, event: Option<Event>)

  predicate Written(b: Block) {
    && b.lines != [] && (forall i :: 0 <= i < |b.lines| ==> PlainLine(b.lines[i]))
    && match b.event
       case None => Payload(b.lines) == []
       case Some(e) => Sendable(e) && Payload(b.lines) == EventLines(e)
  }

  /** The lines of a block with the line ending between them. */
  function Body(lines: seq<string>, eol: string): string {
    if lines == [] then ""
    else if |lines| == 1 then lines[0] else lines[0] + (eol + Body(lines[1..], eol))
  }

  function BlockText(b: Block, eol: string): string {
    Body(b.lines, eol) + (eol + eol)
  }

  function Stream(bs: seq<Block>, eol: string): string {
    if bs == [] then "" else BlockText(bs[0], eol) + Stream(bs[1..], eol)
  }

  function Sent(bs: seq<Block>): seq<Event> {
    if bs == [] then [] else SentBy(bs[0]) + Sent(bs[1..])
  }

  function SentBy(b: Block): seq<Event> {
    match b.event case None => [] case Some(e) => [e]
  }

  // ---- where the blank line is -------------------------------------------------------------

  lemma {:induction false} GapAfterBody(lines: seq<string>, eol: string, rest: string)
    requires lines != [] && (forall i :: 0 <= i < |lines| ==> PlainLine(lines[i])) && IsEol(eol)
    ensures FirstGap(Body(lines, eol) + (eol + eol) + rest) == Gap(|Body(lines, eol)|, 2 * |eol|)
    decreases |lines|
  {
    if |lines| == 1 {
      GapAfterLine(lines[0], eol, rest);
    } else {
      GapAfterBody(lines[1..], eol, rest);
      StartsPlain(lines[1..], eol);
      GapAfterMore(lines[0], Body(lines[1..], eol), eol, rest);
    }
  }

  lemma GapAfterLine(l: string, eol: string, rest: string)
    requires PlainLine(l) && IsEol(eol)
    ensures FirstGap(l + (eol + eol) + rest) == Gap(|l|, 2 * |eol|)
  {
    var s := l + (eol + eol) + rest;
    assert forall i :: 0 <= i < |l| ==> s[i] == l[i] && l[i] in l;
    forall a: nat, w: nat | IsGap(s, a, w) ensures |l| <= a {
    }
    GapIsThere(l, eol, rest);
    FirstGapIs(s, |l|, 2 * |eol|);
  }

  lemma GapAfterMore(l: string, inner: string, eol: string, rest: string)
    requires PlainLine(l) && IsEol(eol) && inner != "" && inner[0] != '\r' && inner[0] != '\n'
    requires FirstGap(inner + (eol + eol) + rest) == Gap(|inner|, 2 * |eol|)
    ensures FirstGap(l + (eol + inner) + (eol + eol) + rest) == Gap(|l + (eol + inner)|, 2 * |eol|)
  {
    var s2 := inner + (eol + eol) + rest;
    var body := l + (eol + inner);
    var s := body + (eol + eol) + rest;
    assert s == l + eol + s2 && s2[0] == inner[0];
    FirstGapIsGap(s2);
    forall a: nat, w: nat | IsGap(s, a, w) ensures |body| <= a {
      GapIsLater(l, eol, s2, a, w);
      assert IsGap(s2, a - |l| - |eol|, w);
    }
    GapIsThere(body, eol, rest);
    FirstGapIs(s, |body|, 2 * |eol|);
  }

  lemma StartsPlain(lines: seq<string>, eol: string)
    requires lines != [] && PlainLine(lines[0])
    ensures Body(lines, eol) != "" && Body(lines, eol)[0] == lines[0][0]
    ensures Body(lines, eol)[0] != '\r' && Body(lines, eol)[0] != '\n'
  {
    assert lines[0][0] in lines[0];
  }

  lemma GapIsThere(body: string, eol: string, rest: string)
    requires IsEol(eol)
    ensures IsGap(body + (eol + eol) + rest, |body|, 2 * |eol|)
  {
  }

  /** No blank line starts in a plain line, nor in its ending when another plain line follows. */
  lemma GapIsLater(l: string, eol: string, s2: string, a: nat, w: nat)
    requires PlainLine(l) && IsEol(eol) && s2 != "" && s2[0] != '\r' && s2[0] != '\n'
    requires IsGap(l + eol + s2, a, w)
    ensures a >= |l| + |eol| && IsGap(s2, a - |l| - |eol|, w)
  {
    var s := l + eol + s2;
    assert forall i :: 0 <= i < |l| ==> s[i] == l[i] && l[i] in l;
    assert s[|l| + |eol|] == s2[0];
    assert eol == "\r\n" ==> s[|l|] == '\r' && s[|l| + 1] == '\n';
    assert eol == "\n" ==> s[|l|] == '\n';
    assert a >= |l| + |eol|;
    assert forall i :: 0 <= i < |s2| ==> s2[i] == s[|l| + |eol| + i];
  }

  // ---- what a block says -----------------------------------------------------------------------

  lemma NormalizeEol(eol: string, t: string)
    requires IsEol(eol)
    ensures Normalize(eol + t) == "\n" + Normalize(t)
  {
    var s := eol + t;
    assert eol == "\r\n" ==> s[0] == '\r' && s[1] == '\n' && s[2..] == t;
    assert eol == "\n" ==> s[0] == '\n' && s[1..] == t;
  }

  lemma Regroup(a: string, b: string, c: string, d: string)
    ensures a + (b + (c + d)) == a + (b + c) + d
    ensures a + (b + (c + d)) == a + b + c + d
  {
  }

  /** Either line ending comes out as line feeds between the lines. */
  lemma {:induction false} NormalizeBody(lines: seq<string>, eol: string, t: string)
    requires lines != [] && (forall i :: 0 <= i < |lines| ==> PlainLine(lines[i])) && IsEol(eol)
    ensures Normalize(Body(lines, eol) + t) == Join(lines, '\n') + Normalize(t)
    decreases |lines|
  {
    var l := lines[0];
    if |lines| == 1 {
      NormalizePlain(l, t);
    } else {
      var inner := Body(lines[1..], eol);
      Regroup(l, eol, inner, t);
      NormalizePlain(l, eol + (inner + t));
      NormalizeEol(eol, inner + t);
      NormalizeBody(lines[1..], eol, t);
      Regroup(l, "\n", Join(lines[1..], '\n'), Normalize(t));
    }
  }

  lemma {:induction false} LinesAppend(f: Fields, a: seq<string>, b: seq<string>)
    ensures Lines(f, a + b) == Lines(Lines(f, a), b)
    decreases |a|
  {
    if a == [] {
      assert a + b == b;
    } else {
      assert (a + b)[0] == a[0] && (a + b)[1..] == a[1..] + b;
      LinesAppend(OneLine(f, a[0]), a[1..], b);
    }
  }

  /** Comments change nothing. */
  lemma {:induction false} CommentsAreSkipped(f: Fields, lines: seq<string>)
    ensures Lines(f, lines) == Lines(f, Payload(lines))
    decreases |lines|
  {
    if lines != [] {
      CommentsAreSkipped(OneLine(f, lines[0]), lines[1..]);
      if lines[0] != "" && lines[0][0] == ':' {
        assert Payload(lines) == Payload(lines[1..]);
      } else {
        assert Payload(lines)[0] == lines[0] && Payload(lines)[1..] == Payload(lines[1..]);
      }
    }
  }

  /** "field: value" is that field with that value. */
  lemma OneField(f: Fields, field: string, value: string)
    requires (field == "event" || field == "data")
    ensures OneLine(f, field + ": " + value) ==
            if field == "event" then f.(event := value) else f.(data := f.data + [value])
  {
    var line := field + ": " + value;
    assert line[0] == field[0] && line[0] != ':';
    var k := |field|;
    assert line[k..k + 1] == ":";
    assert Occurs(line, ":", k);
    forall i | 0 <= i < k ensures !Occurs(line, ":", i) {
      assert line[i] == field[i] && line[i..i + 1] == [field[i]];
    }
    assert IndexOf(line, ":") == k;
    assert line[..k] == field && line[k + 1..] == " " + value;
    assert (" " + value)[1..] == value;
  }

  lemma {:induction false} DataLinesParse(f: Fields, parts: seq<string>)
    ensures Lines(f, DataLines(parts)) == f.(data := f.data + parts)
    decreases |parts|
  {
    if parts != [] {
      var ls := DataLines(parts);
      assert ls[0] == "data" + ": " + parts[0];
      assert ls[1..] == DataLines(parts[1..]);
      OneField(f, "data", parts[0]);
      DataLinesParse(f.(data := f.data + [parts[0]]), parts[1..]);
      assert f.data + [parts[0]] + parts[1..] == f.data + parts;
    } else {
      assert f.data + [] == f.data;
    }
  }

  lemma EventParses(e: Event)
    requires Sendable(e)
    ensures Lines(Fields("", []), EventLines(e)) == Fields(e.name, Split(e.data, '\n'))
  {
    var f := Fields("", []);
    var parts := Split(e.data, '\n');
    var ls := EventLines(e);
    assert ls[0] == "event" + ": " + e.name && ls[1..] == DataLines(parts);
    OneField(f, "event", e.name);
    DataLinesParse(Fields(e.name, []), parts);
    assert [] + parts == parts;
  }

  lemma LinesSay(b: Block)
    requires Written(b)
    ensures Dispatched(Lines(Fields("", []), b.lines)) == SentBy(b)
  {
    CommentsAreSkipped(Fields("", []), b.lines);
    if b.event.Some? {
      EventParses(b.event.value);
      JoinSplit(b.event.value.data, '\n');
    }
  }

  lemma BlockDispatches(b: Block, eol: string)
    requires Written(b) && IsEol(eol)
    ensures Dispatch(Normalize(Body(b.lines, eol))) == SentBy(b)
  {
    NormalizeBody(b.lines, eol, "");
    assert Body(b.lines, eol) + "" == Body(b.lines, eol) && Join(b.lines, '\n') + "" == Join(b.lines, '\n');
    SplitJoin(b.lines, '\n');
    LinesSay(b);
  }

  // ---- the whole stream ----------------------------------------------------------------------------

  lemma {:induction false} StreamParses(bs: seq<Block>, eol: string, tail: string)
    requires (forall i :: 0 <= i < |bs| ==> Written(bs[i])) && IsEol(eol)
    ensures Parse(Stream(bs, eol) + tail) == Sent(bs) + Parse(tail)
    decreases |bs|
  {
    if bs == [] {
      assert Stream(bs, eol) + tail == tail;
    } else {
      var b := bs[0];
      var rest := Stream(bs[1..], eol) + tail;
      var s := Body(b.lines, eol) + (eol + eol) + rest;
      assert Stream(bs, eol) + tail == s;
      GapAfterBody(b.lines, eol, rest);
      FirstBlock(b, eol, rest);
      StreamParses(bs[1..], eol, tail);
      Reassociate(SentBy(b), Sent(bs[1..]), Parse(tail));
    }
  }

  lemma FirstBlock(b: Block, eol: string, rest: string)
    requires Written(b) && IsEol(eol)
    requires FirstGap(Body(b.lines, eol) + (eol + eol) + rest) == Gap(|Body(b.lines, eol)|, 2 * |eol|)
    ensures Parse(Body(b.lines, eol) + (eol + eol) + rest) == SentBy(b) + Parse(rest)
  {
    var body := Body(b.lines, eol);
    var s := body + (eol + eol) + rest;
    CutOne(s);
    assert s[..|body|] == body && s[|body| + 2 * |eol|..] == rest;
    BlockDispatches(b, eol);
    var frames := [body] + Cut(rest).frames;
    assert frames[0] == body && frames[1..] == Cut(rest).frames;
    assert DispatchAll(frames) == SentBy(b) + DispatchAll(Cut(rest).frames);
    Reassociate(SentBy(b), DispatchAll(Cut(rest).frames), Flush(Cut(rest).rest));
  }

  // ---- the block that never got its blank line ------------------------------------------------------

  lemma TailHasNoGap(b: Block, eol: string, e: string)
    requires Written(b) && IsEol(eol) && (e == "" || e == eol)
    ensures FirstGap(Body(b.lines, eol) + e).NoGap?
  {
    var body := Body(b.lines, eol);
    var s := body + (eol + eol) + "";
    GapAfterBody(b.lines, eol, "");
    FirstGapIsGap(s);
    NoRoomForGap(body, eol, e);
  }

  /** One line ending is not a blank line. */
  lemma NoRoomForGap(body: string, eol: string, e: string)
    requires IsEol(eol) && (e == "" || e == eol)
    requires forall a: nat, w: nat :: IsGap(body + (eol + eol) + "", a, w) ==> |body| <= a
    ensures FirstGap(body + e).NoGap?
  {
    var t, s := body + e, body + (eol + eol) + "";
    FirstGapIsGap(t);
    assert forall i :: 0 <= i < |t| ==> t[i] == s[i];
    assert forall a: nat, w: nat :: IsGap(t, a, w) ==> IsGap(s, a, w);
  }

  lemma {:induction false} JoinStarts(lines: seq<string>)
    requires lines != [] && PlainLine(lines[0])
    ensures Join(lines, '\n') != "" && Join(lines, '\n')[0] == lines[0][0]
  {
  }

  lemma FirstCharacter(b: Block)
    requires Written(b)
    ensures !IsBlank(b.lines[0][0]) && b.lines[0][0] != '\n'
  {
    if b.lines[0][0] != ':' {
      assert Payload(b.lines)[0] == b.lines[0];
      assert b.event.Some? && EventLines(b.event.value)[0][0] == 'e';
    }
  }

  lemma {:induction false} JoinNewline(lines: seq<string>)
    requires lines != []
    ensures Join(lines, '\n') + "\n" == Join(lines + [""], '\n')
    decreases |lines|
  {
    assert (lines + [""])[1..] == lines[1..] + [""];
    if |lines| > 1 {
      JoinNewline(lines[1..]);
      Reassociate(lines[0] + ['\n'], Join(lines[1..], '\n'), "\n");
    } else {
      assert (lines + [""])[1..] == [""];
    }
  }

  /** What is left when the connection closes is reported, with or without a last line ending. */
  lemma TailDispatches(b: Block, e: string)
    requires Written(b) && (e == "" || e == "\n")
    ensures Dispatch(Join(b.lines, '\n') + e) == SentBy(b)
  {
    var f := Fields("", []);
    LinesSay(b);
    if e == "" {
      assert Join(b.lines, '\n') + e == Join(b.lines, '\n');
      SplitJoin(b.lines, '\n');
    } else {
      JoinNewline(b.lines);
      SplitJoin(b.lines + [""], '\n');
      LinesAppend(f, b.lines, [""]);
      assert [""][1..] == [];
    }
  }

  lemma TailParses(b: Block, eol: string, e: string)
    requires Written(b) && IsEol(eol) && (e == "" || e == eol)
    ensures Parse(Body(b.lines, eol) + e) == SentBy(b)
  {
    var t := Body(b.lines, eol) + e;
    TailHasNoGap(b, eol, e);
    NormalizeBody(b.lines, eol, e);
    if e != "" {
      NormalizeEol(eol, "");
      assert e + "" == e;
    }
    var n := if e == "" then "" else "\n";
    assert Normalize(t) == Join(b.lines, '\n') + n;
    JoinStarts(b.lines);
    FirstCharacter(b);
    var rest := Join(b.lines, '\n') + n;
    assert rest[0] == b.lines[0][0];
    assert StripNewlines(rest) == rest && !IsBlank(rest[0]);
    TailDispatches(b, n);
    assert Cut(t) == Cuts([], t);
  }

  lemma EmptyTail()
    ensures Parse("") == []
  {
    FirstGapIsGap("");
  }

  /** Writing and parsing: the events come back, in order, whichever line ending was used and
      wherever comments were put. */
  lemma RoundTrip(bs: seq<Block>, eol: string)
    requires (forall i :: 0 <= i < |bs| ==> Written(bs[i])) && IsEol(eol)
    ensures Parse(Stream(bs, eol)) == Sent(bs)
  {
    StreamParses(bs, eol, "");
    EmptyTail();
    assert Stream(bs, eol) + "" == Stream(bs, eol) && Sent(bs) + [] == Sent(bs);
  }

  /** A connection closed before the blank line of the last block loses nothing. */
  lemma RoundTripUnterminated(bs: seq<Block>, last: Block, eol: string, e: string)
    requires (forall i :: 0 <= i < |bs| ==> Written(bs[i])) && Written(last) && IsEol(eol) && (e == "" || e == eol)
    ensures Parse(Stream(bs, eol) + (Body(last.lines, eol) + e)) == Sent(bs) + SentBy(last)
  {
    StreamParses(bs, eol, Body(last.lines, eol) + e);
    TailParses(last, eol, e);
  }
}
