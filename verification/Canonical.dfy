/**
  The strings a request signature is computed over (server/internal/blob/s3.go): percent-escaping
  per sections 2.1 and 2.3 of RFC 3986, and query strings in canonical order. Go strings are byte
  strings: every character below is a byte.
 */
module Canonical {
  import opened Base
  import opened Ordering
  import opened Text

  type ByteString = s: string | forall i :: 0 <= i < |s| ==> s[i] < 256 as char

  const HEX_DIGITS := "0123456789ABCDEF"

  predicate Unreserved(c: char) {
    'A' <= c <= 'Z' || 'a' <= c <= 'z' || '0' <= c <= '9' || c == '-' || c == '_' || c == '.' || c == '~'
  }

  function EscapeByte(c: char): string
    requires c < 256 as char
  {
    if Unreserved(c) then [c] else ['%', HEX_DIGITS[c as int / 16], HEX_DIGITS[c as int % 16]]
  }

  function Escape(s: ByteString): string {
    if s == "" then "" else EscapeByte(s[0]) + Escape(s[1..])
  }

  function HexValue(c: char): Option<nat> {
    if '0' <= c <= '9' then Some(c as int - '0' as int)
    else if 'A' <= c <= 'F' then Some(c as int - 'A' as int + 10)
    else if 'a' <= c <= 'f' then Some(c as int - 'a' as int + 10)
    else None
  }

  /** Percent-decoding; None for a percent sign without two hexadecimal digits after it. */
  function Unescape(e: string): Option<string>
    decreases |e|
  {
    if e == "" then Some("")
    else if e[0] != '%' then
      match Unescape(e[1..]) case None => None case Some(s) => Some([e[0]] + s)
    else if |e| < 3 || HexValue(e[1]).None? || HexValue(e[2]).None? then None
    else
      var code := 16 * HexValue(e[1]).value + HexValue(e[2]).value;
      match Unescape(e[3..]) case None => None case Some(s) => Some([code as char] + s)
  }

  lemma HexDecodes(n: nat)
    requires n < 16
    ensures HexValue(HEX_DIGITS[n]) == Some(n)
  {
  }

  lemma HexPair(code: nat, rest: string)
    requires code < 256 && Unescape(rest).Some?
    ensures Unescape(['%', HEX_DIGITS[code / 16], HEX_DIGITS[code % 16]] + rest) == Some([code as char] + Unescape(rest).value)
  {
    var e := ['%', HEX_DIGITS[code / 16], HEX_DIGITS[code % 16]] + rest;
    HexDecodes(code / 16);
    HexDecodes(code % 16);
    assert e[3..] == rest && e[1] == HEX_DIGITS[code / 16] && e[2] == HEX_DIGITS[code % 16];
  }

  lemma EscapeByteDecodes(c: char, rest: string)
    requires c < 256 as char && Unescape(rest).Some?
    ensures Unescape(EscapeByte(c) + rest) == Some([c] + Unescape(rest).value)
  {
    var e := EscapeByte(c) + rest;
    if Unreserved(c) {
      assert e[1..] == rest;
    } else {
      HexPair(c as int, rest);
    }
  }

  /** Decoding undoes escaping. */
  lemma {:induction false} EscapeRoundTrip(s: ByteString)
    ensures Unescape(Escape(s)) == Some(s)
  {
    if s != "" {
      EscapeRoundTrip(s[1..]);
      EscapeByteDecodes(s[0], Escape(s[1..]));
      assert s == [s[0]] + s[1..];
    }
  }

  predicate Clean(c: char) {
    Unreserved(c) || c == '%'
  }

  /** Escaping emits only unreserved characters and percent signs. */
  lemma {:induction false} EscapeIsClean(s: ByteString)
    ensures forall i :: 0 <= i < |Escape(s)| ==> Clean(Escape(s)[i])
  {
    if s != "" {
      EscapeIsClean(s[1..]);
    }
  }

  lemma EscapeInjective(s: ByteString, t: ByteString)
    requires Escape(s) == Escape(t)
    ensures s == t
  {
    EscapeRoundTrip(s);
    EscapeRoundTrip(t);
  }

  lemma {:induction false} EscapeSnoc(s: ByteString, c: char)
    requires c < 256 as char
    ensures Escape(s + [c]) == Escape(s) + EscapeByte(c)
  {
    if s == "" {
      assert [c][1..] == "";
      assert s + [c] == [c];
    } else {
      assert (s + [c])[0] == s[0] && (s + [c])[1..] == s[1..] + [c];
      EscapeSnoc(s[1..], c);
    }
  }

  // ---- the one spelling a signature accepts --------------------------------------------------

  predicate Plain(c: char) {
    'a' <= c <= 'z' || 'A' <= c <= 'Z' || '0' <= c <= '9' || c in {'-', '_', '.', '~'}
  }

  predicate UpperHex(c: char) {
    '0' <= c <= '9' || 'A' <= c <= 'F'
  }

  /** Plain characters stand for themselves, every other byte is a percent sign and two upper-case
      hexadecimal digits; a plain character is not escaped. */
  ghost predicate IsNormal(e: string)
    decreases |e|
  {
    || e == ""
    || (Plain(e[0]) && IsNormal(e[1..]))
    || (e[0] == '%' && |e| >= 3 && UpperHex(e[1]) && UpperHex(e[2])
        && !Plain((16 * HexValue(e[1]).value + HexValue(e[2]).value) as char) && IsNormal(e[3..]))
  }

  lemma UpperHexDigit(c: char)
    requires UpperHex(c)
    ensures HexValue(c).Some? && HexValue(c).value < 16 && HEX_DIGITS[HexValue(c).value] == c
  {
  }

  lemma DigitsAreUpper(n: nat)
    requires n < 16
    ensures UpperHex(HEX_DIGITS[n])
  {
  }

  lemma EscapeByteIsNormal(c: char, rest: string)
    requires c < 256 as char && IsNormal(rest)
    ensures IsNormal(EscapeByte(c) + rest)
  {
    var e := EscapeByte(c) + rest;
    if Unreserved(c) {
      assert e[1..] == rest;
    } else {
      HexDecodes(c as int / 16);
      HexDecodes(c as int % 16);
      DigitsAreUpper(c as int / 16);
      DigitsAreUpper(c as int % 16);
      assert e[3..] == rest && e[1] == HEX_DIGITS[c as int / 16] && e[2] == HEX_DIGITS[c as int % 16];
    }
  }

  lemma {:induction false} EscapeIsNormal(s: ByteString)
    ensures IsNormal(Escape(s))
  {
    if s != "" {
      EscapeIsNormal(s[1..]);
      EscapeByteIsNormal(s[0], Escape(s[1..]));
    }
  }

  /** There is one normal spelling of a string, and escaping finds it. */
  lemma {:induction false} NormalIsUnique(e: string, s: ByteString)
    requires IsNormal(e) && Unescape(e) == Some(s)
    ensures e == Escape(s)
    decreases |e|
  {
    if e != "" {
      if e[0] == '%' {
        NormalIsUnique(e[3..], s[1..]);
        NormalTriple(e, s[0]);
      } else {
        NormalIsUnique(e[1..], s[1..]);
      }
    }
  }

  lemma NormalTriple(e: string, c: char)
    requires |e| >= 3 && e[0] == '%' && UpperHex(e[1]) && UpperHex(e[2]) && c < 256 as char
    requires HexValue(e[1]).Some? && HexValue(e[2]).Some? && c as int == 16 * HexValue(e[1]).value + HexValue(e[2]).value
    requires !Plain(c)
    ensures e == EscapeByte(c) + e[3..]
  {
    UpperHexDigit(e[1]);
    UpperHexDigit(e[2]);
    assert c as int / 16 == HexValue(e[1]).value && c as int % 16 == HexValue(e[2]).value;
    assert e == ['%', e[1], e[2]] + e[3..];
  }

  lemma {:induction false} PercentIsFollowed(e: string, i: nat)
    requires IsNormal(e) && i < |e| && e[i] == '%'
    ensures i + 2 < |e| && UpperHex(e[i + 1]) && UpperHex(e[i + 2])
    decreases |e|
  {
    if e[0] != '%' {
      PercentIsFollowed(e[1..], i - 1);
    } else if i > 2 {
      PercentIsFollowed(e[3..], i - 3);
    }
  }

  /** A string of plain characters is its own spelling. */
  lemma {:induction false} PlainIsItself(s: ByteString)
    requires forall i :: 0 <= i < |s| ==> Plain(s[i])
    ensures Escape(s) == s
  {
    if s != "" {
      PlainIsItself(s[1..]);
      assert Plain(s[0]) && s == [s[0]] + s[1..];
    }
  }

  lemma Spelling(s: ByteString)
    ensures var b := Escape(s);
            && Unescape(b) == Some(s) && IsNormal(b) && (forall i :: 0 <= i < |b| ==> Clean(b[i]))
            && (forall i :: 0 <= i < |b| && b[i] == '%' ==> i + 2 < |b| && UpperHex(b[i + 1]) && UpperHex(b[i + 2]))
            && ((forall i :: 0 <= i < |s| ==> Plain(s[i])) ==> b == s)
  {
    EscapeRoundTrip(s);
    EscapeIsClean(s);
    EscapeIsNormal(s);
    forall i | 0 <= i < |Escape(s)| && Escape(s)[i] == '%'
      ensures i + 2 < |Escape(s)| && UpperHex(Escape(s)[i + 1]) && UpperHex(Escape(s)[i + 2])
    {
      PercentIsFollowed(Escape(s), i);
    }
    if forall i :: 0 <= i < |s| ==> Plain(s[i]) {
      PlainIsItself(s);
    }
  }

  lemma OneByOne(b: string, c: char, d: char, e: char)
    ensures b + [c] + [d] + [e] == b + [c, d, e]
  {
  }

  /** escapeQuery, byte by byte. */
  method EscapeQuery(s: ByteString) returns (b: string)
    ensures b == Escape(s) && Unescape(b) == Some(s) && IsNormal(b)
    ensures forall i :: 0 <= i < |b| ==> Clean(b[i])
    ensures forall i :: 0 <= i < |b| && b[i] == '%' ==> i + 2 < |b| && UpperHex(b[i + 1]) && UpperHex(b[i + 2])
    ensures (forall i :: 0 <= i < |s| ==> Plain(s[i])) ==> b == s
  {
    b := "";
    for i := 0 to |s|
      invariant b == Escape(s[..i])
    {
      var c := s[i];
      EscapeSnoc(s[..i], c);
      assert s[..i + 1] == s[..i] + [c];
      if Unreserved(c) {
        b := b + [c];
        continue;
      }
      OneByOne(b, '%', HEX_DIGITS[c as int / 16], HEX_DIGITS[c as int % 16]);
      b := b + ['%'];
      b := b + [HEX_DIGITS[c as int / 16]];
      b := b + [HEX_DIGITS[c as int % 16]];
    }
    assert s[..|s|] == s;
    Spelling(s);
  }

  // ---- paths ---------------------------------------------------------------------------------

  function Segments(p: ByteString): seq<ByteString> {
    var parts := Split(p, '/');
    assert forall i, j :: 0 <= i < |parts| && 0 <= j < |parts[i]| ==> parts[i][j] in p;
    parts
  }

  function EscapeAll(parts: seq<ByteString>): seq<string> {
    seq(|parts|, i requires 0 <= i < |parts| => Escape(parts[i]))
  }

  /** escapePath: segment by segment. */
  method EscapePath(p: ByteString) returns (r: string)
    ensures r == Join(EscapeAll(Segments(p)), '/')
  {
    var segs := Segments(p);
    var escaped: seq<string> := segs;
    for i := 0 to |segs|
      invariant |escaped| == |segs|
      invariant forall j :: 0 <= j < i ==> escaped[j] == Escape(segs[j])
      invariant forall j :: i <= j < |segs| ==> escaped[j] == segs[j]
    {
      var e := EscapeQuery(segs[i]);
      escaped := escaped[i := e];
    }
    assert escaped == EscapeAll(segs);
    r := Join(escaped, '/');
  }

  lemma NoneInEscape(s: ByteString, sep: char)
    requires !Clean(sep)
    ensures sep !in Escape(s)
  {
    EscapeIsClean(s);
  }

  /** The escaped path has the same segments, escaped, and determines the path. */
  lemma EscapePathKeepsSegments(p: ByteString)
    ensures Split(Join(EscapeAll(Segments(p)), '/'), '/') == EscapeAll(Segments(p))
  {
    forall i | 0 <= i < |Segments(p)| ensures '/' !in EscapeAll(Segments(p))[i] {
      NoneInEscape(Segments(p)[i], '/');
    }
    SplitJoin(EscapeAll(Segments(p)), '/');
  }

  lemma EscapePathInjective(p: ByteString, q: ByteString)
    requires Join(EscapeAll(Segments(p)), '/') == Join(EscapeAll(Segments(q)), '/')
    ensures p == q
  {
    EscapePathKeepsSegments(p);
    EscapePathKeepsSegments(q);
    var a, b := Segments(p), Segments(q);
    assert |a| == |EscapeAll(a)| == |EscapeAll(b)| == |b|;
    forall i | 0 <= i < |a| ensures a[i] == b[i] {
      assert EscapeAll(a)[i] == EscapeAll(b)[i];
      EscapeInjective(a[i], b[i]);
    }
    JoinSplit(p, '/');
    JoinSplit(q, '/');
    assert Split(p, '/') == a == b == Split(q, '/');
  }

  // ---- queries -------------------------------------------------------------------------------

  datatype Pair = Pair(k: ByteString, v: ByteString)

  type Query = map<ByteString, seq<ByteString>>

  /** How often a pair occurs in a query, whatever the order of its values. */
  function Count(q: Query, p: Pair): nat {
    if p.k in q then multiset(q[p.k])[p.v] else 0
  }

  function Print(p: Pair): string {
    Escape(p.k) + "=" + Escape(p.v)
  }

  function PrintAll(ps: seq<Pair>): seq<string> {
    seq(|ps|, i requires 0 <= i < |ps| => Print(ps[i]))
  }

  predicate Before(a: Pair, b: Pair) {
    Less(a.k, b.k) || (a.k == b.k && Less(a.v, b.v))
  }

  /** By key, then by value. */
  ghost predicate InOrder(ps: seq<Pair>) {
    forall i, j :: 0 <= i < j < |ps| ==> !Before(ps[j], ps[i])
  }

  /** `ps` lists the pairs of the query, each as often as it occurs, in order. */
  ghost predicate Lists(ps: seq<Pair>, q: Query) {
    InOrder(ps) && forall p :: multiset(ps)[p] == Count(q, p)
  }

  lemma SortIsBytes(xs: seq<ByteString>)
    ensures Ascending(Sort(xs)) && multiset(Sort(xs)) == multiset(xs)
    ensures forall i :: 0 <= i < |Sort(xs)| ==> Sort(xs)[i] in xs
  {
    SortSorts(xs);
    forall i | 0 <= i < |Sort(xs)| ensures Sort(xs)[i] in xs {
      assert Sort(xs)[i] in multiset(Sort(xs));
    }
  }

  lemma BeforeOrder(a: Pair, b: Pair, c: Pair)
    ensures !Before(a, a)
    ensures a == b || Before(a, b) || Before(b, a)
    ensures Before(a, b) && Before(b, c) ==> Before(a, c)
  {
    LessOrder(a.k, b.k, c.k);
    LessOrder(a.v, b.v, c.v);
  }

  /** The first of an ordered list is the first of any ordered list of the same pairs. */
  lemma SameHead(a: seq<Pair>, b: seq<Pair>)
    requires InOrder(a) && InOrder(b) && multiset(a) == multiset(b) && a != [] && b != []
    ensures a[0] == b[0]
  {
    assert a[0] in multiset(b) && b[0] in multiset(a);
    var j :| 0 <= j < |b| && b[j] == a[0];
    var i :| 0 <= i < |a| && a[i] == b[0];
    BeforeOrder(a[0], b[0], a[0]);
  }

  /** An ordered list of pairs is determined by how often each occurs. */
  lemma {:induction false} OrderedIsUnique(a: seq<Pair>, b: seq<Pair>)
    requires InOrder(a) && InOrder(b) && multiset(a) == multiset(b)
    ensures a == b
  {
    assert |a| == |multiset(a)| == |multiset(b)| == |b|;
    if a != [] {
      SameHead(a, b);
      assert a == [a[0]] + a[1..] && b == [b[0]] + b[1..];
      assert multiset(a[1..]) == multiset(a) - multiset{a[0]} == multiset(b[1..]);
      OrderedIsUnique(a[1..], b[1..]);
    }
  }

  lemma PrintInjective(a: Pair, b: Pair)
    requires Print(a) == Print(b)
    ensures a == b
  {
    PrintSplits(a);
    PrintSplits(b);
    assert [Escape(a.k), Escape(a.v)][0] == [Escape(b.k), Escape(b.v)][0];
    assert [Escape(a.k), Escape(a.v)][1] == [Escape(b.k), Escape(b.v)][1];
    EscapeInjective(a.k, b.k);
    EscapeInjective(a.v, b.v);
  }

  lemma PrintSplits(p: Pair)
    ensures Split(Print(p), '=') == [Escape(p.k), Escape(p.v)]
  {
    NoneInEscape(p.k, '=');
    NoneInEscape(p.v, '=');
    SplitHead(Escape(p.k), Escape(p.v), '=');
    SplitPlain(Escape(p.v), '=');
  }

  lemma PrintHasNoAmpersand(p: Pair)
    ensures '&' !in Print(p) && '=' in Print(p)
  {
    NoneInEscape(p.k, '&');
    NoneInEscape(p.v, '&');
    assert Print(p)[|Escape(p.k)|] == '=';
  }

  /** The printed pairs can be read back, so the printed string determines the list. */
  lemma PrintedDetermines(a: seq<Pair>, b: seq<Pair>)
    requires Join(PrintAll(a), '&') == Join(PrintAll(b), '&')
    ensures a == b
  {
    PrintedIsEmpty(a);
    PrintedIsEmpty(b);
    if a != [] && b != [] {
      PrintedSplits(a);
      PrintedSplits(b);
      assert |a| == |PrintAll(a)| == |PrintAll(b)| == |b|;
      forall i | 0 <= i < |a| ensures a[i] == b[i] {
        assert PrintAll(a)[i] == PrintAll(b)[i];
        PrintInjective(a[i], b[i]);
      }
    }
  }

  lemma PrintedIsEmpty(a: seq<Pair>)
    ensures Join(PrintAll(a), '&') == "" <==> a == []
  {
    if a != [] {
      PrintHasNoAmpersand(a[0]);
      assert PrintAll(a)[0] == Print(a[0]);
    }
  }

  lemma PrintedSplits(a: seq<Pair>)
    requires a != []
    ensures Split(Join(PrintAll(a), '&'), '&') == PrintAll(a)
  {
    forall i | 0 <= i < |a| ensures '&' !in PrintAll(a)[i] {
      PrintHasNoAmpersand(a[i]);
    }
    SplitJoin(PrintAll(a), '&');
  }

  /** `out` prints the pairs of the query, each as often as it occurs, by key and then by value. */
  ghost predicate IsCanonical(out: string, q: Query) {
    exists ps :: Lists(ps, q) && out == Join(PrintAll(ps), '&')
  }

  lemma ListingIsExact(a: seq<Pair>, q: Query, b: seq<Pair>, r: Query)
    requires Lists(a, q) && Lists(b, r)
    ensures Join(PrintAll(a), '&') == Join(PrintAll(b), '&') <==> forall p :: Count(q, p) == Count(r, p)
  {
    if Join(PrintAll(a), '&') == Join(PrintAll(b), '&') {
      PrintedDetermines(a, b);
    }
    if forall p :: Count(q, p) == Count(r, p) {
      assert forall p :: multiset(a)[p] == multiset(b)[p];
      OrderedIsUnique(a, b);
    }
  }

  /** canonicalQuery is independent of the order of keys and of values, and injective on what is
      left: two queries print alike if and only if every pair occurs in both equally often. */
  lemma CanonicalIsExact(out: string, q: Query, other: string, r: Query)
    requires IsCanonical(out, q) && IsCanonical(other, r)
    ensures out == other <==> forall p :: Count(q, p) == Count(r, p)
  {
    var a :| Lists(a, q) && out == Join(PrintAll(a), '&');
    var b :| Lists(b, r) && other == Join(PrintAll(b), '&');
    ListingIsExact(a, q, b, r);
  }

  // ---- the loops of canonicalQuery --------------------------------------------------------------

  method SortedKeys(q: Query) returns (keys: seq<ByteString>)
    ensures Increasing(keys) && forall k :: k in keys <==> k in q
  {
    var found: seq<ByteString> := [];
    var todo := q.Keys;
    while todo != {}
      invariant todo <= q.Keys && forall k :: k in found <==> k in q && k !in todo
      invariant forall i, j :: 0 <= i < j < |found| ==> found[i] != found[j]
    {
      var k :| k in todo;
      found := found + [k];
      todo := todo - {k};
    }
    SortIsBytes(found);
    SortKeepsDistinct(found);
    keys := Sort(found);
  }

  /** The list so far covers the keys `done`, all of which come before `next`. */
  ghost predicate ListsUpTo(ps: seq<Pair>, q: Query, done: seq<ByteString>) {
    && InOrder(ps)
    && forall p :: multiset(ps)[p] == if p.k in done then Count(q, p) else 0
  }

  function Paired(k: ByteString, vals: seq<ByteString>): seq<Pair> {
    seq(|vals|, i requires 0 <= i < |vals| => Pair(k, vals[i]))
  }

  lemma {:induction false} PairedCounts(k: ByteString, vals: seq<ByteString>, p: Pair)
    ensures multiset(Paired(k, vals))[p] == if p.k == k then multiset(vals)[p.v] else 0
  {
    if vals != [] {
      PairedCounts(k, vals[1..], p);
      assert vals == [vals[0]] + vals[1..];
      assert Paired(k, vals) == [Pair(k, vals[0])] + Paired(k, vals[1..]);
    }
  }

  lemma OneMoreKey(ps: seq<Pair>, q: Query, done: seq<ByteString>, k: ByteString, vals: seq<ByteString>)
    requires ListsUpTo(ps, q, done) && k in q && (forall d :: d in done ==> Less(d, k))
    requires Ascending(vals) && multiset(vals) == multiset(q[k])
    ensures ListsUpTo(ps + Paired(k, vals), q, done + [k])
  {
    var more := ps + Paired(k, vals);
    LessOrder(k, k, k);
    forall p: Pair ensures multiset(more)[p] == if p.k in done + [k] then Count(q, p) else 0 {
      PairedCounts(k, vals, p);
    }
    forall i, j | 0 <= i < j < |more| ensures !Before(more[j], more[i]) {
      if i < |ps| <= j {
        assert more[i] in multiset(ps);
        LessOrder(more[i].k, k, more[i].k);
      }
    }
  }

  lemma PrintMore(ps: seq<Pair>, k: ByteString, vals: seq<ByteString>, j: nat)
    requires j < |vals|
    ensures PrintAll(ps + Paired(k, vals[..j + 1])) == PrintAll(ps + Paired(k, vals[..j])) + [Print(Pair(k, vals[j]))]
  {
    assert ps + Paired(k, vals[..j + 1]) == ps + Paired(k, vals[..j]) + [Pair(k, vals[j])];
  }

  /** The inner loop: the values of one key. */
  method PrintValues(k: ByteString, vals: seq<ByteString>, had: seq<string>, ghost ps: seq<Pair>) returns (parts: seq<string>)
    requires had == PrintAll(ps)
    ensures parts == PrintAll(ps + Paired(k, vals))
  {
    parts := had;
    assert ps + Paired(k, vals[..0]) == ps;
    for j := 0 to |vals|
      invariant parts == PrintAll(ps + Paired(k, vals[..j]))
    {
      var name := EscapeQuery(k);
      var value := EscapeQuery(vals[j]);
      PrintMore(ps, k, vals, j);
      parts := parts + [name + "=" + value];
    }
    assert vals[..|vals|] == vals;
  }

  method CanonicalQuery(q: Query) returns (out: string)
    ensures IsCanonical(out, q)
  {
    var keys := SortedKeys(q);
    var parts: seq<string> := [];
    ghost var ps: seq<Pair> := [];
    for i := 0 to |keys|
      invariant parts == PrintAll(ps) && ListsUpTo(ps, q, keys[..i])
    {
      var k := keys[i];
      assert k in keys;
      SortIsBytes(q[k]);
      var vals: seq<ByteString> := Sort(q[k]);
      parts := PrintValues(k, vals, parts, ps);
      OneMoreKey(ps, q, keys[..i], k, vals);
      ps := ps + Paired(k, vals);
      assert keys[..i + 1] == keys[..i] + [k];
    }
    assert keys[..|keys|] == keys;
    out := Join(parts, '&');
  }
}
