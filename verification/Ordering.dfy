/**
  Strings in lexicographic order, and sorting them (sort.Strings).
 */
module Ordering {
  predicate Less(a: string, b: string) {
    if b == "" then false
    else if a == "" then true
    else if a[0] != b[0] then a[0] < b[0]
    else Less(a[1..], b[1..])
  }

  /** A strict total order. */
  lemma {:induction false} LessOrder(a: string, b: string, c: string)
    ensures !Less(a, a)
    ensures a == b || Less(a, b) || Less(b, a)
    ensures Less(a, b) && Less(b, c) ==> Less(a, c)
    decreases |a| + |b| + |c|
  {
    if a != "" && b != "" && c != "" {
      LessOrder(a[1..], b[1..], c[1..]);
    } else if a != "" && b != "" {
      LessOrder(a[1..], b[1..], c);
    } else if a != "" {
      LessOrder(a[1..], b, c);
    }
    assert a != "" && b != "" && a[0] == b[0] && a[1..] == b[1..] ==> a == [a[0]] + a[1..] == b;
  }

  lemma {:induction false} PrefixIsLess(a: string, b: string)
    requires a < b
    ensures Less(a, b)
  {
    if a != "" {
      assert a[0] == b[0] && a[1..] < b[1..];
      PrefixIsLess(a[1..], b[1..]);
    }
  }

  /** The order is decided at the first differing character, or by length when there is none. */
  lemma {:induction false} LessAtFirstDifference(a: string, b: string)
    ensures Less(a, b) <==> a < b || exists k: nat :: DiffersFirst(a, b, k) && a[k] < b[k]
    decreases |a|
  {
    if Less(a, b) && a != "" {
      if a[0] != b[0] {
        assert DiffersFirst(a, b, 0);
      } else {
        LessAtFirstDifference(a[1..], b[1..]);
        if !(a[1..] < b[1..]) {
          var k: nat :| DiffersFirst(a[1..], b[1..], k) && a[1..][k] < b[1..][k];
          assert a[..k + 1] == [a[0]] + a[1..][..k] && b[..k + 1] == [b[0]] + b[1..][..k];
          assert DiffersFirst(a, b, k + 1);
        }
      }
    }
    if a < b {
      PrefixIsLess(a, b);
    }
    forall k: nat | DiffersFirst(a, b, k) && a[k] < b[k] ensures Less(a, b) {
      FirstDifferenceDecides(a, b, k);
    }
  }

  predicate DiffersFirst(a: string, b: string, k: nat) {
    k < |a| && k < |b| && a[..k] == b[..k] && a[k] != b[k]
  }

  lemma {:induction false} FirstDifferenceDecides(a: string, b: string, k: nat)
    requires DiffersFirst(a, b, k) && a[k] < b[k]
    ensures Less(a, b)
    decreases k
  {
    if k > 0 {
      assert a[0] == a[..k][0] == b[..k][0] == b[0];
      assert a[1..][..k - 1] == a[..k][1..] && b[1..][..k - 1] == b[..k][1..];
      FirstDifferenceDecides(a[1..], b[1..], k - 1);
    }
  }

  ghost predicate Increasing(xs: seq<string>) {
    forall i, j :: 0 <= i < j < |xs| ==> Less(xs[i], xs[j])
  }

  ghost predicate Ascending(xs: seq<string>) {
    forall i, j :: 0 <= i < j < |xs| ==> !Less(xs[j], xs[i])
  }

  /** sort.Strings, by insertion. */
  function Insert(xs: seq<string>, x: string): seq<string> {
    if xs == [] then [x]
    else if Less(xs[0], x) then [xs[0]] + Insert(xs[1..], x)
    else [x] + xs
  }

  function Sort(xs: seq<string>): seq<string> {
    if xs == [] then [] else Insert(Sort(xs[1..]), xs[0])
  }

  lemma {:induction false} InsertIsBag(xs: seq<string>, x: string)
    ensures multiset(Insert(xs, x)) == multiset(xs) + multiset{x}
  {
    if xs != [] {
      assert xs == [xs[0]] + xs[1..];
      InsertIsBag(xs[1..], x);
    }
  }

  lemma AscendingCons(x: string, ys: seq<string>)
    requires Ascending(ys) && forall y :: y in ys ==> !Less(y, x)
    ensures Ascending([x] + ys)
  {
    var zs := [x] + ys;
    forall i, j | 0 <= i < j < |zs| ensures !Less(zs[j], zs[i]) {
      assert zs[j] == ys[j - 1];
      assert i > 0 ==> zs[i] == ys[i - 1];
    }
  }

  lemma InsertAtFront(xs: seq<string>, x: string)
    requires Ascending(xs) && xs != [] && !Less(xs[0], x)
    ensures Ascending([x] + xs)
  {
    forall y | y in xs ensures !Less(y, x) {
      LessOrder(y, x, xs[0]);
      LessOrder(xs[0], x, x);
    }
    AscendingCons(x, xs);
  }

  lemma {:induction false} InsertSorts(xs: seq<string>, x: string)
    requires Ascending(xs)
    ensures Ascending(Insert(xs, x))
  {
    if xs != [] && Less(xs[0], x) {
      InsertSorts(xs[1..], x);
      InsertIsBag(xs[1..], x);
      var rest := Insert(xs[1..], x);
      forall y | y in rest ensures !Less(y, xs[0]) {
        assert y in multiset(rest);
        LessOrder(xs[0], x, xs[0]);
      }
      AscendingCons(xs[0], rest);
    } else if xs != [] {
      InsertAtFront(xs, x);
    }
  }

  lemma {:induction false} SortSorts(xs: seq<string>)
    ensures Ascending(Sort(xs)) && multiset(Sort(xs)) == multiset(xs)
  {
    if xs != [] {
      assert xs == [xs[0]] + xs[1..];
      SortSorts(xs[1..]);
      InsertSorts(Sort(xs[1..]), xs[0]);
      InsertIsBag(Sort(xs[1..]), xs[0]);
    }
  }

  /** Distinct strings come out strictly increasing. */
  lemma SortKeepsDistinct(xs: seq<string>)
    requires forall i, j :: 0 <= i < j < |xs| ==> xs[i] != xs[j]
    ensures Increasing(Sort(xs)) && forall x :: x in Sort(xs) <==> x in xs
  {
    SortSorts(xs);
    var ys := Sort(xs);
    forall x ensures x in ys <==> x in xs {
      assert x in ys <==> x in multiset(ys);
      assert x in xs <==> x in multiset(xs);
    }
    forall i, j | 0 <= i < j < |ys| ensures Less(ys[i], ys[j]) {
      OnceEach(xs, ys[i]);
      if ys[i] == ys[j] {
        TwiceThere(ys, i, j);
      }
      LessOrder(ys[i], ys[j], ys[i]);
    }
  }

  lemma {:induction false} OnceEach(xs: seq<string>, x: string)
    requires forall i, j :: 0 <= i < j < |xs| ==> xs[i] != xs[j]
    ensures multiset(xs)[x] <= 1
  {
    if xs != [] {
      assert xs == [xs[0]] + xs[1..];
      OnceEach(xs[1..], x);
      assert xs[0] == x ==> x !in xs[1..];
    }
  }

  lemma TwiceThere(xs: seq<string>, i: nat, j: nat)
    requires i < j < |xs| && xs[i] == xs[j]
    ensures multiset(xs)[xs[i]] >= 2
  {
    var a, b := xs[..j], xs[j..];
    assert xs == a + b && a[i] == xs[i] && b[0] == xs[j];
    assert xs[i] in multiset(a) && xs[j] in multiset(b);
  }
}
