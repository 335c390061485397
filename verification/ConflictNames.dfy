/**
  Names of conflict copies (client/internal/engine/conflict.go): the search for a free
  name terminates, never leaves the folder and never lands on an existing file.
 */
module ConflictNames {
  import opened Base

  function Decimal(n: nat): string {
    if n < 10 then ["0123456789"[n]] else Decimal(n / 10) + ["0123456789"[n % 10]]
  }

  lemma {:induction false} DecimalInjective(m: nat, n: nat)
    requires Decimal(m) == Decimal(n)
    ensures m == n
  {
    var a, b := Decimal(m), Decimal(n);
    assert a[|a| - 1] == b[|b| - 1];
    if m >= 10 && n >= 10 {
      assert a[..|a| - 1] == Decimal(m / 10);
      assert b[..|b| - 1] == Decimal(n / 10);
      DecimalInjective(m / 10, n / 10);
    } else {
      DecimalNonEmpty(m / 10);
      DecimalNonEmpty(n / 10);
    }
  }

  lemma DecimalNonEmpty(n: nat)
    ensures |Decimal(n)| > 0
  {
  }

  /** The extension: from the last dot on, or nothing when there is no dot. */
  function Ext(name: string): (ext: string)
    ensures |ext| <= |name| && name[|name| - |ext|..] == ext
  {
    if name == "" then ""
    else if name[|name| - 1] == '.' then "."
    else
      var rest := Ext(name[..|name| - 1]);
      if rest == "" then "" else
        assert name[|name| - 1 - |rest|..|name| - 1] == rest;
        rest + [name[|name| - 1]]
  }

  function Stem(name: string): string {
    name[..|name| - |Ext(name)|]
  }

  /** `tag` is the machine name and the date. */
  function CopySuffix(tag: string, n: nat): string {
    " (conflict from " + tag + ")" + if n > 1 then " (" + Decimal(n) + ")" else ""
  }

  function CopyName(name: string, tag: string, n: nat): string {
    Stem(name) + CopySuffix(tag, n) + Ext(name)
  }

  lemma {:induction false} ExtIsLastDot(s: string, e: string)
    requires '.' !in e
    ensures Ext(s + "." + e) == "." + e
    decreases |e|
  {
    var name := s + "." + e;
    if e != "" {
      assert name[..|name| - 1] == s + "." + e[..|e| - 1];
      ExtIsLastDot(s, e[..|e| - 1]);
      assert name[|name| - 1] == e[|e| - 1] && e[|e| - 1] in e;
      assert "." + e == "." + e[..|e| - 1] + [e[|e| - 1]];
    }
  }

  lemma {:induction false} NoDotNoExt(name: string)
    requires '.' !in name
    ensures Ext(name) == ""
  {
    if name != "" {
      NoDotNoExt(name[..|name| - 1]);
      assert name[|name| - 1] in name;
    }
  }

  lemma NameTakesApart(s: string, e: string)
    requires '.' !in e
    ensures Stem(s + "." + e) == s && Ext(s + "." + e) == "." + e
    ensures Stem(e) == e && Ext(e) == ""
  {
    ExtIsLastDot(s, e);
    NoDotNoExt(e);
  }

  /** The copy keeps what stands before the last dot in front, and the extension at the end, so that it sorts
      beside its sibling and keeps its type; between them stands where it comes from, and which it is. */
  lemma CopyKeepsStemAndExtension(s: string, e: string, tag: string, n: nat)
    requires '.' !in e
    ensures var which := if n > 1 then " (" + Decimal(n) + ")" else "";
            && CopyName(s + "." + e, tag, n) == s + (" (conflict from " + tag + ")" + which) + ("." + e)
            && CopyName(e, tag, n) == e + (" (conflict from " + tag + ")" + which)
  {
    NameTakesApart(s, e);
    assert e + CopySuffix(tag, n) + "" == e + CopySuffix(tag, n);
  }

  lemma CopySuffixInjective(tag: string, m: nat, n: nat)
    requires 1 <= m && 1 <= n
    requires CopySuffix(tag, m) == CopySuffix(tag, n)
    ensures m == n
  {
    var head := " (conflict from " + tag + ")";
    var a, b := CopySuffix(tag, m), CopySuffix(tag, n);
    assert a[..|head|] == head == b[..|head|];
    if m > 1 && n > 1 {
      assert a[|head|..] == " (" + Decimal(m) + ")";
      assert b[|head|..] == " (" + Decimal(n) + ")";
      assert (" (" + Decimal(m) + ")")[2..|a| - |head| - 1] == Decimal(m);
      assert (" (" + Decimal(n) + ")")[2..|b| - |head| - 1] == Decimal(n);
      DecimalInjective(m, n);
    }
  }

  lemma CopyNameInjective(name: string, tag: string, m: nat, n: nat)
    requires 1 <= m && 1 <= n
    requires CopyName(name, tag, m) == CopyName(name, tag, n)
    ensures m == n
  {
    var a := CopyName(name, tag, m);
    var s, e := |Stem(name)|, |Ext(name)|;
    assert a[s..|a| - e] == CopySuffix(tag, m);
    assert a[s..|a| - e] == CopySuffix(tag, n);
    CopySuffixInjective(tag, m, n);
  }

  /** The n-th name tried for a conflict copy of `p`: same folder, decorated base name. */
  function Candidate(p: Path, tag: string, n: nat): Path
  {
    Parent(p) + [CopyName(BaseName(p), tag, n)]
  }

  lemma CandidateInjective(p: Path, tag: string, m: nat, n: nat)
    requires 1 <= m && 1 <= n
    requires Candidate(p, tag, m) == Candidate(p, tag, n)
    ensures m == n
  {
    assert BaseName(Candidate(p, tag, m)) == CopyName(BaseName(p), tag, m);
    assert BaseName(Candidate(p, tag, n)) == CopyName(BaseName(p), tag, n);
    CopyNameInjective(BaseName(p), tag, m, n);
  }

  lemma CandidateIsNew(p: Path, tag: string, n: nat)
    ensures Candidate(p, tag, n) != p
    ensures Parent(Candidate(p, tag, n)) == Parent(p)
  {
    assert |CopyName(BaseName(p), tag, n)| > |BaseName(p)|;
    assert BaseName(Candidate(p, tag, n)) == CopyName(BaseName(p), tag, n);
  }

  /** The candidates tried before the n-th. */
  function Tried(p: Path, tag: string, n: nat): set<Path>
  {
    set m | 1 <= m < n :: Candidate(p, tag, m)
  }

  lemma NotTried(p: Path, tag: string, n: nat)
    requires n >= 1
    ensures Candidate(p, tag, n) !in Tried(p, tag, n)
  {
    forall m | 1 <= m < n ensures Candidate(p, tag, m) != Candidate(p, tag, n) {
      if Candidate(p, tag, m) == Candidate(p, tag, n) {
        CandidateInjective(p, tag, m, n);
      }
    }
  }

  lemma {:induction false} TriedSize(p: Path, tag: string, n: nat)
    requires n >= 1
    ensures |Tried(p, tag, n)| == n - 1
  {
    if n == 1 {
      assert Tried(p, tag, n) == {};
    } else {
      TriedSize(p, tag, n - 1);
      NotTried(p, tag, n - 1);
      TriedGrows(p, tag, n);
    }
  }

  lemma TriedGrows(p: Path, tag: string, n: nat)
    requires n >= 2
    ensures Tried(p, tag, n) == Tried(p, tag, n - 1) + {Candidate(p, tag, n - 1)}
  {
  }

  lemma SubsetSize<T>(a: set<T>, b: set<T>)
    requires a <= b
    ensures |a| <= |b|
  {
    if a != {} {
      var x :| x in a;
      SubsetSize(a - {x}, b - {x});
    }
  }

  /** Pigeonhole: while every earlier candidate is taken, the search is bounded by what is taken. */
  lemma SearchBound(taken: set<Path>, p: Path, tag: string, n: nat)
    requires n >= 1 && Tried(p, tag, n) <= taken
    ensures n - 1 <= |taken|
  {
    TriedSize(p, tag, n);
    SubsetSize(Tried(p, tag, n), taken);
  }

  /** The number the search settles on, starting from the n-th candidate. */
  function FreeFrom(taken: set<Path>, p: Path, tag: string, n: nat): (k: nat)
    requires n >= 1 && Tried(p, tag, n) <= taken
    ensures k >= n && Candidate(p, tag, k) !in taken && Tried(p, tag, k) <= taken
    decreases |taken| + 1 - n
  {
    SearchBound(taken, p, tag, n);
    if Candidate(p, tag, n) !in taken then n
    else
      TriedGrows(p, tag, n + 1);
      SearchBound(taken, p, tag, n + 1);
      FreeFrom(taken, p, tag, n + 1)
  }

  /** A candidate that is taken moves the search on by one, and there are only so many. */
  lemma FreeStep(taken: set<Path>, p: Path, tag: string, n: nat)
    requires n >= 1 && Tried(p, tag, n) <= taken && Candidate(p, tag, n) in taken
    ensures n <= |taken| && Tried(p, tag, n + 1) <= taken
    ensures FreeFrom(taken, p, tag, n) == FreeFrom(taken, p, tag, n + 1)
  {
    TriedGrows(p, tag, n + 1);
    SearchBound(taken, p, tag, n + 1);
  }

  /** Where a conflict copy of `p` goes. */
  function CopyPath(taken: set<Path>, p: Path, tag: string): Path
  {
    Candidate(p, tag, FreeFrom(taken, p, tag, 1))
  }

  /** The rename of a conflict copy never overwrites: its target is free, in the same folder,
      and is not the original; it is also the first such name. */
  lemma CopyPathIsFree(taken: set<Path>, p: Path, tag: string)
    ensures CopyPath(taken, p, tag) !in taken
    ensures CopyPath(taken, p, tag) != p && CopyPath(taken, p, tag) != []
    ensures Parent(CopyPath(taken, p, tag)) == Parent(p)
    ensures exists n :: n >= 1 && CopyPath(taken, p, tag) == Candidate(p, tag, n) &&
                        forall m :: 1 <= m < n ==> Candidate(p, tag, m) in taken
  {
    var n := FreeFrom(taken, p, tag, 1);
    CandidateIsNew(p, tag, n);
    forall m | 1 <= m < n ensures Candidate(p, tag, m) in taken {
      assert Candidate(p, tag, m) in Tried(p, tag, n);
    }
  }
}
