/**
  Server paths as the program spells them (client/internal/engine/paths.go) and as this model
  does: strings rooted at "/", and sequences of segments.
 */
module Paths {
  import opened Base

  predicate SlashFree(p: Path) {
    forall i :: 0 <= i < |p| ==> '/' !in p[i]
  }

  /** "/a/b" for ["a", "b"]. */
  function Joined(p: Path): string {
    if p == [] then "" else "/" + p[0] + Joined(p[1..])
  }

  function Render(p: Path): string {
    if p == [] then "/" else Joined(p)
  }

  /** isUnder. */
  predicate IsUnder(child: string, parent: string) {
    parent == "/" || child == parent || parent + "/" <= child
  }

  function LastSlash(s: string): (k: int)
    ensures -1 <= k < |s| && (k >= 0 ==> s[k] == '/')
    ensures forall i :: k < i < |s| ==> s[i] != '/'
  {
    if s == "" then -1 else if s[|s| - 1] == '/' then |s| - 1 else LastSlash(s[..|s| - 1])
  }

  /** path.Dir of a rooted path without empty segments. */
  function DirOf(s: string): string {
    if LastSlash(s) <= 0 then "/" else s[..LastSlash(s)]
  }

  /** path.Base of a rooted path that does not end in a slash. */
  function BaseOf(s: string): string {
    if s == "/" then "/" else s[LastSlash(s) + 1..]
  }

  lemma {:induction false} JoinedAppend(p: Path, q: Path)
    ensures Joined(p + q) == Joined(p) + Joined(q)
  {
    if p == [] {
      assert p + q == q;
    } else {
      assert (p + q)[0] == p[0] && (p + q)[1..] == p[1..] + q;
      JoinedAppend(p[1..], q);
    }
  }

  /** A slash-free head is read back off a joined path by looking for the next slash. */
  lemma HeadsAgree(a: string, b: string, s: string, t: string)
    requires '/' !in a && '/' !in b
    requires s == "" || s[0] == '/'
    requires t == "" || t[0] == '/'
    requires a + s <= b + t
    ensures a <= b && (s != "" ==> a == b)
  {
    var l, r := a + s, b + t;
    assert l == r[..|l|];
    assert forall i :: 0 <= i < |a| ==> a[i] == l[i] == r[i];
    assert forall i :: 0 <= i < |b| ==> b[i] == r[i];
    assert t != "" ==> r[|b|] == '/';
    assert s != "" ==> l[|a|] == '/' == r[|a|];
  }

  /** A joined path followed by a slash, or by nothing, is a string prefix of another exactly
      when its segments are a prefix of the other's. */
  lemma {:induction false} JoinedPrefix(q: Path, p: Path)
    requires SlashFree(p) && SlashFree(q)
    ensures Joined(q) + "/" <= Joined(p) + "/" <==> q <= p
  {
    if q == [] {
    } else if p == [] {
      assert |Joined(q)| >= 1;
    } else {
      var a, b := q[0], p[0];
      var s, t := Joined(q[1..]) + "/", Joined(p[1..]) + "/";
      assert Joined(q) + "/" == "/" + (a + s) && Joined(p) + "/" == "/" + (b + t);
      PrefixBehind("/", a + s, b + t);
      JoinedPrefix(q[1..], p[1..]);
      if a + s <= b + t {
        HeadsAgree(a, b, s, t);
        PrefixBehind(a, s, t);
      }
      if q <= p {
        PrefixBehind(a, s, t);
      }
    }
  }

  lemma PrefixBehind(h: string, s: string, t: string)
    ensures h + s <= h + t <==> s <= t
  {
    if h + s <= h + t {
      assert (h + t)[..|h + s|] == h + s;
      assert forall i :: 0 <= i < |s| ==> s[i] == (h + s)[|h| + i] == (h + t)[|h| + i] == t[i];
    }
  }

  /** The string test the program makes is the prefix test on segments. */
  lemma UnderIsPrefix(p: Path, q: Path)
    requires SlashFree(p) && SlashFree(q) && p != [""] && q != [""]
    ensures IsUnder(Render(p), Render(q)) <==> Under(p, q)
  {
    JoinedPrefix(q, p);
    if q != [] && p != [] {
      var l, r := Joined(q) + "/", Joined(p);
      assert Joined(q) == "/" + q[0] + Joined(q[1..]) && (|q| > 1 ==> Joined(q[1..]) != "");
      assert |q| == 1 ==> q == [q[0]];
      assert l <= r + "/" <==> l == r + "/" || l <= r by {
        assert l <= r + "/" && |l| <= |r| ==> l == (r + "/")[..|l|] == r[..|l|];
        assert l <= r + "/" && |l| > |r| ==> l == (r + "/")[..|l|] == r + "/";
      }
      assert l == r + "/" <==> Joined(q) == r by {
        assert l == r + "/" ==> l[..|l| - 1] == Joined(q) && (r + "/")[..|r|] == r;
      }
    } else if q != [] {
      assert |Joined(q)| >= 1 && Joined(q) != "/";
    }
  }

  /** Different segment paths are spelled differently. */
  lemma RenderInjective(p: Path, q: Path)
    requires SlashFree(p) && SlashFree(q) && p != [""] && q != [""]
    requires Render(p) == Render(q)
    ensures p == q
  {
    UnderIsPrefix(p, q);
    UnderIsPrefix(q, p);
    assert p <= q && q <= p;
  }

  lemma LastSlashOf(s: string, name: string)
    requires '/' !in name
    ensures LastSlash(s + "/" + name) == |s|
    decreases |name|
  {
    var t := s + "/" + name;
    if name != "" {
      assert t[|t| - 1] == name[|name| - 1];
      assert t[..|t| - 1] == s + "/" + name[..|name| - 1];
      LastSlashOf(s, name[..|name| - 1]);
    }
  }

  /** parentPath and baseName take a path apart the way Parent and BaseName do. */
  lemma DirAndBase(p: Path)
    requires p != [] && SlashFree(p) && forall i :: 0 <= i < |p| ==> p[i] != ""
    ensures DirOf(Render(p)) == Render(Parent(p))
    ensures BaseOf(Render(p)) == BaseName(p)
  {
    var up, name := Parent(p), BaseName(p);
    assert p == up + [name];
    JoinedAppend(up, [name]);
    assert Joined([name]) == "/" + name;
    LastSlashOf(Joined(up), name);
    assert Joined(p) == Joined(up) + "/" + name;
    assert |name| > 0 && |Render(p)| > 1;
  }

  /** A rooted string cut at its slashes; `cur` is the segment being read. */
  function SegmentsFrom(s: string, cur: string): (p: Path)
    requires '/' !in cur
    ensures SlashFree(p) && p != []
    ensures Joined(p) == "/" + cur + s
    decreases |s|
  {
    if s == "" then [cur]
    else if s[0] == '/' then [cur] + SegmentsFrom(s[1..], "")
    else
      var p := SegmentsFrom(s[1..], cur + [s[0]]);
      assert "/" + (cur + [s[0]]) + s[1..] == "/" + cur + s;
      p
  }

  /** The inverse of Render on rooted strings. */
  function Segments(s: string): (p: Path)
    requires |s| > 1 && s[0] == '/'
    ensures SlashFree(p) && p != [] && p != [""] && Render(p) == s
  {
    var p := SegmentsFrom(s[1..], "");
    assert "/" + "" + s[1..] == s;
    assert Joined([""]) == "/";
    p
  }
}
