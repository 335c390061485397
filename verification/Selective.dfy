/**
  Selective sync (client/internal/engine/selective.go): the exclude set, and pruning what it
  newly covers.
 */
module Selective {
  import opened Base
  import opened LocalDisk
  import opened Ordering
  import opened Paths
  import opened Pull

  // ---- normalizing the set ------------------------------------------------------------

  /** The white space of Unicode, as strings.TrimSpace has it. */
  predicate IsSpace(ch: char) {
    var code := ch as int;
    || 9 <= code <= 13 || code == 0x20 || code == 0x85 || code == 0xA0 || code == 0x1680
    || 0x2000 <= code <= 0x200A || code == 0x2028 || code == 0x2029 || code == 0x202F || code == 0x205F || code == 0x3000
  }

  function TrimLeft(s: string): string {
    if s != "" && IsSpace(s[0]) then TrimLeft(s[1..]) else s
  }

  function TrimRight(s: string): string {
    if s != "" && IsSpace(s[|s| - 1]) then TrimRight(s[..|s| - 1]) else s
  }

  function TrimSlashes(s: string): (r: string)
    ensures r <= s && (r != "" ==> r[|r| - 1] != '/')
  {
    if s != "" && s[|s| - 1] == '/' then TrimSlashes(s[..|s| - 1]) else s
  }

  /** One raw prefix in normal form, "" when there is nothing to exclude. */
  function Normal(raw: string): (r: string)
    ensures r != "" ==> |r| > 1 && r[0] == '/' && r[|r| - 1] != '/'
  {
    var p := TrimRight(TrimLeft(raw));
    if p == "" then "" else TrimSlashes(if "/" <= p then p else "/" + p)
  }

  /** normalizeExcludes: exactly the normal forms of the raw prefixes, in strictly increasing
      order, without blanks and without the root. */
  method NormalizeExcludes(raw: seq<string>) returns (out: seq<string>)
    ensures Increasing(out)
    ensures forall x :: x in out <==> x != "" && exists i :: 0 <= i < |raw| && Normal(raw[i]) == x
    ensures forall x :: x in out ==> |x| > 1 && x[0] == '/' && x[|x| - 1] != '/'
  {
    var seen: set<string> := {};
    out := [];
    for k := 0 to |raw|
      invariant forall x :: x in out <==> x in seen
      invariant forall x :: x in seen <==> x != "" && exists i :: 0 <= i < k && Normal(raw[i]) == x
      invariant forall i, j :: 0 <= i < j < |out| ==> out[i] != out[j]
    {
      var p := Normal(raw[k]);
      if p == "" || p in seen { continue; }
      seen := seen + {p};
      out := out + [p];
    }
    SortSorts(out);
    SortKeepsDistinct(out);
    out := Sort(out);
  }

  /** No prefix comes before one that covers it. */
  ghost predicate OutermostFirst(xs: seq<Path>) {
    forall i, j :: 0 <= i < j < |xs| ==> !Under(xs[i], xs[j])
  }

  /** The sorted normal forms, read as segment paths, list outer prefixes before inner ones. */
  lemma SortedIsOutermostFirst(out: seq<string>, xs: seq<Path>)
    requires Increasing(out) && forall i :: 0 <= i < |out| ==> |out[i]| > 1 && out[i][0] == '/'
    requires |xs| == |out| && forall i :: 0 <= i < |out| ==> xs[i] == Segments(out[i])
    ensures OutermostFirst(xs)
  {
    forall i, j | 0 <= i < j < |xs| ensures !Under(xs[i], xs[j]) {
      UnderIsPrefix(xs[i], xs[j]);
      LaterIsNotAbove(out[i], out[j]);
    }
  }

  lemma LaterIsNotAbove(a: string, b: string)
    requires Less(a, b)
    ensures a != b && !(b + "/" <= a)
  {
    LessOrder(a, b, a);
    if b + "/" <= a {
      assert b == (b + "/")[..|b|] == a[..|b|];
      PrefixIsLess(b, a);
    }
  }

  // ---- pruning --------------------------------------------------------------------------

  /** matchingPrefix: the first prefix a path falls under. */
  function MatchingPrefix(p: Path, xs: seq<Path>): (r: Option<Path>)
    ensures r.None? <==> forall x :: x in xs ==> !Under(p, x)
    ensures r.Some? ==> r.value in xs && Under(p, r.value)
  {
    if xs == [] then None
    else if Under(p, xs[0]) then Some(xs[0])
    else MatchingPrefix(p, xs[1..])
  }

  /** The prefixes that have recorded entries. */
  function TrackedPrefixes(c: Client, xs: seq<Path>): set<Path> {
    set p | p in c.rows && MatchingPrefix(p, xs).Some? :: MatchingPrefix(p, xs).value
  }

  /** The prefixes with a locally edited file beneath. */
  function DirtyPrefixes(c: Client, xs: seq<Path>): set<Path> {
    set p | p in c.rows && MatchingPrefix(p, xs).Some? && c.rows[p].kind == IsFile && Edited(c, p) ::
      MatchingPrefix(p, xs).value
  }

  predicate UnderAny(p: Path, xs: set<Path>) {
    exists x | x in xs :: Under(p, x)
  }

  /** The scan of pruneExcluded over the recorded entries: the prefixes found to hold an edit, or None
      at a file it cannot look at. Of a prefix already found so, no further file is looked at. */
  function ScanEntries(c: Client, xs: seq<Path>, listed: seq<Path>, dirty: set<Path>): Option<set<Path>>
    requires forall p :: p in listed ==> p in c.rows
    decreases |listed|
  {
    if listed == [] then Some(dirty)
    else
      var p, m := listed[0], MatchingPrefix(listed[0], xs);
      if m.None? || c.rows[p].kind == IsFolder || m.value in dirty then ScanEntries(c, xs, listed[1..], dirty)
      else if Barred(c.disk, p) then None
      else ScanEntries(c, xs, listed[1..], if Edited(c, p) then dirty + {m.value} else dirty)
  }

  /** One prefix after the other: removed unless an edit lies beneath, and forgotten either way. */
  function PrunePrefixes(c: Client, dirty: set<Path>, prefixes: seq<Path>): Outcome
    decreases |prefixes|
  {
    if prefixes == [] then Done(c)
    else
      var removed := if prefixes[0] in dirty then Some(c.disk) else RemoveAll(c.disk, prefixes[0]);
      match removed
      case None => Failed(c)
      case Some(d) =>
        PrunePrefixes(c.(disk := d, rows := ForgetSubtree(c.rows, prefixes[0])), dirty, prefixes[1..])
  }

  /** pruneExcluded over the entries as listed and then the prefixes in some order. */
  function Prune(c: Client, xs: seq<Path>, listed: seq<Path>, prefixes: seq<Path>): Outcome
    requires forall p :: p in listed ==> p in c.rows
  {
    match ScanEntries(c, xs, listed, {})
    case None => Failed(c)
    case Some(dirty) => PrunePrefixes(c, dirty, prefixes)
  }

  /** `out` is where pruning ends that lists the entries in the order `listed` and then goes through
      the prefixes that have any in the order `prefixes`, up to an error. */
  ghost predicate Prunes(c: Client, xs: seq<Path>, listed: seq<Path>, prefixes: seq<Path>, out: Outcome) {
    && (forall p :: p in listed <==> p in c.rows)
    && (forall x :: x in prefixes ==> x in TrackedPrefixes(c, xs))
    && out == Prune(c, xs, listed, prefixes)
    && (out.Done? ==> forall x :: x in TrackedPrefixes(c, xs) ==> x in prefixes)
  }

  /** Without the prefixes in `done`; what holds an edit, in `dirty`, stays on disk. */
  function PruneThese(c: Client, done: set<Path>, dirty: set<Path>): Client {
    c.(disk := map p | p in c.disk && !UnderAny(p, done - dirty) :: c.disk[p],
       rows := map p | p in c.rows && !UnderAny(p, done) :: c.rows[p])
  }

  /** Of two prefixes of one path, one lies beneath the other. */
  lemma Nested(p: Path, a: Path, b: Path)
    requires Under(p, a) && Under(p, b)
    ensures Under(a, b) || Under(b, a)
    ensures Under(a, b) && Under(b, a) ==> a == b
  {
    assert p[..|a|] == a && p[..|b|] == b;
    assert |a| <= |b| ==> b[..|a|] == a;
    assert |b| <= |a| ==> a[..|b|] == b;
  }

  /** In sorted order the first match is the outermost: every other match lies beneath it. */
  lemma {:induction false} FirstMatchIsOutermost(p: Path, xs: seq<Path>, y: Path)
    requires OutermostFirst(xs) && y in xs && Under(p, y)
    ensures MatchingPrefix(p, xs).Some? && Under(y, MatchingPrefix(p, xs).value)
  {
    if Under(p, xs[0]) {
      var j :| 0 <= j < |xs| && xs[j] == y;
      Nested(p, xs[0], y);
    } else {
      assert OutermostFirst(xs[1..]);
      FirstMatchIsOutermost(p, xs[1..], y);
    }
  }

  /** Two first matches that share a path beneath them are the same prefix. */
  lemma OneMatch(xs: seq<Path>, p: Path, r: Path, q: Path)
    requires OutermostFirst(xs) && MatchingPrefix(p, xs).Some? && MatchingPrefix(r, xs).Some?
    requires Under(q, MatchingPrefix(p, xs).value) && Under(q, MatchingPrefix(r, xs).value)
    ensures MatchingPrefix(p, xs) == MatchingPrefix(r, xs)
  {
    var x, y := MatchingPrefix(p, xs).value, MatchingPrefix(r, xs).value;
    Nested(q, x, y);
    if Under(y, x) {
      FirstMatchIsOutermost(r, xs, x);
      Nested(r, x, y);
    } else {
      FirstMatchIsOutermost(p, xs, y);
      Nested(p, x, y);
    }
  }

  /** An edited tracked file shields everything beneath its outermost prefix. */
  lemma DirtyIsKept(c: Client, xs: seq<Path>, p: Path, q: Path)
    requires OutermostFirst(xs) && MatchingPrefix(p, xs).Some?
    requires p in c.rows && c.rows[p].kind == IsFile && Edited(c, p)
    requires Under(q, MatchingPrefix(p, xs).value)
    ensures !UnderAny(q, TrackedPrefixes(c, xs) - DirtyPrefixes(c, xs))
  {
    var x := MatchingPrefix(p, xs).value;
    assert x in DirtyPrefixes(c, xs);
    forall y | y in TrackedPrefixes(c, xs) && Under(q, y) ensures y == x {
      var r :| r in c.rows && MatchingPrefix(r, xs) == Some(y);
      OneMatch(xs, p, r, q);
    }
  }

  /** The edited tracked file `p` and the path `q` share an outermost excluded prefix. */
  predicate ShieldsPath(c: Client, xs: seq<Path>, p: Path, q: Path) {
    && p in c.rows && c.rows[p].kind == IsFile && Edited(c, p)
    && MatchingPrefix(p, xs).Some? && Under(q, MatchingPrefix(p, xs).value)
  }

  lemma OutsideIsUntouched(c: Client, xs: seq<Path>, q: Path)
    requires MatchingPrefix(q, xs).None?
    ensures !UnderAny(q, TrackedPrefixes(c, xs))
  {
    forall y | y in TrackedPrefixes(c, xs) ensures !Under(q, y) {
      var r :| r in c.rows && MatchingPrefix(r, xs) == Some(y);
    }
  }

  // ---- what a run of it does ------------------------------------------------------------

  /** A recorded file beneath an excluded prefix, and whether it was edited. */
  predicate FileBeneath(c: Client, xs: seq<Path>, p: Path, x: Path) {
    p in c.rows && c.rows[p].kind == IsFile && MatchingPrefix(p, xs) == Some(x)
  }

  /** The scan comes to the file before it has found an edit under its prefix, and cannot look at it. */
  ghost predicate StopsScan(c: Client, xs: seq<Path>, listed: seq<Path>, i: nat) {
    && i < |listed|
    && exists x :: FileBeneath(c, xs, listed[i], x) && Barred(c.disk, listed[i]) &&
                   forall j :: 0 <= j < i && FileBeneath(c, xs, listed[j], x) ==> !Edited(c, listed[j])
  }

  ghost predicate ScanStops(c: Client, xs: seq<Path>, listed: seq<Path>) {
    exists i :: StopsScan(c, xs, listed, i)
  }

  /** A prefix that is to be removed cannot be. */
  ghost predicate RemovalStops(c: Client, xs: seq<Path>, d: Disk) {
    exists x :: x in TrackedPrefixes(c, xs) - DirtyPrefixes(c, xs) && Barred(d, x)
  }

  /** The scan in the middle: what it has found among the first `k` entries. */
  ghost predicate Scanned(c: Client, xs: seq<Path>, listed: seq<Path>, k: nat, dirty: set<Path>)
    requires k <= |listed|
  {
    && (forall x :: x in dirty <==> exists j :: 0 <= j < k && FileBeneath(c, xs, listed[j], x) && Edited(c, listed[j]))
    && (forall j :: 0 <= j < k ==> !StopsScan(c, xs, listed, j))
  }

  lemma ScanStep(c: Client, xs: seq<Path>, listed: seq<Path>, k: nat, dirty: set<Path>)
    requires (forall p :: p in listed ==> p in c.rows) && k < |listed| && Scanned(c, xs, listed, k, dirty)
    ensures var p, m := listed[k], MatchingPrefix(listed[k], xs);
            if m.None? || c.rows[p].kind == IsFolder || m.value in dirty then Scanned(c, xs, listed, k + 1, dirty)
            else if Barred(c.disk, p) then StopsScan(c, xs, listed, k)
            else Scanned(c, xs, listed, k + 1, if Edited(c, p) then dirty + {m.value} else dirty)
  {
    var p, m := listed[k], MatchingPrefix(listed[k], xs);
    if m.Some? && c.rows[p].kind == IsFile {
      assert FileBeneath(c, xs, p, m.value);
    }
    assert StopsScan(c, xs, listed, k) ==> Barred(c.disk, p) && m.Some? && c.rows[p].kind == IsFile && m.value !in dirty;
  }

  lemma {:induction false} ScanRuns(c: Client, xs: seq<Path>, listed: seq<Path>, k: nat, dirty: set<Path>)
    requires (forall p :: p in listed ==> p in c.rows) && k <= |listed| && Scanned(c, xs, listed, k, dirty)
    ensures var r := ScanEntries(c, xs, listed[k..], dirty);
            if r.Some? then Scanned(c, xs, listed, |listed|, r.value) else ScanStops(c, xs, listed)
    decreases |listed| - k
  {
    if k < |listed| {
      ScanStep(c, xs, listed, k, dirty);
      assert listed[k..][0] == listed[k] && listed[k..][1..] == listed[k + 1..];
      var p, m := listed[k], MatchingPrefix(listed[k], xs);
      if m.None? || c.rows[p].kind == IsFolder || m.value in dirty {
        ScanRuns(c, xs, listed, k + 1, dirty);
      } else if !Barred(c.disk, p) {
        ScanRuns(c, xs, listed, k + 1, if Edited(c, p) then dirty + {m.value} else dirty);
      }
    }
  }

  /** The scan finds the prefixes that hold an edit, unless it stops. */
  lemma ScanFinds(c: Client, xs: seq<Path>, listed: seq<Path>)
    requires forall p :: p in listed <==> p in c.rows
    ensures var r := ScanEntries(c, xs, listed, {});
            && (r.None? <==> ScanStops(c, xs, listed))
            && (r.Some? ==> r.value == DirtyPrefixes(c, xs))
  {
    assert listed[0..] == listed;
    ScanRuns(c, xs, listed, 0, {});
    var r := ScanEntries(c, xs, listed, {});
    if r.Some? {
      forall x | x in DirtyPrefixes(c, xs) ensures x in r.value {
        var p :| p in c.rows && MatchingPrefix(p, xs).Some? && c.rows[p].kind == IsFile && Edited(c, p) &&
               MatchingPrefix(p, xs).value == x;
      assert FileBeneath(c, xs, p, x);
        var j :| 0 <= j < |listed| && listed[j] == p;
      }
    }
  }

  lemma {:induction false} PrefixesRun(c: Client, done: set<Path>, dirty: set<Path>, prefixes: seq<Path>)
    returns (now: set<Path>)
    ensures done <= now && forall x :: x in now ==> x in done || x in prefixes
    ensures var out := PrunePrefixes(PruneThese(c, done, dirty), dirty, prefixes);
            && out.c == PruneThese(c, now, dirty)
            && (if out.Done? then forall x :: x in prefixes ==> x in now
                else exists x :: x in prefixes && x !in dirty && Barred(out.c.disk, x))
    decreases |prefixes|
  {
    now := done;
    if prefixes != [] {
      var x, d := prefixes[0], PruneThese(c, done, dirty);
      PruneOneMore(c, done, dirty, x);
      if x in dirty || !Barred(d.disk, x) {
        now := PrefixesRun(c, done + {x}, dirty, prefixes[1..]);
      } else {
        assert PrunePrefixes(d, dirty, prefixes) == Failed(d);
      }
    }
  }

  lemma PruneOneMore(c: Client, done: set<Path>, dirty: set<Path>, x: Path)
    ensures var d := PruneThese(c, done, dirty);
            PruneThese(c, done + {x}, dirty) ==
            d.(disk := if x in dirty then d.disk else Without(d.disk, x), rows := ForgetSubtree(d.rows, x))
  {
  }

  lemma PruneNone(c: Client, dirty: set<Path>)
    ensures PruneThese(c, {}, dirty) == c
  {
    assert PruneThese(c, {}, dirty).disk == c.disk && PruneThese(c, {}, dirty).rows == c.rows;
  }

  /** What stands above a prefix is not removed with another one. */
  lemma BarredStays(c: Client, xs: seq<Path>, done: set<Path>, dirty: set<Path>, x: Path)
    requires OutermostFirst(xs) && done <= TrackedPrefixes(c, xs) && x in TrackedPrefixes(c, xs)
    ensures Barred(PruneThese(c, done, dirty).disk, x) <==> Barred(c.disk, x)
  {
    var p :| p in c.rows && MatchingPrefix(p, xs) == Some(x);
    forall r | r in Prefixes(Parent(x)) ensures !UnderAny(r, done) {
      var k :| 1 <= k <= |Parent(x)| && r == Parent(x)[..k];
      assert r == x[..k] && |r| < |x|;
      forall y | y in done ensures !Under(r, y) {
        var q :| q in c.rows && MatchingPrefix(q, xs) == Some(y);
        if Under(r, y) {
          assert Under(x, y);
          OneMatch(xs, p, q, x);
        }
      }
    }
  }

  /** Where pruning ends: some prefixes are done, all of them if it succeeds, and what holds an edit
      keeps its files. */
  lemma PruneEnds(c: Client, xs: seq<Path>, listed: seq<Path>, prefixes: seq<Path>, out: Outcome)
    returns (done: set<Path>)
    requires Prunes(c, xs, listed, prefixes, out)
    ensures done <= TrackedPrefixes(c, xs) && out.c == PruneThese(c, done, DirtyPrefixes(c, xs))
    ensures out.Done? ==> done == TrackedPrefixes(c, xs)
    ensures ScanStops(c, xs, listed) ==> out.Failed?
    ensures out.Failed? ==> ScanStops(c, xs, listed) || RemovalStops(c, xs, out.c.disk)
  {
    var dirty := DirtyPrefixes(c, xs);
    ScanFinds(c, xs, listed);
    PruneNone(c, dirty);
    done := {};
    if ScanEntries(c, xs, listed, {}).Some? {
      done := PrefixesRun(c, {}, dirty, prefixes);
    }
  }

  lemma RemovalStopsStays(c: Client, xs: seq<Path>, done: set<Path>)
    requires OutermostFirst(xs) && done <= TrackedPrefixes(c, xs)
    ensures RemovalStops(c, xs, PruneThese(c, done, DirtyPrefixes(c, xs)).disk) <==> RemovalStops(c, xs, c.disk)
  {
    var d := PruneThese(c, done, DirtyPrefixes(c, xs)).disk;
    forall x | x in TrackedPrefixes(c, xs) ensures Barred(d, x) <==> Barred(c.disk, x) {
      BarredStays(c, xs, done, DirtyPrefixes(c, xs), x);
    }
  }

  /** Pruning fails if and only if it comes to a recorded file beneath an excluded prefix that it
      cannot look at, before it has found an edit there, or cannot remove a prefix without edits. */
  lemma PruneFailsIff(env: Env, c: Client, listed: seq<Path>, prefixes: seq<Path>, out: Outcome)
    requires OutermostFirst(env.excludes) && Prunes(c, env.excludes, listed, prefixes, out)
    ensures out.Failed? <==> ScanStops(c, env.excludes, listed) || RemovalStops(c, env.excludes, c.disk)
  {
    var done := PruneEnds(c, env.excludes, listed, prefixes, out);
    RemovalStopsStays(c, env.excludes, done);
    if out.Done? && RemovalStops(c, env.excludes, c.disk) {
      CannotBeDone(env, c, listed, prefixes, out);
    }
  }

  lemma CannotBeDone(env: Env, c: Client, listed: seq<Path>, prefixes: seq<Path>, out: Outcome)
    requires OutermostFirst(env.excludes) && Prunes(c, env.excludes, listed, prefixes, out)
    requires RemovalStops(c, env.excludes, c.disk)
    ensures out.Failed?
  {
    var xs := env.excludes;
    var x :| x in TrackedPrefixes(c, xs) - DirtyPrefixes(c, xs) && Barred(c.disk, x);
    ScanFinds(c, xs, listed);
    PruneNone(c, DirtyPrefixes(c, xs));
    if x in prefixes {
      BarredFails(c, xs, {}, prefixes, x);
    }
  }

  /** A barred prefix without edits stops the removal when its turn comes, if nothing did before. */
  lemma {:induction false} BarredFails(c: Client, xs: seq<Path>, done: set<Path>, prefixes: seq<Path>, x: Path)
    requires OutermostFirst(xs) && done <= TrackedPrefixes(c, xs) && x in prefixes
    requires forall y :: y in prefixes ==> y in TrackedPrefixes(c, xs)
    requires x !in DirtyPrefixes(c, xs) && Barred(c.disk, x)
    ensures PrunePrefixes(PruneThese(c, done, DirtyPrefixes(c, xs)), DirtyPrefixes(c, xs), prefixes).Failed?
    decreases |prefixes|
  {
    var dirty := DirtyPrefixes(c, xs);
    var d, y := PruneThese(c, done, dirty), prefixes[0];
    BarredStays(c, xs, done, dirty, x);
    if y != x && (y in dirty || !Barred(d.disk, y)) {
      PruneOneMore(c, done, dirty, y);
      BarredFails(c, xs, done + {y}, prefixes[1..], x);
    }
  }

  /** However far pruning gets, it touches nothing outside the excluded subtrees and deletes nothing
      beneath an outermost prefix that holds an edited tracked file; if it succeeds, no excluded path
      is left tracked. */
  lemma PruneIsSafe(env: Env, c: Client, listed: seq<Path>, prefixes: seq<Path>, out: Outcome)
    requires OutermostFirst(env.excludes) && Prunes(c, env.excludes, listed, prefixes, out)
    ensures var e := out.c;
            && (forall p :: p in e.rows ==> p in c.rows && e.rows[p] == c.rows[p])
            && (forall p :: p in c.rows && !Excluded(env, p) ==> p in e.rows)
            && (forall q :: q in e.disk ==> q in c.disk && e.disk[q] == c.disk[q])
            && (forall q :: q in c.disk && !Excluded(env, q) ==> q in e.disk)
    ensures forall p, q :: ShieldsPath(c, env.excludes, p, q) && q in c.disk ==> q in out.c.disk
    ensures out.Done? ==> forall p :: p in out.c.rows ==> !Excluded(env, p)
  {
    var xs := env.excludes;
    var done := PruneEnds(c, xs, listed, prefixes, out);
    forall q | !Excluded(env, q) ensures !UnderAny(q, done) {
      OutsideIsUntouched(c, xs, q);
    }
    forall p, q | ShieldsPath(c, xs, p, q) ensures !UnderAny(q, done - DirtyPrefixes(c, xs)) {
      DirtyIsKept(c, xs, p, q);
    }
    forall p | p in c.rows && Excluded(env, p) ensures UnderAny(p, TrackedPrefixes(c, xs)) {
      assert MatchingPrefix(p, xs).value in TrackedPrefixes(c, xs);
    }
  }

  /** Disk space is reclaimed exactly where it is safe: if pruning succeeds, what stands beneath an excluded
      prefix is removed if and only if the outermost such prefix has recorded entries and none of them is an
      edited file. */
  lemma PruneReclaimsIff(env: Env, c: Client, listed: seq<Path>, prefixes: seq<Path>, out: Outcome, q: Path)
    requires OutermostFirst(env.excludes) && Prunes(c, env.excludes, listed, prefixes, out) && out.Done?
    requires q in c.disk && Excluded(env, q)
    ensures var xs := env.excludes;
            var x := MatchingPrefix(q, xs).value;
            q !in out.c.disk <==>
            && (exists p :: p in c.rows && MatchingPrefix(p, xs) == Some(x))
            && (forall p :: p in c.rows && MatchingPrefix(p, xs) == Some(x) && c.rows[p].kind == IsFile ==> !Edited(c, p))
  {
    var xs := env.excludes;
    var done := PruneEnds(c, xs, listed, prefixes, out);
    var x := MatchingPrefix(q, xs).value;
    assert UnderAny(q, done - DirtyPrefixes(c, xs)) <==> x in done - DirtyPrefixes(c, xs) by {
      forall y | y in done && Under(q, y) ensures y == x {
        var p :| p in c.rows && MatchingPrefix(p, xs) == Some(y);
        SamePrefix(xs, p, q, y);
      }
    }
    TrackedIff(c, xs, x);
  }

  lemma TrackedIff(c: Client, xs: seq<Path>, x: Path)
    ensures x in TrackedPrefixes(c, xs) <==> exists p :: p in c.rows && MatchingPrefix(p, xs) == Some(x)
    ensures x in DirtyPrefixes(c, xs) <==>
            exists p :: p in c.rows && MatchingPrefix(p, xs) == Some(x) && c.rows[p].kind == IsFile && Edited(c, p)
  {
  }

  /** A path beneath the outermost prefix of another path has the same outermost prefix. */
  lemma SamePrefix(xs: seq<Path>, p: Path, q: Path, y: Path)
    requires OutermostFirst(xs) && MatchingPrefix(p, xs) == Some(y) && Under(q, y)
    ensures MatchingPrefix(q, xs) == Some(y)
  {
    OneMatch(xs, p, q, y);
  }

  lemma PruneKeepsSound(env: Env, c: Client, listed: seq<Path>, prefixes: seq<Path>, out: Outcome)
    requires Sound(c) && Prunes(c, env.excludes, listed, prefixes, out)
    ensures Sound(out.c)
  {
    var done := PruneEnds(c, env.excludes, listed, prefixes, out);
    PruneTheseSound(c, done, DirtyPrefixes(c, env.excludes));
  }

  lemma PruneTheseSound(c: Client, done: set<Path>, dirty: set<Path>)
    requires Sound(c)
    ensures Sound(PruneThese(c, done, dirty))
  {
    var e, clean := PruneThese(c, done, dirty), done - dirty;
    forall q | q in e.disk ensures q != [] && IsDir(e.disk, Parent(q)) {
      assert IsDir(c.disk, Parent(q));
      assert UnderAny(Parent(q), clean) ==> UnderAny(q, clean) by {
        assert forall x :: x in clean && Under(Parent(q), x) ==> Under(q, x);
      }
    }
  }

  /** In unsorted order the same pruning destroys an edit: /a/b is listed before /a, the edit
      lies under /a/b, and a clean file makes /a the prefix to remove. */
  lemma UnsortedLosesAnEdit(listed: seq<Path>, prefixes: seq<Path>, out: Outcome)
    requires Prunes(Unsorted(), [["a", "b"], ["a"]], listed, prefixes, out)
    ensures var ab, a, f := ["a", "b"], ["a"], ["a", "b", "f"];
            && !OutermostFirst([ab, a]) && Edited(Unsorted(), f) && MatchingPrefix(f, [ab, a]) == Some(ab)
            && out.Done? && f !in out.c.disk
  {
    var a, ab := ["a"], ["a", "b"];
    var f, g := ["a", "b", "f"], ["a", "g"];
    var c, xs := Unsorted(), [ab, a];
    assert Under(xs[0], xs[1]);
    assert !Under(g, ab) by { assert g[1] != ab[1]; }
    assert MatchingPrefix(g, xs) == Some(a) by { assert xs[1..] == [a]; assert [a][0] == a && Under(g, a); }
    assert LocalStatus(c.disk, g, c.rows[g]) == (true, false);
    assert a in TrackedPrefixes(c, xs) && a !in DirtyPrefixes(c, xs);
    var done := PruneEnds(c, xs, listed, prefixes, out);
    UnsortedIsPruned(c, xs, listed, out.c.disk);
    assert Under(f, a);
  }

  function Unsorted(): Client {
    var row := Entry(1, IsFile, 1, 7, Blake3([1]), Blake3([1]));
    Client(map[["a"] := Dir, ["a", "b"] := Dir, ["a", "b", "f"] := File([2, 2], 8), ["a", "g"] := File([1], 7)],
           map[["a", "b", "f"] := row, ["a", "g"] := row.(id := 2)], 0)
  }

  lemma OneSegment(a: string)
    ensures Prefixes([a]) == {[a]}
  {
    assert [a][..1] == [a];
  }

  lemma TwoSegments(a: string, b: string)
    ensures Prefixes([a, b]) == {[a], [a, b]}
  {
    var p := [a, b];
    assert p[..1] == [a] && p[..2] == p;
    forall q | q in Prefixes(p) ensures q == [a] || q == p {
      var k :| 1 <= k <= |p| && q == p[..k];
      assert k == 1 || k == 2;
    }
  }

  /** Above the entries and the prefixes stand directories only. */
  lemma UnsortedIsPruned(c: Client, xs: seq<Path>, listed: seq<Path>, d: Disk)
    requires c == Unsorted() && xs == [["a", "b"], ["a"]] && forall p :: p in listed <==> p in c.rows
    requires forall q :: q in d ==> q in c.disk && d[q] == c.disk[q]
    ensures !ScanStops(c, xs, listed) && !RemovalStops(c, xs, d)
  {
    OneSegment("a");
    TwoSegments("a", "b");
    assert Parent(["a", "b", "f"]) == ["a", "b"] && Parent(["a", "g"]) == ["a"] == Parent(["a", "b"]) && Parent(["a"]) == [];
    assert Prefixes([]) == {};
    forall p | p in c.rows || p in xs ensures !Barred(c.disk, p) && !Barred(d, p) {
      assert Parent(p) == [] || Parent(p) == ["a"] || Parent(p) == ["a", "b"];
    }
    forall i | 0 <= i < |listed| ensures !StopsScan(c, xs, listed, i) {
      assert listed[i] in listed;
    }
  }

  lemma NothingToPrune(env: Env, c: Client, listed: seq<Path>, prefixes: seq<Path>, out: Outcome)
    requires env.excludes == [] && Prunes(c, env.excludes, listed, prefixes, out)
    ensures out == Done(c)
  {
    PruneFailsIff(env, c, listed, prefixes, out);
    var done := PruneEnds(c, env.excludes, listed, prefixes, out);
    assert TrackedPrefixes(c, []) == {} && done == {};
    PruneNone(c, DirtyPrefixes(c, []));
  }
}
