/**
  Interrupted pulls. The cursor is saved only after a whole page, so a pull that stopped
  between two entries replays some of them again, against what they already did.
 */
module Resume {
  import opened Base
  import opened LocalDisk
  import opened ConflictNames
  import opened Pull
  import opened Journal

  // ---- any history: the rerun still mirrors the server -----------------------------------

  lemma {:induction false} EntryComesFromCommit(b: Tree, hs: seq<Commit>, ch: Change) returns (i: nat)
    requires ValidHistory(b, hs) && ch in Entries(hs)
    ensures i < |hs| && ch in hs[i].changes && (ch.Upsert? <==> ch.id in hs[i].tree)
    decreases |hs|
  {
    if ch in hs[0].changes {
      i := 0;
    } else {
      var j := EntryComesFromCommit(hs[0].tree, hs[1..], ch);
      i := j + 1;
    }
  }

  lemma {:induction false} SteadyEverywhere(x: Id, b: Tree, hs: seq<Commit>, s: Tree, i: nat)
    requires Steady(x, b, hs, s) && i < |hs|
    ensures x in hs[i].tree
    decreases |hs|
  {
    if i > 0 {
      SteadyEverywhere(x, hs[0].tree, hs[1..], s, i - 1);
    }
  }

  /** A deleted node was not at rest. */
  lemma DeletedIsNotSteady(b: Tree, hs: seq<Commit>, s: Tree, f: Id)
    requires ValidHistory(b, hs) && Delete(f) in Entries(hs)
    ensures !Steady(f, b, hs, s)
  {
    var i := EntryComesFromCommit(b, hs, Delete(f));
    if Steady(f, b, hs, s) {
      SteadyEverywhere(f, b, hs, s, i);
    }
  }

  /** Between transactions the folder above a node at rest is tracked, and at rest. */
  lemma RestingOwnerAbove(c: Client, b: Tree, hs: seq<Commit>, s: Tree, x: Id, p: Path)
    requires ValidHistory(b, hs) && s == Latest(b, hs) && ValidTree(s)
    requires Between(c, b, hs, s) && Steady(x, b, hs, s) && p != [] && p < s[x].path
    ensures p in c.rows && Steady(c.rows[p].id, b, hs, s)
  {
    var g := FolderAbove(s, x, p);
    AncestorsAreSteady(g, x, b, hs, s);
    assert Tracked(c.rows, s, g);
  }

  lemma RestingSurvivesDelete(env: Env, c: Client, b: Tree, hs: seq<Commit>, s: Tree, f: Id, x: Id)
    requires ValidHistory(b, hs) && s == Latest(b, hs) && ValidTree(s)
    requires Between(c, b, hs, s) && Delete(f) in Entries(hs)
    requires ApplyChange(env, s, c, Delete(f)).Done?
    requires Steady(x, b, hs, s) && Tracked(c.rows, s, x)
    ensures Tracked(ApplyChange(env, s, c, Delete(f)).c.rows, s, x)
  {
    NotBeneathDeleted(c, b, hs, s, f, x);
    KeptUnlessBeneath(env, s, c, f, x);
  }

  lemma NotBeneathDeleted(c: Client, b: Tree, hs: seq<Commit>, s: Tree, f: Id, x: Id)
    requires ValidHistory(b, hs) && s == Latest(b, hs) && ValidTree(s)
    requires Between(c, b, hs, s) && Delete(f) in Entries(hs)
    requires Steady(x, b, hs, s) && Tracked(c.rows, s, x)
    ensures forall p :: p in c.rows && c.rows[p].id == f ==> !Under(s[x].path, p)
  {
    DeletedIsNotSteady(b, hs, s, f);
    assert x != f;
    forall p | p in c.rows && c.rows[p].id == f ensures !Under(s[x].path, p) {
      assert p != s[x].path;
      if p < s[x].path {
        RestingOwnerAbove(c, b, hs, s, x, p);
      }
    }
  }

  lemma KeptUnlessBeneath(env: Env, s: Tree, c: Client, f: Id, x: Id)
    requires UniqueIds(c.rows) && ApplyChange(env, s, c, Delete(f)).Done?
    requires x in s && Tracked(c.rows, s, x)
    requires forall p :: p in c.rows && c.rows[p].id == f ==> !Under(s[x].path, p)
    ensures Tracked(ApplyChange(env, s, c, Delete(f)).c.rows, s, x)
  {
    DeleteRows(env, s, c, f);
  }

  lemma UpsertKeepsBetween(env: Env, c: Client, b: Tree, hs: seq<Commit>, s: Tree, y: Id)
    requires env.excludes == [] && ValidTree(s) && y in s && y in Ids(Entries(hs))
    requires Between(c, b, hs, s) && ApplyChange(env, s, c, Upsert(y)).Done?
    ensures Between(ApplyChange(env, s, c, Upsert(y)).c, b, hs, s)
  {
    var e := ApplyChange(env, s, c, Upsert(y)).c;
    ApplyChangeSound(env, s, c, Upsert(y));
    UpsertRows(env, s, c, y);
    forall x | x in s && (x != y || s[y].kind == IsFolder) && Tracked(c.rows, s, x) ensures Tracked(e.rows, s, x) {
    }
  }

  lemma DeleteKeepsBetween(env: Env, c: Client, b: Tree, hs: seq<Commit>, s: Tree, f: Id)
    requires ValidHistory(b, hs) && s == Latest(b, hs) && ValidTree(s) && Delete(f) in Entries(hs)
    requires Between(c, b, hs, s) && ApplyChange(env, s, c, Delete(f)).Done?
    ensures Between(ApplyChange(env, s, c, Delete(f)).c, b, hs, s)
  {
    var e := ApplyChange(env, s, c, Delete(f)).c;
    ApplyChangeSound(env, s, c, Delete(f));
    DeleteRows(env, s, c, f);
    forall x | x in s && x !in Ids(Entries(hs)) ensures Steady(x, b, hs, s) {
      UnmentionedIsSteady(x, b, hs);
    }
    forall x | Steady(x, b, hs, s) && Tracked(c.rows, s, x) ensures Tracked(e.rows, s, x) {
      RestingSurvivesDelete(env, c, b, hs, s, f, x);
    }
  }

  /** Whatever entry of the history is replayed, in whatever order, the rows stay a valid
      starting point for replaying the history. */
  lemma BetweenIsStable(env: Env, c: Client, b: Tree, hs: seq<Commit>, s: Tree, ch: Change)
    requires env.excludes == [] && ValidHistory(b, hs) && s == Latest(b, hs) && ValidTree(s)
    requires Between(c, b, hs, s) && ch in Entries(hs)
    requires ApplyChange(env, s, c, ch).Done?
    ensures Between(ApplyChange(env, s, c, ch).c, b, hs, s)
  {
    match ch {
      case Upsert(y) => if y in s { UpsertKeepsBetween(env, c, b, hs, s, y); }
      case Delete(f) => DeleteKeepsBetween(env, c, b, hs, s, f);
    }
  }

  lemma {:induction false} ReplayKeepsBetween(env: Env, c: Client, b: Tree, hs: seq<Commit>, cs: seq<Change>)
    requires env.excludes == [] && ValidHistory(b, hs)
    requires Between(c, b, hs, Latest(b, hs)) && forall ch :: ch in cs ==> ch in Entries(hs)
    requires Replay(env, Latest(b, hs), c, cs).Done?
    ensures Between(Replay(env, Latest(b, hs), c, cs).c, b, hs, Latest(b, hs))
    decreases |cs|
  {
    if cs != [] {
      LatestIsValid(b, hs);
      BetweenIsStable(env, c, b, hs, Latest(b, hs), cs[0]);
      ReplayKeepsBetween(env, ApplyChange(env, Latest(b, hs), c, cs[0]).c, b, hs, cs[1..]);
    }
  }

  /** A pull interrupted after any k entries and rerun from the saved cursor, if the rerun
      returns without an error, mirrors the server exactly when a first run would: if and only
      if no last upsert of the rerun was shadowed. */
  lemma ResumeMirrors(env: Env, c: Client, b: Tree, hs: seq<Commit>, k: nat)
    requires env.excludes == [] && ValidHistory(b, hs) && k <= |Entries(hs)|
    requires Between(c, b, hs, Latest(b, hs))
    requires Replay(env, Latest(b, hs), c, Entries(hs)[..k]).Done?
    requires Replay(env, Latest(b, hs), Replay(env, Latest(b, hs), c, Entries(hs)[..k]).c, Entries(hs)).Done?
    ensures var stopped := Replay(env, Latest(b, hs), c, Entries(hs)[..k]).c;
            Mirrors(Replay(env, Latest(b, hs), stopped, Entries(hs)).c.rows, Latest(b, hs)) <==>
            Clean(env, Latest(b, hs), stopped, Entries(hs))
  {
    var s := Latest(b, hs);
    LatestIsValid(b, hs);
    ReplayKeepsBetween(env, c, b, hs, Entries(hs)[..k]);
    var stopped := Replay(env, s, c, Entries(hs)[..k]).c;
    if Clean(env, s, stopped, Entries(hs)) {
      ReplayHistory(env, stopped, b, hs);
      BetweenIsMirror(Replay(env, s, stopped, Entries(hs)).c, s);
    } else if Mirrors(Replay(env, s, stopped, Entries(hs)).c.rows, s) {
      MirrorImpliesClean(env, s, stopped, Entries(hs));
    }
  }

  // ---- entries whose effect is in place -----------------------------------------------------

  /** The entry has been applied and applying it again would change nothing. */
  ghost predicate Applied(env: Env, s: Tree, c: Client, ch: Change) {
    match ch
    case Delete(y) => Locate(c.rows, y).None?
    case Upsert(y) =>
      y in s && !Excluded(env, s[y].path) ==>
        && Tracked(c.rows, s, y)
        && s[y].path in c.disk
        && (s[y].kind == IsFolder ==> c.disk[s[y].path].Dir? && c.rows[s[y].path] == FolderEntry(y))
  }

  lemma AppliedIsNoOp(env: Env, s: Tree, c: Client, ch: Change)
    requires Sound(c) && ValidTree(s) && Applied(env, s, c, ch)
    ensures ApplyChange(env, s, c, ch) == Done(c)
  {
    if ch.Upsert? && ch.id in s && !Excluded(env, s[ch.id].path) {
      var n := s[ch.id];
      assert Locate(c.rows, ch.id) == Some(n.path);
      NotBarred(c.disk, n.path);
      if n.kind == IsFolder {
        MkdirExisting(c.disk, n.path);
        assert c.rows[n.path := FolderEntry(ch.id)] == c.rows;
      }
    }
  }

  lemma MkdirExisting(d: Disk, p: Path)
    requires IsTree(d) && IsDir(d, p)
    ensures MkdirAll(d, p) == Some(d)
  {
    forall q | q in Prefixes(p) ensures q in d && d[q].Dir? {
      var k :| 1 <= k <= |p| && q == p[..k];
      assert p[..|p|] == p && q != [];
      if k < |p| {
        AncestorsAreDirs(d, p, k);
      }
    }
    var m: Disk := map q | q in d.Keys + Prefixes(p) :: if q in d then d[q] else Dir;
    assert m.Keys == d.Keys && m == d;
  }

  lemma FileUpsertDisk(env: Env, c: Client, y: Id, n: Node)
    requires IsTree(c.disk) && n.path != [] && ApplyFileUpsert(env, c, y, n).Done?
    ensures var d := ApplyFileUpsert(env, c, y, n).c.disk;
            && n.path in d
            && forall q :: q in c.disk && q != n.path ==> q in d && d[q] == c.disk[q]
  {
    var out := ApplyFileUpsert(env, c, y, n);
    if out == PullDown(env, c, y, n) {
      PullDownDisk(env, c, y, n);
    } else if out != Done(c) {
      var aside := ConflictCopy(env, c, n.path);
      assert LocalStatus(c.disk, n.path, c.rows[n.path]) == (true, true);
      ConflictCopyDisk(env, c, n.path);
      ConflictCopyKeepsTree(env, c, n.path);
      PullDownDisk(env, aside.c, y, n);
    }
  }

  lemma PullDownDisk(env: Env, c: Client, y: Id, n: Node)
    requires IsTree(c.disk) && PullDown(env, c, y, n).Done?
    ensures var d := PullDown(env, c, y, n).c.disk;
            && n.path in d
            && forall q :: q in c.disk && q != n.path ==> q in d && d[q] == c.disk[q]
  {
    MkdirAllKeepsTree(c.disk, Parent(n.path));
  }

  /** What setting a file aside does to the disk. */
  lemma ConflictCopyMoves(env: Env, c: Client, p: Path)
    requires IsTree(c.disk) && p in c.disk && c.disk[p].File?
    ensures var dst := CopyPath(c.disk.Keys, p, env.tag);
            && ConflictCopy(env, c, p) == Done(c.(disk := (c.disk - {p})[dst := c.disk[p]], rows := c.rows - {p}))
            && dst !in c.disk && dst != [] && Parent(dst) == Parent(p)
  {
    var dst := CopyPath(c.disk.Keys, p, env.tag);
    CopyPathIsFree(c.disk.Keys, p, env.tag);
    assert IsDir(c.disk, Parent(p));
    MkdirExisting(c.disk, Parent(dst));
    NotBarred(c.disk, p);
    RenamesAside(c.disk, p, dst);
  }

  lemma RenamesAside(d: Disk, p: Path, q: Path)
    requires p in d && d[p].File? && !Barred(d, p) && q !in d && q != [] && IsDir(d, Parent(q))
    ensures Rename(d, p, q) == Moved((d - {p})[q := d[p]])
  {
  }

  /** Setting a file aside moves it to a free path and leaves the rest alone. */
  lemma ConflictCopyDisk(env: Env, c: Client, p: Path)
    requires IsTree(c.disk) && p in c.disk && c.disk[p].File?
    ensures ConflictCopy(env, c, p).Done?
    ensures var d, dst := ConflictCopy(env, c, p).c.disk, CopyPath(c.disk.Keys, p, env.tag);
            && dst !in c.disk && dst != p
            && dst in d && d[dst] == c.disk[p] && p !in d
            && forall q :: q in c.disk && q != p ==> q in d && d[q] == c.disk[q]
  {
    ConflictCopyMoves(env, c, p);
  }
}
