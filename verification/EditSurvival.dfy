/**
  No lost edits. A tracked file edited locally survives the replay of any journal stretch
  whose entries do not aim at the very file, byte for byte and with its modification time.
 */
module EditSurvival {
  import opened Base
  import opened LocalDisk
  import opened ConflictNames
  import opened Pull
  import opened Journal
  import opened Resume
  import opened Refusals

  /** localStatus would report this file changed against the baseline. */
  predicate Differs(f: Obj, e: Entry) {
    f.File? && !(|f.bytes| == e.size && f.mtime == e.mtime) && Blake3(f.bytes) != e.hash
  }

  ghost predicate IsCopyName(env: Env, l: Path) {
    exists p, n :: n >= 1 && l == Candidate(p, env.tag, n)
  }

  /** Where the moves replayed so far have taken a path, and whether a folder took it there. */
  datatype Place = Place(path: Path, carried: bool)

  /** The rename that an entry makes of what is at `p`, if it makes one. */
  ghost predicate Renames(s: Tree, c: Client, ch: Change, p: Path) {
    && ch.Upsert? && ch.id in s && Locate(c.rows, ch.id) == Some(p) && p != s[ch.id].path
    && p in c.disk
  }

  /** A path goes along with the rename of itself or of a directory above it. */
  ghost function Follow(s: Tree, c: Client, w: Place, ch: Change): Place {
    match Locate(c.rows, ch.id)
    case None => w
    case Some(p) =>
      if Renames(s, c, ch, p) && Under(w.path, p) && (w.path == p || c.disk[p].Dir?) then
        Place(Relocate(w.path, p, s[ch.id].path), w.carried || c.disk[p].Dir?)
      else w
  }

  ghost function FollowRun(env: Env, s: Tree, c: Client, w: Place, cs: seq<Change>): Place
    decreases |cs|
  {
    if cs == [] then w
    else
      var next := ApplyChange(env, s, c, cs[0]);
      if next.Failed? then if MovedBefore(s, c, cs[0]) then Follow(s, c, w, cs[0]) else w
      else FollowRun(env, s, next.c, Follow(s, c, w, cs[0]), cs[1..])
  }

  /** An entry that fails may have made its rename first. */
  ghost predicate MovedBefore(s: Tree, c: Client, ch: Change) {
    ch.Upsert? && ch.id in s && FollowMove(c, ch.id, s[ch.id].path).Done?
  }

  /** The edited file `f` of node `x` is at `l`: recorded as x's, at its own path as the moves have
      it, and recognisably edited; or untracked, under a conflict-copy name or where the rename of a
      folder took it. */
  ghost predicate Spot(env: Env, c: Client, x: Id, f: Obj, l: Path, w: Place) {
    && l in c.disk && c.disk[l] == f
    && (l in c.rows ==> c.rows[l].id == x && Differs(f, c.rows[l]) && l == w.path)
    && (l !in c.rows ==> IsCopyName(env, l) || (l == w.path && w.carried))
  }

  ghost predicate Safe(env: Env, c: Client, x: Id, f: Obj, w: Place) {
    exists l :: Spot(env, c, x, f, l, w)
  }

  /** The node's row still tells the file is edited, until it has moved to its final path. */
  ghost predicate Baseline(c: Client, s: Tree, x: Id, f: Obj) {
    forall p :: p in c.rows && c.rows[p].id == x && !(x in s && s[x].path == p) ==> Differs(f, c.rows[p])
  }

  /** The entry does not aim at the file: its target is not occupied by it (unless the node is
      its own, at home or carried there by its folder), no folder delete covers it, a name free
      on disk for a conflict copy is not still recorded, and a moved folder lands on no rows. */
  ghost predicate Clear(env: Env, s: Tree, c: Client, x: Id, f: Obj, ch: Change, w: Place) {
    match ch
    case Delete(y) =>
      forall p :: p in c.rows && c.rows[p].id == y ==>
        if c.rows[p].kind == IsFolder then forall l :: l in c.disk && Under(l, p) ==> c.disk[l] != f
        else ClearAside(env, c, p)
    case Upsert(y) =>
      y in s ==>
        && ClearTarget(c, x, f, y, s[y].path, w)
        && ClearMove(c, y, s[y].path)
        && ClearAside(env, FollowMove(c, y, s[y].path).c, s[y].path)
  }

  ghost predicate ClearAside(env: Env, c: Client, p: Path) {
    CopyPath(c.disk.Keys, p, env.tag) !in c.rows
  }

  ghost predicate ClearTarget(c: Client, x: Id, f: Obj, y: Id, q: Path, w: Place) {
    q in c.disk && c.disk[q] == f ==>
      y == x && (if q in c.rows then c.rows[q].id == x
                 else q == w.path && exists p :: p in c.rows && c.rows[p].id == x && p !in c.disk)
  }

  ghost predicate ClearMove(c: Client, y: Id, q: Path) {
    forall p :: p in c.rows && c.rows[p].id == y && p != q && p in c.disk && c.disk[p].Dir? ==>
      forall r :: r in c.rows ==> !Under(r, q)
  }

  ghost predicate ClearRun(env: Env, s: Tree, c: Client, x: Id, f: Obj, cs: seq<Change>, w: Place)
    decreases |cs|
  {
    cs != [] ==>
      && Clear(env, s, c, x, f, cs[0], w)
      && var next := ApplyChange(env, s, c, cs[0]);
         (next.Done? ==> ClearRun(env, s, next.c, x, f, cs[1..], Follow(s, c, w, cs[0])))
  }

  // ---- the pieces of a step ------------------------------------------------------------

  lemma CandidateRelocates(a: Path, tag: string, n: nat, p: Path, q: Path) returns (b: Path)
    requires p < Candidate(a, tag, n)
    ensures Relocate(Candidate(a, tag, n), p, q) == Candidate(b, tag, n)
  {
    var up, name := q + Parent(a)[|p|..], CopyName(BaseName(a), tag, n);
    b := up + [BaseName(a)];
    assert Parent(b) == up && BaseName(b) == BaseName(a);
    assert (Parent(a) + [name])[|p|..] == Parent(a)[|p|..] + [name];
    assert q + (Parent(a)[|p|..] + [name]) == up + [name];
  }

  /** A conflict copy keeps its name when a folder takes it along. */
  lemma CopyNameRelocates(env: Env, l: Path, p: Path, q: Path)
    requires IsCopyName(env, l) && p < l
    ensures IsCopyName(env, Relocate(l, p, q))
  {
    var a, n :| n >= 1 && l == Candidate(a, env.tag, n);
    var b := CandidateRelocates(a, env.tag, n, p, q);
  }

  /** Following a move keeps track of the file. */
  lemma MoveKeepsSpot(env: Env, s: Tree, c: Client, x: Id, f: Obj, l: Path, w: Place, y: Id) returns (m: Path)
    requires Sound(c) && Spot(env, c, x, f, l, w) && f.File?
    requires y in s && s[y].path != [] && FollowMove(c, y, s[y].path).Done?
    requires ClearTarget(c, x, f, y, s[y].path, w) && ClearMove(c, y, s[y].path)
    requires y == x ==> forall p :: p in c.rows && c.rows[p].id == x && p != s[y].path ==> Differs(f, c.rows[p])
    ensures var e := FollowMove(c, y, s[y].path).c;
            Spot(env, e, x, f, m, Follow(s, c, w, Upsert(y))) && (m == s[y].path ==> s[y].path in e.rows)
  {
    m := l;
    var q := s[y].path;
    if Locate(c.rows, y).Some? && Locate(c.rows, y).value != q {
      var p := Locate(c.rows, y).value;
      var v := Follow(s, c, w, Upsert(y));
      if p !in c.disk {
        StayPut(env, c, x, f, l, w, p, q);
      } else if c.disk[p].File? {
        m := FileMoves(env, c, x, f, l, w, p, q, v);
      } else {
        m := FolderMoves(env, c, x, f, l, w, p, q, v);
      }
    }
  }

  lemma StayPut(env: Env, c: Client, x: Id, f: Obj, l: Path, w: Place, p: Path, q: Path)
    requires Sound(c) && Spot(env, c, x, f, l, w) && q != []
    requires p in c.rows && p != q && p !in c.disk && MoveLocal(c, p, q).Done?
    requires ClearTarget(c, x, f, c.rows[p].id, q, w)
    requires c.rows[p].id == x ==> Differs(f, c.rows[p])
    ensures var e := MoveLocal(c, p, q).c;
            Spot(env, e, x, f, l, w) && q in e.rows
  {
    MkdirAllKeepsTree(c.disk, Parent(q));
  }

  lemma FileMoves(env: Env, c: Client, x: Id, f: Obj, l: Path, w: Place, p: Path, q: Path, v: Place) returns (m: Path)
    requires Sound(c) && Spot(env, c, x, f, l, w) && q != []
    requires p in c.rows && p != q && p in c.disk && c.disk[p].File? && MoveLocal(c, p, q).Done?
    requires ClearTarget(c, x, f, c.rows[p].id, q, w)
    requires v == if w.path == p then Place(Relocate(p, p, q), w.carried) else w
    ensures var e := MoveLocal(c, p, q).c;
            Spot(env, e, x, f, m, v) && q in e.rows
  {
    MkdirAllKeepsTree(c.disk, Parent(q));
    assert Relocate(p, p, q) == q;
    m := if l == p then q else l;
  }

  lemma FolderMoves(env: Env, c: Client, x: Id, f: Obj, l: Path, w: Place, p: Path, q: Path, v: Place) returns (m: Path)
    requires Sound(c) && Spot(env, c, x, f, l, w) && f.File? && q != []
    requires p in c.rows && p != q && p in c.disk && c.disk[p].Dir? && MoveLocal(c, p, q).Done?
    requires forall r :: r in c.rows ==> !Under(r, q)
    requires v == if Under(w.path, p) then Place(Relocate(w.path, p, q), true) else w
    ensures var e := MoveLocal(c, p, q).c;
            Spot(env, e, x, f, m, v) && q in e.rows
  {
    FolderMovesFile(c, p, q, l);
    if Under(l, p) {
      m := Relocate(l, p, q);
      if IsCopyName(env, l) {
        CopyNameRelocates(env, l, p, q);
      }
    } else {
      m := l;
    }
  }

  /** Where a file is after a folder has moved. */
  lemma FolderMovesFile(c: Client, p: Path, q: Path, l: Path)
    requires IsTree(c.disk) && q != [] && l in c.disk && c.disk[l].File?
    requires p in c.rows && p != q && p in c.disk && c.disk[p].Dir? && MoveLocal(c, p, q).Done?
    ensures var d := MoveLocal(c, p, q).c.disk;
            if Under(l, p) then p < l && Relocate(l, p, q) in d && d[Relocate(l, p, q)] == c.disk[l]
                                && Under(Relocate(l, p, q), q) && Relocate(l, p, q) != q
            else l in d && d[l] == c.disk[l] && l != q
  {
    MkdirAllKeepsTree(c.disk, Parent(q));
    var d := MkdirAll(c.disk, Parent(q)).value;
    if Under(l, p) {
      Carried(d, p, q, l);
    } else {
      NotCarried(d, p, q, l);
    }
  }

  /** A file inside a moved folder arrives strictly beneath the target. */
  lemma Carried(d: Disk, p: Path, q: Path, l: Path)
    requires IsTree(d) && p in d && d[p].Dir? && q != [] && q !in d && !Under(q, p)
    requires l in d && d[l].File? && Under(l, p)
    ensures var e, m := MoveTree(d, p, q), Relocate(l, p, q);
            m in e && e[m] == d[l] && Under(m, q) && m != q
  {
    RelocateInverse(l, p, q);
    MoveTreeAt(d, p, q, Relocate(l, p, q));
    assert l[..|p|] == p && l == l[..|l|];
    assert |l| > |p|;
  }

  lemma NotCarried(d: Disk, p: Path, q: Path, l: Path)
    requires IsTree(d) && p in d && d[p].Dir? && q != [] && q !in d && !Under(q, p)
    requires l in d && !Under(l, p)
    ensures var e := MoveTree(d, p, q); l in e && e[l] == d[l] && l != q
  {
    NothingBeneathDir(d, q, l);
    MoveTreeAt(d, p, q, l);
  }

  lemma NothingBeneathDir(d: Disk, q: Path, l: Path)
    requires IsTree(d) && q != [] && q !in d && l in d
    ensures !Under(l, q)
  {
    if Under(l, q) {
      NothingBeneath(d, q, l);
    }
  }

  lemma PullDownKeepsSpot(env: Env, c: Client, x: Id, f: Obj, l: Path, w: Place, y: Id, n: Node)
    requires IsTree(c.disk) && Spot(env, c, x, f, l, w) && l != n.path && PullDown(env, c, y, n).Done?
    ensures Spot(env, PullDown(env, c, y, n).c, x, f, l, w)
  {
    MkdirAllKeepsTree(c.disk, Parent(n.path));
  }

  /** Setting aside: another file's rename spares `f`, its own takes it to a conflict name. */
  lemma AsideKeepsSpot(env: Env, c: Client, x: Id, f: Obj, l: Path, w: Place, p: Path) returns (m: Path)
    requires IsTree(c.disk) && Spot(env, c, x, f, l, w)
    requires p in c.disk && c.disk[p].File? && p in c.rows && ClearAside(env, c, p)
    requires ConflictCopy(env, c, p).Done?
    ensures m != p && Spot(env, ConflictCopy(env, c, p).c, x, f, m, w)
  {
    ConflictCopyDisk(env, c, p);
    ConflictCopyRows(env, c, p);
    CopyPathHasCopyName(env, c.disk.Keys, p);
    m := if l == p then CopyPath(c.disk.Keys, p, env.tag) else l;
    SpotFrom(env, c, ConflictCopy(env, c, p).c, x, f, l, m, w, p);
  }

  lemma SpotFrom(env: Env, c: Client, e: Client, x: Id, f: Obj, l: Path, m: Path, w: Place, p: Path)
    requires Spot(env, c, x, f, l, w) && e.rows == c.rows - {p}
    requires m in e.disk && e.disk[m] == f
    requires if l == p then m !in c.rows && IsCopyName(env, m) else m == l
    ensures Spot(env, e, x, f, m, w)
  {
  }

  lemma CopyPathHasCopyName(env: Env, taken: set<Path>, p: Path)
    ensures IsCopyName(env, CopyPath(taken, p, env.tag))
  {
    CopyPathIsFree(taken, p, env.tag);
  }

  lemma FileUpsertKeepsSpot(env: Env, c: Client, x: Id, f: Obj, l: Path, w: Place, y: Id, n: Node) returns (m: Path)
    requires IsTree(c.disk) && Spot(env, c, x, f, l, w) && ApplyFileUpsert(env, c, y, n).Done?
    requires l == n.path ==> l in c.rows
    requires ClearAside(env, c, n.path)
    ensures Spot(env, ApplyFileUpsert(env, c, y, n).c, x, f, m, w)
  {
    m := l;
    var out := ApplyFileUpsert(env, c, y, n);
    if out == Done(c) {
    } else if n.path in c.rows && LocalStatus(c.disk, n.path, c.rows[n.path]) == (true, true) {
      m := AsideKeepsSpot(env, c, x, f, l, w, n.path);
      ConflictCopyKeepsTree(env, c, n.path);
      PullDownKeepsSpot(env, ConflictCopy(env, c, n.path).c, x, f, m, w, y, n);
    } else {
      PullDownKeepsSpot(env, c, x, f, l, w, y, n);
    }
  }

  // ---- whole steps -----------------------------------------------------------------------

  lemma UpsertKeepsSafe(env: Env, s: Tree, c: Client, x: Id, f: Obj, w: Place, y: Id)
    requires env.excludes == [] && Sound(c) && ValidTree(s) && f.File? && y in s
    requires Safe(env, c, x, f, w) && Baseline(c, s, x, f)
    requires Clear(env, s, c, x, f, Upsert(y), w) && ApplyChange(env, s, c, Upsert(y)).Done?
    ensures Safe(env, ApplyChange(env, s, c, Upsert(y)).c, x, f, Follow(s, c, w, Upsert(y)))
  {
    var n, v := s[y], Follow(s, c, w, Upsert(y));
    var l :| Spot(env, c, x, f, l, w);
    var m := MoveKeepsSpot(env, s, c, x, f, l, w, y);
    FollowMoveSound(c, y, n.path);
    var moved := FollowMove(c, y, n.path).c;
    if n.kind == IsFolder {
      MaterializeKeepsSpot(env, moved, x, f, m, v, y, n);
    } else {
      var r := FileUpsertKeepsSpot(env, moved, x, f, m, v, y, n);
      assert Spot(env, ApplyChange(env, s, c, Upsert(y)).c, x, f, r, v);
    }
  }

  lemma MaterializeKeepsSpot(env: Env, c: Client, x: Id, f: Obj, l: Path, w: Place, y: Id, n: Node)
    requires IsTree(c.disk) && Spot(env, c, x, f, l, w) && f.File? && MaterializeFolder(c, y, n).Done?
    ensures Spot(env, MaterializeFolder(c, y, n).c, x, f, l, w)
  {
    MkdirAllKeepsTree(c.disk, n.path);
  }

  lemma DeleteKeepsSafe(env: Env, s: Tree, c: Client, x: Id, f: Obj, w: Place, y: Id)
    requires Sound(c) && f.File?
    requires Safe(env, c, x, f, w)
    requires Clear(env, s, c, x, f, Delete(y), w) && ApplyChange(env, s, c, Delete(y)).Done?
    ensures Safe(env, ApplyChange(env, s, c, Delete(y)).c, x, f, w)
  {
    var l :| Spot(env, c, x, f, l, w);
    if Locate(c.rows, y).Some? {
      var p := Locate(c.rows, y).value;
      var e := ApplyChange(env, s, c, Delete(y)).c;
      if c.rows[p].kind == IsFolder {
        assert Spot(env, e, x, f, l, w);
      } else if LocalStatus(c.disk, p, c.rows[p]) == (true, true) {
        var m := AsideKeepsSpot(env, c, x, f, l, w, p);
        assert e == ConflictCopy(env, c, p).c;
      } else {
        assert e.rows == c.rows - {p};
        assert Spot(env, e, x, f, l, w);
      }
    }
  }

  lemma BaselineStep(env: Env, s: Tree, c: Client, x: Id, f: Obj, ch: Change)
    requires env.excludes == [] && Sound(c) && ValidTree(s) && Baseline(c, s, x, f)
    requires ApplyChange(env, s, c, ch).Done?
    ensures Baseline(ApplyChange(env, s, c, ch).c, s, x, f)
  {
    match ch
    case Upsert(y) => if y in s { UpsertRows(env, s, c, y); }
    case Delete(y) => DeleteRows(env, s, c, y);
  }

  /** Neither a delete nor the upsert of a node that is gone moves anything. */
  lemma FollowStays(s: Tree, c: Client, w: Place, ch: Change)
    requires ch.Delete? || ch.id !in s
    ensures Follow(s, c, w, ch) == w
  {
  }

  /** An entry that fails has set nothing aside; at most it has moved its node and made directories. */
  lemma RefusalKeepsSafe(env: Env, s: Tree, c: Client, x: Id, f: Obj, w: Place, ch: Change)
    requires env.excludes == [] && Sound(c) && ValidTree(s) && f.File?
    requires Safe(env, c, x, f, w) && Baseline(c, s, x, f)
    requires Clear(env, s, c, x, f, ch, w) && ApplyChange(env, s, c, ch).Failed?
    ensures Safe(env, ApplyChange(env, s, c, ch).c, x, f, if MovedBefore(s, c, ch) then Follow(s, c, w, ch) else w)
  {
    match ch
    case Delete(y) => DeleteRefusedLeaves(env, c, Locate(c.rows, y).value);
    case Upsert(y) =>
      var e, v := ApplyChange(env, s, c, ch).c, FollowMove(c, y, s[y].path);
      var l :| Spot(env, c, x, f, l, w);
      RefusalGrows(env, s, c, y);
      if v.Done? {
        var m := MoveKeepsSpot(env, s, c, x, f, l, w, y);
        SpotGrows(env, v.c, e, x, f, m, Follow(s, c, w, ch));
      } else {
        SpotGrows(env, c, e, x, f, l, w);
      }
  }

  lemma SpotGrows(env: Env, c: Client, e: Client, x: Id, f: Obj, l: Path, w: Place)
    requires Spot(env, c, x, f, l, w) && e.rows == c.rows && c.disk.Items <= e.disk.Items
    ensures Spot(env, e, x, f, l, w)
  {
    assert (l, c.disk[l]) in c.disk.Items;
  }

  lemma {:induction false} ReplayKeepsSafe(env: Env, s: Tree, c: Client, x: Id, f: Obj, cs: seq<Change>, w: Place)
    requires env.excludes == [] && Sound(c) && ValidTree(s) && f.File?
    requires Safe(env, c, x, f, w) && Baseline(c, s, x, f)
    requires ClearRun(env, s, c, x, f, cs, w)
    ensures Safe(env, Replay(env, s, c, cs).c, x, f, FollowRun(env, s, c, w, cs))
    decreases |cs|
  {
    if cs != [] {
      if ApplyChange(env, s, c, cs[0]).Failed? {
        RefusalKeepsSafe(env, s, c, x, f, w, cs[0]);
      } else {
        StepKeepsSafe(env, s, c, x, f, w, cs[0]);
        BaselineStep(env, s, c, x, f, cs[0]);
        ApplyChangeSound(env, s, c, cs[0]);
        ReplayKeepsSafe(env, s, ApplyChange(env, s, c, cs[0]).c, x, f, cs[1..], Follow(s, c, w, cs[0]));
      }
    }
  }

  lemma StepKeepsSafe(env: Env, s: Tree, c: Client, x: Id, f: Obj, w: Place, ch: Change)
    requires env.excludes == [] && Sound(c) && ValidTree(s) && f.File?
    requires Safe(env, c, x, f, w) && Baseline(c, s, x, f)
    requires Clear(env, s, c, x, f, ch, w) && ApplyChange(env, s, c, ch).Done?
    ensures Safe(env, ApplyChange(env, s, c, ch).c, x, f, Follow(s, c, w, ch))
  {
    if ch.Upsert? && ch.id in s {
      UpsertKeepsSafe(env, s, c, x, f, w, ch.id);
    } else {
      FollowStays(s, c, w, ch);
      if ch.Delete? {
        DeleteKeepsSafe(env, s, c, x, f, w, ch.id);
      }
    }
  }

  /** The file `f` of node `x` is at `l`, where the push will see it: tracked at the place the moves
      have taken its path to, and recognisably edited; or untracked, there if a folder carried it, or
      under a conflict-copy name. */
  ghost predicate HeldAt(env: Env, c: Client, x: Id, f: Obj, w: Place, l: Path) {
    && l in c.disk && c.disk[l] == f
    && (l in c.rows ==> l == w.path && c.rows[l].id == x && Edited(c, l))
    && (l !in c.rows ==> (l == w.path && w.carried) || IsCopyName(env, l))
  }

  ghost predicate Held(env: Env, c: Client, x: Id, f: Obj, w: Place) {
    exists l :: HeldAt(env, c, x, f, w, l)
  }

  lemma SafeIsHeld(env: Env, c: Client, x: Id, f: Obj, w: Place)
    requires Safe(env, c, x, f, w)
    ensures Held(env, c, x, f, w)
  {
    var l :| Spot(env, c, x, f, l, w);
    assert HeldAt(env, c, x, f, w, l);
  }

  /** Every local edit survives the replay of a stretch that does not aim at it, byte for byte, whether
      the replay goes through or stops with an error, and one of three paths holds it: the node's own
      path as recorded then, the path to which the folder moves of the stretch carried it, or a
      conflict-copy name. */
  lemma EditsSurvive(env: Env, s: Tree, c: Client, p: Path, cs: seq<Change>)
    requires env.excludes == [] && Sound(c) && ValidTree(s)
    requires Edited(c, p) && ClearRun(env, s, c, c.rows[p].id, c.disk[p], cs, Place(p, false))
    ensures Held(env, Replay(env, s, c, cs).c, c.rows[p].id, c.disk[p], FollowRun(env, s, c, Place(p, false), cs))
  {
    var x, f, w := c.rows[p].id, c.disk[p], Place(p, false);
    assert Spot(env, c, x, f, p, w);
    ReplayKeepsSafe(env, s, c, x, f, cs, w);
    SafeIsHeld(env, Replay(env, s, c, cs).c, x, f, FollowRun(env, s, c, w, cs));
  }
}
