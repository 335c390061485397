/**
  Exactly when a journal entry is refused, read off the client before it is applied, and with it
  exactly when a replay, first or repeated, stops with an error.
 */
module Refusals {
  import opened Base
  import opened LocalDisk
  import opened ConflictNames
  import opened Pull
  import opened Journal
  import opened Resume
  import opened Rerun

  /** The node recorded at `p` cannot move to `q`: a file is above `q`, or bars the way to `p`, or `q`
      lies beneath `p`, or something that is not a file would replace something or be replaced. */
  predicate MoveBlocked(d: Disk, p: Path, q: Path) {
    || FileOnTheWay(d, Parent(q))
    || Barred(d, p)
    || p < q
    || (p in d && q in d && (d[p].Dir? || d[q].Dir?))
  }

  /** What stands at `q` after the move. */
  function Arrived(d: Disk, p: Path, q: Path): Option<Obj> {
    if p in d then Some(d[p]) else if q in d then Some(d[q]) else None
  }

  /** A folder finds a file where it belongs, or a new version finds a directory. */
  predicate ArrivalBlocked(o: Option<Obj>, remote: Digest, n: Node) {
    && o.Some?
    && (n.kind == IsFolder ==> o.value.File?)
    && (n.kind == IsFile ==> o.value.Dir? && remote != n.hash)
  }

  predicate NeedsDownload(c: Client, n: Node) {
    n.path !in c.rows || c.rows[n.path].remote != n.hash || n.path !in c.disk
  }

  /** The guard of a refusal. */
  ghost predicate Blocked(s: Tree, c: Client, ch: Change) {
    var at := Locate(c.rows, ch.id);
    match ch
    case Delete(_) =>
      && at.Some?
      && (Barred(c.disk, at.value) ||
          (c.rows[at.value].kind == IsFile && at.value in c.disk && c.disk[at.value].Dir? &&
           exists q | q in c.disk :: at.value < q))
    case Upsert(y) =>
      && y in s
      && var n := s[y];
         if at.Some? && at.value != n.path then
           || MoveBlocked(c.disk, at.value, n.path)
           || ArrivalBlocked(Arrived(c.disk, at.value, n.path), c.rows[at.value].remote, n)
         else if n.kind == IsFolder then FileOnTheWay(c.disk, n.path)
         else NeedsDownload(c, n) && (FileOnTheWay(c.disk, Parent(n.path)) || IsDir(c.disk, n.path))
  }

  // ---- moving ------------------------------------------------------------------------------

  lemma PrefixOfParent(p: Path, q: Path)
    requires p != [] && p < q
    ensures p in Prefixes(Parent(q))
  {
    assert Parent(q)[..|p|] == p;
  }

  /** Beneath itself nothing can move, whether or not it is there. */
  lemma CannotMoveBeneath(c: Client, p: Path, q: Path)
    requires IsTree(c.disk) && p in c.rows && p != [] && p < q
    ensures MoveLocal(c, p, q).Failed?
  {
    PrefixOfParent(p, q);
    if MkdirAll(c.disk, Parent(q)).Some? {
      MkdirAllKeepsTree(c.disk, Parent(q));
      var d := MkdirAll(c.disk, Parent(q)).value;
      assert p in d && d[p].Dir?;
    }
  }

  lemma MoveBlockedIff(c: Client, p: Path, q: Path)
    requires IsTree(c.disk) && p in c.rows && p != [] && q != [] && p != q
    ensures MoveLocal(c, p, q).Failed? <==> MoveBlocked(c.disk, p, q)
  {
    if p < q {
      CannotMoveBeneath(c, p, q);
    } else if !FileOnTheWay(c.disk, Parent(q)) {
      MkdirAllKeepsTree(c.disk, Parent(q));
      var d := MkdirAll(c.disk, Parent(q)).value;
      assert p in d ==> p in c.disk;
      assert q in d ==> q in c.disk;
    }
  }

  lemma MoveArrives(c: Client, p: Path, q: Path)
    requires IsTree(c.disk) && p in c.rows && p != [] && q != [] && p != q && MoveLocal(c, p, q).Done?
    ensures var e := MoveLocal(c, p, q).c;
            && q in e.rows && e.rows[q] == c.rows[p] && IsDir(e.disk, Parent(q))
            && Arrived(c.disk, p, q) == if q in e.disk then Some(e.disk[q]) else None
  {
    MoveBlockedIff(c, p, q);
    MkdirAllKeepsTree(c.disk, Parent(q));
    MoveLocalKeepsTree(c, p, q);
    var d, e := MkdirAll(c.disk, Parent(q)).value, MoveLocal(c, p, q).c.disk;
    assert p in d ==> p in c.disk;
    assert q in d ==> q in c.disk;
    if p in d && d[p].Dir? {
      MoveTreeAt(d, p, q, q);
      assert Relocate(q, q, p) == p;
    }
    if q in e {
      assert IsDir(e, Parent(q));
    }
  }

  // ---- arriving ----------------------------------------------------------------------------

  lemma PullDownFailsIff(env: Env, c: Client, id: Id, n: Node)
    requires IsTree(c.disk) && n.path != []
    ensures PullDown(env, c, id, n).Failed? <==> FileOnTheWay(c.disk, Parent(n.path)) || IsDir(c.disk, n.path)
  {
    if !FileOnTheWay(c.disk, Parent(n.path)) {
      MkdirAllKeepsTree(c.disk, Parent(n.path));
    }
  }

  /** Setting an edited file aside never fails. */
  lemma ConflictCopySucceeds(env: Env, c: Client, p: Path)
    requires IsTree(c.disk) && p in c.disk && c.disk[p].File?
    ensures ConflictCopy(env, c, p).Done?
  {
    ConflictCopyMoves(env, c, p);
  }

  lemma EditedFileIsReplaced(env: Env, c: Client, id: Id, n: Node)
    requires IsTree(c.disk) && n.path in c.disk && c.disk[n.path].File?
    ensures ConflictCopy(env, c, n.path).Done? && PullDown(env, ConflictCopy(env, c, n.path).c, id, n).Done?
  {
    ConflictCopySucceeds(env, c, n.path);
    ConflictCopyDisk(env, c, n.path);
    ConflictCopyKeepsTree(env, c, n.path);
    var aside := ConflictCopy(env, c, n.path).c;
    assert IsDir(c.disk, Parent(n.path)) && Parent(n.path) != n.path;
    MkdirExisting(aside.disk, Parent(n.path));
    PullDownFailsIff(env, aside, id, n);
  }

  lemma FileUpsertFailsIff(env: Env, c: Client, id: Id, n: Node)
    requires IsTree(c.disk) && n.path != []
    ensures ApplyFileUpsert(env, c, id, n).Failed? <==>
            NeedsDownload(c, n) && (FileOnTheWay(c.disk, Parent(n.path)) || IsDir(c.disk, n.path))
  {
    PullDownFailsIff(env, c, id, n);
    if n.path in c.disk {
      NotBarred(c.disk, n.path);
    }
    if n.path in c.rows && c.rows[n.path].remote != n.hash && LocalStatus(c.disk, n.path, c.rows[n.path]) == (true, true) {
      EditedFileIsReplaced(env, c, id, n);
    }
  }

  lemma FolderOnTheWayIff(d: Disk, q: Path)
    requires q != [] && !FileOnTheWay(d, Parent(q))
    ensures FileOnTheWay(d, q) <==> q in d && d[q].File?
  {
    assert q[..|q|] == q && q in Prefixes(q);
    forall r | r in Prefixes(q) && r != q ensures r in Prefixes(Parent(q)) {
      var k :| 1 <= k <= |q| && r == q[..k];
      assert k < |q| && Parent(q)[..k] == r;
    }
  }

  lemma ArrivalBlockedIff(env: Env, c: Client, p: Path, id: Id, n: Node)
    requires Fit(c) && p in c.rows && n.path != [] && p != n.path && MoveLocal(c, p, n.path).Done?
    ensures var e := MoveLocal(c, p, n.path).c;
            (if n.kind == IsFolder then MaterializeFolder(e, id, n) else ApplyFileUpsert(env, e, id, n)).Failed? <==>
            ArrivalBlocked(Arrived(c.disk, p, n.path), c.rows[p].remote, n)
  {
    MoveArrives(c, p, n.path);
    MoveLocalKeepsTree(c, p, n.path);
    var e := MoveLocal(c, p, n.path).c;
    MkdirExisting(e.disk, Parent(n.path));
    if n.kind == IsFolder {
      FolderOnTheWayIff(e.disk, n.path);
    } else {
      FileUpsertFailsIff(env, e, id, n);
    }
  }

  /** A journal entry is refused if and only if its guard says so. */
  lemma FailsIffBlocked(env: Env, s: Tree, c: Client, ch: Change)
    requires env.excludes == [] && Fit(c) && ValidTree(s)
    ensures ApplyChange(env, s, c, ch).Failed? <==> Blocked(s, c, ch)
  {
    match ch
    case Delete(y) =>
      if Locate(c.rows, y).Some? {
        DeleteFailsIff(env, c, Locate(c.rows, y).value);
      }
    case Upsert(y) =>
      if y in s {
        UpsertFailsIff(env, s, c, y);
      }
  }

  lemma DeleteFailsIff(env: Env, c: Client, p: Path)
    requires Fit(c) && p in c.rows
    ensures DropLocal(env, c, p, c.rows[p]).Failed? <==>
            Barred(c.disk, p) ||
            (c.rows[p].kind == IsFile && p in c.disk && c.disk[p].Dir? && exists q | q in c.disk :: p < q)
  {
    if c.rows[p].kind == IsFile && LocalStatus(c.disk, p, c.rows[p]) == (true, true) {
      ConflictCopySucceeds(env, c, p);
    }
    assert forall q :: q != p && Under(q, p) <==> p < q;
  }

  lemma UpsertFailsIff(env: Env, s: Tree, c: Client, y: Id)
    requires env.excludes == [] && Fit(c) && ValidTree(s) && y in s
    ensures ApplyChange(env, s, c, Upsert(y)).Failed? <==> Blocked(s, c, Upsert(y))
  {
    var at, n := Locate(c.rows, y), s[y];
    if at.Some? && at.value != n.path {
      MoveBlockedIff(c, at.value, n.path);
      if MoveLocal(c, at.value, n.path).Done? {
        ArrivalBlockedIff(env, c, at.value, y, n);
      }
    } else if n.kind == IsFile {
      FileUpsertFailsIff(env, c, y, n);
    }
  }

  // ---- a replay that stops with an error ------------------------------------------------------

  /** The first `k` entries go through and the next one is refused. */
  ghost predicate RefusedAt(env: Env, s: Tree, c: Client, cs: seq<Change>, k: nat) {
    && k < |cs|
    && Replay(env, s, c, cs[..k]).Done?
    && Blocked(s, Replay(env, s, c, cs[..k]).c, cs[k])
  }

  lemma RefusedAtFails(env: Env, s: Tree, c: Client, cs: seq<Change>, k: nat)
    requires env.excludes == [] && Fit(c) && ValidTree(s) && RefusedAt(env, s, c, cs, k)
    ensures var at := Replay(env, s, c, cs[..k]).c;
            Replay(env, s, c, cs) == ApplyChange(env, s, at, cs[k]) && Replay(env, s, c, cs).Failed?
  {
    var at := Replay(env, s, c, cs[..k]).c;
    ReplayIsFit(env, s, c, cs[..k]);
    FailsIffBlocked(env, s, at, cs[k]);
    assert cs == cs[..k] + cs[k..];
    ReplaySplit(env, s, c, cs[..k], cs[k..]);
  }

  lemma {:induction false} FirstRefused(env: Env, s: Tree, c: Client, cs: seq<Change>) returns (k: nat)
    requires env.excludes == [] && Fit(c) && ValidTree(s) && Replay(env, s, c, cs).Failed?
    ensures RefusedAt(env, s, c, cs, k)
    decreases |cs|
  {
    var first := ApplyChange(env, s, c, cs[0]);
    if first.Failed? {
      FailsIffBlocked(env, s, c, cs[0]);
      k := 0;
    } else {
      StepIsFit(env, s, c, cs[0]);
      var j := FirstRefused(env, s, first.c, cs[1..]);
      k := j + 1;
      Later(env, s, c, [], cs, k);
    }
  }

  /** A replay stops with an error if and only if some entry is blocked where the replay stands
      when it comes to it. */
  lemma ReplayFailsIff(env: Env, s: Tree, c: Client, cs: seq<Change>)
    requires env.excludes == [] && Fit(c) && ValidTree(s)
    ensures Replay(env, s, c, cs).Failed? <==> exists k :: RefusedAt(env, s, c, cs, k)
  {
    if Replay(env, s, c, cs).Failed? {
      var k := FirstRefused(env, s, c, cs);
    } else if exists k :: RefusedAt(env, s, c, cs, k) {
      var k :| RefusedAt(env, s, c, cs, k);
      RefusedAtFails(env, s, c, cs, k);
    }
  }

  /** In a rerun no entry that was replayed before it stopped is refused for a move: such an entry
      finds its node at home or unrecorded. So a rerun fails because the path of a live node is
      blocked, or at an entry the stopped pull had not reached. */
  lemma RerunRefusal(env: Env, s: Tree, c: Client, cs: seq<Change>, k: nat, j: nat)
    requires env.excludes == [] && Fit(c) && ValidTree(s) && NoRestore(s, cs) && k <= |cs|
    requires Replay(env, s, c, cs[..k]).Done?
    requires RefusedAt(env, s, Replay(env, s, c, cs[..k]).c, cs, j) && j < k
    ensures var stop := Replay(env, s, c, cs[..k]).c;
            cs[j].Upsert? && Leaves(s, Replay(env, s, stop, cs[..j]).c, cs[j]).None?
  {
    var stop := Replay(env, s, c, cs[..k]).c;
    ReplayIsFit(env, s, c, cs[..k]);
    assert [] + cs[..k] == cs[..k] && forall ch :: ch in cs[..k] ==> ch in cs;
    ReplayIsHome(env, s, c, [], cs[..k]);
    assert cs[..k][j] == cs[j] && cs[..k][..j] == cs[..j];
    HomedAlongTheRerun(env, s, stop, cs[..k], j);
  }

  lemma {:induction false} HomedAlongTheRerun(env: Env, s: Tree, c: Client, cs: seq<Change>, j: nat)
    requires env.excludes == [] && Fit(c) && ValidTree(s) && NoRestore(s, cs)
    requires AllHomed(s, c, cs) && j < |cs| && Replay(env, s, c, cs[..j]).Done?
    ensures Homed(s, Replay(env, s, c, cs[..j]).c, cs[j])
    decreases j
  {
    if j > 0 {
      assert cs[..j][0] == cs[0];
      HomedTail(env, s, c, cs);
      Later(env, s, c, [], cs, j);
      HomedAlongTheRerun(env, s, ApplyChange(env, s, c, cs[0]).c, cs[1..], j - 1);
    }
  }

  // ---- a refused entry is refused again -------------------------------------------------------

  lemma MoveRefusedAgain(c: Client, p: Path, q: Path)
    requires IsTree(c.disk) && p in c.rows && MoveLocal(c, p, q).Failed?
    ensures var e := MoveLocal(c, p, q).c; e.rows == c.rows && MoveLocal(e, p, q) == Failed(e)
  {
    if MkdirAll(c.disk, Parent(q)).Some? {
      MkdirAllKeepsTree(c.disk, Parent(q));
      MkdirExisting(MkdirAll(c.disk, Parent(q)).value, Parent(q));
    }
  }

  lemma PullRefusedAgain(env: Env, c: Client, id: Id, n: Node)
    requires IsTree(c.disk) && n.path != [] && ApplyFileUpsert(env, c, id, n).Failed?
    ensures var e := ApplyFileUpsert(env, c, id, n).c;
            e.rows == c.rows && ApplyFileUpsert(env, e, id, n) == Failed(e)
  {
    FileUpsertFailsIff(env, c, id, n);
    if !FileOnTheWay(c.disk, Parent(n.path)) {
      MkdirAllKeepsTree(c.disk, Parent(n.path));
      MkdirExisting(MkdirAll(c.disk, Parent(n.path)).value, Parent(n.path));
    }
  }

  lemma DeleteRefusedLeaves(env: Env, c: Client, p: Path)
    requires Sound(c) && p in c.rows && DropLocal(env, c, p, c.rows[p]).Failed?
    ensures DropLocal(env, c, p, c.rows[p]) == Failed(c)
  {
    if LocalStatus(c.disk, p, c.rows[p]) == (true, true) {
      ConflictCopySucceeds(env, c, p);
    }
  }

  /** Where a refused upsert stops: its node has followed its move or not, and besides that only
      directories were made. */
  lemma RefusalGrows(env: Env, s: Tree, c: Client, y: Id)
    requires env.excludes == [] && Sound(c) && ValidTree(s) && y in s && ApplyChange(env, s, c, Upsert(y)).Failed?
    ensures var e, f := ApplyChange(env, s, c, Upsert(y)).c, FollowMove(c, y, s[y].path);
            && (f.Failed? ==> e == f.c)
            && (if f.Done? then e.rows == f.c.rows && f.c.disk.Items <= e.disk.Items
                else e.rows == c.rows && c.disk.Items <= e.disk.Items)
  {
    var n, f := s[y], FollowMove(c, y, s[y].path);
    FollowMoveSound(c, y, n.path);
    if f.Failed? {
      if MkdirAll(c.disk, Parent(n.path)).Some? {
        MkdirAllKeepsTree(c.disk, Parent(n.path));
      }
    } else if n.kind == IsFile {
      PullRefusedAgain(env, f.c, y, n);
      PullRefusalGrows(env, f.c, y, n);
    }
  }

  lemma PullRefusalGrows(env: Env, c: Client, id: Id, n: Node)
    requires IsTree(c.disk) && n.path != [] && ApplyFileUpsert(env, c, id, n).Failed?
    ensures c.disk.Items <= ApplyFileUpsert(env, c, id, n).c.disk.Items
  {
    FileUpsertFailsIff(env, c, id, n);
    if !FileOnTheWay(c.disk, Parent(n.path)) {
      MkdirAllKeepsTree(c.disk, Parent(n.path));
    }
  }

  /** A refused entry is refused again, and changes nothing more. */
  lemma RefusedAgain(env: Env, s: Tree, c: Client, ch: Change)
    requires env.excludes == [] && Fit(c) && ValidTree(s) && ApplyChange(env, s, c, ch).Failed?
    ensures var e := ApplyChange(env, s, c, ch).c; ApplyChange(env, s, e, ch) == Failed(e)
  {
    match ch
    case Delete(y) => DeleteRefusedLeaves(env, c, Locate(c.rows, y).value);
    case Upsert(y) => UpsertRefusedAgain(env, s, c, y);
  }

  lemma UpsertRefusedAgain(env: Env, s: Tree, c: Client, y: Id)
    requires env.excludes == [] && Fit(c) && ValidTree(s) && y in s && ApplyChange(env, s, c, Upsert(y)).Failed?
    ensures var e := ApplyChange(env, s, c, Upsert(y)).c; ApplyChange(env, s, e, Upsert(y)) == Failed(e)
  {
    var n, at := s[y], Locate(c.rows, y);
    var f, e := FollowMove(c, y, n.path), ApplyChange(env, s, c, Upsert(y)).c;
    FollowMoveSound(c, y, n.path);
    ApplyChangeSound(env, s, c, Upsert(y));
    RefusalGrows(env, s, c, y);
    if f.Failed? {
      MoveRefusedAgain(c, at.value, n.path);
      assert Locate(e.rows, y) == at;
    } else {
      assert FollowMove(e, y, n.path) == Done(e);
      if n.kind == IsFile {
        PullRefusedAgain(env, f.c, y, n);
      }
    }
  }

  /** A refused entry that would be quiet leaves idle what was idle. */
  lemma RefusalKeepsIdle(env: Env, s: Tree, c: Client, ch: Change, before: seq<Change>, was: Change)
    requires env.excludes == [] && Fit(c) && ValidTree(s) && ApplyChange(env, s, c, ch).Failed?
    requires AllIdle(env, s, c, before) && Quiet(s, c, ch, before) && was in before
    ensures Idle(env, s, ApplyChange(env, s, c, ch).c, was)
  {
    assert Idle(env, s, c, was);
    match ch
    case Delete(y) => DeleteRefusedLeaves(env, c, Locate(c.rows, y).value);
    case Upsert(y) =>
      RefusalGrows(env, s, c, y);
      if FollowMove(c, y, s[y].path).Done? {
        FollowMoveRows(c, y, s[y].path);
      }
      if was.Upsert? && was.id in s {
        RefusalKeepsPlaced(env, s, c, y, was.id);
      }
  }

  lemma RefusalKeepsPlaced(env: Env, s: Tree, c: Client, y: Id, x: Id)
    requires env.excludes == [] && Fit(c) && ValidTree(s) && y in s && ApplyChange(env, s, c, Upsert(y)).Failed?
    requires x in s && Idle(env, s, c, Upsert(x))
    requires Leaves(s, c, Upsert(y)).Some? ==> !Under(s[x].path, Leaves(s, c, Upsert(y)).value)
    ensures Idle(env, s, ApplyChange(env, s, c, Upsert(y)).c, Upsert(x))
  {
    var q, f := s[x].path, FollowMove(c, y, s[y].path);
    NoOpIffIdle(env, s, c, Upsert(x));
    assert x != y && q != s[y].path;
    RefusalGrows(env, s, c, y);
    if f.Done? {
      FollowMoveRows(c, y, s[y].path);
      FollowKeepsDisk(s, c, y, q);
      assert (q, f.c.disk[q]) in f.c.disk.Items;
    } else {
      assert (q, c.disk[q]) in c.disk.Items;
    }
  }

  /** A replay that stops at a blocked entry, quiet up to and with it, is stuck: replaying the same
      entries again stops at the same entry and leaves the client as it is, however often. */
  lemma StuckForever(env: Env, s: Tree, c: Client, cs: seq<Change>, k: nat)
    requires env.excludes == [] && Fit(c) && ValidTree(s) && RefusedAt(env, s, c, cs, k)
    requires QuietRun(env, s, c, [], cs[..k])
    requires Quiet(s, Replay(env, s, c, cs[..k]).c, cs[k], cs[..k])
    ensures Replay(env, s, c, cs).Failed?
    ensures var e := Replay(env, s, c, cs).c; Replay(env, s, e, cs) == Failed(e)
  {
    var at := Replay(env, s, c, cs[..k]).c;
    RefusedAtFails(env, s, c, cs, k);
    var e := Replay(env, s, c, cs).c;
    ReplayIsFit(env, s, c, cs[..k]);
    assert cs[..k][..k] == cs[..k] && [] + cs[..k] == cs[..k];
    QuietGivesIdle(env, s, c, [], cs[..k], k);
    forall was | was in cs[..k] ensures Idle(env, s, e, was) {
      RefusalKeepsIdle(env, s, at, cs[k], cs[..k], was);
    }
    ApplyChangeSound(env, s, at, cs[k]);
    IdleReplay(env, s, e, cs[..k]);
    RefusedAgain(env, s, at, cs[k]);
    assert cs == cs[..k] + cs[k..];
    ReplaySplit(env, s, e, cs[..k], cs[k..]);
  }

  /** A refused entry of the history leaves the rows a valid starting point for replaying it. */
  lemma RefusalKeepsBetween(env: Env, c: Client, b: Tree, hs: seq<Commit>, s: Tree, ch: Change)
    requires env.excludes == [] && ValidTree(s) && Between(c, b, hs, s) && ch in Entries(hs)
    requires ApplyChange(env, s, c, ch).Failed?
    ensures Between(ApplyChange(env, s, c, ch).c, b, hs, s)
  {
    ApplyChangeSound(env, s, c, ch);
    match ch
    case Delete(y) => DeleteRefusedLeaves(env, c, Locate(c.rows, y).value);
    case Upsert(y) => UpsertRefusalKeepsBetween(env, c, b, hs, s, y);
  }

  /** A move takes no tracked node's row, its own apart. */
  lemma MovedKeepsTracked(s: Tree, c: Client, y: Id)
    requires ValidTree(s) && y in s && UniqueIds(c.rows) && FollowMove(c, y, s[y].path).Done?
    ensures forall x :: x in s && x != y && Tracked(c.rows, s, x) ==> Tracked(FollowMove(c, y, s[y].path).c.rows, s, x)
  {
    FollowMoveRows(c, y, s[y].path);
    forall x | x in s && x != y && Tracked(c.rows, s, x) ensures Tracked(FollowMove(c, y, s[y].path).c.rows, s, x) {
      assert s[x].path != s[y].path;
    }
  }

  lemma UpsertRefusalKeepsBetween(env: Env, c: Client, b: Tree, hs: seq<Commit>, s: Tree, y: Id)
    requires env.excludes == [] && ValidTree(s) && Between(c, b, hs, s) && Upsert(y) in Entries(hs) && y in s
    requires ApplyChange(env, s, c, Upsert(y)).Failed? && Sound(ApplyChange(env, s, c, Upsert(y)).c)
    ensures Between(ApplyChange(env, s, c, Upsert(y)).c, b, hs, s)
  {
    var e, f := ApplyChange(env, s, c, Upsert(y)).c, FollowMove(c, y, s[y].path);
    RefusalGrows(env, s, c, y);
    if f.Done? {
      var i :| 0 <= i < |Entries(hs)| && Entries(hs)[i] == Upsert(y);
      MovedKeepsBetween(c, e, b, hs, s, y);
    }
  }

  lemma MovedKeepsBetween(c: Client, e: Client, b: Tree, hs: seq<Commit>, s: Tree, y: Id)
    requires ValidTree(s) && Between(c, b, hs, s) && y in s && y in Ids(Entries(hs))
    requires FollowMove(c, y, s[y].path).Done? && e.rows == FollowMove(c, y, s[y].path).c.rows && Sound(e)
    ensures Between(e, b, hs, s)
  {
    FollowMoveRows(c, y, s[y].path);
    MovedKeepsTracked(s, c, y);
    assert Tracked(c.rows, s, y) ==> FollowMove(c, y, s[y].path).c == c;
  }

  // ---- any history: when a rerun succeeds ------------------------------------------------------

  /** A pull, interrupted after any k entries and run again from the saved cursor, returns without
      an error and mirrors the server if and only if no entry of the rerun is blocked when its turn
      comes and no last upsert of it is shadowed. With k = 0 it is the uninterrupted pull. */
  lemma ResumeSucceedsIff(env: Env, c: Client, b: Tree, hs: seq<Commit>, k: nat)
    requires env.excludes == [] && ValidHistory(b, hs) && k <= |Entries(hs)|
    requires Between(c, b, hs, Latest(b, hs))
    requires Replay(env, Latest(b, hs), c, Entries(hs)[..k]).Done?
    ensures var s, stopped := Latest(b, hs), Replay(env, Latest(b, hs), c, Entries(hs)[..k]).c;
            Replay(env, s, stopped, Entries(hs)).Done? && Mirrors(Replay(env, s, stopped, Entries(hs)).c.rows, s) <==>
            (forall j :: !RefusedAt(env, s, stopped, Entries(hs), j)) && Clean(env, s, stopped, Entries(hs))
  {
    var s, stopped := Latest(b, hs), Replay(env, Latest(b, hs), c, Entries(hs)[..k]).c;
    LatestIsValid(b, hs);
    ReplayKeepsBetween(env, c, b, hs, Entries(hs)[..k]);
    ReplayFailsIff(env, s, stopped, Entries(hs));
    if Replay(env, s, stopped, Entries(hs)).Done? {
      ResumeMirrors(env, c, b, hs, k);
    }
  }
}
