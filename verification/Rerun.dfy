/**
  Exactly when replaying entries again does nothing, and exactly when a replay fails. A pull stopped
  between two entries starts again from the saved cursor, so everything rests on the entries that
  were applied already.
 */
module Rerun {
  import opened Base
  import opened LocalDisk
  import opened ConflictNames
  import opened Pull
  import opened Journal
  import opened Resume

  // ---- one entry -------------------------------------------------------------------------

  /** The entry's effect is in place, or it is an upsert that is shadowed. */
  ghost predicate Idle(env: Env, s: Tree, c: Client, ch: Change) {
    || Applied(env, s, c, ch)
    || (ch.Upsert? && Shadowed(c, s, ch.id))
  }

  lemma ShadowedIsNoOp(env: Env, s: Tree, c: Client, y: Id)
    requires env.excludes == [] && IsTree(c.disk) && Shadowed(c, s, y)
    ensures ApplyChange(env, s, c, Upsert(y)) == Done(c)
  {
    NotBarred(c.disk, s[y].path);
  }

  /** An entry leaves the client exactly as it is if and only if it is idle. */
  lemma NoOpIffIdle(env: Env, s: Tree, c: Client, ch: Change)
    requires env.excludes == [] && Sound(c) && ValidTree(s)
    ensures ApplyChange(env, s, c, ch) == Done(c) <==> Idle(env, s, c, ch)
  {
    if Idle(env, s, c, ch) {
      if Applied(env, s, c, ch) {
        AppliedIsNoOp(env, s, c, ch);
      } else {
        ShadowedIsNoOp(env, s, c, ch.id);
      }
    } else if ApplyChange(env, s, c, ch) == Done(c) {
      NoOpIsIdle(env, s, c, ch);
    }
  }

  lemma NoOpIsIdle(env: Env, s: Tree, c: Client, ch: Change)
    requires env.excludes == [] && Sound(c) && ValidTree(s) && ApplyChange(env, s, c, ch) == Done(c)
    ensures Idle(env, s, c, ch)
  {
    match ch
    case Delete(y) => DeleteRows(env, s, c, y);
    case Upsert(y) =>
      if y in s && !Shadowed(c, s, y) {
        UpsertRows(env, s, c, y);
        UpsertPlaces(env, s, c, y);
      }
  }

  /** After an upsert that was not shadowed its node is where it belongs, on disk too. */
  lemma UpsertPlaces(env: Env, s: Tree, c: Client, y: Id)
    requires env.excludes == [] && Sound(c) && ValidTree(s) && y in s && ApplyChange(env, s, c, Upsert(y)).Done?
    ensures var e := ApplyChange(env, s, c, Upsert(y)).c;
            && s[y].path in e.disk
            && (s[y].kind == IsFolder ==> e.disk[s[y].path].Dir? && e.rows[s[y].path] == FolderEntry(y))
  {
    var n := s[y];
    FollowMoveSound(c, y, n.path);
    var moved := FollowMove(c, y, n.path).c;
    if n.kind == IsFolder {
      MkdirAllKeepsTree(moved.disk, n.path);
    } else {
      FileUpsertDisk(env, moved, y, n);
    }
  }

  // ---- a further entry over entries that are in place --------------------------------------

  /** The path the entry takes away: that of a deleted node, the old one of a node that moves. */
  ghost function Leaves(s: Tree, c: Client, ch: Change): (r: Option<Path>)
    ensures r.Some? ==> r == Locate(c.rows, ch.id)
  {
    match Locate(c.rows, ch.id)
    case None => None
    case Some(p) => if ch.Delete? || (ch.id in s && p != s[ch.id].path) then Some(p) else None
  }

  /** The entry neither takes away the place of a live node upserted before it, nor brings back
      a node deleted before it. */
  ghost predicate Quiet(s: Tree, c: Client, ch: Change, before: seq<Change>) {
    && (Leaves(s, c, ch).Some? ==>
          forall x :: x in s && Upsert(x) in before ==> !Under(s[x].path, Leaves(s, c, ch).value))
    && (ch.Upsert? && ch.id in s && Delete(ch.id) in before ==> Shadowed(c, s, ch.id))
  }

  ghost predicate AllIdle(env: Env, s: Tree, c: Client, cs: seq<Change>) {
    forall ch :: ch in cs ==> Idle(env, s, c, ch)
  }

  /** A move disturbs only what lies under the path it leaves and the path it goes to. */
  lemma MoveKeepsDisk(c: Client, p: Path, to: Path, q: Path)
    requires IsTree(c.disk) && p in c.rows && to != [] && MoveLocal(c, p, to).Done?
    requires q in c.disk && q != to && !Under(q, p)
    ensures var d := MoveLocal(c, p, to).c.disk; q in d && d[q] == c.disk[q]
  {
    MkdirAllKeepsTree(c.disk, Parent(to));
    var d := MkdirAll(c.disk, Parent(to)).value;
    if Rename(d, p, to).Moved? && d[p].Dir? {
      MoveTreeAt(d, p, to, q);
      if Under(q, to) {
        NothingBeneath(d, to, q);
      }
    }
  }

  lemma FollowKeepsDisk(s: Tree, c: Client, y: Id, q: Path)
    requires IsTree(c.disk) && y in s && s[y].path != [] && FollowMove(c, y, s[y].path).Done?
    requires q in c.disk && q != s[y].path
    requires Leaves(s, c, Upsert(y)).Some? ==> !Under(q, Leaves(s, c, Upsert(y)).value)
    ensures var d := FollowMove(c, y, s[y].path).c.disk; q in d && d[q] == c.disk[q]
  {
    if Leaves(s, c, Upsert(y)).Some? {
      MoveKeepsDisk(c, Leaves(s, c, Upsert(y)).value, s[y].path, q);
    }
  }

  lemma UpsertKeepsDisk(env: Env, s: Tree, c: Client, y: Id, q: Path)
    requires env.excludes == [] && Sound(c) && ValidTree(s) && y in s && ApplyChange(env, s, c, Upsert(y)).Done?
    requires q in c.disk && q != s[y].path
    requires Leaves(s, c, Upsert(y)).Some? ==> !Under(q, Leaves(s, c, Upsert(y)).value)
    ensures var d := ApplyChange(env, s, c, Upsert(y)).c.disk; q in d && d[q] == c.disk[q]
  {
    var n := s[y];
    FollowKeepsDisk(s, c, y, q);
    FollowMoveSound(c, y, n.path);
    var moved := FollowMove(c, y, n.path).c;
    if n.kind == IsFolder {
      MkdirAllKeepsTree(moved.disk, n.path);
    } else {
      FileUpsertDisk(env, moved, y, n);
    }
  }

  lemma DeleteKeepsDisk(env: Env, s: Tree, c: Client, y: Id, q: Path)
    requires Sound(c) && ApplyChange(env, s, c, Delete(y)).Done?
    requires q in c.disk
    requires Leaves(s, c, Delete(y)).Some? ==> !Under(q, Leaves(s, c, Delete(y)).value)
    ensures var d := ApplyChange(env, s, c, Delete(y)).c.disk; q in d && d[q] == c.disk[q]
  {
    if Locate(c.rows, y).Some? {
      var p := Locate(c.rows, y).value;
      if c.rows[p].kind == IsFile && LocalStatus(c.disk, p, c.rows[p]) == (true, true) {
        ConflictCopyDisk(env, c, p);
      }
    }
  }

  /** What an upsert put in place stays in place unless the path is taken away. */
  lemma UpsertStaysIdle(env: Env, s: Tree, c: Client, ch: Change, x: Id)
    requires env.excludes == [] && Sound(c) && ValidTree(s) && ApplyChange(env, s, c, ch).Done?
    requires x in s && Idle(env, s, c, Upsert(x))
    requires Leaves(s, c, ch).Some? ==> !Under(s[x].path, Leaves(s, c, ch).value)
    ensures Idle(env, s, ApplyChange(env, s, c, ch).c, Upsert(x))
  {
    var q := s[x].path;
    match ch
    case Delete(y) =>
      DeleteRows(env, s, c, y);
      DeleteKeepsDisk(env, s, c, y, q);
    case Upsert(y) =>
      if y == x {
        NoOpIffIdle(env, s, c, ch);
      } else if y in s {
        assert q != s[y].path;
        UpsertRows(env, s, c, y);
        UpsertKeepsDisk(env, s, c, y, q);
      }
  }

  /** The engine's invariant, and no row for the root. */
  ghost predicate Fit(c: Client) {
    Sound(c) && [] !in c.rows
  }

  lemma StepIsFit(env: Env, s: Tree, c: Client, ch: Change)
    requires env.excludes == [] && Fit(c) && ValidTree(s) && ApplyChange(env, s, c, ch).Done?
    ensures Fit(ApplyChange(env, s, c, ch).c)
  {
    ApplyChangeSound(env, s, c, ch);
    match ch
    case Delete(y) => DeleteRows(env, s, c, y);
    case Upsert(y) => if y in s { UpsertRows(env, s, c, y); }
  }

  /** Only a recorded folder is dropped with something beneath it. */
  lemma FileHoldsOn(env: Env, c: Client, p: Path, q: Path)
    requires IsTree(c.disk) && p in c.rows && p != [] && q in c.disk && p < q
    requires c.rows[p].kind == IsFile
    ensures DropLocal(env, c, p, c.rows[p]).Failed?
  {
    AncestorsAreDirs(c.disk, q, |p|);
    assert q[..|p|] == p;
    assert Remove(c.disk, p).None?;
  }

  lemma DropTakesRow(env: Env, c: Client, p: Path, q: Path)
    requires IsTree(c.disk) && p in c.rows && p != [] && q in c.disk && Under(q, p)
    requires DropLocal(env, c, p, c.rows[p]).Done?
    ensures q !in DropLocal(env, c, p, c.rows[p]).c.rows
  {
    if c.rows[p].kind == IsFile {
      assert p == q by {
        if p != q {
          FileHoldsOn(env, c, p, q);
        }
      }
      ConflictCopyRows(env, c, p);
    }
  }

  /** A delete that takes the path away takes the row with it. */
  lemma DeleteBreaks(env: Env, s: Tree, c: Client, y: Id, x: Id)
    requires env.excludes == [] && Fit(c) && ApplyChange(env, s, c, Delete(y)).Done?
    requires x in s && s[x].path in c.disk
    requires Locate(c.rows, y).Some? && Under(s[x].path, Locate(c.rows, y).value)
    ensures s[x].path !in ApplyChange(env, s, c, Delete(y)).c.rows
  {
    DropTakesRow(env, c, Locate(c.rows, y).value, s[x].path);
  }

  /** A directory that moves away takes with it everything beneath. */
  lemma MoveEmpties(c: Client, p: Path, to: Path, q: Path)
    requires IsTree(c.disk) && p in c.rows && p != [] && to != [] && p != to && MoveLocal(c, p, to).Done?
    requires q in c.disk && p < q
    ensures var d := MoveLocal(c, p, to).c.disk; q !in d && to in d && d[to].Dir?
  {
    MkdirAllKeepsTree(c.disk, Parent(to));
    var d := MkdirAll(c.disk, Parent(to)).value;
    AncestorsAreDirs(c.disk, q, |p|);
    assert q[..|p|] == p;
    MoveTreeAt(d, p, to, q);
    MoveTreeAt(d, p, to, to);
    assert Relocate(to, to, p) == p;
    assert !Under(p, to) by {
      if Under(p, to) {
        NothingBeneath(d, to, p);
      }
    }
    assert Under(q, to) ==> Under(p, to) || Under(to, p);
  }

  lemma FolderStays(env: Env, s: Tree, c: Client, n: Node, id: Id)
    requires Sound(c) && n.path in c.disk && c.disk[n.path].Dir? && n.path in c.rows
    ensures n.kind == IsFolder ==> MaterializeFolder(c, id, n).c.disk == c.disk
    ensures n.kind == IsFile && ApplyFileUpsert(env, c, id, n).Done? ==> ApplyFileUpsert(env, c, id, n).c == c
  {
    MkdirExisting(c.disk, n.path);
    assert IsDir(c.disk, Parent(n.path));
    MkdirExisting(c.disk, Parent(n.path));
  }

  /** A node that moves away from the path, or from above it, leaves it without its row or bare. */
  lemma MoveBreaks(env: Env, s: Tree, c: Client, y: Id, x: Id)
    requires env.excludes == [] && Fit(c) && ValidTree(s) && ApplyChange(env, s, c, Upsert(y)).Done?
    requires x in s && y in s && Idle(env, s, c, Upsert(x))
    requires Leaves(s, c, Upsert(y)).Some? && Under(s[x].path, Leaves(s, c, Upsert(y)).value)
    ensures var e := ApplyChange(env, s, c, Upsert(y)).c; s[x].path !in e.rows || s[x].path !in e.disk
  {
    var p, q, n := Leaves(s, c, Upsert(y)).value, s[x].path, s[y];
    assert x != y;
    if p == q {
      UpsertRows(env, s, c, y);
    } else {
      MoveEmpties(c, p, n.path, q);
      FollowMoveSound(c, y, n.path);
      FolderStays(env, s, FollowMove(c, y, n.path).c, n, y);
    }
  }

  lemma UpsertBreaks(env: Env, s: Tree, c: Client, ch: Change, x: Id)
    requires env.excludes == [] && Fit(c) && ValidTree(s) && ApplyChange(env, s, c, ch).Done?
    requires x in s && Idle(env, s, c, Upsert(x))
    requires Leaves(s, c, ch).Some? && Under(s[x].path, Leaves(s, c, ch).value)
    ensures !Idle(env, s, ApplyChange(env, s, c, ch).c, Upsert(x))
  {
    match ch
    case Delete(y) => DeleteBreaks(env, s, c, y, x);
    case Upsert(y) => MoveBreaks(env, s, c, y, x);
  }

  /** A deleted node is brought back by its own upsert and by nothing else. */
  lemma DeleteStaysIdle(env: Env, s: Tree, c: Client, ch: Change, z: Id)
    requires env.excludes == [] && Fit(c) && ValidTree(s) && ApplyChange(env, s, c, ch).Done?
    requires Idle(env, s, c, Delete(z))
    ensures Idle(env, s, ApplyChange(env, s, c, ch).c, Delete(z)) <==>
            !(ch == Upsert(z) && z in s && !Shadowed(c, s, z))
  {
    match ch
    case Delete(y) => DeleteRows(env, s, c, y);
    case Upsert(y) => if y in s { UpsertRows(env, s, c, y); }
  }

  lemma EntryIsIdleAfter(env: Env, s: Tree, c: Client, ch: Change)
    requires env.excludes == [] && Fit(c) && ValidTree(s) && ApplyChange(env, s, c, ch).Done?
    ensures Idle(env, s, ApplyChange(env, s, c, ch).c, ch)
  {
    match ch
    case Delete(y) => DeleteRows(env, s, c, y);
    case Upsert(y) =>
      if y in s {
        UpsertRows(env, s, c, y);
        UpsertPlaces(env, s, c, y);
        if Shadowed(c, s, y) {
          ShadowedIsNoOp(env, s, c, y);
        }
      }
  }

  /** One more entry keeps all entries so far idle if and only if it is quiet. */
  lemma QuietIsExact(env: Env, s: Tree, c: Client, ch: Change, before: seq<Change>)
    requires env.excludes == [] && Fit(c) && ValidTree(s) && ApplyChange(env, s, c, ch).Done?
    requires AllIdle(env, s, c, before)
    ensures AllIdle(env, s, ApplyChange(env, s, c, ch).c, before + [ch]) <==> Quiet(s, c, ch, before)
  {
    var e := ApplyChange(env, s, c, ch).c;
    if Quiet(s, c, ch, before) {
      forall was | was in before + [ch] ensures Idle(env, s, e, was) {
        QuietKeeps(env, s, c, ch, before, was);
      }
    } else if AllIdle(env, s, e, before + [ch]) {
      LoudBreaks(env, s, c, ch, before);
    }
  }

  lemma QuietKeeps(env: Env, s: Tree, c: Client, ch: Change, before: seq<Change>, was: Change)
    requires env.excludes == [] && Fit(c) && ValidTree(s) && ApplyChange(env, s, c, ch).Done?
    requires AllIdle(env, s, c, before) && Quiet(s, c, ch, before) && was in before + [ch]
    ensures Idle(env, s, ApplyChange(env, s, c, ch).c, was)
  {
    if was == ch {
      EntryIsIdleAfter(env, s, c, ch);
    } else {
      assert was in before;
      match was
      case Delete(z) => DeleteStaysIdle(env, s, c, ch, z);
      case Upsert(x) => if x in s { UpsertStaysIdle(env, s, c, ch, x); }
    }
  }

  lemma LoudBreaks(env: Env, s: Tree, c: Client, ch: Change, before: seq<Change>)
    requires env.excludes == [] && Fit(c) && ValidTree(s) && ApplyChange(env, s, c, ch).Done?
    requires AllIdle(env, s, c, before) && !Quiet(s, c, ch, before)
    ensures exists was :: was in before + [ch] && !Idle(env, s, ApplyChange(env, s, c, ch).c, was)
  {
    if ch.Upsert? && ch.id in s && Delete(ch.id) in before && !Shadowed(c, s, ch.id) {
      DeleteStaysIdle(env, s, c, ch, ch.id);
      assert Delete(ch.id) in before + [ch];
    } else {
      var x :| x in s && Upsert(x) in before && Under(s[x].path, Leaves(s, c, ch).value);
      UpsertBreaks(env, s, c, ch, x);
      assert Upsert(x) in before + [ch];
    }
  }

  // ---- a whole run -----------------------------------------------------------------------

  /** Every entry replayed is quiet at the moment it is replayed. */
  ghost predicate QuietRun(env: Env, s: Tree, c: Client, before: seq<Change>, cs: seq<Change>)
    decreases |cs|
  {
    cs != [] ==>
      var next := ApplyChange(env, s, c, cs[0]);
      next.Done? ==> Quiet(s, c, cs[0], before) && QuietRun(env, s, next.c, before + [cs[0]], cs[1..])
  }

  lemma Later(env: Env, s: Tree, c: Client, before: seq<Change>, cs: seq<Change>, k: nat)
    requires 0 < k <= |cs| && ApplyChange(env, s, c, cs[0]).Done?
    ensures var next := ApplyChange(env, s, c, cs[0]);
            && Replay(env, s, c, cs[..k]) == Replay(env, s, next.c, cs[1..][..k - 1])
            && before + cs[..k] == before + [cs[0]] + cs[1..][..k - 1]
  {
    assert cs[..k][1..] == cs[1..][..k - 1];
    assert cs[..k] == [cs[0]] + cs[1..][..k - 1];
  }

  lemma {:induction false} QuietGivesIdle(env: Env, s: Tree, c: Client, before: seq<Change>, cs: seq<Change>, k: nat)
    requires env.excludes == [] && Fit(c) && ValidTree(s) && k <= |cs|
    requires AllIdle(env, s, c, before) && QuietRun(env, s, c, before, cs)
    requires Replay(env, s, c, cs[..k]).Done?
    ensures AllIdle(env, s, Replay(env, s, c, cs[..k]).c, before + cs[..k])
    decreases k
  {
    if k == 0 {
      assert before + cs[..k] == before;
    } else {
      assert cs[..k][0] == cs[0];
      var next := ApplyChange(env, s, c, cs[0]);
      Later(env, s, c, before, cs, k);
      StepIsFit(env, s, c, cs[0]);
      QuietIsExact(env, s, c, cs[0], before);
      QuietGivesIdle(env, s, next.c, before + [cs[0]], cs[1..], k - 1);
    }
  }

  lemma {:induction false} LoudStop(env: Env, s: Tree, c: Client, before: seq<Change>, cs: seq<Change>) returns (k: nat)
    requires env.excludes == [] && Fit(c) && ValidTree(s)
    requires AllIdle(env, s, c, before) && !QuietRun(env, s, c, before, cs)
    ensures k <= |cs| && Replay(env, s, c, cs[..k]).Done?
    ensures !AllIdle(env, s, Replay(env, s, c, cs[..k]).c, before + cs[..k])
    decreases |cs|
  {
    var next := ApplyChange(env, s, c, cs[0]);
    StepIsFit(env, s, c, cs[0]);
    QuietIsExact(env, s, c, cs[0], before);
    if Quiet(s, c, cs[0], before) {
      var j := LoudStop(env, s, next.c, before + [cs[0]], cs[1..]);
      k := j + 1;
    } else {
      k := 1;
    }
    assert cs[..k][0] == cs[0];
    Later(env, s, c, before, cs, k);
    assert k == 1 ==> before + cs[..k] == before + [cs[0]];
  }

  /** Where the run stands after `k` entries, each of them, replayed again, changes nothing. */
  ghost predicate HarmlessAfter(env: Env, s: Tree, c: Client, cs: seq<Change>, k: nat)
    requires k <= |cs|
  {
    var stop := Replay(env, s, c, cs[..k]);
    stop.Done? ==> forall ch :: ch in cs[..k] ==> ApplyChange(env, s, stop.c, ch) == Done(stop.c)
  }

  lemma {:induction false} ReplayIsFit(env: Env, s: Tree, c: Client, cs: seq<Change>)
    requires env.excludes == [] && Fit(c) && ValidTree(s) && Replay(env, s, c, cs).Done?
    ensures Fit(Replay(env, s, c, cs).c)
    decreases |cs|
  {
    if cs != [] {
      StepIsFit(env, s, c, cs[0]);
      ReplayIsFit(env, s, ApplyChange(env, s, c, cs[0]).c, cs[1..]);
    }
  }

  lemma HarmlessIsIdle(env: Env, s: Tree, c: Client, cs: seq<Change>, k: nat)
    requires env.excludes == [] && Fit(c) && ValidTree(s) && k <= |cs| && Replay(env, s, c, cs[..k]).Done?
    ensures HarmlessAfter(env, s, c, cs, k) <==> AllIdle(env, s, Replay(env, s, c, cs[..k]).c, cs[..k])
  {
    ReplayIsFit(env, s, c, cs[..k]);
    var stop := Replay(env, s, c, cs[..k]).c;
    forall ch | ch in cs[..k] ensures ApplyChange(env, s, stop, ch) == Done(stop) <==> Idle(env, s, stop, ch) {
      NoOpIffIdle(env, s, stop, ch);
    }
  }

  /** Wherever a pull stops, every entry it has replayed is harmless to replay again, if and only
      if the run is quiet: no entry takes away the place of a live node upserted before it, and
      none brings back a node deleted before it. */
  lemma HarmlessIffQuiet(env: Env, s: Tree, c: Client, cs: seq<Change>)
    requires env.excludes == [] && Fit(c) && ValidTree(s)
    ensures (forall k :: 0 <= k <= |cs| ==> HarmlessAfter(env, s, c, cs, k)) <==> QuietRun(env, s, c, [], cs)
  {
    if QuietRun(env, s, c, [], cs) {
      forall k | 0 <= k <= |cs| && Replay(env, s, c, cs[..k]).Done? ensures HarmlessAfter(env, s, c, cs, k) {
        QuietGivesIdle(env, s, c, [], cs, k);
        assert [] + cs[..k] == cs[..k];
        HarmlessIsIdle(env, s, c, cs, k);
      }
    } else {
      var k := LoudStop(env, s, c, [], cs);
      assert [] + cs[..k] == cs[..k];
      HarmlessIsIdle(env, s, c, cs, k);
    }
  }

  lemma {:induction false} IdleReplay(env: Env, s: Tree, c: Client, cs: seq<Change>)
    requires env.excludes == [] && Sound(c) && ValidTree(s) && AllIdle(env, s, c, cs)
    ensures Replay(env, s, c, cs) == Done(c)
    decreases |cs|
  {
    if cs != [] {
      assert cs[0] in cs;
      NoOpIffIdle(env, s, c, cs[0]);
      assert forall ch :: ch in cs[1..] ==> ch in cs;
      IdleReplay(env, s, c, cs[1..]);
    }
  }

  lemma IdlePartIsSkipped(env: Env, s: Tree, stop: Client, cs: seq<Change>, j: nat, k: nat)
    requires env.excludes == [] && Sound(stop) && ValidTree(s) && j <= k <= |cs|
    requires AllIdle(env, s, stop, cs[..k])
    ensures Replay(env, s, stop, cs[j..]) == Replay(env, s, stop, cs[k..])
  {
    assert forall ch :: ch in cs[j..k] ==> ch in cs[..k];
    IdleReplay(env, s, stop, cs[j..k]);
    assert cs[j..] == cs[j..k] + cs[k..];
    ReplaySplit(env, s, stop, cs[j..k], cs[k..]);
  }

  /** A quiet pull, stopped after `k` entries and started again from any earlier one, ends as the
      uninterrupted pull does: same disk, same rows, same downloads, same error if there is one. */
  lemma ResumeIsExact(env: Env, s: Tree, c: Client, cs: seq<Change>, j: nat, k: nat)
    requires env.excludes == [] && Fit(c) && ValidTree(s) && j <= k <= |cs|
    requires QuietRun(env, s, c, [], cs[..k]) && Replay(env, s, c, cs[..k]).Done?
    ensures Replay(env, s, Replay(env, s, c, cs[..k]).c, cs[j..]) == Replay(env, s, c, cs)
  {
    assert cs[..k][..k] == cs[..k] && [] + cs[..k] == cs[..k];
    QuietGivesIdle(env, s, c, [], cs[..k], k);
    ReplayIsFit(env, s, c, cs[..k]);
    IdlePartIsSkipped(env, s, Replay(env, s, c, cs[..k]).c, cs, j, k);
    assert cs == cs[..k] + cs[k..];
    ReplaySplit(env, s, c, cs[..k], cs[k..]);
  }

  // ---- without restores: the replayed part as a whole ---------------------------------------

  /** No node deleted on the way is live in the end. */
  ghost predicate NoRestore(s: Tree, cs: seq<Change>) {
    forall y :: y in s ==> Delete(y) !in cs
  }

  /** Deleted nodes have no row and upserted ones none but their own. */
  ghost predicate Homed(s: Tree, c: Client, ch: Change) {
    match Locate(c.rows, ch.id)
    case None => true
    case Some(p) => ch.Upsert? && (ch.id in s ==> p == s[ch.id].path)
  }

  ghost predicate AllHomed(s: Tree, c: Client, cs: seq<Change>) {
    forall ch :: ch in cs ==> Homed(s, c, ch)
  }

  /** The entry has put its node home, and no entry without a restore takes it elsewhere. */
  lemma StepIsHome(env: Env, s: Tree, c: Client, ch: Change)
    requires env.excludes == [] && Fit(c) && ValidTree(s) && ApplyChange(env, s, c, ch).Done?
    ensures Homed(s, ApplyChange(env, s, c, ch).c, ch)
  {
    match ch
    case Delete(y) => DeleteRows(env, s, c, y);
    case Upsert(y) => if y in s { UpsertRows(env, s, c, y); }
  }

  lemma StaysHome(env: Env, s: Tree, c: Client, ch: Change, was: Change)
    requires env.excludes == [] && Fit(c) && ValidTree(s) && ApplyChange(env, s, c, ch).Done?
    requires Homed(s, c, was) && (was.Delete? ==> was.id !in s)
    ensures Homed(s, ApplyChange(env, s, c, ch).c, was)
  {
    match ch
    case Delete(y) => DeleteRows(env, s, c, y);
    case Upsert(y) => if y in s { UpsertRows(env, s, c, y); }
  }

  lemma {:induction false} ReplayIsHome(env: Env, s: Tree, c: Client, before: seq<Change>, cs: seq<Change>)
    requires env.excludes == [] && Fit(c) && ValidTree(s) && NoRestore(s, before + cs)
    requires AllHomed(s, c, before) && Replay(env, s, c, cs).Done?
    ensures AllHomed(s, Replay(env, s, c, cs).c, before + cs)
    decreases |cs|
  {
    if cs == [] {
      assert before + cs == before;
    } else {
      var next := ApplyChange(env, s, c, cs[0]).c;
      StepIsFit(env, s, c, cs[0]);
      assert before + [cs[0]] + cs[1..] == before + cs;
      forall was | was in before + [cs[0]] ensures Homed(s, next, was) {
        if was == cs[0] {
          StepIsHome(env, s, c, cs[0]);
        } else {
          assert was in before && was in before + cs;
          StaysHome(env, s, c, cs[0], was);
        }
      }
      ReplayIsHome(env, s, next, before + [cs[0]], cs[1..]);
    }
  }

  /** The live folder is on disk and its row is its own. */
  ghost predicate FolderHome(s: Tree, c: Client, x: Id) {
    && x in s && s[x].path in c.rows && c.rows[s[x].path] == FolderEntry(x)
    && s[x].path in c.disk && c.disk[s[x].path].Dir?
  }

  lemma HomedStep(env: Env, s: Tree, c: Client, ch: Change)
    requires env.excludes == [] && Homed(s, c, ch)
    ensures ApplyChange(env, s, c, ch) ==
            if ch.Delete? || ch.id !in s then Done(c)
            else if s[ch.id].kind == IsFolder then MaterializeFolder(c, ch.id, s[ch.id])
            else ApplyFileUpsert(env, c, ch.id, s[ch.id])
  {
  }

  /** A file upsert leaves the client as it is or downloads. */
  lemma FileUpsertPulls(env: Env, c: Client, y: Id, n: Node)
    requires ApplyFileUpsert(env, c, y, n).Done?
    ensures ApplyFileUpsert(env, c, y, n).c == c || ApplyFileUpsert(env, c, y, n).c.pulls == c.pulls + 1
  {
    var out := ApplyFileUpsert(env, c, y, n);
    if out != Done(c) && out != PullDown(env, c, y, n) {
      ConflictCopyRows(env, c, n.path);
      assert out == PullDown(env, ConflictCopy(env, c, n.path).c, y, n);
    }
  }

  lemma FolderUpsertSettles(s: Tree, c: Client, x: Id)
    requires Fit(c) && ValidTree(s) && x in s && s[x].kind == IsFolder && MaterializeFolder(c, x, s[x]).Done?
    ensures FolderHome(s, MaterializeFolder(c, x, s[x]).c, x)
  {
    MkdirAllKeepsTree(c.disk, s[x].path);
  }

  /** An entry that is homed but not idle downloads a file or puts a folder home. */
  lemma LoudMakesProgress(env: Env, s: Tree, c: Client, ch: Change)
    requires env.excludes == [] && Fit(c) && ValidTree(s) && ApplyChange(env, s, c, ch).Done?
    requires Homed(s, c, ch) && !Idle(env, s, c, ch)
    ensures ch.Upsert? && ch.id in s
    ensures s[ch.id].kind == IsFile ==> ApplyChange(env, s, c, ch).c.pulls > c.pulls
    ensures s[ch.id].kind == IsFolder ==> !FolderHome(s, c, ch.id) && FolderHome(s, ApplyChange(env, s, c, ch).c, ch.id)
  {
    HomedStep(env, s, c, ch);
    NoOpIffIdle(env, s, c, ch);
    if s[ch.id].kind == IsFolder {
      FolderUpsertSettles(s, c, ch.id);
      assert FolderHome(s, c, ch.id) ==> Idle(env, s, c, ch);
    } else {
      FileUpsertPulls(env, c, ch.id, s[ch.id]);
    }
  }

  lemma HomedNeverUnpulls(env: Env, s: Tree, c: Client, ch: Change)
    requires env.excludes == [] && Homed(s, c, ch) && ApplyChange(env, s, c, ch).Done?
    ensures ApplyChange(env, s, c, ch).c.pulls >= c.pulls
  {
    HomedStep(env, s, c, ch);
    if ch.Upsert? && ch.id in s && s[ch.id].kind == IsFile {
      FileUpsertPulls(env, c, ch.id, s[ch.id]);
    }
  }

  lemma HomedKeepsFolders(env: Env, s: Tree, c: Client, ch: Change, x: Id)
    requires env.excludes == [] && Fit(c) && ValidTree(s) && ApplyChange(env, s, c, ch).Done?
    requires Homed(s, c, ch) && FolderHome(s, c, x)
    ensures FolderHome(s, ApplyChange(env, s, c, ch).c, x)
  {
    if ch == Upsert(x) {
      HomedStep(env, s, c, ch);
    }
    if ch.Upsert? && ch.id in s && ch.id != x {
      UpsertRows(env, s, c, ch.id);
      UpsertKeepsDisk(env, s, c, ch.id, s[x].path);
    }
  }

  lemma {:induction false} HomedRunKeeps(env: Env, s: Tree, c: Client, cs: seq<Change>, x: Id)
    requires env.excludes == [] && Fit(c) && ValidTree(s) && NoRestore(s, cs)
    requires AllHomed(s, c, cs) && Replay(env, s, c, cs).Done?
    ensures Replay(env, s, c, cs).c.pulls >= c.pulls
    ensures FolderHome(s, c, x) ==> FolderHome(s, Replay(env, s, c, cs).c, x)
    decreases |cs|
  {
    if cs != [] {
      var next := ApplyChange(env, s, c, cs[0]).c;
      HomedTail(env, s, c, cs);
      HomedNeverUnpulls(env, s, c, cs[0]);
      if FolderHome(s, c, x) {
        HomedKeepsFolders(env, s, c, cs[0], x);
      }
      HomedRunKeeps(env, s, next, cs[1..], x);
    }
  }

  lemma HomedTail(env: Env, s: Tree, c: Client, cs: seq<Change>)
    requires env.excludes == [] && Fit(c) && ValidTree(s) && NoRestore(s, cs)
    requires cs != [] && AllHomed(s, c, cs) && ApplyChange(env, s, c, cs[0]).Done?
    ensures Homed(s, c, cs[0])
    ensures var next := ApplyChange(env, s, c, cs[0]).c;
            Fit(next) && NoRestore(s, cs[1..]) && AllHomed(s, next, cs[1..])
  {
    assert cs[0] in cs;
    StepIsFit(env, s, c, cs[0]);
    assert forall was :: was in cs[1..] ==> was in cs;
    forall was | was in cs[1..] ensures Homed(s, ApplyChange(env, s, c, cs[0]).c, was) {
      StaysHome(env, s, c, cs[0], was);
    }
  }

  /** A homed run over entries that are not all idle ends elsewhere than it began. */
  lemma {:induction false} LoudRunChanges(env: Env, s: Tree, c: Client, cs: seq<Change>)
    requires env.excludes == [] && Fit(c) && ValidTree(s) && NoRestore(s, cs)
    requires AllHomed(s, c, cs) && !AllIdle(env, s, c, cs)
    ensures Replay(env, s, c, cs) != Done(c)
    decreases |cs|
  {
    var first := ApplyChange(env, s, c, cs[0]);
    if first.Done? {
      HomedTail(env, s, c, cs);
      if Idle(env, s, c, cs[0]) {
        NoOpIffIdle(env, s, c, cs[0]);
        LoudRunChanges(env, s, c, cs[1..]);
      } else {
        LoudMakesProgress(env, s, c, cs[0]);
        if Replay(env, s, first.c, cs[1..]).Done? {
          HomedRunKeeps(env, s, first.c, cs[1..], cs[0].id);
        }
      }
    }
  }

  /** Where the run stands after `k` entries, replaying them all again changes nothing. */
  ghost predicate RerunIsNothing(env: Env, s: Tree, c: Client, cs: seq<Change>, k: nat)
    requires k <= |cs|
  {
    var stop := Replay(env, s, c, cs[..k]);
    stop.Done? ==> Replay(env, s, stop.c, cs[..k]) == stop
  }

  lemma NothingIffHarmless(env: Env, s: Tree, c: Client, cs: seq<Change>, k: nat)
    requires env.excludes == [] && Fit(c) && ValidTree(s) && NoRestore(s, cs) && k <= |cs|
    ensures RerunIsNothing(env, s, c, cs, k) <==> HarmlessAfter(env, s, c, cs, k)
  {
    if Replay(env, s, c, cs[..k]).Done? {
      var stop := Replay(env, s, c, cs[..k]).c;
      ReplayIsFit(env, s, c, cs[..k]);
      HarmlessIsIdle(env, s, c, cs, k);
      assert [] + cs[..k] == cs[..k] && forall ch :: ch in cs[..k] ==> ch in cs;
      ReplayIsHome(env, s, c, [], cs[..k]);
      if AllIdle(env, s, stop, cs[..k]) {
        IdleReplay(env, s, stop, cs[..k]);
      } else {
        LoudRunChanges(env, s, stop, cs[..k]);
      }
    }
  }

  /** When no node is restored, a pull may stop anywhere and the rerun of what it had replayed
      leaves the client exactly where it stopped, if and only if the run is quiet. */
  lemma CrashSafeIffQuiet(env: Env, s: Tree, c: Client, cs: seq<Change>)
    requires env.excludes == [] && Fit(c) && ValidTree(s) && NoRestore(s, cs)
    ensures (forall k :: 0 <= k <= |cs| ==> RerunIsNothing(env, s, c, cs, k)) <==> QuietRun(env, s, c, [], cs)
  {
    HarmlessIffQuiet(env, s, c, cs);
    forall k | 0 <= k <= |cs| ensures RerunIsNothing(env, s, c, cs, k) <==> HarmlessAfter(env, s, c, cs, k) {
      NothingIffHarmless(env, s, c, cs, k);
    }
  }

  // ---- restores ---------------------------------------------------------------------------

  lemma ForgottenFileIsPulled(env: Env, s: Tree, c: Client, x: Id)
    requires env.excludes == [] && x in s && s[x].kind == IsFile
    requires Locate(c.rows, x).None? && s[x].path !in c.rows && ApplyChange(env, s, c, Upsert(x)).Done?
    ensures ApplyChange(env, s, c, Upsert(x)).c.pulls == c.pulls + 1
  {
  }

  /** A file that was trashed and restored is deleted and downloaded again by every rerun. */
  lemma RestoreDownloadsAgain(env: Env, s: Tree, c: Client, x: Id)
    requires env.excludes == [] && Fit(c) && ValidTree(s)
    requires x in s && s[x].kind == IsFile && Tracked(c.rows, s, x)
    ensures Replay(env, s, c, [Delete(x), Upsert(x)]) != Done(c)
  {
    var both, first := [Delete(x), Upsert(x)], ApplyChange(env, s, c, Delete(x));
    assert both[1..] == [Upsert(x)];
    ReplayOne(env, s, first.c, Upsert(x));
    if first.Done? && ApplyChange(env, s, first.c, Upsert(x)).Done? {
      DropForgets(env, c, s[x].path);
      ForgottenFileIsPulled(env, s, first.c, x);
    }
  }

  lemma DropForgets(env: Env, c: Client, p: Path)
    requires UniqueIds(c.rows) && p in c.rows && c.rows[p].kind == IsFile && DropLocal(env, c, p, c.rows[p]).Done?
    ensures var e := DropLocal(env, c, p, c.rows[p]).c;
            e.rows == c.rows - {p} && e.pulls == c.pulls
  {
    ConflictCopyRows(env, c, p);
  }

  /** An empty folder that was trashed and restored is deleted and made again: the rerun ends where
      it began although its first entry is not harmless. So CrashSafeIffQuiet stops at restores. */
  lemma RestoredFolderIsMadeAgain(env: Env, s: Tree, c: Client, x: Id)
    requires env.excludes == [] && Fit(c) && ValidTree(s) && FolderHome(s, c, x) && s[x].kind == IsFolder
    requires forall q :: (q in c.disk || q in c.rows) && Under(q, s[x].path) ==> q == s[x].path
    ensures Replay(env, s, c, [Delete(x), Upsert(x)]) == Done(c)
    ensures !Idle(env, s, c, Delete(x)) && !QuietRun(env, s, c, [], [Delete(x), Upsert(x)])
  {
    var both, p := [Delete(x), Upsert(x)], s[x].path;
    var first := ApplyChange(env, s, c, Delete(x));
    assert Locate(c.rows, x) == Some(p);
    assert first == Done(c.(disk := c.disk - {p}, rows := c.rows - {p})) by {
      NotBarred(c.disk, p);
      assert Without(c.disk, p) == c.disk - {p};
      assert ForgetSubtree(c.rows, p) == c.rows - {p};
    }
    assert both[1..] == [Upsert(x)];
    ReplayOne(env, s, first.c, Upsert(x));
    MadeAgain(c, p, x, s[x]);
    assert Delete(x) in [] + [both[0]];
    assert !Quiet(s, first.c, Upsert(x), [] + [both[0]]);
  }

  lemma MadeAgain(c: Client, p: Path, x: Id, n: Node)
    requires Fit(c) && n.path == p && p in c.disk && c.disk[p].Dir? && p in c.rows && c.rows[p] == FolderEntry(x)
    ensures MaterializeFolder(c.(disk := c.disk - {p}, rows := c.rows - {p}), x, n) == Done(c)
  {
    MkdirExisting(c.disk, p);
    assert p[..|p|] == p && p in Prefixes(p);
    var d := c.disk - {p};
    assert forall q :: q in Prefixes(p) && q != p ==> q in c.disk by {
      assert MkdirAll(c.disk, p).value.Keys == c.disk.Keys + Prefixes(p);
    }
    assert MkdirAll(d, p).Some? && MkdirAll(d, p).value == c.disk;
    assert (c.rows - {p})[p := FolderEntry(x)] == c.rows;
  }
}
