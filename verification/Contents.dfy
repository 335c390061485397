/**
  What a replay puts on disk. The rows it leaves mirror the server; this is about the bytes beside them:
  exactly when the path of a live node holds what its row says.
 */
module Contents {
  import opened Base
  import opened LocalDisk
  import opened ConflictNames
  import opened Pull
  import opened Journal
  import opened Shadow
  import opened Resume
  import opened Rerun
  import opened Refusals
  import opened Server
  import opened Push

  /** The node is recorded where it belongs, and the disk holds there what the row says: the folder, or
      the bytes of the version. */
  ghost predicate Holds(c: Client, s: Tree, x: Id)
    requires x in s
  {
    && Tracked(c.rows, s, x)
    && s[x].path in c.disk
    && (if s[x].kind == IsFolder then c.disk[s[x].path].Dir?
        else c.disk[s[x].path].File? && c.disk[s[x].path].bytes == Content(s[x].hash))
  }

  lemma HoldsIsInStep(c: Client, s: Tree, x: Id)
    requires HashesAgree(c.rows) && x in s && Tracked(c.rows, s, x)
    ensures Holds(c, s, x) <==> InStep(c, s[x].path)
  {
  }

  /** What stands where the node belongs once its file or folder has followed it. */
  ghost function Found(s: Tree, c: Client, x: Id): Option<Obj>
    requires x in s
  {
    var at, q := Locate(c.rows, x), s[x].path;
    if at.Some? && at.value != q then Arrived(c.disk, at.value, q)
    else if q in c.disk then Some(c.disk[q]) else None
  }

  /** The version recorded is the server's, so the upsert downloads nothing, but what stands where the
      file belongs has other bytes: an edit, or another file. */
  ghost predicate LeftUnfit(s: Tree, c: Client, x: Id) {
    && x in s && s[x].kind == IsFile
    && Locate(c.rows, x).Some? && c.rows[Locate(c.rows, x).value].remote == s[x].hash
    && Found(s, c, x).Some?
    && !(Found(s, c, x).value.File? && Found(s, c, x).value.bytes == Content(s[x].hash))
  }

  // ---- one upsert ---------------------------------------------------------------------------

  /** A file upsert leaves a present file of the recorded version alone; otherwise the version's bytes
      are there afterwards, with its row. */
  lemma FileUpsertContent(env: Env, c: Client, x: Id, n: Node)
    requires IsTree(c.disk) && n.path != [] && ApplyFileUpsert(env, c, x, n).Done?
    ensures var e := ApplyFileUpsert(env, c, x, n).c;
            if n.path in c.rows && c.rows[n.path].remote == n.hash && n.path in c.disk then e == c
            else n.path in e.disk && e.disk[n.path].File? && e.disk[n.path].bytes == Content(n.hash)
                 && n.path in e.rows && e.rows[n.path] == FileEntry(env, x, n)
  {
  }

  /** Both sides changed: the server's bytes take the name, the edit the free conflict name beside it. */
  lemma EditStepsAside(env: Env, c: Client, x: Id, n: Node)
    requires IsTree(c.disk) && n.path in c.disk && Edited(c, n.path)
    requires c.rows[n.path].remote != n.hash && ApplyFileUpsert(env, c, x, n).Done?
    ensures var e, dst := ApplyFileUpsert(env, c, x, n).c, CopyPath(c.disk.Keys, n.path, env.tag);
            && n.path in e.disk && e.disk[n.path].File? && e.disk[n.path].bytes == Content(n.hash)
            && dst !in c.disk && dst in e.disk && e.disk[dst] == c.disk[n.path]
            && (dst !in c.rows ==> dst !in e.rows)
  {
    FileUpsertContent(env, c, x, n);
    NotBarred(c.disk, n.path);
    AsideThenPulled(env, c, x, n);
  }

  /** A file that was never recorded at the node's path is not set aside: it is replaced. */
  lemma UntrackedIsOverwritten(env: Env, c: Client, x: Id, n: Node)
    requires IsTree(c.disk) && n.path in c.disk && c.disk[n.path].File? && n.path !in c.rows
    requires ApplyFileUpsert(env, c, x, n).Done?
    ensures ApplyFileUpsert(env, c, x, n).c.disk == c.disk[n.path := File(Content(n.hash), env.stamp(n.path, n.hash))]
  {
    assert IsDir(c.disk, Parent(n.path));
    MkdirExisting(c.disk, Parent(n.path));
  }

  lemma AsideThenPulled(env: Env, c: Client, x: Id, n: Node)
    requires IsTree(c.disk) && n.path in c.disk && c.disk[n.path].File?
    requires ConflictCopy(env, c, n.path).Done? && PullDown(env, ConflictCopy(env, c, n.path).c, x, n).Done?
    ensures var e, dst := PullDown(env, ConflictCopy(env, c, n.path).c, x, n).c, CopyPath(c.disk.Keys, n.path, env.tag);
            && dst !in c.disk && dst in e.disk && e.disk[dst] == c.disk[n.path]
            && (dst !in c.rows ==> dst !in e.rows)
  {
    ConflictCopyDisk(env, c, n.path);
    ConflictCopyRows(env, c, n.path);
    ConflictCopyKeepsTree(env, c, n.path);
    PullDownDisk(env, ConflictCopy(env, c, n.path).c, x, n);
  }

  /** What follows a node arrives as it was. */
  lemma FollowFinds(s: Tree, c: Client, x: Id)
    requires Fit(c) && ValidTree(s) && x in s && FollowMove(c, x, s[x].path).Done?
    ensures var e, q := FollowMove(c, x, s[x].path).c, s[x].path;
            && (if q in e.disk then Found(s, c, x) == Some(e.disk[q]) else Found(s, c, x) == None)
            && (Locate(c.rows, x).Some? ==> q in e.rows && e.rows[q] == c.rows[Locate(c.rows, x).value])
            && (Locate(c.rows, x).None? ==> e == c)
  {
    var at, q := Locate(c.rows, x), s[x].path;
    if at.Some? && at.value != q {
      MoveArrives(c, at.value, q);
    }
  }

  /** After an upsert that is not shadowed the node's path holds what its row says, unless the file was
      left alone and is not the version's. */
  lemma UpsertHoldsIff(env: Env, s: Tree, c: Client, x: Id)
    requires env.excludes == [] && Fit(c) && ValidTree(s) && x in s
    requires ApplyChange(env, s, c, Upsert(x)).Done? && !Shadowed(c, s, x)
    ensures Holds(ApplyChange(env, s, c, Upsert(x)).c, s, x) <==> !LeftUnfit(s, c, x)
  {
    var n, moved := s[x], FollowMove(c, x, s[x].path).c;
    UpsertRows(env, s, c, x);
    UpsertPlaces(env, s, c, x);
    FollowFinds(s, c, x);
    FollowMoveSound(c, x, n.path);
    if n.kind == IsFile {
      FileUpsertContent(env, moved, x, n);
    }
  }

  // ---- a node that has come to rest ------------------------------------------------------------

  /** Nothing at or above the path of a node at rest is taken away. */
  lemma NotTakenAway(c: Client, origin: Tree, b: Tree, h: Commit, left: seq<Change>, hs: seq<Commit>, s: Tree, x: Id)
    requires ValidCommit(b, h) && ValidTree(s) && ValidHistory(h.tree, hs) && s == Latest(h.tree, hs)
    requires NoHandover(b, [h] + hs)
    requires left != [] && left[0] in h.changes
    requires Midway(c, b, h.tree, left, hs, s) && Shadow.Rows(c.rows, origin, b, h.tree, left, s)
    requires Steady(x, h.tree, hs, s) && Tracked(c.rows, s, x)
    ensures Leaves(s, c, left[0]).Some? ==> !Under(s[x].path, Leaves(s, c, left[0]).value)
  {
    SteadyNow(x, h.tree, hs, s);
    if Leaves(s, c, left[0]).Some? {
      var p := Leaves(s, c, left[0]).value;
      match left[0]
      case Delete(f) => SweepSpares(c, b, h, left, hs, s, f, p, x);
      case Upsert(y) => MoveSpares(c, origin, b, h, left, hs, s, y, p, x);
    }
  }

  /** Above a node at rest stands a folder at rest, so no other node moves away from there. */
  lemma MoveSpares(c: Client, origin: Tree, b: Tree, h: Commit, left: seq<Change>, hs: seq<Commit>, s: Tree, y: Id, p: Path, x: Id)
    requires ValidCommit(b, h) && ValidTree(s) && ValidHistory(h.tree, hs) && s == Latest(h.tree, hs)
    requires NoHandover(b, [h] + hs)
    requires [] !in c.rows && Shadow.Rows(c.rows, origin, b, h.tree, left, s)
    requires Steady(x, h.tree, hs, s) && Tracked(c.rows, s, x)
    requires y in s && p in c.rows && c.rows[p].id == y && p != s[y].path
    ensures !Under(s[x].path, p)
  {
    SteadyNow(x, h.tree, hs, s);
    assert p == s[x].path ==> y == x;
    assert Explained(c.rows[p], p, origin, b, s) && ([h] + hs)[0] == h;
    if p < s[x].path {
      var g := FolderAbove(s, x, p);
      AncestorsAreSteady(g, x, h.tree, hs, s);
      SteadyNow(g, h.tree, hs, s);
    }
  }

  /** The node's row is its own and `o` stands at its path. */
  ghost predicate Rests(c: Client, s: Tree, x: Id, o: Obj) {
    x in s && Tracked(c.rows, s, x) && s[x].path in c.disk && c.disk[s[x].path] == o
  }

  /** An entry for another node that does not take the path away changes neither row nor disk there. */
  lemma StepRests(env: Env, s: Tree, c: Client, ch: Change, x: Id, o: Obj)
    requires env.excludes == [] && Fit(c) && ValidTree(s) && ApplyChange(env, s, c, ch).Done?
    requires Rests(c, s, x, o) && ch.id != x
    requires Leaves(s, c, ch).Some? ==> !Under(s[x].path, Leaves(s, c, ch).value)
    ensures Rests(ApplyChange(env, s, c, ch).c, s, x, o)
  {
    match ch
    case Delete(y) =>
      DeleteRows(env, s, c, y);
      DeleteKeepsDisk(env, s, c, y, s[x].path);
    case Upsert(y) =>
      if y in s {
        assert s[y].path != s[x].path;
        UpsertRows(env, s, c, y);
        UpsertKeepsDisk(env, s, c, y, s[x].path);
      }
  }

  /** In the middle of the transaction `h`, with `left` of it and then `hs` to replay. */
  ghost predicate Underway(c: Client, origin: Tree, b: Tree, h: Commit, left: seq<Change>, hs: seq<Commit>, s: Tree) {
    && ValidCommit(b, h) && ValidTree(s) && ValidHistory(h.tree, hs) && s == Latest(h.tree, hs)
    && NoHandover(b, [h] + hs)
    && (forall ch :: ch in left ==> ch in h.changes)
    && Midway(c, b, h.tree, left, hs, s) && Shadow.Rows(c.rows, origin, b, h.tree, left, s)
  }

  lemma UnderwayStep(env: Env, c: Client, origin: Tree, b: Tree, h: Commit, left: seq<Change>, hs: seq<Commit>, s: Tree)
    requires env.excludes == [] && left != [] && Underway(c, origin, b, h, left, hs, s)
    requires ApplyChange(env, s, c, left[0]).Done? && Clean(env, s, c, left + Entries(hs))
    ensures var next := ApplyChange(env, s, c, left[0]).c;
            Underway(next, origin, b, h, left[1..], hs, s) && Clean(env, s, next, left[1..] + Entries(hs))
    ensures Replay(env, s, c, left + Entries(hs)) ==
            Replay(env, s, ApplyChange(env, s, c, left[0]).c, left[1..] + Entries(hs))
  {
    var cs := left + Entries(hs);
    assert cs[0] == left[0] && cs[1..] == left[1..] + Entries(hs);
    IdsConcat(left[1..], Entries(hs));
    MidwayStep(env, c, b, h, left, hs, s);
    Shadow.RowsStep(env, c, origin, b, h.tree, left, s);
    assert forall ch :: ch in left[1..] ==> ch in left;
  }

  lemma NextCommit(c: Client, origin: Tree, b: Tree, h: Commit, hs: seq<Commit>, s: Tree)
    requires hs != [] && Underway(c, origin, b, h, [], hs, s)
    ensures Underway(c, origin, h.tree, hs[0], hs[0].changes, hs[1..], s)
    ensures [] + Entries(hs) == hs[0].changes + Entries(hs[1..])
  {
    LeaveCommit(c, b, h, hs, s);
    EnterCommit(c, h.tree, hs, s);
    forall p | p in c.rows ensures Explained(c.rows[p], p, origin, h.tree, s) {
    }
    IntoCommit(c, origin, h.tree, hs[0], s);
    assert [hs[0]] + hs[1..] == hs && ([h] + hs)[1..] == hs;
  }

  /** What stands at the path of a node that no remaining entry mentions stands there in the end. */
  lemma {:induction false} RestsOn(env: Env, c: Client, origin: Tree, b: Tree, h: Commit, left: seq<Change>,
                                   hs: seq<Commit>, s: Tree, x: Id, o: Obj)
    requires env.excludes == [] && Underway(c, origin, b, h, left, hs, s)
    requires Replay(env, s, c, left + Entries(hs)).Done? && Clean(env, s, c, left + Entries(hs))
    requires Rests(c, s, x, o) && x !in Ids(left) && x !in Ids(Entries(hs))
    ensures Rests(Replay(env, s, c, left + Entries(hs)).c, s, x, o)
    decreases |hs|, |left|
  {
    if left != [] {
      UnmentionedIsSteady(x, h.tree, hs);
      NotTakenAway(c, origin, b, h, left, hs, s, x);
      UnderwayStep(env, c, origin, b, h, left, hs, s);
      SplitIds(left);
      StepRests(env, s, c, left[0], x, o);
      RestsOn(env, ApplyChange(env, s, c, left[0]).c, origin, b, h, left[1..], hs, s, x, o);
    } else if hs != [] {
      NextCommit(c, origin, b, h, hs, s);
      IdsConcat(hs[0].changes, Entries(hs[1..]));
      RestsOn(env, c, origin, h.tree, hs[0], hs[0].changes, hs[1..], s, x, o);
    } else {
      assert left + Entries(hs) == [];
    }
  }

  lemma SplitIds(cs: seq<Change>)
    requires cs != []
    ensures Ids(cs) == {cs[0].id} + Ids(cs[1..])
  {
    assert cs == [cs[0]] + cs[1..];
    IdsConcat([cs[0]], cs[1..]);
    assert [cs[0]][0].id in Ids([cs[0]]);
  }

  /** The last upsert of `x` leaves its file alone although it is not the version's. */
  ghost predicate EndsUnfit(env: Env, s: Tree, c: Client, cs: seq<Change>, x: Id)
    decreases |cs|
  {
    && cs != []
    && if cs[0] == Upsert(x) && x !in Ids(cs[1..]) then LeftUnfit(s, c, x)
       else
         var next := ApplyChange(env, s, c, cs[0]);
         next.Done? && EndsUnfit(env, s, next.c, cs[1..], x)
  }

  /** The last entry of a live node. */
  lemma LastUpsert(env: Env, c: Client, origin: Tree, b: Tree, h: Commit, left: seq<Change>, hs: seq<Commit>, s: Tree, x: Id)
    requires env.excludes == [] && Underway(c, origin, b, h, left, hs, s) && left != [] && left[0].id == x && x in s
    requires Replay(env, s, c, left + Entries(hs)).Done? && Clean(env, s, c, left + Entries(hs))
    requires x !in Ids(left[1..]) && x !in Ids(Entries(hs))
    ensures Holds(Replay(env, s, c, left + Entries(hs)).c, s, x) <==> !LeftUnfit(s, c, x)
    ensures left[0] == Upsert(x)
  {
    UnmentionedIsSteady(x, h.tree, hs);
    SteadyNow(x, h.tree, hs, s);
    assert left[0] in left;
    CleanHeadOf(env, s, c, left, Entries(hs));
    UnderwayStep(env, c, origin, b, h, left, hs, s);
    UpsertHoldsIff(env, s, c, x);
    UpsertRows(env, s, c, x);
    UpsertPlaces(env, s, c, x);
    var next := ApplyChange(env, s, c, left[0]).c;
    RestsOn(env, next, origin, b, h, left[1..], hs, s, x, next.disk[s[x].path]);
  }

  lemma CleanHeadOf(env: Env, s: Tree, c: Client, left: seq<Change>, rest: seq<Change>)
    requires left != [] && Replay(env, s, c, left + rest).Done? && Clean(env, s, c, left + rest)
    ensures ApplyChange(env, s, c, left[0]).Done?
    ensures left[0].Upsert? && left[0].id !in Ids(left[1..]) && left[0].id !in Ids(rest) ==> !Shadowed(c, s, left[0].id)
  {
    var cs := left + rest;
    assert cs[0] == left[0] && cs[1..] == left[1..] + rest;
    IdsConcat(left[1..], rest);
  }

  lemma {:induction false} ContentOn(env: Env, c: Client, origin: Tree, b: Tree, h: Commit, left: seq<Change>,
                                     hs: seq<Commit>, s: Tree, x: Id)
    requires env.excludes == [] && Underway(c, origin, b, h, left, hs, s) && x in s
    requires Replay(env, s, c, left + Entries(hs)).Done? && Clean(env, s, c, left + Entries(hs))
    requires x in Ids(left) || x in Ids(Entries(hs))
    ensures Holds(Replay(env, s, c, left + Entries(hs)).c, s, x) <==> !EndsUnfit(env, s, c, left + Entries(hs), x)
    decreases |hs|, |left|
  {
    if left == [] {
      NextCommit(c, origin, b, h, hs, s);
      IdsConcat(hs[0].changes, Entries(hs[1..]));
      ContentOn(env, c, origin, h.tree, hs[0], hs[0].changes, hs[1..], s, x);
    } else {
      SplitIds(left);
      CleanHeadOf(env, s, c, left, Entries(hs));
      UnderwayStep(env, c, origin, b, h, left, hs, s);
      UnfitStep(env, s, c, left, Entries(hs), x);
      if x in Ids(left[1..]) || x in Ids(Entries(hs)) {
        ContentOn(env, ApplyChange(env, s, c, left[0]).c, origin, b, h, left[1..], hs, s, x);
      } else {
        LastUpsert(env, c, origin, b, h, left, hs, s, x);
      }
    }
  }

  lemma UnfitStep(env: Env, s: Tree, c: Client, left: seq<Change>, rest: seq<Change>, x: Id)
    requires left != [] && ApplyChange(env, s, c, left[0]).Done?
    ensures EndsUnfit(env, s, c, left + rest, x) <==>
            if left[0] == Upsert(x) && x !in Ids(left[1..]) && x !in Ids(rest) then LeftUnfit(s, c, x)
            else EndsUnfit(env, s, ApplyChange(env, s, c, left[0]).c, left[1..] + rest, x)
  {
    var cs := left + rest;
    assert cs[0] == left[0] && cs[1..] == left[1..] + rest;
    IdsConcat(left[1..], rest);
  }

  // ---- the whole replay ----------------------------------------------------------------------

  lemma StartsUnderway(c: Client, b: Tree, hs: seq<Commit>)
    requires hs != [] && ValidHistory(b, hs) && NoHandover(b, hs) && Sound(c) && Mirrors(c.rows, b)
    ensures Underway(c, b, b, hs[0], hs[0].changes, hs[1..], Latest(b, hs))
  {
    var s := Latest(b, hs);
    LatestIsValid(b, hs);
    MirrorIsBetween(c, b, hs);
    EnterCommit(c, b, hs, s);
    forall p | p in c.rows ensures Explained(c.rows[p], p, b, b, s) {
      assert Tracked(c.rows, b, c.rows[p].id);
    }
    IntoCommit(c, b, b, hs[0], s);
    assert [hs[0]] + hs[1..] == hs;
  }

  /** A replay that returns without an error and meets no shadow leaves the path of a live node holding
      what its row says if and only if the last upsert of the node has not left alone a file that is not
      the version's; a path no entry is about keeps what it held. */
  lemma ReplayContent(env: Env, c: Client, b: Tree, hs: seq<Commit>, x: Id)
    requires env.excludes == [] && ValidHistory(b, hs) && NoHandover(b, hs) && x in Latest(b, hs)
    requires Sound(c) && Mirrors(c.rows, b)
    requires Replay(env, Latest(b, hs), c, Entries(hs)).Done? && Clean(env, Latest(b, hs), c, Entries(hs))
    ensures var s, out := Latest(b, hs), Replay(env, Latest(b, hs), c, Entries(hs)).c;
            && (x in Ids(Entries(hs)) ==> (Holds(out, s, x) <==> !EndsUnfit(env, s, c, Entries(hs), x)))
            && (x !in Ids(Entries(hs)) && Holds(c, s, x) ==> Holds(out, s, x))
  {
    var s := Latest(b, hs);
    if hs != [] {
      StartsUnderway(c, b, hs);
      IdsConcat(hs[0].changes, Entries(hs[1..]));
      if x in Ids(Entries(hs)) {
        ContentOn(env, c, b, b, hs[0], hs[0].changes, hs[1..], s, x);
      } else if Holds(c, s, x) {
        RestsOn(env, c, b, b, hs[0], hs[0].changes, hs[1..], s, x, c.disk[s[x].path]);
      }
    }
  }

  ghost predicate AllHold(c: Client, s: Tree) {
    forall x :: x in s ==> Holds(c, s, x)
  }

  /** From a client that holds the tree of its cursor, the replay leaves one that holds the tree of now
      if and only if no last upsert leaves alone a file that is not the version's. */
  lemma ReplayHoldsIff(env: Env, c: Client, b: Tree, hs: seq<Commit>)
    requires env.excludes == [] && ValidHistory(b, hs) && NoHandover(b, hs)
    requires Sound(c) && Mirrors(c.rows, b) && AllHold(c, b)
    requires Replay(env, Latest(b, hs), c, Entries(hs)).Done? && Clean(env, Latest(b, hs), c, Entries(hs))
    ensures var s, out := Latest(b, hs), Replay(env, Latest(b, hs), c, Entries(hs)).c;
            AllHold(out, s) <==> forall x :: x in s && x in Ids(Entries(hs)) ==> !EndsUnfit(env, s, c, Entries(hs), x)
  {
    var s := Latest(b, hs);
    forall x | x in s
      ensures var out := Replay(env, s, c, Entries(hs)).c;
              Holds(out, s, x) <==> (x in Ids(Entries(hs)) ==> !EndsUnfit(env, s, c, Entries(hs), x))
    {
      ReplayContent(env, c, b, hs, x);
      if x !in Ids(Entries(hs)) {
        UnmentionedIsSteady(x, b, hs);
        SteadyNow(x, b, hs, s);
        HoldsThen(c, b, s, x);
      }
    }
  }

  lemma HoldsThen(c: Client, b: Tree, s: Tree, x: Id)
    requires x in b && x in s && b[x] == s[x] && Holds(c, b, x)
    ensures Holds(c, s, x)
  {
  }

  /** With nothing untracked besides, such a client has converged, and the push after the pull has
      nothing to do. */
  lemma NothingToPush(env: Env, w: Sides, walk: seq<Path>, listed: seq<Path>, out: Progress)
    requires env.excludes == [] && Sound(w.c) && ValidServer(w.srv) && Mirrors(w.c.rows, w.srv.nodes)
    requires AllHold(w.c, w.srv.nodes) && w.c.disk.Keys <= w.c.rows.Keys
    requires Pushes(env, w, walk, listed, out)
    ensures out == Ok(w)
  {
    forall p | p in w.c.rows ensures InStep(w.c, p) {
      var x := w.c.rows[p].id;
      assert Holds(w.c, w.srv.nodes, x);
      HoldsIsInStep(w.c, w.srv.nodes, x);
    }
    ConvergedPushIsIdle(env, w, walk, listed, out);
  }
}
