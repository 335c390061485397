/**
  What becomes of the file of a node that was trashed. Its delete removes it from disk, unless a folder
  above it moved in the same stretch: the file went along, its row did not, because the upsert that
  would have moved the row carries no node any more. The file then stays, untracked, and the next push
  uploads it as new.
 */
module Leftovers {
  import opened Base
  import opened LocalDisk
  import opened ConflictNames
  import opened Pull
  import opened Journal
  import opened Resume
  import opened Rerun
  import opened Refusals
  import opened EditSurvival
  import opened Shadow
  import opened Server
  import opened Push
  import opened StuckRerun

  // ---- one file ---------------------------------------------------------------------------

  /** The row of the dead node `x` is still at `p`; its file `f` is where the moves have taken it. */
  ghost predicate Kept(c: Client, x: Id, e: Entry, f: Obj, p: Path, w: Place) {
    && p in c.rows && c.rows[p] == e && e.id == x && e.kind == IsFile && f.File?
    && w.path in c.disk && c.disk[w.path] == f
    && (w.path == p || w.path !in c.rows)
  }

  /** The entry is for another node and aims neither at the row nor at the file: it brings no node to
      either path and deletes no folder above them, and a folder that moves lands on no rows. */
  ghost predicate Spares(s: Tree, c: Client, x: Id, p: Path, w: Place, ch: Change) {
    match ch
    case Delete(y) =>
      && y != x
      && forall q :: q in c.rows && c.rows[q].id == y && c.rows[q].kind == IsFolder ==> !Under(p, q) && !Under(w.path, q)
    case Upsert(y) =>
      y in s ==> s[y].path != p && s[y].path != w.path && ClearMove(c, y, s[y].path)
  }

  ghost predicate SparesRun(env: Env, s: Tree, c: Client, x: Id, p: Path, w: Place, cs: seq<Change>)
    decreases |cs|
  {
    cs != [] ==>
      && Spares(s, c, x, p, w, cs[0])
      && var next := ApplyChange(env, s, c, cs[0]);
         (next.Done? ==> SparesRun(env, s, next.c, x, p, Follow(s, c, w, cs[0]), cs[1..]))
  }

  lemma MoveKeeps(c: Client, x: Id, e: Entry, f: Obj, p: Path, w: Place, a: Path, q: Path, v: Place)
    requires Sound(c) && Kept(c, x, e, f, p, w) && a in c.rows && c.rows[a].id != x && a != q && q != []
    requires q != p && q != w.path && MoveLocal(c, a, q).Done?
    requires a in c.disk && c.disk[a].Dir? ==> forall r :: r in c.rows ==> !Under(r, q)
    requires v == if a in c.disk && Under(w.path, a) && (w.path == a || c.disk[a].Dir?)
                  then Place(Relocate(w.path, a, q), w.carried || c.disk[a].Dir?) else w
    ensures Kept(MoveLocal(c, a, q).c, x, e, f, p, v) && v.path != q
  {
    MkdirAllKeepsTree(c.disk, Parent(q));
    var d := MkdirAll(c.disk, Parent(q)).value;
    if a in c.disk && c.disk[a].Dir? {
      if Under(w.path, a) {
        Carried(d, a, q, w.path);
      } else {
        NotCarried(d, a, q, w.path);
      }
    }
  }

  lemma FollowKeeps(s: Tree, c: Client, x: Id, e: Entry, f: Obj, p: Path, w: Place, y: Id)
    requires Sound(c) && ValidTree(s) && Kept(c, x, e, f, p, w) && x !in s && y in s
    requires Spares(s, c, x, p, w, Upsert(y)) && FollowMove(c, y, s[y].path).Done?
    ensures var v := Follow(s, c, w, Upsert(y));
            Kept(FollowMove(c, y, s[y].path).c, x, e, f, p, v) && v.path != s[y].path
  {
    var at, q := Locate(c.rows, y), s[y].path;
    if at.Some? && at.value != q {
      MoveKeeps(c, x, e, f, p, w, at.value, q, Follow(s, c, w, Upsert(y)));
    }
  }

  lemma UpsertKeeps(env: Env, s: Tree, c: Client, x: Id, e: Entry, f: Obj, p: Path, w: Place, y: Id)
    requires env.excludes == [] && Sound(c) && ValidTree(s) && Kept(c, x, e, f, p, w) && x !in s && y in s
    requires Spares(s, c, x, p, w, Upsert(y)) && ApplyChange(env, s, c, Upsert(y)).Done?
    ensures Kept(ApplyChange(env, s, c, Upsert(y)).c, x, e, f, p, Follow(s, c, w, Upsert(y)))
  {
    var n, moved := s[y], FollowMove(c, y, s[y].path).c;
    FollowKeeps(s, c, x, e, f, p, w, y);
    FollowMoveSound(c, y, n.path);
    if n.kind == IsFolder {
      MkdirAllKeepsTree(moved.disk, n.path);
    } else {
      FileUpsertDisk(env, moved, y, n);
      FileUpsertRows(env, moved, y, n);
    }
  }

  /** Dropping another node's entry takes neither the row nor the file. */
  lemma DropKeeps(env: Env, c: Client, x: Id, e: Entry, f: Obj, p: Path, w: Place, a: Path)
    requires Sound(c) && Kept(c, x, e, f, p, w) && a in c.rows && c.rows[a].id != x
    requires c.rows[a].kind == IsFolder ==> !Under(p, a) && !Under(w.path, a)
    requires DropLocal(env, c, a, c.rows[a]).Done?
    ensures Kept(DropLocal(env, c, a, c.rows[a]).c, x, e, f, p, w)
  {
    if c.rows[a].kind == IsFile {
      DropLocalRows(env, c, a);
      if LocalStatus(c.disk, a, c.rows[a]) == (true, true) {
        ConflictCopyDisk(env, c, a);
      }
    }
  }

  lemma StepKeeps(env: Env, s: Tree, c: Client, x: Id, e: Entry, f: Obj, p: Path, w: Place, ch: Change)
    requires env.excludes == [] && Sound(c) && ValidTree(s) && Kept(c, x, e, f, p, w) && x !in s
    requires Spares(s, c, x, p, w, ch) && ApplyChange(env, s, c, ch).Done?
    ensures Kept(ApplyChange(env, s, c, ch).c, x, e, f, p, Follow(s, c, w, ch))
  {
    match ch
    case Upsert(y) =>
      if y in s {
        UpsertKeeps(env, s, c, x, e, f, p, w, y);
      } else {
        FollowStays(s, c, w, ch);
      }
    case Delete(y) =>
      FollowStays(s, c, w, ch);
      if Locate(c.rows, y).Some? {
        DropKeeps(env, c, x, e, f, p, w, Locate(c.rows, y).value);
      }
  }

  lemma {:induction false} RunKeeps(env: Env, s: Tree, c: Client, x: Id, e: Entry, f: Obj, p: Path, w: Place, cs: seq<Change>)
    requires env.excludes == [] && Sound(c) && ValidTree(s) && Kept(c, x, e, f, p, w) && x !in s
    requires SparesRun(env, s, c, x, p, w, cs) && Replay(env, s, c, cs).Done?
    ensures Sound(Replay(env, s, c, cs).c)
    ensures Kept(Replay(env, s, c, cs).c, x, e, f, p, FollowRun(env, s, c, w, cs))
    decreases |cs|
  {
    if cs != [] {
      StepKeeps(env, s, c, x, e, f, p, w, cs[0]);
      ApplyChangeSound(env, s, c, cs[0]);
      RunKeeps(env, s, ApplyChange(env, s, c, cs[0]).c, x, e, f, p, Follow(s, c, w, cs[0]), cs[1..]);
    }
  }

  /** The file is on disk at `q` and the database knows nothing of it. */
  predicate LeftAt(c: Client, f: Obj, q: Path) {
    q in c.disk && c.disk[q] == f && q !in c.rows
  }

  /** The delete itself: it removes what is at the recorded path. */
  lemma DeleteLeaves(env: Env, s: Tree, c: Client, x: Id, e: Entry, f: Obj, p: Path, w: Place)
    requires env.excludes == [] && Sound(c) && Kept(c, x, e, f, p, w)
    requires LocalStatus(map[p := f], p, e) == (true, false)
    requires ApplyChange(env, s, c, Delete(x)).Done?
    ensures var out := ApplyChange(env, s, c, Delete(x)).c;
            && p !in out.rows
            && (LeftAt(out, f, w.path) <==> w.path != p)
            && (w.path == p ==> p !in out.disk)
  {
    assert Locate(c.rows, x) == Some(p);
    DropLocalRows(env, c, p);
    if LocalStatus(c.disk, p, e) == (true, true) {
      ConflictCopyDisk(env, c, p);
    }
  }

  /** A tracked, unedited file whose node is dead: over any stretch that aims at neither its row nor
      its place, up to and with its delete, it is removed from disk if and only if the folder moves of
      the stretch have not carried it away from its recorded path; otherwise it stays where they took
      it, and nothing is recorded there. */
  lemma RemovedIffNotCarried(env: Env, s: Tree, c: Client, p: Path, cs: seq<Change>)
    requires env.excludes == [] && Sound(c) && ValidTree(s)
    requires p in c.rows && c.rows[p].kind == IsFile && c.rows[p].id !in s
    requires p in c.disk && c.disk[p].File? && !Edited(c, p)
    requires SparesRun(env, s, c, c.rows[p].id, p, Place(p, false), cs)
    requires Replay(env, s, c, cs + [Delete(c.rows[p].id)]).Done?
    ensures var out := Replay(env, s, c, cs + [Delete(c.rows[p].id)]).c;
            var w := FollowRun(env, s, c, Place(p, false), cs);
            && p !in out.rows
            && (LeftAt(out, c.disk[p], w.path) <==> w.path != p)
            && (w.path == p ==> p !in out.disk)
  {
    var x, e, f, w := c.rows[p].id, c.rows[p], c.disk[p], Place(p, false);
    ReplaySplit(env, s, c, cs, [Delete(x)]);
    var mid := Replay(env, s, c, cs).c;
    ReplayOne(env, s, mid, Delete(x));
    RunKeeps(env, s, c, x, e, f, p, w, cs);
    DeleteLeaves(env, s, mid, x, e, f, p, FollowRun(env, s, c, w, cs));
  }

  // ---- and then it comes back --------------------------------------------------------------

  /** A push from a mirroring database makes a live node of every untracked file. */
  lemma UntrackedReturns(env: Env, w: Sides, walk: seq<Path>, listed: seq<Path>, out: Progress, q: Path)
    requires env.excludes == [] && Ready(w) && Pushes(env, w, walk, listed, out)
    requires q in w.c.disk && w.c.disk[q].File? && q !in w.c.rows
    ensures !Taken(w.srv.nodes, q) && out.Ok? && Taken(out.w.srv.nodes, q)
    ensures Content(out.w.srv.nodes[NodeAt(out.w.srv.nodes, q)].hash) == w.c.disk[q].bytes
  {
    NotTaken(w, q);
    PushedContent(env, w, walk, listed, out, q);
  }

  const W: Tree := map[2 := Folder(F)]

  /** g moves to f with the file in it, and the file is trashed. */
  function TrashHistory(): seq<Commit> {
    [Commit([Upsert(2), Upsert(3)], U3)] + [Commit([Delete(3)], W)]
  }

  function TrashPage(): seq<Change> {
    [Upsert(2), Upsert(3), Delete(3)]
  }

  /** Mirrors W; the file is where the folder went. */
  function Littered(env: Env): Client {
    Client(map[F := Dir, FX := FileNow(env, GX, NEW)], map[F := FolderEntry(2)], 0)
  }

  lemma LastTrashIsValid()
    ensures ValidTree(W) && ValidCommit(U3, Commit([Delete(3)], W))
  {
    assert ValidTree(W) by { Names(); }
    Names();
    assert [Delete(3)][0].id in Ids([Delete(3)]);
  }

  lemma TrashTail()
    ensures var hs := [Commit([Delete(3)], W)];
            ValidHistory(U3, hs) && Latest(U3, hs) == W && Entries(hs) == [Delete(3)]
  {
    assert ValidTree(U3) by { TreesAreTrees(); }
    LastTrashIsValid();
    LastCommit(U3, Commit([Delete(3)], W));
  }

  lemma TrashIsJournalled()
    ensures ValidHistory(U2, TrashHistory()) && Latest(U2, TrashHistory()) == W && Entries(TrashHistory()) == TrashPage()
  {
    TrashTail();
    MovesFirst([Commit([Delete(3)], W)], TrashHistory());
    assert [Upsert(2), Upsert(3)] + [Delete(3)] == TrashPage();
  }

  lemma DeleteMisses(env: Env)
    requires env.excludes == []
    ensures ApplyChange(env, W, InF(env), Delete(3)) == Done(Littered(env))
  {
    Names();
    var c := InF(env);
    Located(c.rows, 3, GX);
    assert !Barred(c.disk, GX);
    assert c.disk - {GX} == c.disk && c.rows - {GX} == Littered(env).rows;
  }

  lemma TrashPageRuns(env: Env)
    requires env.excludes == []
    ensures Replay(env, W, InG(env), TrashPage()) == Done(Littered(env))
  {
    MoveOnly(env, W);
    DeleteMisses(env);
    assert TrashPage() == [Upsert(2)] + [Upsert(3), Delete(3)] && [Upsert(3), Delete(3)] == [Upsert(3)] + [Delete(3)];
    Unfold(env, W, InG(env), Upsert(2), [Upsert(3), Delete(3)]);
    Unfold(env, W, InF(env), Upsert(3), [Delete(3)]);
    ReplayOne(env, W, InF(env), Delete(3));
  }

  lemma LitteredIsReady(env: Env, w: Sides)
    requires w.c == Littered(env) && w.srv.nodes == W && ValidServer(w.srv)
    ensures Ready(w)
  {
    Names();
    var d := w.c.disk;
    assert IsTree(d) by {
      assert IsDir(d, Parent(F)) && IsDir(d, Parent(FX));
    }
  }

  /** The client starts in step and edits nothing; the pull returns without an error and its database
      mirrors the server; and the push after it uploads the trashed file again. */
  lemma TrashedFileReturns(env: Env, w: Sides, walk: seq<Path>, listed: seq<Path>, out: Progress)
    requires env.excludes == [] && w.c == Littered(env) && w.srv.nodes == W && ValidServer(w.srv)
    requires Pushes(env, w, walk, listed, out)
    ensures ValidHistory(U2, TrashHistory()) && Latest(U2, TrashHistory()) == W && Entries(TrashHistory()) == TrashPage()
    ensures Sound(InG(env)) && Mirrors(InG(env).rows, U2) && InStep(InG(env), G) && InStep(InG(env), GX)
    ensures Replay(env, W, InG(env), TrashPage()) == Done(w.c) && Mirrors(w.c.rows, W)
    ensures !Taken(W, FX) && out.Ok? && Taken(out.w.srv.nodes, FX)
    ensures Content(out.w.srv.nodes[NodeAt(out.w.srv.nodes, FX)].hash) == Content(NEW)
  {
    TrashIsJournalled();
    StartsInG(env);
    TrashPageRuns(env);
    LitteredIsReady(env, w);
    UntrackedReturns(env, w, walk, listed, out, FX);
  }
}
