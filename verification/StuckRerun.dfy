/**
  Two ways for a pull to get stuck. When a page deletes one folder and moves another into its place, a
  pull stopped between the two cannot be rerun: it fails on the same entry every time, although the
  uninterrupted pull goes through. And when a new file takes the name a folder had before it moved
  away, the delete of a node whose row stayed behind fails on POSIX systems, the first time already.
 */
module StuckRerun {
  import opened Base
  import opened LocalDisk
  import opened Pull
  import opened Journal
  import opened Shadow
  import opened Rerun
  import opened Push

  const F: Path := ["f"]
  const G: Path := ["g"]
  const FX: Path := ["f", "x"]
  const GX: Path := ["g", "x"]
  const OLD: Digest := Sha256([1])
  const NEW: Digest := Sha256([2])

  function Folder(p: Path): Node { Node(p, IsFolder, NoHash) }

  function FileAt(p: Path, version: Digest): Node { Node(p, IsFile, version) }

  const U0: Tree := map[1 := Folder(F), 2 := Folder(G), 3 := FileAt(GX, OLD)]
  const U1: Tree := map[1 := Folder(F), 2 := Folder(G), 3 := FileAt(GX, NEW)]
  const U2: Tree := map[2 := Folder(G), 3 := FileAt(GX, NEW)]
  const U3: Tree := map[2 := Folder(F), 3 := FileAt(FX, NEW)]

  /** The file in g gets a new version, f is trashed, g moves to f with the file in it. */
  function PageHistory(): seq<Commit> {
    [Commit([Upsert(3)], U1)] + [Commit([Delete(1)], U2), Commit([Upsert(2), Upsert(3)], U3)]
  }

  function Page(): seq<Change> {
    [Upsert(3), Delete(1), Upsert(2), Upsert(3)]
  }

  function FileNow(env: Env, p: Path, version: Digest): Obj {
    File(Content(version), env.stamp(p, version))
  }

  /** In step with U0. */
  function Before(env: Env): Client {
    Client(map[F := Dir, G := Dir, GX := FileNow(env, GX, OLD)],
           map[F := FolderEntry(1), G := FolderEntry(2), GX := FileEntry(env, 3, FileAt(GX, OLD))], 0)
  }

  /** After the first entry. */
  function Moved1(env: Env): Client {
    Client(map[F := Dir, G := Dir, FX := FileNow(env, FX, NEW)],
           map[F := FolderEntry(1), G := FolderEntry(2), FX := FileEntry(env, 3, FileAt(FX, NEW))], 1)
  }

  /** After the second, where the pull stops. */
  function Halfway(): Client {
    Client(map[G := Dir], map[G := FolderEntry(2)], 1)
  }

  function AfterMove(): Client {
    Client(map[F := Dir], map[F := FolderEntry(2)], 1)
  }

  function Complete(env: Env): Client {
    Client(map[F := Dir, FX := FileNow(env, FX, NEW)],
           map[F := FolderEntry(2), FX := FileEntry(env, 3, FileAt(FX, NEW))], 2)
  }

  /** Where every rerun ends. */
  function Stuck(env: Env): Client {
    Client(map[G := Dir, F := Dir, FX := FileNow(env, FX, NEW)],
           map[G := FolderEntry(2), FX := FileEntry(env, 3, FileAt(FX, NEW))], 2)
  }

  lemma Names()
    ensures F != G && Parent(F) == [] && Parent(G) == [] && Parent(FX) == F && Parent(GX) == G
    ensures FX != GX && Under(FX, F) && Under(GX, G) && !Under(FX, G) && !Under(GX, F) && !Under(G, F) && !Under(F, G)
    ensures Prefixes([]) == {} && Prefixes(F) == {F} && Prefixes(G) == {G}
    ensures |F| == 1 && |FX| == 2 && F != FX && F != GX && G != FX && G != GX
  {
    assert F[0] != G[0] && FX[0] != GX[0] && GX[0] != F[0];
    assert FX[..1] == F && GX[..1] == G;
    assert F[..1] == F && G[..1] == G;
  }

  lemma Located(rows: Rows, id: Id, p: Path)
    requires p in rows && rows[p].id == id && forall q :: q in rows && rows[q].id == id ==> q == p
    ensures Locate(rows, id) == Some(p)
  {
  }

  /** The file has followed its node; the new version is still to come. */
  function Following(env: Env): Client {
    Client(map[F := Dir, G := Dir, FX := FileNow(env, GX, OLD)],
           map[F := FolderEntry(1), G := FolderEntry(2), FX := FileEntry(env, 3, FileAt(GX, OLD))], 0)
  }

  lemma FirstMove(env: Env)
    ensures FollowMove(Before(env), 3, FX) == Done(Following(env))
  {
    Names();
    var c := Before(env);
    Located(c.rows, 3, GX);
    MkdirNothing(c.disk, F);
    var m := MoveLocal(c, GX, FX);
    assert m.Done? && m.c.disk == Following(env).disk && m.c.rows == Following(env).rows;
  }

  lemma FirstPull(env: Env)
    ensures ApplyFileUpsert(env, Following(env), 3, FileAt(FX, NEW)) == Done(Moved1(env))
  {
    Names();
    var c := Following(env);
    assert LocalStatus(c.disk, FX, c.rows[FX]) == (true, false);
    MkdirNothing(c.disk, F);
    var out := PullDown(env, c, 3, FileAt(FX, NEW)).c;
    assert out.disk == Moved1(env).disk && out.rows == Moved1(env).rows;
  }

  lemma MkdirNothing(d: Disk, p: Path)
    requires Prefixes(p) <= d.Keys && forall q :: q in Prefixes(p) ==> d[q].Dir?
    ensures MkdirAll(d, p) == Some(d)
  {
    assert MkdirAll(d, p).value == d;
  }

  lemma FirstEntry(env: Env)
    requires env.excludes == []
    ensures ApplyChange(env, U3, Before(env), Upsert(3)) == Done(Moved1(env))
  {
    FirstMove(env);
    FirstPull(env);
  }

  lemma SecondEntry(env: Env)
    requires env.excludes == []
    ensures ApplyChange(env, U3, Moved1(env), Delete(1)) == Done(Halfway())
  {
    Names();
    var c := Moved1(env);
    Located(c.rows, 1, F);
    Swept(env);
  }

  lemma Swept(env: Env)
    ensures RemoveAll(Moved1(env).disk, F) == Some(Halfway().disk)
    ensures ForgetSubtree(Moved1(env).rows, F) == Halfway().rows
  {
    Names();
    assert Without(Moved1(env).disk, F) == Halfway().disk;
  }

  lemma GoesToF()
    ensures MoveTree(map[G := Dir], G, F) == map[F := Dir]
  {
    Names();
    var d: Disk := map[G := Dir];
    assert IsTree(d);
    assert Relocate(F, F, G) == G;
    forall q ensures q in MoveTree(d, G, F) <==> q == F {
      MoveTreeAt(d, G, F, q);
      if Under(q, F) {
        assert q == F + q[1..] && Relocate(q, F, G) == G + q[1..];
        assert |Relocate(q, F, G)| == 1 ==> q == F;
      }
    }
    MoveTreeAt(d, G, F, F);
  }

  lemma ThirdEntry(env: Env)
    requires env.excludes == []
    ensures ApplyChange(env, U3, Halfway(), Upsert(2)) == Done(AfterMove())
  {
    Names();
    var c := Halfway();
    Located(c.rows, 2, G);
    MkdirNothing(c.disk, []);
    GoesToF();
    assert MoveLocal(c, G, F) == Done(AfterMove()) by {
      assert (c.rows - {G})[F := c.rows[G]] == AfterMove().rows;
    }
    MkdirNothing(AfterMove().disk, F);
    assert AfterMove().rows[F := FolderEntry(2)] == AfterMove().rows;
  }

  lemma LastEntry(env: Env)
    requires env.excludes == []
    ensures ApplyChange(env, U3, AfterMove(), Upsert(3)) == Done(Complete(env))
  {
    Names();
    var c := AfterMove();
    assert Locate(c.rows, 3).None?;
    assert MkdirAll(c.disk, F).Some? && MkdirAll(c.disk, F).value == c.disk;
    var out := PullDown(env, c, 3, FileAt(FX, NEW)).c;
    assert out.disk == Complete(env).disk && out.rows == Complete(env).rows;
  }

  lemma RerunFirst(env: Env)
    requires env.excludes == []
    ensures ApplyChange(env, U3, Halfway(), Upsert(3)) == Done(Stuck(env))
  {
    Names();
    var c := Halfway();
    assert Locate(c.rows, 3).None?;
    assert MkdirAll(c.disk, F).Some? && MkdirAll(c.disk, F).value == map[G := Dir, F := Dir];
    var out := PullDown(env, c, 3, FileAt(FX, NEW)).c;
    assert out.disk == Stuck(env).disk && out.rows == Stuck(env).rows;
  }

  lemma StuckEntries(env: Env)
    requires env.excludes == []
    ensures ApplyChange(env, U3, Stuck(env), Upsert(3)) == Done(Stuck(env))
    ensures ApplyChange(env, U3, Stuck(env), Delete(1)) == Done(Stuck(env))
    ensures ApplyChange(env, U3, Stuck(env), Upsert(2)) == Failed(Stuck(env))
  {
    Names();
    var c := Stuck(env);
    Located(c.rows, 3, FX);
    Located(c.rows, 2, G);
    assert Locate(c.rows, 1).None?;
    assert MkdirAll(c.disk, []).Some? && MkdirAll(c.disk, []).value == c.disk;
  }

  lemma PageUnfolds(env: Env, c: Client)
    ensures Replay(env, U3, c, Page()) ==
            var a := ApplyChange(env, U3, c, Upsert(3));
            if a.Failed? then a else Replay(env, U3, a.c, [Delete(1), Upsert(2), Upsert(3)])
    ensures Replay(env, U3, c, [Delete(1), Upsert(2), Upsert(3)]) ==
            var a := ApplyChange(env, U3, c, Delete(1));
            if a.Failed? then a else Replay(env, U3, a.c, [Upsert(2), Upsert(3)])
    ensures Replay(env, U3, c, [Upsert(2), Upsert(3)]) ==
            var a := ApplyChange(env, U3, c, Upsert(2));
            if a.Failed? then a else Replay(env, U3, a.c, [Upsert(3)])
    ensures Replay(env, U3, c, [Upsert(3)]) == ApplyChange(env, U3, c, Upsert(3))
  {
    assert Page()[1..] == [Delete(1), Upsert(2), Upsert(3)];
    assert [Delete(1), Upsert(2), Upsert(3)][1..] == [Upsert(2), Upsert(3)];
    assert [Upsert(2), Upsert(3)][1..] == [Upsert(3)];
    ReplayOne(env, U3, c, Upsert(3));
  }

  lemma Uninterrupted(env: Env)
    requires env.excludes == []
    ensures Replay(env, U3, Before(env), Page()) == Done(Complete(env))
  {
    FirstEntry(env);
    SecondEntry(env);
    ThirdEntry(env);
    LastEntry(env);
    PageUnfolds(env, Before(env));
    PageUnfolds(env, Moved1(env));
    PageUnfolds(env, Halfway());
    PageUnfolds(env, AfterMove());
  }

  lemma Interrupted(env: Env)
    requires env.excludes == []
    ensures Replay(env, U3, Before(env), Page()[..2]) == Done(Halfway())
  {
    FirstEntry(env);
    SecondEntry(env);
    assert Page()[..2] == [Upsert(3), Delete(1)];
    assert [Upsert(3), Delete(1)][1..] == [Delete(1)];
    ReplayOne(env, U3, Moved1(env), Delete(1));
  }

  lemma Reruns(env: Env)
    requires env.excludes == []
    ensures Replay(env, U3, Halfway(), Page()) == Failed(Stuck(env))
    ensures Replay(env, U3, Stuck(env), Page()) == Failed(Stuck(env))
  {
    RerunFirst(env);
    StuckEntries(env);
    PageUnfolds(env, Halfway());
    PageUnfolds(env, Stuck(env));
  }

  // ---- the history is one the server can produce ------------------------------------------

  lemma TreesAreTrees()
    ensures ValidTree(U0) && ValidTree(U1) && ValidTree(U2) && ValidTree(U3)
  {
    TwoFolders(U0, OLD);
    TwoFolders(U1, NEW);
    Names();
    OneFolder(U2, G, GX);
    OneFolder(U3, F, FX);
  }

  lemma TwoFolders(t: Tree, version: Digest)
    requires t == map[1 := Folder(F), 2 := Folder(G), 3 := FileAt(GX, version)] && version != NoHash
    ensures ValidTree(t)
  {
    Names();
    assert HasFolder(t, G) by { assert t[2].path == G; }
  }

  lemma OneFolder(t: Tree, p: Path, q: Path)
    requires t == map[2 := Folder(p), 3 := FileAt(q, NEW)] && p != [] && q != [] && p != q
    requires Parent(p) == [] && Parent(q) == p
    ensures ValidTree(t)
  {
    assert HasFolder(t, p) by { assert t[2].path == p; }
  }

  lemma NewVersionIsValid()
    ensures ValidCommit(U0, Commit([Upsert(3)], U1))
  {
    TreesAreTrees();
    Names();
    assert [Upsert(3)][0].id in Ids([Upsert(3)]);
  }

  lemma TrashIsValid()
    ensures ValidCommit(U1, Commit([Delete(1)], U2))
  {
    TreesAreTrees();
    Names();
    assert [Delete(1)][0].id in Ids([Delete(1)]);
  }

  lemma MoveCarriesTheFile()
    ensures CarriesSubtrees(U2, U3)
  {
    Names();
  }

  lemma MoveJournalsBoth()
    ensures Ids([Upsert(2), Upsert(3)]) == {2, 3}
  {
    var both := [Upsert(2), Upsert(3)];
    assert both[0].id in Ids(both) && both[1].id in Ids(both);
  }

  lemma BothMove(b: Tree, t: Tree)
    requires b.Keys == {2, 3} && t.Keys == {2, 3} && ValidTree(t) && CarriesSubtrees(b, t)
    requires b[2].kind == t[2].kind && b[3].kind == t[3].kind
    ensures ValidCommit(b, Commit([Upsert(2), Upsert(3)], t))
  {
    MoveJournalsBoth();
  }

  lemma MoveIsValid()
    ensures ValidCommit(U2, Commit([Upsert(2), Upsert(3)], U3))
  {
    assert ValidTree(U3) by { TreesAreTrees(); }
    MoveCarriesTheFile();
    BothMove(U2, U3);
  }

  lemma OnlyTheMove()
    ensures ValidHistory(U2, [Commit([Upsert(2), Upsert(3)], U3)])
    ensures Latest(U2, [Commit([Upsert(2), Upsert(3)], U3)]) == U3
    ensures Entries([Commit([Upsert(2), Upsert(3)], U3)]) == [Upsert(2), Upsert(3)]
  {
    MoveIsValid();
    assert ValidTree(U2) && ValidTree(U3) by { TreesAreTrees(); }
    var h := Commit([Upsert(2), Upsert(3)], U3);
    Prepend(U2, h, []);
    assert [h] + [] == [h];
  }

  lemma TrashAndMove()
    ensures var hs := [Commit([Delete(1)], U2), Commit([Upsert(2), Upsert(3)], U3)];
            ValidHistory(U1, hs) && Latest(U1, hs) == U3 && Entries(hs) == [Delete(1)] + [Upsert(2), Upsert(3)]
  {
    OnlyTheMove();
    TrashIsValid();
    assert ValidTree(U1) by { TreesAreTrees(); }
    var h, hs := Commit([Delete(1)], U2), [Commit([Upsert(2), Upsert(3)], U3)];
    Prepend(U1, h, hs);
    assert [h] + hs == [h, Commit([Upsert(2), Upsert(3)], U3)];
  }

  lemma StartsWithTheVersion(hs: seq<Commit>, all: seq<Commit>)
    requires ValidHistory(U1, hs) && all == [Commit([Upsert(3)], U1)] + hs
    ensures ValidHistory(U0, all) && Latest(U0, all) == Latest(U1, hs) && Entries(all) == [Upsert(3)] + Entries(hs)
  {
    NewVersionIsValid();
    TreesAreTrees();
    PrependAs(U0, Commit([Upsert(3)], U1), hs, all);
  }

  lemma PageSplits()
    ensures Page() == [Upsert(3)] + ([Delete(1)] + [Upsert(2), Upsert(3)])
  {
  }

  lemma PageOf(hs: seq<Commit>, all: seq<Commit>)
    requires ValidHistory(U1, hs) && Latest(U1, hs) == U3 && Entries(hs) == [Delete(1)] + [Upsert(2), Upsert(3)]
    requires all == [Commit([Upsert(3)], U1)] + hs
    ensures ValidHistory(U0, all) && Latest(U0, all) == U3 && Entries(all) == Page()
  {
    StartsWithTheVersion(hs, all);
    PageSplits();
  }

  lemma PageIsJournalled()
    ensures ValidHistory(U0, PageHistory()) && Latest(U0, PageHistory()) == U3 && Entries(PageHistory()) == Page()
  {
    TrashAndMove();
    PageOf([Commit([Delete(1)], U2), Commit([Upsert(2), Upsert(3)], U3)], PageHistory());
  }

  lemma StartsMirrored(env: Env)
    ensures Sound(Before(env)) && Mirrors(Before(env).rows, U0)
  {
    Names();
    var d := Before(env).disk;
    assert IsTree(d) by {
      assert IsDir(d, Parent(F)) && IsDir(d, Parent(G)) && IsDir(d, Parent(GX));
    }
  }

  /** The page is one the server can produce and the client starts in step. Uninterrupted, the
      pull ends mirroring the server; stopped after two entries, the rerun from the saved cursor
      fails, and so does every rerun after it, from the very state the last one left. */
  lemma RerunGetsStuck(env: Env)
    requires env.excludes == []
    ensures ValidHistory(U0, PageHistory()) && Latest(U0, PageHistory()) == U3 && Entries(PageHistory()) == Page()
    ensures Sound(Before(env)) && Mirrors(Before(env).rows, U0)
    ensures Replay(env, U3, Before(env), Page()) == Done(Complete(env)) && Mirrors(Complete(env).rows, U3)
    ensures Replay(env, U3, Before(env), Page()[..2]) == Done(Halfway())
    ensures Replay(env, U3, Halfway(), Page()) == Failed(Stuck(env))
    ensures Replay(env, U3, Stuck(env), Page()) == Failed(Stuck(env))
    ensures !QuietRun(env, U3, Before(env), [], Page()[..2])
  {
    PageIsJournalled();
    StartsMirrored(env);
    Uninterrupted(env);
    Interrupted(env);
    Reruns(env);
    EndsMirrored(env);
    NotQuiet(env);
  }

  /** The delete takes away the place of the file downloaded before it. */
  lemma NotQuiet(env: Env)
    requires env.excludes == []
    ensures !QuietRun(env, U3, Before(env), [], Page()[..2])
  {
    Uninterrupted(env);
    Interrupted(env);
    Reruns(env);
    StartsMirrored(env);
    assert ValidTree(U3) by { TreesAreTrees(); }
    assert Page()[0..] == Page() && |Page()| == 4;
    if QuietRun(env, U3, Before(env), [], Page()[..2]) {
      ResumeIsExact(env, U3, Before(env), Page(), 0, 2);
    }
  }

  lemma EndsMirrored(env: Env)
    ensures Mirrors(Complete(env).rows, U3)
  {
    Names();
  }

  // ---- a file where a folder stood ---------------------------------------------------------------

  const X1: Tree := map[2 := Folder(F), 3 := FileAt(FX, NEW), 4 := FileAt(G, NEW)]
  const X2: Tree := map[2 := Folder(F), 4 := FileAt(G, NEW)]

  /** g moves to f with the file in it, a new file takes the name g, and the file in f is trashed. */
  function BarringHistory(): seq<Commit> {
    [Commit([Upsert(2), Upsert(3)], U3)] + ([Commit([Upsert(4)], X1)] + [Commit([Delete(3)], X2)])
  }

  function BarringPage(): seq<Change> {
    [Upsert(2), Upsert(3), Upsert(4), Delete(3)]
  }

  /** In step with U2. */
  function InG(env: Env): Client {
    Client(map[G := Dir, GX := FileNow(env, GX, NEW)],
           map[G := FolderEntry(2), GX := FileEntry(env, 3, FileAt(GX, NEW))], 0)
  }

  /** The folder has moved, and the file with it, but not its row: its upsert carries no node. */
  function InF(env: Env): Client {
    Client(map[F := Dir, FX := FileNow(env, GX, NEW)],
           map[F := FolderEntry(2), GX := FileEntry(env, 3, FileAt(GX, NEW))], 0)
  }

  /** The new file stands above the recorded path. */
  function BarredClient(env: Env): Client {
    Client(map[F := Dir, FX := FileNow(env, GX, NEW), G := FileNow(env, G, NEW)],
           map[F := FolderEntry(2), GX := FileEntry(env, 3, FileAt(GX, NEW)), G := FileEntry(env, 4, FileAt(G, NEW))], 1)
  }

  lemma CarriesToF(o: Obj)
    ensures MoveTree(map[G := Dir, GX := o], G, F) == map[F := Dir, FX := o]
  {
    Names();
    var d: Disk := map[G := Dir, GX := o];
    assert IsTree(d) by {
      assert IsDir(d, Parent(G)) && IsDir(d, Parent(GX));
    }
    assert Relocate(F, F, G) == G && Relocate(FX, F, G) == GX;
    forall q ensures q in MoveTree(d, G, F) <==> q == F || q == FX {
      MoveTreeAt(d, G, F, q);
      if Under(q, F) {
        assert q == F + q[1..] && Relocate(q, F, G) == G + q[1..];
        assert Relocate(q, F, G) == GX ==> q[1..] == GX[1..] && q == FX;
        assert Relocate(q, F, G) == G ==> q[1..] == [] && q == F;
      }
    }
    MoveTreeAt(d, G, F, F);
    MoveTreeAt(d, G, F, FX);
  }

  lemma MoveOnly(env: Env, s: Tree)
    requires !Excluded(env, F) && 2 in s && s[2] == Folder(F)
    ensures ApplyChange(env, s, InG(env), Upsert(2)) == Done(InF(env))
  {
    Names();
    var c := InG(env);
    Located(c.rows, 2, G);
    MkdirNothing(c.disk, []);
    CarriesToF(FileNow(env, GX, NEW));
    assert MoveLocal(c, G, F) == Done(InF(env)) by {
      assert (c.rows - {G})[F := c.rows[G]] == InF(env).rows;
    }
    MkdirNothing(InF(env).disk, F);
    assert InF(env).rows[F := FolderEntry(2)] == InF(env).rows;
  }

  lemma NewFileInG(env: Env)
    requires env.excludes == []
    ensures ApplyChange(env, X2, InF(env), Upsert(4)) == Done(BarredClient(env))
  {
    Names();
    var c := InF(env);
    assert Locate(c.rows, 4).None?;
    MkdirNothing(c.disk, []);
    var out := PullDown(env, c, 4, FileAt(G, NEW)).c;
    assert out.disk == BarredClient(env).disk && out.rows == BarredClient(env).rows;
  }

  /** The last entry: on POSIX systems an error, on Windows the row goes. Either way the file that
      moved along stays. */
  lemma BarredDelete(env: Env)
    requires env.excludes == []
    ensures var c := BarredClient(env);
            ApplyChange(env, X2, c, Delete(3)) == if POSIX then Failed(c) else Done(c.(rows := c.rows - {GX}))
  {
    Names();
    var c := BarredClient(env);
    Located(c.rows, 3, GX);
    assert G in Prefixes(Parent(GX)) && Barred(c.disk, GX) == POSIX;
    assert c.disk - {GX} == c.disk;
  }

  lemma BarredAgain(env: Env)
    requires env.excludes == []
    ensures var c := BarredClient(env);
            ApplyChange(env, X2, c, Upsert(2)) == Done(c) && ApplyChange(env, X2, c, Upsert(4)) == Done(c)
  {
    Names();
    var c := BarredClient(env);
    Located(c.rows, 2, F);
    Located(c.rows, 4, G);
    MkdirNothing(c.disk, F);
    assert c.rows[F := FolderEntry(2)] == c.rows;
    assert !Barred(c.disk, G);
  }

  lemma BarringPageRuns(env: Env, c: Client)
    requires env.excludes == []
    requires c == InG(env) || c == BarredClient(env)
    ensures Replay(env, X2, c, BarringPage()) == ApplyChange(env, X2, BarredClient(env), Delete(3))
  {
    MoveOnly(env, X2);
    NewFileInG(env);
    BarredAgain(env);
    var d := ApplyChange(env, X2, c, Upsert(2)).c;
    assert ApplyChange(env, X2, d, Upsert(3)) == Done(d);
    FourEntries(env, X2, c, d, d, BarredClient(env), Upsert(2), Upsert(3), Upsert(4), Delete(3));
  }

  lemma Unfold(env: Env, s: Tree, c: Client, ch: Change, rest: seq<Change>)
    ensures Replay(env, s, c, [ch] + rest) ==
            var a := ApplyChange(env, s, c, ch);
            if a.Failed? then a else Replay(env, s, a.c, rest)
  {
    assert ([ch] + rest)[1..] == rest;
  }

  lemma FourEntries(env: Env, s: Tree, c: Client, d: Client, e: Client, f: Client, c1: Change, c2: Change, c3: Change, c4: Change)
    requires ApplyChange(env, s, c, c1) == Done(d) && ApplyChange(env, s, d, c2) == Done(e)
    requires ApplyChange(env, s, e, c3) == Done(f)
    ensures Replay(env, s, c, [c1, c2, c3, c4]) == ApplyChange(env, s, f, c4)
  {
    assert [c1, c2, c3, c4] == [c1] + [c2, c3, c4] && [c2, c3, c4] == [c2] + [c3, c4] && [c3, c4] == [c3] + [c4];
    Unfold(env, s, c, c1, [c2, c3, c4]);
    Unfold(env, s, d, c2, [c3, c4]);
    Unfold(env, s, e, c3, [c4]);
    ReplayOne(env, s, f, c4);
  }

  // ---- the barring history is one the server can produce ------------------------------------------

  lemma BarringTrees()
    ensures ValidTree(X1) && ValidTree(X2)
  {
    Names();
    assert HasFolder(X1, F) by { assert X1[2].path == F; }
    assert HasFolder(X2, []);
  }

  lemma NewFileIsValid()
    ensures ValidCommit(U3, Commit([Upsert(4)], X1))
  {
    BarringTrees();
    Names();
    assert [Upsert(4)][0].id in Ids([Upsert(4)]);
  }

  lemma FileTrashIsValid()
    ensures ValidCommit(X1, Commit([Delete(3)], X2))
  {
    BarringTrees();
    Names();
    assert [Delete(3)][0].id in Ids([Delete(3)]);
  }

  lemma BarringTail()
    ensures var hs := [Commit([Upsert(4)], X1)] + [Commit([Delete(3)], X2)];
            ValidHistory(U3, hs) && Latest(U3, hs) == X2 && Entries(hs) == [Upsert(4)] + [Delete(3)]
  {
    assert ValidTree(U3) by { TreesAreTrees(); }
    BarringTrees();
    NewFileIsValid();
    FileTrashIsValid();
    LastCommit(X1, Commit([Delete(3)], X2));
    Prepend(U3, Commit([Upsert(4)], X1), [Commit([Delete(3)], X2)]);
  }

  lemma MovesFirst(hs: seq<Commit>, all: seq<Commit>)
    requires ValidHistory(U3, hs) && all == [Commit([Upsert(2), Upsert(3)], U3)] + hs
    ensures ValidHistory(U2, all) && Latest(U2, all) == Latest(U3, hs) && Entries(all) == [Upsert(2), Upsert(3)] + Entries(hs)
  {
    assert ValidTree(U2) by { TreesAreTrees(); }
    MoveIsValid();
    PrependAs(U2, Commit([Upsert(2), Upsert(3)], U3), hs, all);
  }

  lemma BarringSplits()
    ensures [Upsert(2), Upsert(3)] + ([Upsert(4)] + [Delete(3)]) == BarringPage()
  {
  }

  lemma BarringOf(hs: seq<Commit>, all: seq<Commit>)
    requires ValidHistory(U3, hs) && Latest(U3, hs) == X2 && Entries(hs) == [Upsert(4)] + [Delete(3)]
    requires all == [Commit([Upsert(2), Upsert(3)], U3)] + hs
    ensures ValidHistory(U2, all) && Latest(U2, all) == X2 && Entries(all) == BarringPage()
  {
    MovesFirst(hs, all);
    BarringSplits();
  }

  lemma BarringIsJournalled()
    ensures ValidHistory(U2, BarringHistory()) && Latest(U2, BarringHistory()) == X2 && Entries(BarringHistory()) == BarringPage()
  {
    BarringTail();
    BarringOf([Commit([Upsert(4)], X1)] + [Commit([Delete(3)], X2)], BarringHistory());
  }

  lemma StartsInG(env: Env)
    ensures Sound(InG(env)) && Mirrors(InG(env).rows, U2) && InStep(InG(env), G) && InStep(InG(env), GX)
  {
    Names();
    var d := InG(env).disk;
    assert IsTree(d) by {
      assert IsDir(d, Parent(G)) && IsDir(d, Parent(GX));
    }
  }

  /** The page is one the server can produce, no node changes its kind, and the client starts in step
      with nothing edited. On Linux and macOS the first pull fails on the last entry, and so does every
      pull after it, from the very state the last one left; on Windows it goes through. */
  lemma BarredPullGetsStuck(env: Env)
    requires env.excludes == []
    ensures ValidHistory(U2, BarringHistory()) && Latest(U2, BarringHistory()) == X2 && Entries(BarringHistory()) == BarringPage()
    ensures Sound(InG(env)) && Mirrors(InG(env).rows, U2) && InStep(InG(env), G) && InStep(InG(env), GX)
    ensures POSIX ==> Replay(env, X2, InG(env), BarringPage()) == Failed(BarredClient(env))
    ensures POSIX ==> Replay(env, X2, BarredClient(env), BarringPage()) == Failed(BarredClient(env))
    ensures !POSIX ==> Replay(env, X2, InG(env), BarringPage()).Done?
  {
    BarringIsJournalled();
    StartsInG(env);
    BarringPageRuns(env, InG(env));
    BarringPageRuns(env, BarredClient(env));
    BarredDelete(env);
  }
}
