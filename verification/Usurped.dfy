/**
  A replay that ends without an error and leaves a live file with the bytes of a dead one: a folder
  moves, one file in it is trashed and another takes its name. The files went along with the folder, so
  the second one's upsert finds its row's old path empty and the new one taken.
 */
module Usurped {
  import opened Base
  import opened LocalDisk
  import opened Pull
  import opened Journal
  import opened Shadow
  import opened Refusals
  import opened Server
  import opened Push
  import opened StuckRerun
  import opened Contents

  const GY: Path := ["g", "y"]
  const FY: Path := ["f", "y"]
  const BIG: Digest := Sha256([3, 3])

  const A0: Tree := map[2 := Folder(G), 3 := FileAt(GX, NEW), 4 := FileAt(GY, BIG)]
  const A1: Tree := map[2 := Folder(F), 3 := FileAt(FX, NEW), 4 := FileAt(FY, BIG)]
  const A2: Tree := map[2 := Folder(F), 4 := FileAt(FY, BIG)]
  const A3: Tree := map[2 := Folder(F), 4 := FileAt(FX, BIG)]

  /** g moves to f with x and y in it, x is trashed, y takes the name x. */
  function UsurpingHistory(): seq<Commit> {
    [Commit([Upsert(2), Upsert(3), Upsert(4)], A1)] + ([Commit([Delete(3)], A2)] + [Commit([Upsert(4)], A3)])
  }

  function UsurpingPage(): seq<Change> {
    [Upsert(2), Upsert(3), Upsert(4)] + ([Delete(3)] + [Upsert(4)])
  }

  function X(env: Env): Obj { FileNow(env, GX, NEW) }

  function Y(env: Env): Obj { FileNow(env, GY, BIG) }

  /** In step with A0. */
  function BothInG(env: Env): Client {
    Client(map[G := Dir, GX := X(env), GY := Y(env)],
           map[G := FolderEntry(2), GX := FileEntry(env, 3, FileAt(GX, NEW)), GY := FileEntry(env, 4, FileAt(GY, BIG))], 0)
  }

  /** The folder has moved. */
  function BothInF(env: Env): Client {
    Client(map[F := Dir, FX := X(env), FY := Y(env)],
           map[F := FolderEntry(2), GX := FileEntry(env, 3, FileAt(GX, NEW)), GY := FileEntry(env, 4, FileAt(GY, BIG))], 0)
  }

  /** The row of y has followed its node to where the file x is. */
  function Taken4(env: Env): Client {
    Client(map[F := Dir, FX := X(env), FY := Y(env)],
           map[F := FolderEntry(2), GX := FileEntry(env, 3, FileAt(GX, NEW)), FX := FileEntry(env, 4, FileAt(GY, BIG))], 0)
  }

  function Ended(env: Env): Client {
    Client(map[F := Dir, FX := X(env), FY := Y(env)],
           map[F := FolderEntry(2), FX := FileEntry(env, 4, FileAt(GY, BIG))], 0)
  }

  lemma MoreNames()
    ensures Parent(FY) == F && Parent(GY) == G && FX != FY && GX != GY && GY != FY && GY != FX && GX != FY
    ensures |FY| == 2 && |GY| == 2 && FY != F && FY != G && GY != F && GY != G
    ensures Under(FY, F) && Under(GY, G) && !Under(FY, G) && !Under(GY, F)
  {
    assert FX[1] != FY[1] && GX[1] != GY[1] && GY[0] != FY[0] && GY[0] != FX[0] && GX[0] != FY[0];
    assert F[0] != G[0] && FY[..1] == F && GY[..1] == G;
  }

  lemma CarriesBoth(o: Obj, p: Obj)
    ensures MoveTree(map[G := Dir, GX := o, GY := p], G, F) == map[F := Dir, FX := o, FY := p]
  {
    Names();
    MoreNames();
    var d: Disk := map[G := Dir, GX := o, GY := p];
    assert IsTree(d) by {
      assert IsDir(d, Parent(G)) && IsDir(d, Parent(GX)) && IsDir(d, Parent(GY));
    }
    assert Relocate(F, F, G) == G && Relocate(FX, F, G) == GX && Relocate(FY, F, G) == GY;
    forall q ensures q in MoveTree(d, G, F) <==> q == F || q == FX || q == FY {
      MoveTreeAt(d, G, F, q);
      if Under(q, F) {
        BackFromF(q);
      }
    }
    MoveTreeAt(d, G, F, F);
    MoveTreeAt(d, G, F, FX);
    MoveTreeAt(d, G, F, FY);
  }

  lemma BackFromF(q: Path)
    requires Under(q, F)
    ensures Relocate(q, F, G) == G ==> q == F
    ensures Relocate(q, F, G) == GX ==> q == FX
    ensures Relocate(q, F, G) == GY ==> q == FY
  {
    assert q == F + q[1..] && Relocate(q, F, G) == G + q[1..];
    assert Relocate(q, F, G)[1..] == q[1..];
    assert GX[1..] == FX[1..] && GY[1..] == FY[1..];
  }

  lemma BothFollow(env: Env)
    ensures FollowMove(BothInG(env), 2, F) == Done(BothInF(env))
  {
    assert Locate(BothInG(env).rows, 2) == Some(G) && G != F by {
      Names();
      MoreNames();
      Located(BothInG(env).rows, 2, G);
    }
    assert Parent(F) == [] by { Names(); }
    MovesToTop(BothInG(env), BothInF(env), X(env), Y(env));
  }

  lemma MovesToTop(c: Client, e: Client, o: Obj, p: Obj)
    requires c.disk == map[G := Dir, GX := o, GY := p] && e.disk == map[F := Dir, FX := o, FY := p]
    requires G in c.rows && e.rows == (c.rows - {G})[F := c.rows[G]] && e.pulls == c.pulls && Parent(F) == []
    ensures MoveLocal(c, G, F) == Done(e)
  {
    MkdirNothing(c.disk, []);
    FolderRenames(o, p);
  }

  lemma FolderRenames(o: Obj, p: Obj)
    ensures Rename(map[G := Dir, GX := o, GY := p], G, F) == Moved(map[F := Dir, FX := o, FY := p])
  {
    Names();
    MoreNames();
    CarriesBoth(o, p);
  }

  lemma FolderMovesFirst(env: Env)
    requires env.excludes == []
    ensures ApplyChange(env, A3, BothInG(env), Upsert(2)) == Done(BothInF(env))
  {
    BothFollow(env);
    assert Prefixes(F) == {F} by { Names(); }
    MkdirNothing(BothInF(env).disk, F);
    assert BothInF(env).rows[F := FolderEntry(2)] == BothInF(env).rows;
  }

  /** The upsert of y finds nothing to move and, at its path, something that is there. */
  lemma RowArrivesAlone(env: Env)
    requires env.excludes == []
    ensures ApplyChange(env, A3, BothInF(env), Upsert(4)) == Done(Taken4(env))
  {
    Names();
    MoreNames();
    var c := BothInF(env);
    Located(c.rows, 4, GY);
    MkdirNothing(c.disk, F);
    assert Prefixes(Parent(GY)) == {G} && !Barred(c.disk, GY);
    assert MoveLocal(c, GY, FX) == Done(Taken4(env)) by {
      assert (c.rows - {GY})[FX := c.rows[GY]] == Taken4(env).rows;
    }
    assert Prefixes(Parent(FX)) == {F} && !Barred(Taken4(env).disk, FX);
  }

  lemma TrashMisses(env: Env)
    requires env.excludes == []
    ensures ApplyChange(env, A3, Taken4(env), Delete(3)) == Done(Ended(env))
  {
    Names();
    MoreNames();
    var c := Taken4(env);
    Located(c.rows, 3, GX);
    assert Prefixes(Parent(GX)) == {G} && !Barred(c.disk, GX);
    assert c.disk - {GX} == c.disk && c.rows - {GX} == Ended(env).rows;
  }

  lemma AtHomeAlready(env: Env)
    requires env.excludes == []
    ensures ApplyChange(env, A3, Ended(env), Upsert(4)) == Done(Ended(env))
  {
    Names();
    MoreNames();
    var c := Ended(env);
    Located(c.rows, 4, FX);
    assert Prefixes(Parent(FX)) == {F} && !Barred(c.disk, FX);
  }

  /** The upsert of the trashed file carries no node. */
  lemma GoneSaysNothing(env: Env, c: Client)
    ensures ApplyChange(env, A3, c, Upsert(3)) == Done(c)
  {
  }

  lemma FiveEntries(env: Env, s: Tree, c: Client, d: Client, e: Client, f: Client, page: seq<Change>)
    requires page == [Upsert(2), Upsert(3), Upsert(4)] + ([Delete(3)] + [Upsert(4)])
    requires ApplyChange(env, s, c, Upsert(2)) == Done(d) && ApplyChange(env, s, d, Upsert(3)) == Done(d)
    requires ApplyChange(env, s, d, Upsert(4)) == Done(e) && ApplyChange(env, s, e, Delete(3)) == Done(f)
    requires ApplyChange(env, s, f, Upsert(4)) == Done(f)
    ensures Replay(env, s, c, page) == Done(f)
  {
    assert page == [Upsert(2)] + [Upsert(3), Upsert(4), Delete(3), Upsert(4)];
    Unfold(env, s, c, Upsert(2), [Upsert(3), Upsert(4), Delete(3), Upsert(4)]);
    FourEntries(env, s, d, d, e, f, Upsert(3), Upsert(4), Delete(3), Upsert(4));
  }

  lemma UsurpingPageRuns(env: Env)
    requires env.excludes == []
    ensures Replay(env, A3, BothInG(env), UsurpingPage()) == Done(Ended(env))
  {
    FolderMovesFirst(env);
    GoneSaysNothing(env, BothInF(env));
    RowArrivesAlone(env);
    TrashMisses(env);
    AtHomeAlready(env);
    FiveEntries(env, A3, BothInG(env), BothInF(env), Taken4(env), Ended(env), UsurpingPage());
  }

  // ---- the history is one the server can produce -----------------------------------------------

  lemma TreesOfBoth()
    ensures ValidTree(A0) && ValidTree(A1) && ValidTree(A2) && ValidTree(A3)
  {
    FolderOfTwo(A0, G, GX, GY);
    FolderOfTwo(A1, F, FX, FY);
    FolderOfOne(A2, F, FY);
    FolderOfOne(A3, F, FX);
  }

  lemma FolderOfTwo(t: Tree, p: Path, q: Path, r: Path)
    requires t == map[2 := Folder(p), 3 := FileAt(q, NEW), 4 := FileAt(r, BIG)]
    requires (p == G && q == GX && r == GY) || (p == F && q == FX && r == FY)
    ensures ValidTree(t)
  {
    Names();
    MoreNames();
    assert HasFolder(t, p) by { assert t[2].path == p; }
  }

  lemma FolderOfOne(t: Tree, p: Path, q: Path)
    requires t == map[2 := Folder(p), 4 := FileAt(q, BIG)] && p == F && (q == FX || q == FY)
    ensures ValidTree(t)
  {
    Names();
    MoreNames();
    assert HasFolder(t, p) by { assert t[2].path == p; }
  }

  lemma AllThree()
    ensures Ids([Upsert(2), Upsert(3), Upsert(4)]) == {2, 3, 4}
  {
    var cs := [Upsert(2), Upsert(3), Upsert(4)];
    assert cs[0].id in Ids(cs) && cs[1].id in Ids(cs) && cs[2].id in Ids(cs);
  }

  lemma ThreeMove(b: Tree, t: Tree)
    requires b.Keys == {2, 3, 4} && t.Keys == {2, 3, 4} && ValidTree(t) && CarriesSubtrees(b, t)
    requires b[2].kind == t[2].kind && b[3].kind == t[3].kind && b[4].kind == t[4].kind
    ensures ValidCommit(b, Commit([Upsert(2), Upsert(3), Upsert(4)], t))
  {
    AllThree();
  }

  lemma NothingStaysPut(b: Tree, t: Tree)
    requires forall x :: x in b && x in t ==> b[x].path != t[x].path
    ensures CarriesSubtrees(b, t)
  {
  }

  lemma AllElsewhere()
    ensures forall x :: x in A0 && x in A1 ==> A0[x].path != A1[x].path
  {
    Names();
    MoreNames();
  }

  lemma MoveOfBoth()
    ensures ValidCommit(A0, Commit([Upsert(2), Upsert(3), Upsert(4)], A1))
  {
    assert ValidTree(A1) by { TreesOfBoth(); }
    AllElsewhere();
    MovesAll(A0, A1);
  }

  lemma MovesAll(b: Tree, t: Tree)
    requires b.Keys == {2, 3, 4} && t.Keys == {2, 3, 4} && ValidTree(t)
    requires forall x :: x in b && x in t ==> b[x].path != t[x].path
    requires b[2].kind == t[2].kind && b[3].kind == t[3].kind && b[4].kind == t[4].kind
    ensures ValidCommit(b, Commit([Upsert(2), Upsert(3), Upsert(4)], t))
  {
    NothingStaysPut(b, t);
    ThreeMove(b, t);
  }

  lemma TrashOfX()
    ensures ValidCommit(A1, Commit([Delete(3)], A2))
  {
    assert ValidTree(A2) by { TreesOfBoth(); }
    Names();
    MoreNames();
    assert [Delete(3)][0].id in Ids([Delete(3)]);
  }

  lemma OneMoves(b: Tree, t: Tree)
    requires b.Keys == {2, 4} && t.Keys == {2, 4} && ValidTree(t) && b[2] == t[2] && b[4].kind == t[4].kind == IsFile
    requires Parent(b[2].path) == []
    ensures ValidCommit(b, Commit([Upsert(4)], t))
  {
    assert [Upsert(4)][0].id in Ids([Upsert(4)]);
    AboveTheFolder(b, t);
  }

  /** Nothing is above the folder but the root, and the file that moves is above nothing. */
  lemma AboveTheFolder(b: Tree, t: Tree)
    requires b.Keys == {2, 4} && t.Keys == {2, 4} && ValidTree(t) && b[2] == t[2] && t[4].kind == IsFile
    requires Parent(b[2].path) == []
    ensures CarriesSubtrees(b, t)
  {
    forall x, g | x in b && x in t && b[x].path == t[x].path && g in t && t[g].path < t[x].path
      ensures g in b && b[g].path == t[g].path
    {
      if g == 4 {
        var h := FolderAbove(t, x, t[4].path);
      }
    }
  }

  lemma RenameOfY()
    ensures ValidCommit(A2, Commit([Upsert(4)], A3))
  {
    assert ValidTree(A3) by { TreesOfBoth(); }
    assert Parent(F) == [] by { Names(); }
    OneMoves(A2, A3);
  }

  lemma UsurpingTail()
    ensures var hs := [Commit([Delete(3)], A2)] + [Commit([Upsert(4)], A3)];
            ValidHistory(A1, hs) && Latest(A1, hs) == A3 && Entries(hs) == [Delete(3)] + [Upsert(4)]
  {
    TreesOfBoth();
    TrashOfX();
    RenameOfY();
    LastCommit(A2, Commit([Upsert(4)], A3));
    Prepend(A1, Commit([Delete(3)], A2), [Commit([Upsert(4)], A3)]);
  }

  lemma StartsWithMove(hs: seq<Commit>, all: seq<Commit>)
    requires ValidHistory(A1, hs) && all == [Commit([Upsert(2), Upsert(3), Upsert(4)], A1)] + hs
    ensures ValidHistory(A0, all) && Latest(A0, all) == Latest(A1, hs)
    ensures Entries(all) == [Upsert(2), Upsert(3), Upsert(4)] + Entries(hs)
  {
    assert ValidTree(A0) by { TreesOfBoth(); }
    MoveOfBoth();
    PrependAs(A0, Commit([Upsert(2), Upsert(3), Upsert(4)], A1), hs, all);
  }

  lemma UsurpingIsJournalled()
    ensures ValidHistory(A0, UsurpingHistory()) && Latest(A0, UsurpingHistory()) == A3
    ensures Entries(UsurpingHistory()) == UsurpingPage()
  {
    UsurpingTail();
    StartsWithMove([Commit([Delete(3)], A2)] + [Commit([Upsert(4)], A3)], UsurpingHistory());
  }

  lemma TwoInAFolder(d: Disk, p: Path, q: Path, r: Path)
    requires d.Keys == {p, q, r} && d[p].Dir? && p != [] && q != [] && r != []
    requires Parent(p) == [] && Parent(q) == p && Parent(r) == p
    ensures IsTree(d)
  {
    assert IsDir(d, Parent(p)) && IsDir(d, Parent(q)) && IsDir(d, Parent(r));
  }

  lemma StartsSound(env: Env)
    ensures Sound(BothInG(env))
  {
    Names();
    MoreNames();
    TwoInAFolder(BothInG(env).disk, G, GX, GY);
  }

  lemma StartsHolding(env: Env)
    ensures Sound(BothInG(env)) && Mirrors(BothInG(env).rows, A0) && AllHold(BothInG(env), A0)
  {
    StartsSound(env);
    Names();
    MoreNames();
    var c := BothInG(env);
    assert Holds(c, A0, 2) && Holds(c, A0, 3) && Holds(c, A0, 4);
  }

  lemma EndsSound(env: Env)
    ensures Sound(Ended(env)) && KindsAgree(Ended(env)) && GateSound(Ended(env))
  {
    Names();
    MoreNames();
    TwoInAFolder(Ended(env).disk, F, FX, FY);
  }

  lemma EndsMirroring(env: Env)
    ensures Mirrors(Ended(env).rows, A3) && !Holds(Ended(env), A3, 4)
    ensures FX in Ended(env).disk && Ended(env).disk[FX].File? && Ended(env).disk[FX].bytes == [2]
  {
    Names();
    MoreNames();
    var r := Ended(env).rows;
    assert Tracked(r, A3, 2) && Tracked(r, A3, 4);
  }

  /** The client holds the tree of its cursor and edits nothing; the pull returns without an error and
      its database mirrors the server; but y's path holds the bytes of x, and the push after it makes
      them the new version of y. */
  lemma MovedFileIsUsurped(env: Env, w: Sides, walk: seq<Path>, listed: seq<Path>, out: Progress)
    requires env.excludes == [] && w.c == Ended(env) && w.srv.nodes == A3 && ValidServer(w.srv)
    requires Pushes(env, w, walk, listed, out)
    ensures ValidHistory(A0, UsurpingHistory()) && Latest(A0, UsurpingHistory()) == A3
    ensures Entries(UsurpingHistory()) == UsurpingPage()
    ensures Sound(BothInG(env)) && Mirrors(BothInG(env).rows, A0) && AllHold(BothInG(env), A0)
    ensures Replay(env, A3, BothInG(env), UsurpingPage()) == Done(w.c) && Mirrors(w.c.rows, A3) && !Holds(w.c, A3, 4)
    ensures Content(A3[4].hash) == [3, 3] && out.Ok? && Taken(out.w.srv.nodes, A3[4].path)
    ensures Content(out.w.srv.nodes[NodeAt(out.w.srv.nodes, A3[4].path)].hash) == [2]
  {
    UsurpingIsJournalled();
    StartsHolding(env);
    UsurpingPageRuns(env);
    EndsSound(env);
    EndsMirroring(env);
    PushedContent(env, w, walk, listed, out, FX);
  }
}
