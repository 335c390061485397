/**
  Several devices on one account (client/internal/engine/engine.go): what one device's push does to
  the server is a history the others can replay, and devices that have converged on the same server
  hold the same files.
 */
module Devices {
  import opened Base
  import opened LocalDisk
  import opened Pull
  import opened Journal
  import opened Server
  import opened Push
  import opened Sync
  import opened Text

  // ---- the server's operations are transactions ---------------------------------------------

  lemma OneId(ch: Change)
    ensures Ids([ch]) == {ch.id}
  {
    assert [ch][0].id in Ids([ch]);
  }

  lemma AddIsCommit(srv: Server, n: Node)
    requires ValidServer(srv) && n.path != [] && (n.kind == IsFolder <==> n.hash == NoHash)
    requires !Taken(srv.nodes, n.path) && HasFolder(srv.nodes, Parent(n.path))
    ensures ValidCommit(srv.nodes, Commit([Upsert(srv.next)], Add(srv, n).nodes))
  {
    AddKeepsValid(srv, n);
    OneId(Upsert(srv.next));
    NothingAboveIsNew(srv, n);
  }

  /** A new node stands above nothing that was there. */
  lemma NothingAboveIsNew(srv: Server, n: Node)
    requires ValidServer(srv) && n.path != [] && !Taken(srv.nodes, n.path)
    ensures CarriesSubtrees(srv.nodes, Add(srv, n).nodes)
  {
    var b, t := srv.nodes, Add(srv, n).nodes;
    forall x, g | x in b && x in t && b[x].path == t[x].path && g in t && t[g].path < t[x].path
      ensures g in b && b[g].path == t[g].path
    {
      if g == srv.next {
        var above := FolderAbove(b, x, n.path);
      }
    }
  }

  lemma NewVersionIsCommit(srv: Server, x: Id, n: Node)
    requires ValidServer(srv) && x in srv.nodes && srv.nodes[x].kind == IsFile && n.path == srv.nodes[x].path
    requires n.kind == IsFile && n.hash != NoHash
    ensures ValidCommit(srv.nodes, Commit([Upsert(x)], srv.nodes[x := n]))
  {
    OneId(Upsert(x));
    assert HasFolder(srv.nodes, Parent(srv.nodes[x].path));
    PutKeepsTree(srv.nodes, x, n);
  }

  lemma {:induction false} BeneathCovers(t: Tree, p: Path, k: Id, x: Id)
    requires x in t && p < t[x].path && x < k
    ensures x in Beneath(t, p, k)
  {
    if x < k - 1 {
      BeneathCovers(t, p, k - 1, x);
    }
  }

  lemma DeletesIds(ids: seq<Id>, x: Id)
    requires x in ids
    ensures x in Ids(Deletes(ids))
  {
    var i :| 0 <= i < |ids| && ids[i] == x;
    assert Deletes(ids)[i].id == x;
  }

  lemma TrashIds(srv: Server, id: Id)
    requires ValidServer(srv) && id in srv.nodes
    ensures var p, t := srv.nodes[id].path, Trash(srv, id).value.nodes;
            var cs := [Delete(id)] + Deletes(Beneath(srv.nodes, p, srv.next));
            && (forall ch :: ch in cs ==> ch.Delete? && ch.id !in t)
            && (forall x :: x in srv.nodes && x !in t ==> x in Ids(cs))
  {
    var p, t := srv.nodes[id].path, Trash(srv, id).value.nodes;
    var below := Beneath(srv.nodes, p, srv.next);
    BeneathIsBeneath(srv.nodes, p, srv.next);
    IdsConcat([Delete(id)], Deletes(below));
    OneId(Delete(id));
    forall x | x in srv.nodes && x !in t && x != id ensures x in Ids(Deletes(below)) {
      assert p < srv.nodes[x].path;
      BeneathCovers(srv.nodes, p, srv.next, x);
      DeletesIds(below, x);
    }
  }

  lemma TrashIsCommit(srv: Server, id: Id)
    requires ValidServer(srv) && id in srv.nodes
    ensures var after := Trash(srv, id).value;
            ValidCommit(srv.nodes, Commit([Delete(id)] + Deletes(Beneath(srv.nodes, srv.nodes[id].path, srv.next)), after.nodes))
  {
    TrashKeepsValid(srv, id);
    TrashIds(srv, id);
  }

  // ---- a push is a history -------------------------------------------------------------------

  /** From `a` to `b` the server went through the transactions `hs`, all of them journalled. */
  ghost predicate Grew(a: Server, b: Server, hs: seq<Commit>) {
    && ValidHistory(a.nodes, hs) && Latest(a.nodes, hs) == b.nodes
    && b.journal == a.journal + Entries(hs)
  }

  lemma GrewNot(a: Server)
    requires ValidServer(a)
    ensures Grew(a, a, [])
  {
    assert a.journal + Entries([]) == a.journal;
  }

  lemma GrewOne(a: Server, b: Server, cs: seq<Change>)
    requires ValidServer(a) && ValidCommit(a.nodes, Commit(cs, b.nodes)) && b.journal == a.journal + cs
    ensures Grew(a, b, [Commit(cs, b.nodes)])
  {
    var hs := [Commit(cs, b.nodes)];
    assert hs[1..] == [] && Entries(hs) == cs + Entries([]);
    assert cs + Entries([]) == cs;
  }

  lemma {:induction false} EntriesAppend(hs: seq<Commit>, more: seq<Commit>)
    ensures Entries(hs + more) == Entries(hs) + Entries(more)
    decreases |hs|
  {
    if hs == [] {
      assert hs + more == more && [] + Entries(more) == Entries(more);
    } else {
      assert (hs + more)[0] == hs[0] && (hs + more)[1..] == hs[1..] + more;
      EntriesAppend(hs[1..], more);
      Reassociate(hs[0].changes, Entries(hs[1..]), Entries(more));
    }
  }

  lemma {:induction false} HistoryAppend(b: Tree, hs: seq<Commit>, more: seq<Commit>)
    requires ValidHistory(b, hs) && ValidHistory(Latest(b, hs), more)
    ensures ValidHistory(b, hs + more) && Latest(b, hs + more) == Latest(Latest(b, hs), more)
    decreases |hs|
  {
    if hs == [] {
      assert hs + more == more;
    } else {
      assert (hs + more)[0] == hs[0] && (hs + more)[1..] == hs[1..] + more;
      HistoryAppend(hs[0].tree, hs[1..], more);
    }
  }

  lemma GrewFurther(a: Server, b: Server, c: Server, hs: seq<Commit>, more: seq<Commit>)
    requires Grew(a, b, hs) && Grew(b, c, more)
    ensures Grew(a, c, hs + more)
  {
    HistoryAppend(a.nodes, hs, more);
    EntriesAppend(hs, more);
    Reassociate(a.journal, Entries(hs), Entries(more));
  }

  lemma CreateGrows(srv: Server, parent: Id, name: string) returns (hs: seq<Commit>)
    requires ValidServer(srv) && CreateFolder(srv, parent, name).Made?
    ensures var after := CreateFolder(srv, parent, name).srv; ValidServer(after) && Grew(srv, after, hs)
  {
    var p := PathOf(srv.nodes, parent) + [name];
    assert Parent(p) == PathOf(srv.nodes, parent);
    CreateKeepsValid(srv, parent, name);
    AddIsCommit(srv, Node(p, IsFolder, NoHash));
    var after := CreateFolder(srv, parent, name).srv;
    hs := [Commit([Upsert(srv.next)], after.nodes)];
    GrewOne(srv, after, [Upsert(srv.next)]);
  }

  lemma UploadGrows(srv: Server, parent: Id, name: string, bytes: Bytes) returns (hs: seq<Commit>)
    requires ValidServer(srv) && Upload(srv, parent, name, bytes).Made?
    ensures var after := Upload(srv, parent, name, bytes).srv; ValidServer(after) && Grew(srv, after, hs)
  {
    var p := PathOf(srv.nodes, parent) + [name];
    var n := Node(p, IsFile, ContentHash(bytes));
    assert Parent(p) == PathOf(srv.nodes, parent);
    UploadKeepsValid(srv, parent, name, bytes);
    var after := Upload(srv, parent, name, bytes).srv;
    var x := if Taken(srv.nodes, p) then NodeAt(srv.nodes, p) else srv.next;
    if Taken(srv.nodes, p) {
      NewVersionIsCommit(srv, x, n);
    } else {
      AddIsCommit(srv, n);
    }
    hs := [Commit([Upsert(x)], after.nodes)];
    GrewOne(srv, after, [Upsert(x)]);
  }

  lemma TrashGrows(srv: Server, id: Id) returns (hs: seq<Commit>)
    requires ValidServer(srv) && id in srv.nodes
    ensures var after := Trash(srv, id).value; ValidServer(after) && Grew(srv, after, hs)
  {
    TrashKeepsValid(srv, id);
    TrashIsCommit(srv, id);
    var after := Trash(srv, id).value;
    var cs := [Delete(id)] + Deletes(Beneath(srv.nodes, srv.nodes[id].path, srv.next));
    assert srv.journal + [Delete(id)] + Deletes(Beneath(srv.nodes, srv.nodes[id].path, srv.next)) == srv.journal + cs;
    hs := [Commit(cs, after.nodes)];
    GrewOne(srv, after, cs);
  }

  lemma PushOneGrows(env: Env, w: Sides, p: Path) returns (hs: seq<Commit>)
    requires ValidServer(w.srv)
    ensures var after := PushOne(env, w, p).w.srv; ValidServer(after) && Grew(w.srv, after, hs)
  {
    hs := [];
    GrewNot(w.srv);
    var after := PushOne(env, w, p).w.srv;
    if after != w.srv {
      var parent := ParentId(w.c.rows, p).value;
      if w.c.disk[p].Dir? {
        hs := CreateGrows(w.srv, parent, BaseName(p));
      } else {
        hs := UploadGrows(w.srv, parent, BaseName(p), w.c.disk[p].bytes);
      }
    }
  }

  lemma {:induction false} WalkGrows(env: Env, w: Sides, walk: seq<Path>) returns (hs: seq<Commit>)
    requires ValidServer(w.srv)
    ensures var after := PushExisting(env, w, walk).w.srv; ValidServer(after) && Grew(w.srv, after, hs)
    decreases |walk|
  {
    if walk == [] {
      hs := [];
      GrewNot(w.srv);
    } else {
      hs := PushOneGrows(env, w, walk[0]);
      var first := PushOne(env, w, walk[0]);
      if first.Ok? {
        var more := WalkGrows(env, first.w, walk[1..]);
        GrewFurther(w.srv, first.w.srv, PushExisting(env, w, walk).w.srv, hs, more);
        hs := hs + more;
      }
    }
  }

  lemma {:induction false} DeletionsGrow(env: Env, w: Sides, seen: set<Path>, rows: Rows, listed: seq<Path>)
    returns (hs: seq<Commit>)
    requires ValidServer(w.srv) && forall p :: p in listed ==> p in rows
    ensures var after := PushDeletions(env, w, seen, rows, listed).srv; ValidServer(after) && Grew(w.srv, after, hs)
    decreases |listed|
  {
    hs := [];
    GrewNot(w.srv);
    if listed != [] {
      var x := rows[listed[0]].id;
      var next := TrashOne(env, w, seen, listed[0], x);
      if next.srv != w.srv {
        hs := TrashGrows(w.srv, x);
      }
      var more := DeletionsGrow(env, next, seen, rows, listed[1..]);
      GrewFurther(w.srv, next.srv, PushDeletions(env, w, seen, rows, listed).srv, hs, more);
      hs := hs + more;
    }
  }

  /** Whatever a push does, even one that fails half way, the server journals it as transactions
      that another device can replay. */
  lemma PushGrows(env: Env, w: Sides, walk: seq<Path>, listed: seq<Path>, out: Progress) returns (hs: seq<Commit>)
    requires ValidServer(w.srv) && Pushes(env, w, walk, listed, out)
    ensures ValidServer(out.w.srv) && Grew(w.srv, out.w.srv, hs)
  {
    hs := WalkGrows(env, w, walk);
    var walked := PushExisting(env, w, walk);
    if walked.Ok? {
      var more := DeletionsGrow(env, walked.w, Seen(env, walked.w.c.disk), walked.w.c.rows, listed);
      GrewFurther(w.srv, walked.w.srv, out.w.srv, hs, more);
      hs := hs + more;
    }
  }

  // ---- several devices -----------------------------------------------------------------------

  /** A device in step with the server as of its cursor stays so while other devices push. */
  lemma OthersMayPush(dev: Device, a: Server, b: Server, base: Tree, hs: seq<Commit>, more: seq<Commit>)
    requires MirrorsAsOf(dev, a, base, hs) && Grew(a, b, more)
    ensures MirrorsAsOf(dev, b, base, hs + more)
  {
    HistoryAppend(base, hs, more);
    EntriesAppend(hs, more);
    assert b.journal[dev.cursor..] == a.journal[dev.cursor..] + Entries(more);
  }

  /** Devices that converged on the same server hold the same paths, kinds and bytes. */
  lemma ConvergedAlike(a: Client, b: Client, srv: Server)
    requires Converged(a, srv) && Converged(b, srv)
    ensures Alike(a, b)
  {
    forall p | p in a.disk ensures AlikeAt(a, b, p) {
      OnePathAlike(a, b, srv, p);
    }
    forall p | p in b.disk ensures p in a.disk {
      OnePathAlike(b, a, srv, p);
    }
  }

  ghost predicate AlikeAt(a: Client, b: Client, p: Path) {
    p in a.disk ==>
      && p in b.disk && (a.disk[p].Dir? <==> b.disk[p].Dir?)
      && (a.disk[p].File? ==> a.disk[p].bytes == b.disk[p].bytes)
  }

  ghost predicate Alike(a: Client, b: Client) {
    a.disk.Keys == b.disk.Keys && forall p :: p in a.disk ==> AlikeAt(a, b, p)
  }

  lemma OnePathAlike(a: Client, b: Client, srv: Server, p: Path)
    requires Converged(a, srv) && Converged(b, srv) && p in a.disk
    ensures AlikeAt(a, b, p)
  {
    assert InStep(a, p);
    var x := a.rows[p].id;
    assert Tracked(a.rows, srv.nodes, x) && Tracked(b.rows, srv.nodes, x);
    assert InStep(b, p);
  }

  /** A device that mirrored the server as of its own, older cursor syncs after others have pushed,
      and holds the same files as they do if it had nothing of its own to add. */
  lemma OtherDeviceConverges(env: Env, b: Device, before: Server, after: Server, base: Tree,
                             hs: seq<Commit>, more: seq<Commit>,
                             pruned: nat, o: Orders, pulled: Pulled, out: World, ok: bool)
    requires env.excludes == [] && ValidServer(after)
    requires MirrorsAsOf(b, before, base, hs) && Grew(before, after, more)
    requires Syncs(env, World(b, after, 0), pruned, o, pulled, out, ok) && pulled.ok && !Rewalks(after, pruned, b)
    requires Clean(env, after.nodes, b.c, Entries(hs + more))
    ensures ok && Converged(out.dev.c, out.srv) <==> KindsAgree(pulled.dev.c) && GateSound(pulled.dev.c)
    ensures ok && Converged(out.dev.c, out.srv) && out.srv == after ==> forall a: Client :: Converged(a, after) ==> Alike(a, out.dev.c)
  {
    OthersMayPush(b, before, after, base, hs, more);
    MirrorsResumes(b, after, base, hs + more);
    SyncConverges(env, World(b, after, 0), pruned, base, hs + more, o, pulled, out, ok);
    if ok && Converged(out.dev.c, out.srv) && out.srv == after {
      forall a: Client | Converged(a, after) ensures Alike(a, out.dev.c) {
        ConvergedAlike(a, out.dev.c, after);
      }
    }
  }

  // ---- one pass after the other ----------------------------------------------------------------

  /** Before a pass other devices may have pushed, to leave the server `srv`, and the user may have
      changed the disk to `disk`; `after` and `ok` are how the pass ends. */
  datatype Round = Round(srv: Server, disk: Disk, pruned: nat, o: Orders, pulled: Pulled, after: World, ok: bool)

  function Begin(w: World, r: Round): World {
    World(w.dev.(c := w.dev.c.(disk := r.disk)), r.srv, w.pushes)
  }

  /** The round can follow the world `w`, its pull returns nil, and it meets what a pass needs. */
  ghost predicate Follows(env: Env, w: World, r: Round) {
    && (exists more :: Grew(w.srv, r.srv, more)) && ValidServer(r.srv) && IsTree(r.disk)
    && Syncs(env, Begin(w, r), r.pruned, r.o, r.pulled, r.after, r.ok) && r.pulled.ok
    && Fair(env, Begin(w, r), r)
  }

  /** A full walk starts fit; a replay meets no shadow, changes no path's kind and leaves the gate
      honest. */
  ghost predicate Fair(env: Env, start: World, r: Round) {
    if Rewalks(start.srv, r.pruned, start.dev) then FitToRewalk(start.dev.c, start.srv.nodes)
    else
      && start.dev.cursor <= |start.srv.journal|
      && Clean(env, start.srv.nodes, start.dev.c, start.srv.journal[start.dev.cursor..])
      && KindsAgree(r.pulled.dev.c) && GateSound(r.pulled.dev.c)
  }

  ghost predicate Rounds(env: Env, w: World, rs: seq<Round>)
    decreases |rs|
  {
    rs != [] ==> Follows(env, w, rs[0]) && Rounds(env, rs[0].after, rs[1..])
  }

  /** In step with the server as of some earlier tree, or with no database at all. */
  ghost predicate Placed(w: World) {
    w.dev.c.rows == map[] || exists b, hs :: MirrorsAsOf(w.dev, w.srv, b, hs)
  }

  /** A device that has a place keeps it while others push and its user edits. */
  lemma PlaceStays(w: World, r: Round, more: seq<Commit>)
    requires Placed(w) && Grew(w.srv, r.srv, more) && IsTree(r.disk)
    ensures Placed(Begin(w, r))
  {
    if w.dev.c.rows != map[] {
      var b, hs :| MirrorsAsOf(w.dev, w.srv, b, hs);
      OthersMayPush(w.dev, w.srv, r.srv, b, hs, more);
      assert MirrorsAsOf(Begin(w, r).dev, r.srv, b, hs + more);
    }
  }

  ghost predicate EndsWell(r: Round) {
    r.ok && Converged(r.after.dev.c, r.after.srv)
  }

  /** One round from a place ends converged, and in a place. */
  lemma RoundConverges(env: Env, w: World, r: Round)
    requires env.excludes == [] && Placed(w) && Follows(env, w, r)
    ensures EndsWell(r) && Placed(r.after)
  {
    var more :| Grew(w.srv, r.srv, more);
    PlaceStays(w, r, more);
    var start := Begin(w, r);
    if Rewalks(start.srv, r.pruned, start.dev) {
      SyncConverges(env, start, r.pruned, map[], [], r.o, r.pulled, r.after, r.ok);
    } else {
      var b, hs :| MirrorsAsOf(start.dev, start.srv, b, hs);
      MirrorsResumes(start.dev, start.srv, b, hs);
      SyncConverges(env, start, r.pruned, b, hs, r.o, r.pulled, r.after, r.ok);
    }
  }

  /** However many passes a device makes, with its user's edits and other devices' pushes between
      them, every one of them succeeds and converges. */
  lemma {:induction false} RoundsConverge(env: Env, w: World, rs: seq<Round>)
    requires env.excludes == [] && Placed(w) && Rounds(env, w, rs)
    ensures forall r :: r in rs ==> EndsWell(r)
    decreases |rs|
  {
    if rs != [] {
      RoundConverges(env, w, rs[0]);
      RoundsConverge(env, rs[0].after, rs[1..]);
      forall r | r in rs ensures EndsWell(r) {
        assert r == rs[0] || r in rs[1..];
      }
    }
  }
}
