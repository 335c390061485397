/**
  A pass under selective sync, and what it does not promise: excluding a path does not keep the engine
  from trashing it on the server.
 */
module ExclusionLimits {
  import opened Base
  import opened LocalDisk
  import opened Pull
  import opened Journal
  import opened Server
  import opened Push
  import opened Reconcile
  import opened Selective
  import opened StuckRerun
  import opened Sync
  import opened Exclusion

  // ---- a whole pass ---------------------------------------------------------------------------

  /** What pull does at the excluded paths, by replay or by walking the tree. */
  lemma PullSparesExcluded(env: Env, srv: Server, pruned: nat, dev: Device, order: seq<Id>, listed: seq<Path>, out: Pulled)
    requires Pulls(env, srv, pruned, dev, order, listed, out) && Sound(dev.c) && NoneRecorded(env, dev.c.rows)
    requires ValidServer(srv) && dev.cursor <= |srv.journal|
    requires if Rewalks(srv, pruned, dev) then forall x :: x in order ==> x in srv.nodes && !Excluded(env, srv.nodes[x].path)
             else !CarriesAlong(env, srv.nodes, dev.c, srv.journal[dev.cursor..])
    ensures NothingPut(env, dev.c.disk, out.dev.c.disk) && NoneRecorded(env, out.dev.c.rows) && IsTree(out.dev.c.disk)
  {
    if Rewalks(srv, pruned, dev) {
      var o := if out.ok then Done(out.dev.c) else Failed(out.dev.c);
      ReconcilePutsNothing(env, srv.nodes, dev.c, order, listed, o);
      ReconcileKeepsTree(env, srv.nodes, dev.c, order, listed, o);
    } else {
      PagesEndAsReplay(env, srv, dev);
      ReplayPutsNothing(env, srv.nodes, dev.c, srv.journal[dev.cursor..]);
      ReplaySound(env, srv.nodes, dev.c, srv.journal[dev.cursor..]);
    }
  }

  lemma ReconcileKeepsTree(env: Env, s: Tree, c: Client, order: seq<Id>, listed: seq<Path>, out: Outcome)
    requires ValidTree(s) && IsTree(c.disk) && Reconciles(env, s, c, order, listed, out)
    ensures IsTree(out.c.disk)
  {
    WalkKeepsTree(env, s, c, order);
    var walked := WalkTree(env, s, c, order);
    if walked.Done? {
      DropVanishedKeepsTree(env, walked.c, MetPaths(s, order) + {[]}, walked.c.rows, listed);
    }
  }

  lemma PagesEndAsReplay(env: Env, srv: Server, dev: Device)
    requires dev.cursor <= |srv.journal|
    ensures ApplyPages(env, srv, dev, PAGE_LIMIT).dev.c == Replay(env, srv.nodes, dev.c, srv.journal[dev.cursor..]).c
  {
    PagesAreReplay(env, srv, dev, PAGE_LIMIT);
    var out := ApplyPages(env, srv, dev, PAGE_LIMIT);
    var at := out.dev.cursor;
    assert srv.journal[dev.cursor..] == srv.journal[dev.cursor..at] + srv.journal[at..];
    ReplaySplit(env, srv.nodes, dev.c, srv.journal[dev.cursor..at], srv.journal[at..]);
    if out.ok {
      assert srv.journal[at..] == [];
    }
  }

  /** A pass over a sorted list of prefixes in which the pull carries nothing to an excluded path and leaves
      every row at home: afterwards nothing excluded is recorded, nothing new stands there, no node there was
      made or changed, and one there died if and only if the user deleted a recorded folder above it. */
  lemma PassSparesExcluded(env: Env, w: World, pruned: nat, o: Orders, pulled: Pulled, out: World, ok: bool)
    requires OutermostFirst(env.excludes) && Syncs(env, w, pruned, o, pulled, out, ok) && pulled.ok
    requires Sound(w.dev.c) && ValidServer(w.srv) && w.dev.cursor <= |w.srv.journal|
    requires Homed(pulled.dev.c.rows, w.srv)
    requires var start := w.dev.(c := Prune(w.dev.c, env.excludes, o.scan, o.prefixes).c);
             if Rewalks(w.srv, pruned, start) then forall x :: x in o.tree ==> x in w.srv.nodes && !Excluded(env, w.srv.nodes[x].path)
             else !CarriesAlong(env, w.srv.nodes, start.c, w.srv.journal[start.cursor..])
    ensures NoneRecorded(env, out.dev.c.rows) && NothingPut(env, w.dev.c.disk, out.dev.c.disk)
    ensures NoneMade(env, w.srv, out.srv) && OnlyOfTheDead(env, w.srv, out.srv)
    ensures forall g :: IsExcluded(env, w.srv.nodes, g) ==>
              (g !in out.srv.nodes <==> ok && DeletedAbove(env, Sides(pulled.dev.c, w.srv, w.pushes), w.srv.nodes[g].path))
  {
    var trimmed := Prune(w.dev.c, env.excludes, o.scan, o.prefixes);
    PruneIsSafe(env, w.dev.c, o.scan, o.prefixes, trimmed);
    PruneKeepsSound(env, w.dev.c, o.scan, o.prefixes, trimmed);
    var start := w.dev.(c := trimmed.c);
    PullSparesExcluded(env, w.srv, pruned, start, o.tree, o.vanish, pulled);
    var p :| Pushes(env, Sides(pulled.dev.c, w.srv, w.pushes), o.disk, o.deletions, p)
             && out == World(pulled.dev.(c := p.w.c), p.w.srv, p.w.pushes) && (ok <==> p.Ok?);
    PushSparesExcluded(env, Sides(pulled.dev.c, w.srv, w.pushes), o.disk, o.deletions, p);
  }

  // ---- the rename of a folder trashes what is excluded in it --------------------------------------------

  lemma OnlyFXIsOff(env: Env)
    requires env.excludes == [FX]
    ensures !Excluded(env, F) && !Excluded(env, GX) && Excluded(env, FX)
  {
    Names();
    assert FX in env.excludes && Under(FX, FX);
    assert Under(GX, FX) ==> GX == FX;
  }

  lemma CarriesTheFile(env: Env)
    requires env.excludes == [FX]
    ensures CarriesIn(env, InG(env), 2, F)
  {
    OnlyFXIsOff(env);
    Names();
    Located(InG(env).rows, 2, G);
    assert GX in InG(env).disk && Relocate(GX, G, F) == FX;
  }

  lemma IgnoresTheFile(env: Env)
    requires env.excludes == [FX]
    ensures ApplyChange(env, U3, InF(env), Upsert(3)) == Done(InF(env))
  {
    OnlyFXIsOff(env);
  }

  /** The folder has followed its node, the file went along to the excluded path, and its row did not. */
  lemma RowStaysBehind(env: Env)
    requires env.excludes == [FX]
    ensures Replay(env, U3, InG(env), [Upsert(2)] + [Upsert(3)]) == Done(InF(env))
  {
    OnlyFXIsOff(env);
    MoveOnly(env, U3);
    IgnoresTheFile(env);
    MovedThenIgnored(env, InG(env), InF(env));
  }

  lemma MovedThenIgnored(env: Env, c: Client, e: Client)
    requires ApplyChange(env, U3, c, Upsert(2)) == Done(e) && ApplyChange(env, U3, e, Upsert(3)) == Done(e)
    ensures Replay(env, U3, c, [Upsert(2)] + [Upsert(3)]) == Done(e)
  {
    Unfold(env, U3, c, Upsert(2), [Upsert(3)]);
    ReplayOne(env, U3, e, Upsert(3));
  }

  lemma {:induction false} IdleWalk(env: Env, w: Sides, walk: seq<Path>)
    requires forall p :: p in walk ==> PushOne(env, w, p) == Ok(w)
    ensures PushExisting(env, w, walk) == Ok(w)
    decreases |walk|
  {
    if walk != [] {
      assert walk[0] in walk;
      IdleWalk(env, w, walk[1..]);
    }
  }

  /** The client holds the tree of its cursor, in which the file is not excluded, and edits nothing. The
      folder is renamed on another device, so that the file is now where this one excludes it; the pull
      returns without an error, and the push trashes the file on the server. */
  lemma RenameTrashesExcluded(env: Env, w: Sides, walk: seq<Path>, listed: seq<Path>, out: Progress)
    requires env.excludes == [FX] && w.c == InF(env) && w.srv.nodes == U3 && Pushes(env, w, walk, listed, out)
    ensures ValidCommit(U2, Commit([Upsert(2)] + [Upsert(3)], U3))
    ensures Sound(InG(env)) && Mirrors(InG(env).rows, U2) && InStep(InG(env), G) && InStep(InG(env), GX)
    ensures NoneRecorded(env, InG(env).rows) && Replay(env, U3, InG(env), [Upsert(2)] + [Upsert(3)]) == Done(w.c)
    ensures IsExcluded(env, w.srv.nodes, 3) && out.Ok? && 3 !in out.w.srv.nodes
  {
    MoveIsValid();
    StartsInG(env);
    RowStaysBehind(env);
    StartsOn(env);
    PushTrashesTheFile(env, w, walk, listed, out);
  }

  lemma PushTrashesTheFile(env: Env, w: Sides, walk: seq<Path>, listed: seq<Path>, out: Progress)
    requires env.excludes == [FX] && w.c == InF(env) && w.srv.nodes == U3 && Pushes(env, w, walk, listed, out)
    ensures IsExcluded(env, w.srv.nodes, 3) && out.Ok? && 3 !in out.w.srv.nodes
  {
    NothingToWalk(env, w);
    IdleWalk(env, w, walk);
    TakesTheFile(env, w);
    DiesIff(env, w, Seen(env, w.c.disk), w.c.rows, listed, 3);
  }

  lemma StartsOn(env: Env)
    requires env.excludes == [FX]
    ensures NoneRecorded(env, InG(env).rows)
  {
    OnlyFXIsOff(env);
    Names();
  }

  lemma NothingToWalk(env: Env, w: Sides)
    requires env.excludes == [FX] && w.c == InF(env)
    ensures forall p :: p in w.c.disk ==> PushOne(env, w, p) == Ok(w)
  {
    OnlyFXIsOff(env);
    Names();
  }

  lemma TakesTheFile(env: Env, w: Sides)
    requires env.excludes == [FX] && w.c == InF(env) && w.srv.nodes == U3
    ensures GX in w.c.rows && 3 in w.srv.nodes && Takes(env, w.srv.nodes, Seen(env, w.c.disk), w.c.rows, GX, 3)
    ensures IsExcluded(env, w.srv.nodes, 3)
  {
    OnlyFXIsOff(env);
    Names();
  }
}
