/**
  One pass of the sync engine (client/internal/engine/engine.go) against a server that nobody
  else changes meanwhile: prune, pull, push; and the two promises made for it, that a pass
  converges and that the next one has nothing to do.
 */
module Sync {
  import opened Base
  import opened LocalDisk
  import opened Pull
  import opened Journal
  import opened Shadow
  import opened Resume
  import opened Rerun
  import opened Refusals
  import opened Server
  import opened Push
  import opened Reconcile
  import opened Selective

  /** One journal page. */
  const PAGE_LIMIT: nat := 500

  /** A client with its saved cursor: the number of journal entries consumed. */
  datatype Device = Device(c: Client, cursor: nat)

  datatype Page = Reset(latest: nat) | Changes(changes: seq<Change>, cursor: nat, more: bool)

  /** The changes endpoint. The first `pruned` entries are no longer retained. */
  function Poll(journal: seq<Change>, pruned: nat, since: nat, limit: nat): Page {
    if since < |journal| && since < pruned then Reset(|journal|)
    else
      var from := if since < |journal| then since else |journal|;
      var till := if from + limit < |journal| then from + limit else |journal|;
      Changes(journal[from..till], if from < till then till else since, till - from == limit)
  }

  /** A page is a stretch of the journal without a gap, from the cursor on, and all of it is retained; the
      cursor moves to its end, and unless the page is full that is the end of the journal. A reset is the
      answer only when the entry after the cursor is retained no longer. */
  lemma PollSkipsNothing(journal: seq<Change>, pruned: nat, since: nat, limit: nat)
    requires pruned <= |journal| && limit > 0
    ensures var page := Poll(journal, pruned, since, limit);
            match page
            case Reset(latest) => since < pruned && latest == |journal|
            case Changes(changes, cursor, more) =>
              && |changes| <= limit
              && (if since >= |journal| then changes == [] && cursor == since && !more
                  else pruned <= since < cursor <= |journal| && changes == journal[since..cursor] && (!more ==> cursor == |journal|))
  {
  }

  /** What a pull leaves: the client, the cursor it saved, and whether it succeeded. */
  datatype Pulled = Pulled(dev: Device, ok: bool)

  /** applyRemote without a reset: page after page, the cursor saved after each. */
  ghost function ApplyPages(env: Env, srv: Server, dev: Device, limit: nat): Pulled
    requires limit > 0
    decreases |srv.journal| - dev.cursor
  {
    var page := Poll(srv.journal, 0, dev.cursor, limit);
    var out := Replay(env, srv.nodes, dev.c, page.changes);
    if out.Failed? then Pulled(dev.(c := out.c), false)
    else
      var next := Device(out.c, page.cursor);
      if page.more then ApplyPages(env, srv, next, limit) else Pulled(next, true)
  }

  predicate Rewalks(srv: Server, pruned: nat, dev: Device) {
    dev.c.rows == map[] || Poll(srv.journal, pruned, dev.cursor, PAGE_LIMIT).Reset?
  }

  /** A full reconcile; the cursor becomes the journal head it started from. */
  ghost predicate Rewalked(env: Env, srv: Server, dev: Device, order: seq<Id>, listed: seq<Path>, out: Pulled) {
    && Reconciles(env, srv.nodes, dev.c, order, listed, if out.ok then Done(out.dev.c) else Failed(out.dev.c))
    && out.dev.cursor == if out.ok then |srv.journal| else dev.cursor
  }

  /** pull: from an empty database, or after a reset, the whole tree; otherwise the journal. */
  ghost predicate Pulls(env: Env, srv: Server, pruned: nat, dev: Device, order: seq<Id>, listed: seq<Path>, out: Pulled) {
    if Rewalks(srv, pruned, dev) then Rewalked(env, srv, dev, order, listed, out)
    else out == ApplyPages(env, srv, dev, PAGE_LIMIT)
  }

  /** Everything a pass leaves open: the orders in which the walks meet things. */
  datatype Orders = Orders(scan: seq<Path>, prefixes: seq<Path>, tree: seq<Id>, vanish: seq<Path>, disk: seq<Path>, deletions: seq<Path>)

  datatype World = World(dev: Device, srv: Server, pushes: nat)

  /** Sync: `out` is a world a pass from `w` can end in, `ok` whether it returned nil. */
  ghost predicate Syncs(env: Env, w: World, pruned: nat, o: Orders, pulled: Pulled, out: World, ok: bool) {
    && (forall p :: p in o.scan ==> p in w.dev.c.rows)
    && var trimmed := Prune(w.dev.c, env.excludes, o.scan, o.prefixes);
    && var start := w.dev.(c := trimmed.c);
    && Prunes(w.dev.c, env.excludes, o.scan, o.prefixes, trimmed)
    && (if trimmed.Failed? then pulled == Pulled(start, false)
        else Pulls(env, w.srv, pruned, start, o.tree, o.vanish, pulled))
    && if !pulled.ok then out == w.(dev := pulled.dev) && !ok
       else exists p :: Pushes(env, Sides(pulled.dev.c, w.srv, w.pushes), o.disk, o.deletions, p)
                        && out == World(pulled.dev.(c := p.w.c), p.w.srv, p.w.pushes) && (ok <==> p.Ok?)
  }

  // ---- paging ------------------------------------------------------------------------------

  /** Paging is replaying: whatever the page size, a pull that succeeds has replayed everything
      past the cursor and saved the head; one that fails has saved the end of a page whose
      entries are all applied, and was replaying from there. */
  lemma {:induction false} PagesAreReplay(env: Env, srv: Server, dev: Device, limit: nat)
    requires limit > 0 && dev.cursor <= |srv.journal|
    ensures var out := ApplyPages(env, srv, dev, limit);
            var at := out.dev.cursor;
            && dev.cursor <= at <= |srv.journal|
            && Replay(env, srv.nodes, dev.c, srv.journal[dev.cursor..at]).Done?
            && var saved := Replay(env, srv.nodes, dev.c, srv.journal[dev.cursor..at]).c;
               if out.ok then at == |srv.journal| && out.dev.c == saved
               else Replay(env, srv.nodes, saved, srv.journal[at..]) == Failed(out.dev.c)
    decreases |srv.journal| - dev.cursor
  {
    var page := Poll(srv.journal, 0, dev.cursor, limit);
    var out := Replay(env, srv.nodes, dev.c, page.changes);
    var rest := srv.journal[page.cursor..];
    assert srv.journal[dev.cursor..] == page.changes + rest;
    if out.Failed? {
      assert srv.journal[dev.cursor..dev.cursor] == [];
      ReplaySplit(env, srv.nodes, dev.c, page.changes, rest);
    } else if page.more {
      var next := Device(out.c, page.cursor);
      PagesAreReplay(env, srv, next, limit);
      var at := ApplyPages(env, srv, next, limit).dev.cursor;
      assert srv.journal[dev.cursor..at] == page.changes + srv.journal[page.cursor..at];
      ReplaySplit(env, srv.nodes, dev.c, page.changes, srv.journal[page.cursor..at]);
    } else {
      assert srv.journal[dev.cursor..page.cursor] == page.changes;
    }
  }

  // ---- convergence -------------------------------------------------------------------------

  /** The database mirrors the server as of its cursor, and `hs` is what happened since. */
  ghost predicate MirrorsAsOf(dev: Device, srv: Server, b: Tree, hs: seq<Commit>) {
    && ValidHistory(b, hs) && Latest(b, hs) == srv.nodes
    && dev.cursor <= |srv.journal| && Entries(hs) == srv.journal[dev.cursor..]
    && Sound(dev.c) && Mirrors(dev.c.rows, b)
  }

  /** The same of a device whose pull may have been cut short: the rows are a valid starting point for
      replaying what the cursor has not passed. */
  ghost predicate ResumesAsOf(dev: Device, srv: Server, b: Tree, hs: seq<Commit>) {
    && ValidHistory(b, hs) && Latest(b, hs) == srv.nodes
    && dev.cursor <= |srv.journal| && Entries(hs) == srv.journal[dev.cursor..]
    && Between(dev.c, b, hs, srv.nodes)
  }

  lemma MirrorsResumes(dev: Device, srv: Server, b: Tree, hs: seq<Commit>)
    requires MirrorsAsOf(dev, srv, b, hs)
    ensures ResumesAsOf(dev, srv, b, hs)
  {
    MirrorIsBetween(dev.c, b, hs);
  }

  /** A pull that stopped, or was refused, before it saved a cursor leaves the device so. */
  lemma StoppedPullResumes(env: Env, dev: Device, srv: Server, b: Tree, hs: seq<Commit>, k: nat)
    requires env.excludes == [] && ResumesAsOf(dev, srv, b, hs) && k <= |Entries(hs)|
    requires Replay(env, srv.nodes, dev.c, Entries(hs)[..k]).Done?
    ensures var stop := Replay(env, srv.nodes, dev.c, Entries(hs)[..k]).c;
            && ResumesAsOf(dev.(c := stop), srv, b, hs)
            && (k < |Entries(hs)| && ApplyChange(env, srv.nodes, stop, Entries(hs)[k]).Failed? ==>
                  ResumesAsOf(dev.(c := ApplyChange(env, srv.nodes, stop, Entries(hs)[k]).c), srv, b, hs))
  {
    ReplayKeepsBetween(env, dev.c, b, hs, Entries(hs)[..k]);
    var stop := Replay(env, srv.nodes, dev.c, Entries(hs)[..k]).c;
    LatestIsValid(b, hs);
    if k < |Entries(hs)| && ApplyChange(env, srv.nodes, stop, Entries(hs)[k]).Failed? {
      RefusalKeepsBetween(env, stop, b, hs, srv.nodes, Entries(hs)[k]);
    }
  }

  /** A pull that fails in its first page leaves the device where a later pull can take over. */
  lemma FailedPullResumes(env: Env, dev: Device, srv: Server, b: Tree, hs: seq<Commit>, limit: nat)
    requires env.excludes == [] && ResumesAsOf(dev, srv, b, hs) && limit > 0
    requires !ApplyPages(env, srv, dev, limit).ok && ApplyPages(env, srv, dev, limit).dev.cursor == dev.cursor
    ensures ResumesAsOf(ApplyPages(env, srv, dev, limit).dev, srv, b, hs)
  {
    var out := ApplyPages(env, srv, dev, limit);
    PagesAreReplay(env, srv, dev, limit);
    LatestIsValid(b, hs);
    assert srv.journal[dev.cursor..dev.cursor] == [];
    assert Replay(env, srv.nodes, dev.c, Entries(hs)) == Failed(out.dev.c);
    var k := FirstRefused(env, srv.nodes, dev.c, Entries(hs));
    RefusedAtFails(env, srv.nodes, dev.c, Entries(hs), k);
    StoppedPullResumes(env, dev, srv, b, hs, k);
  }

  /** The start of a full walk: paths have not changed kind, the gate is honest, no stale twin. */
  ghost predicate FitToRewalk(c: Client, s: Tree) {
    && IsTree(c.disk) && HashesAgree(c.rows) && [] !in c.rows
    && forall x :: x in s ==> Honest(c, s[x].path) && !KeptStale(c, x, s[x])
  }

  /** An empty database is always fit. */
  lemma EmptyIsFit(c: Client, s: Tree)
    requires IsTree(c.disk) && c.rows == map[]
    ensures FitToRewalk(c, s)
  {
  }

  lemma PullMirrors(env: Env, srv: Server, pruned: nat, dev: Device, b: Tree, hs: seq<Commit>,
                    order: seq<Id>, listed: seq<Path>, out: Pulled)
    requires env.excludes == [] && ValidServer(srv)
    requires Pulls(env, srv, pruned, dev, order, listed, out) && out.ok
    requires if Rewalks(srv, pruned, dev) then FitToRewalk(dev.c, srv.nodes)
             else ResumesAsOf(dev, srv, b, hs) && Clean(env, srv.nodes, dev.c, Entries(hs))
    ensures Mirrors(out.dev.c.rows, srv.nodes) && Sound(out.dev.c) && out.dev.cursor == |srv.journal|
    ensures Rewalks(srv, pruned, dev) ==> Settled(out.dev.c)
  {
    if Rewalks(srv, pruned, dev) {
      ReconcileAgrees(env, srv.nodes, dev.c, order, listed, Done(out.dev.c));
      AgreesSettles(out.dev.c, srv.nodes);
    } else {
      PagesAreReplay(env, srv, dev, PAGE_LIMIT);
      assert srv.journal[dev.cursor..|srv.journal|] == srv.journal[dev.cursor..];
      ReplayHistory(env, dev.c, b, hs);
      BetweenIsMirror(out.dev.c, srv.nodes);
    }
  }

  /** A pass over a server at rest whose pull returns without an error, be it the rerun of one that
      was cut short, succeeds and ends with disk, database and server tree in agreement on paths,
      kinds, node ids and content if and only if, where the pull left it, no recorded path had
      changed kind and the gate hid no edit; after a full walk that is always so. The device is then
      in step with the server as of its cursor again. */
  lemma SyncConverges(env: Env, w: World, pruned: nat, b: Tree, hs: seq<Commit>, o: Orders, pulled: Pulled, out: World, ok: bool)
    requires env.excludes == [] && ValidServer(w.srv)
    requires Syncs(env, w, pruned, o, pulled, out, ok) && pulled.ok
    requires if Rewalks(w.srv, pruned, w.dev) then FitToRewalk(w.dev.c, w.srv.nodes)
             else ResumesAsOf(w.dev, w.srv, b, hs) && Clean(env, w.srv.nodes, w.dev.c, Entries(hs))
    ensures ok && Converged(out.dev.c, out.srv) <==> KindsAgree(pulled.dev.c) && GateSound(pulled.dev.c)
    ensures Rewalks(w.srv, pruned, w.dev) ==> KindsAgree(pulled.dev.c) && GateSound(pulled.dev.c)
    ensures out.dev.cursor == |w.srv.journal|
    ensures ok && Converged(out.dev.c, out.srv) ==>
              && Spent(w.srv, out.srv) && out.dev.c.disk == pulled.dev.c.disk
              && out.dev.cursor <= |out.srv.journal|
              && MirrorsAsOf(out.dev, out.srv, out.srv.nodes, OwnPushes(out))
  {
    NothingToPrune(env, w.dev.c, o.scan, o.prefixes, Prune(w.dev.c, env.excludes, o.scan, o.prefixes));
    PullMirrors(env, w.srv, pruned, w.dev, b, hs, o.tree, o.vanish, pulled);
    var sides := Sides(pulled.dev.c, w.srv, w.pushes);
    var p :| Pushes(env, sides, o.disk, o.deletions, p)
             && out == World(pulled.dev.(c := p.w.c), p.w.srv, p.w.pushes) && (ok <==> p.Ok?);
    PushConvergesIff(env, sides, o.disk, o.deletions, p);
    if ok && Converged(out.dev.c, out.srv) {
      PushConverges(env, sides, o.disk, o.deletions, p);
      ConvergedIsMirror(w.srv, out);
    }
  }

  /** What the journal holds past the cursor after a pass, seen from the tree the pass left. */
  ghost function OwnPushes(out: World): seq<Commit>
    requires out.dev.cursor <= |out.srv.journal|
  {
    [Commit(out.srv.journal[out.dev.cursor..], out.srv.nodes)]
  }

  lemma ConvergedIsMirror(before: Server, out: World)
    requires Converged(out.dev.c, out.srv) && Spent(before, out.srv) && out.dev.cursor == |before.journal|
    ensures MirrorsAsOf(out.dev, out.srv, out.srv.nodes, OwnPushes(out))
  {
    var own, t := out.srv.journal[out.dev.cursor..], out.srv.nodes;
    assert ValidCommit(t, Commit(own, t)) by {
      forall ch | ch in own ensures ch.Upsert? <==> ch.id in t {
        var i :| 0 <= i < |own| && own[i] == ch;
        assert out.srv.journal[out.dev.cursor + i] == ch;
      }
    }
    assert OwnPushes(out)[1..] == [] && own + Entries([]) == own;
  }

  /** The same with a condition on the tree of the cursor and the tree of now alone: no live file
      took over the path and the content of a file that died, and no path changed hands within one
      server transaction. */
  lemma SyncConvergesWithoutTwins(env: Env, w: World, pruned: nat, b: Tree, hs: seq<Commit>, o: Orders,
                                  pulled: Pulled, out: World, ok: bool)
    requires env.excludes == [] && ValidServer(w.srv)
    requires Syncs(env, w, pruned, o, pulled, out, ok) && pulled.ok && !Rewalks(w.srv, pruned, w.dev)
    requires MirrorsAsOf(w.dev, w.srv, b, hs) && NoHandover(b, hs) && NoTwins(b, w.srv.nodes)
    ensures ok && Converged(out.dev.c, out.srv) <==> KindsAgree(pulled.dev.c) && GateSound(pulled.dev.c)
  {
    MirrorsResumes(w.dev, w.srv, b, hs);
    NoTwinsClean(env, w.dev.c, b, hs);
    SyncConverges(env, w, pruned, b, hs, o, pulled, out, ok);
  }

  /** The first sync of a device, from an empty database, over any files already on its disk. */
  lemma FirstSyncConverges(env: Env, w: World, pruned: nat, o: Orders, pulled: Pulled, out: World, ok: bool)
    requires env.excludes == [] && ValidServer(w.srv) && IsTree(w.dev.c.disk) && w.dev.c.rows == map[]
    requires Syncs(env, w, pruned, o, pulled, out, ok)
    ensures ok <==> pulled.ok
    ensures ok ==> Converged(out.dev.c, out.srv) && out.dev.cursor == |w.srv.journal| && Spent(w.srv, out.srv)
    ensures ok ==> MirrorsAsOf(out.dev, out.srv, out.srv.nodes, OwnPushes(out))
  {
    if pulled.ok {
      EmptyIsFit(w.dev.c, w.srv.nodes);
      SyncConverges(env, w, pruned, map[], [], o, pulled, out, ok);
    }
  }

  // ---- no echo -----------------------------------------------------------------------------

  /** After a pass has converged, every entry of its own pushes is already applied. */
  lemma OwnEntryIsApplied(env: Env, c: Client, srv: Server, ch: Change)
    requires Converged(c, srv) && (ch.Delete? ==> ch.id !in srv.nodes)
    ensures Applied(env, srv.nodes, c, ch)
  {
    if ch.Upsert? && ch.id in srv.nodes {
      assert Tracked(c.rows, srv.nodes, ch.id);
      assert InStep(c, srv.nodes[ch.id].path);
    }
  }

  lemma {:induction false} OwnEntriesAreNoOps(env: Env, c: Client, srv: Server, cs: seq<Change>)
    requires Converged(c, srv) && forall ch :: ch in cs ==> (ch.Upsert? <==> ch.id in srv.nodes)
    ensures Replay(env, srv.nodes, c, cs) == Done(c)
    decreases |cs|
  {
    if cs != [] {
      assert cs[0] in cs;
      OwnEntryIsApplied(env, c, srv, cs[0]);
      AppliedIsNoOp(env, srv.nodes, c, cs[0]);
      OwnEntriesAreNoOps(env, c, srv, cs[1..]);
    }
  }

  lemma ConvergedNodeIsIdle(env: Env, c: Client, srv: Server, x: Id)
    requires Converged(c, srv) && x in srv.nodes
    ensures Materialize(env, c, x, srv.nodes[x]) == Done(c)
  {
    var n := srv.nodes[x];
    assert Tracked(c.rows, srv.nodes, x);
    assert InStep(c, n.path);
    NotBarred(c.disk, n.path);
    if n.kind == IsFolder {
      MkdirExisting(c.disk, n.path);
      assert c.rows[n.path := FolderEntry(x)] == c.rows;
    }
  }

  /** A full walk over a converged client downloads nothing and drops nothing. */
  lemma {:induction false} ConvergedWalkIsIdle(env: Env, c: Client, srv: Server, order: seq<Id>)
    requires Converged(c, srv) && forall x :: x in order ==> x in srv.nodes
    ensures WalkTree(env, srv.nodes, c, order) == Done(c)
    decreases |order|
  {
    if order != [] {
      assert order[0] in order;
      ConvergedNodeIsIdle(env, c, srv, order[0]);
      ConvergedWalkIsIdle(env, c, srv, order[1..]);
    }
  }

  lemma {:induction false} AllMetDropsNothing(env: Env, c: Client, met: set<Path>, rows: Rows, listed: seq<Path>)
    requires forall p :: p in listed ==> p in rows && p in met
    ensures DropVanished(env, c, met, rows, listed) == Done(c)
    decreases |listed|
  {
    if listed != [] {
      AllMetDropsNothing(env, c, met, rows, listed[1..]);
    }
  }

  lemma ConvergedReconcileIsIdle(env: Env, c: Client, srv: Server, order: seq<Id>, listed: seq<Path>, out: Outcome)
    requires env.excludes == [] && Converged(c, srv) && Reconciles(env, srv.nodes, c, order, listed, out)
    ensures out == Done(c)
  {
    ConvergedWalkIsIdle(env, c, srv, order);
    forall p | p in listed ensures p in MetPaths(srv.nodes, order) {
      assert c.rows[p].id in order;
      var i :| 0 <= i < |order| && order[i] == c.rows[p].id;
      assert srv.nodes[order[i]].path == p;
    }
    AllMetDropsNothing(env, c, MetPaths(srv.nodes, order) + {[]}, c.rows, listed);
  }

  /** A second pass right after a successful one changes nothing but the cursor, although the
      journal replays the first pass's own pushes (or, pruned meanwhile, the tree is walked
      again): no download, no upload, no new folder, no trash, no journal entry. */
  lemma NoEcho(env: Env, before: Server, w: World, pruned: nat, o: Orders, pulled: Pulled, out: World, ok: bool)
    requires env.excludes == [] && Converged(w.dev.c, w.srv)
    requires Spent(before, w.srv) && w.dev.cursor == |before.journal|
    requires Syncs(env, w, pruned, o, pulled, out, ok)
    ensures ok && out == w.(dev := Device(w.dev.c, |w.srv.journal|))
  {
    NothingToPrune(env, w.dev.c, o.scan, o.prefixes, Prune(w.dev.c, env.excludes, o.scan, o.prefixes));
    if Rewalks(w.srv, pruned, w.dev) {
      ConvergedReconcileIsIdle(env, w.dev.c, w.srv, o.tree, o.vanish,
                               if pulled.ok then Done(pulled.dev.c) else Failed(pulled.dev.c));
    } else {
      PagesAreReplay(env, w.srv, w.dev, PAGE_LIMIT);
      OwnStretch(env, before, w, pulled.dev.cursor);
    }
    assert pulled.ok && pulled.dev == Device(w.dev.c, |w.srv.journal|);
    var sides := Sides(w.dev.c, w.srv, w.pushes);
    var p :| Pushes(env, sides, o.disk, o.deletions, p)
             && out == World(pulled.dev.(c := p.w.c), p.w.srv, p.w.pushes) && (ok <==> p.Ok?);
    ConvergedPushIsIdle(env, sides, o.disk, o.deletions, p);
  }

  lemma OwnStretch(env: Env, before: Server, w: World, at: nat)
    requires Converged(w.dev.c, w.srv) && Spent(before, w.srv) && w.dev.cursor == |before.journal|
    requires w.dev.cursor <= at <= |w.srv.journal|
    ensures Replay(env, w.srv.nodes, w.dev.c, w.srv.journal[w.dev.cursor..at]) == Done(w.dev.c)
    ensures Replay(env, w.srv.nodes, w.dev.c, w.srv.journal[at..]) == Done(w.dev.c)
  {
    OwnEntriesAreNoOps(env, w.dev.c, w.srv, w.srv.journal[w.dev.cursor..at]);
    OwnEntriesAreNoOps(env, w.dev.c, w.srv, w.srv.journal[at..]);
  }
}
