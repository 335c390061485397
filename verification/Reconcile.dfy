/**
  The full tree walk (reconcileTree, client/internal/engine/pull.go): every live node is
  materialized, parents first, and whatever is recorded but was not met is dropped.
 */
module Reconcile {
  import opened Base
  import opened LocalDisk
  import opened ConflictNames
  import opened Pull
  import opened Journal
  import opened Push
  import opened Resume

  /** materializeFile: only exactly this version, untouched, is left alone. */
  function MaterializeFile(env: Env, c: Client, id: Id, n: Node): Outcome {
    if n.path !in c.rows || c.rows[n.path].remote != n.hash then PullDown(env, c, id, n)
    else if Barred(c.disk, n.path) then Failed(c)
    else if LocalStatus(c.disk, n.path, c.rows[n.path]) == (true, false) then Done(c)
    else PullDown(env, c, id, n)
  }

  function Materialize(env: Env, c: Client, id: Id, n: Node): Outcome {
    if n.kind == IsFolder then MaterializeFolder(c, id, n) else MaterializeFile(env, c, id, n)
  }

  /** The walk over the live nodes in the order they are met. */
  function WalkTree(env: Env, s: Tree, c: Client, order: seq<Id>): Outcome
    requires forall x :: x in order ==> x in s
    decreases |order|
  {
    if order == [] then Done(c)
    else
      var first := Materialize(env, c, order[0], s[order[0]]);
      if first.Failed? then first else WalkTree(env, s, first.c, order[1..])
  }

  /** The recorded paths `listed`, as recorded when the walk ended; `met` are the walked paths. */
  function DropVanished(env: Env, c: Client, met: set<Path>, rows: Rows, listed: seq<Path>): Outcome
    requires forall p :: p in listed ==> p in rows
    decreases |listed|
  {
    if listed == [] then Done(c)
    else if listed[0] in met || Excluded(env, listed[0]) then DropVanished(env, c, met, rows, listed[1..])
    else
      var first := DropLocal(env, c, listed[0], rows[listed[0]]);
      if first.Failed? then first else DropVanished(env, first.c, met, rows, listed[1..])
  }

  function MetPaths(s: Tree, ids: seq<Id>): set<Path>
    requires forall x :: x in ids ==> x in s
  {
    set i | 0 <= i < |ids| :: s[ids[i]].path
  }

  /** Breadth first from the root, descending into what is not excluded: every such node once,
      its folder before it. */
  ghost predicate IsTreeWalk(env: Env, s: Tree, order: seq<Id>) {
    && (forall x :: x in order <==> x in s && !Excluded(env, s[x].path))
    && (forall i, j :: 0 <= i < j < |order| ==> order[i] != order[j])
    && (forall i {:trigger order[i]} :: 0 <= i < |order| ==>
          Parent(s[order[i]].path) == [] || Parent(s[order[i]].path) in MetPaths(s, order[..i]))
  }

  /** `out` is where a full reconcile ends that meets the nodes in the order `order`, up to an
      error, and then goes through the recorded paths in the order `listed`. */
  ghost predicate Reconciles(env: Env, s: Tree, c: Client, order: seq<Id>, listed: seq<Path>, out: Outcome) {
    && (forall x :: x in order ==> x in s)
    && var walked := WalkTree(env, s, c, order);
       if walked.Failed? then out == walked
       else
         && IsTreeWalk(env, s, order)
         && (forall p :: p in listed <==> p in walked.c.rows)
         && out == DropVanished(env, walked.c, MetPaths(s, order) + {[]}, walked.c.rows, listed)
  }

  // ---- the walk ---------------------------------------------------------------------------

  /** The row at a live node's path names its kind and version; a file is there, as recorded,
      with the version's bytes, a folder is there. */
  ghost predicate Placed(c: Client, n: Node) {
    && InStep(c, n.path)
    && c.rows[n.path].kind == n.kind && c.rows[n.path].remote == n.hash
  }

  /** Before the walk: the gate is honest and no path changed kind, where a node will be met. */
  ghost predicate Honest(c: Client, p: Path) {
    p in c.disk && p in c.rows ==>
      && (c.disk[p].Dir? <==> c.rows[p].kind == IsFolder)
      && (c.disk[p].File? && |c.disk[p].bytes| == c.rows[p].size && c.disk[p].mtime == c.rows[p].mtime ==>
            Blake3(c.disk[p].bytes) == c.rows[p].hash)
  }

  /** The node keeps a row of another node: same path, same version, file untouched. */
  predicate KeptStale(c: Client, x: Id, n: Node) {
    && n.kind == IsFile && n.path in c.rows && c.rows[n.path].id != x
    && c.rows[n.path].remote == n.hash && LocalStatus(c.disk, n.path, c.rows[n.path]) == (true, false)
  }

  /** What one node's step does at its own path and elsewhere. */
  lemma MaterializeStep(env: Env, c: Client, x: Id, n: Node)
    requires IsTree(c.disk) && HashesAgree(c.rows) && n.path != [] && (n.kind == IsFolder <==> n.hash == NoHash)
    requires Honest(c, n.path) && Materialize(env, c, x, n).Done?
    requires IsDir(c.disk, Parent(n.path))
    ensures var e := Materialize(env, c, x, n).c;
            && IsTree(e.disk) && HashesAgree(e.rows) && Placed(e, n)
            && (e.rows[n.path].id == x <==> !KeptStale(c, x, n))
            && (forall q :: q != n.path ==> SameAt(c, e, q))
  {
    if n.kind == IsFolder {
      FolderPlaced(c, x, n);
    } else if MaterializeFile(env, c, x, n) != Done(c) {
      PullDownPlaced(env, c, x, n);
    }
  }

  ghost predicate SameAt(c: Client, e: Client, q: Path) {
    && (q in c.rows <==> q in e.rows) && (q in c.rows ==> c.rows[q] == e.rows[q])
    && (q in c.disk <==> q in e.disk) && (q in c.disk ==> c.disk[q] == e.disk[q])
  }

  lemma FolderPlaced(c: Client, x: Id, n: Node)
    requires IsTree(c.disk) && HashesAgree(c.rows) && n.path != [] && n.kind == IsFolder && n.hash == NoHash
    requires IsDir(c.disk, Parent(n.path)) && MaterializeFolder(c, x, n).Done?
    ensures var e := MaterializeFolder(c, x, n).c;
            && IsTree(e.disk) && HashesAgree(e.rows) && Placed(e, n) && e.rows[n.path].id == x
            && (forall q :: q != n.path ==> SameAt(c, e, q))
  {
    MkdirAllKeepsTree(c.disk, n.path);
    MkdirUnderDir(c.disk, n.path);
  }

  lemma PullDownPlaced(env: Env, c: Client, x: Id, n: Node)
    requires IsTree(c.disk) && HashesAgree(c.rows) && n.path != [] && n.kind == IsFile && n.hash != NoHash
    requires IsDir(c.disk, Parent(n.path)) && PullDown(env, c, x, n).Done?
    ensures var e := PullDown(env, c, x, n).c;
            && IsTree(e.disk) && HashesAgree(e.rows) && Placed(e, n) && e.rows[n.path].id == x
            && (forall q :: q != n.path ==> SameAt(c, e, q))
  {
    PullDownKeepsTree(env, c, x, n);
    MkdirExisting(c.disk, Parent(n.path));
  }

  lemma MkdirUnderDir(d: Disk, p: Path)
    requires IsTree(d) && p != [] && IsDir(d, Parent(p)) && MkdirAll(d, p).Some?
    ensures MkdirAll(d, p).value == d[p := Dir]
  {
    var e := MkdirAll(d, p).value;
    assert p[..|p|] == p && p in Prefixes(p);
    forall q | q in Prefixes(p) && q != p ensures q in d {
      var k :| 1 <= k <= |p| && q == p[..k];
      assert q == Parent(p)[..k];
      if k < |Parent(p)| {
        AncestorsAreDirs(d, Parent(p), k);
      }
      assert Parent(p)[..|Parent(p)|] == Parent(p);
    }
  }

  /** After the first k nodes: they are placed, and nothing else has changed. */
  ghost predicate Met(s: Tree, c0: Client, c: Client, order: seq<Id>, k: nat)
    requires k <= |order| && forall x :: x in order ==> x in s
  {
    && IsTree(c.disk) && HashesAgree(c.rows)
    && (forall i :: 0 <= i < k ==> Placed(c, s[order[i]]) && OwnRow(s, c0, c, order[i]))
    && (forall q :: q !in MetPaths(s, order[..k]) ==> SameAt(c0, c, q))
  }

  /** The row carries the node's own id unless a stale one was kept. */
  ghost predicate OwnRow(s: Tree, c0: Client, c: Client, x: Id)
    requires x in s && s[x].path in c.rows
  {
    c.rows[s[x].path].id == x <==> !KeptStale(c0, x, s[x])
  }

  lemma PathsGrow(s: Tree, order: seq<Id>, k: nat)
    requires k < |order| && forall x :: x in order ==> x in s
    ensures MetPaths(s, order[..k + 1]) == MetPaths(s, order[..k]) + {s[order[k]].path}
    ensures forall i :: 0 <= i < k ==> s[order[i]].path in MetPaths(s, order[..k])
  {
    var a, b := order[..k], order[..k + 1];
    assert forall i :: 0 <= i < k ==> a[i] == b[i] == order[i];
    assert b[k] == order[k];
  }

  lemma MetOnce(env: Env, s: Tree, order: seq<Id>, k: nat)
    requires ValidTree(s) && IsTreeWalk(env, s, order) && k < |order|
    ensures s[order[k]].path !in MetPaths(s, order[..k])
  {
    var p := s[order[k]].path;
    assert order[k] in order;
    forall i | 0 <= i < k ensures s[order[..k][i]].path != p {
      assert order[i] in order && order[i] != order[k];
    }
  }

  lemma ParentMet(env: Env, s: Tree, c0: Client, c: Client, order: seq<Id>, k: nat)
    requires ValidTree(s) && IsTreeWalk(env, s, order) && k < |order| && Met(s, c0, c, order, k)
    ensures IsDir(c.disk, Parent(s[order[k]].path))
  {
    assert order[k] in order;
    var up := Parent(s[order[k]].path);
    if up != [] {
      var i :| 0 <= i < k && s[order[..k][i]].path == up;
      assert order[i] in order;
      assert Placed(c, s[order[i]]);
      FolderOnly(s, order[k], order[i]);
    }
  }

  lemma FolderOnly(s: Tree, x: Id, g: Id)
    requires ValidTree(s) && x in s && g in s && s[g].path == Parent(s[x].path)
    ensures s[g].kind == IsFolder
  {
    assert HasFolder(s, Parent(s[x].path));
  }

  lemma MetStep(env: Env, s: Tree, c0: Client, c: Client, order: seq<Id>, k: nat)
    requires ValidTree(s) && IsTreeWalk(env, s, order) && k < |order| && Met(s, c0, c, order, k)
    requires forall x :: x in s ==> Honest(c0, s[x].path)
    requires Materialize(env, c, order[k], s[order[k]]).Done?
    ensures Met(s, c0, Materialize(env, c, order[k], s[order[k]]).c, order, k + 1)
  {
    assert order[k] in order;
    var x, n := order[k], s[order[k]];
    ParentMet(env, s, c0, c, order, k);
    MetOnce(env, s, order, k);
    assert SameAt(c0, c, n.path);
    MaterializeStep(env, c, x, n);
    MetFrom(s, c0, c, Materialize(env, c, x, n).c, order, k);
  }

  lemma MetFrom(s: Tree, c0: Client, c: Client, e: Client, order: seq<Id>, k: nat)
    requires k < |order| && (forall x :: x in order ==> x in s) && Met(s, c0, c, order, k)
    requires s[order[k]].path !in MetPaths(s, order[..k])
    requires IsTree(e.disk) && HashesAgree(e.rows)
    requires Placed(e, s[order[k]]) && OwnRow(s, c0, e, order[k])
    requires forall q :: q != s[order[k]].path ==> SameAt(c, e, q)
    ensures Met(s, c0, e, order, k + 1)
  {
    PathsGrow(s, order, k);
    forall i | 0 <= i < k ensures Placed(e, s[order[i]]) && OwnRow(s, c0, e, order[i]) {
      assert SameAt(c, e, s[order[i]].path);
    }
    forall q | q !in MetPaths(s, order[..k + 1]) ensures SameAt(c0, e, q) {
      assert SameAt(c0, c, q) && SameAt(c, e, q);
    }
  }

  lemma WalkOne(env: Env, s: Tree, c: Client, order: seq<Id>, k: nat)
    requires k < |order| && forall x :: x in order ==> x in s
    ensures var first := Materialize(env, c, order[k], s[order[k]]);
            WalkTree(env, s, c, order[k..]) == if first.Failed? then first else WalkTree(env, s, first.c, order[k + 1..])
  {
    assert order[k..][0] == order[k] && order[k..][1..] == order[k + 1..];
  }

  lemma {:induction false} WalkMeets(env: Env, s: Tree, c0: Client, c: Client, order: seq<Id>, k: nat)
    requires ValidTree(s) && IsTreeWalk(env, s, order) && k <= |order| && Met(s, c0, c, order, k)
    requires forall x :: x in s ==> Honest(c0, s[x].path)
    requires WalkTree(env, s, c, order[k..]).Done?
    ensures Met(s, c0, WalkTree(env, s, c, order[k..]).c, order, |order|)
    decreases |order| - k
  {
    if k < |order| {
      WalkOne(env, s, c, order, k);
      MetStep(env, s, c0, c, order, k);
      WalkMeets(env, s, c0, Materialize(env, c, order[k], s[order[k]]).c, order, k + 1);
    }
  }

  // ---- what vanished ------------------------------------------------------------------------

  /** While recorded paths that were not met are dropped; `left` are still to come. */
  ghost predicate Dropping(c: Client, walked: Client, met: set<Path>, left: set<Path>) {
    && IsTree(c.disk)
    && (forall p :: p in c.rows ==> p in walked.rows && c.rows[p] == walked.rows[p] && (p in met || p in left))
    && (forall p :: p in met ==> SameAt(walked, c, p))
  }

  /** Nothing met lies beneath a path that was not met. */
  ghost predicate Closed(met: set<Path>) {
    forall p, q {:trigger Under(q, p), p in met} :: q in met && Under(q, p) ==> p in met
  }

  lemma DropStep(env: Env, c: Client, walked: Client, met: set<Path>, p: Path, left: set<Path>)
    requires Dropping(c, walked, met, left + {p}) && p !in met && Closed(met) && p in walked.rows
    requires forall q :: q in met && q != [] ==> q in walked.disk
    requires [] in met && [] !in walked.rows
    requires DropLocal(env, c, p, walked.rows[p]).Done?
    ensures Dropping(DropLocal(env, c, p, walked.rows[p]).c, walked, met, left)
  {
    var out := DropLocal(env, c, p, walked.rows[p]).c;
    DropKeepsTree(env, c, p, walked.rows[p]);
    DropRows(env, c, p, walked.rows[p]);
    forall q | q in met ensures SameAt(walked, out, q) {
      assert SameAt(walked, c, q);
      assert Under(q, p) ==> p in met;
      DropSpares(env, c, p, walked.rows[p], q);
    }
  }

  lemma DropRows(env: Env, c: Client, p: Path, e: Entry)
    requires DropLocal(env, c, p, e).Done?
    ensures var r := DropLocal(env, c, p, e).c.rows;
            p !in r && forall q :: q in r ==> q in c.rows && r[q] == c.rows[q]
  {
    ConflictCopyRows(env, c, p);
  }

  /** A path that is neither beneath `p` nor free is as it was. */
  lemma DropSpares(env: Env, c: Client, p: Path, e: Entry, q: Path)
    requires IsTree(c.disk) && DropLocal(env, c, p, e).Done? && !Under(q, p) && (q == [] || q in c.disk)
    ensures SameAt(c, DropLocal(env, c, p, e).c, q)
  {
    if e.kind == IsFile && LocalStatus(c.disk, p, e) == (true, true) {
      ConflictCopyDisk(env, c, p);
      ConflictCopyKeepsTree(env, c, p);
      ConflictCopyRows(env, c, p);
    }
  }

  lemma {:induction false} DropAll(env: Env, c: Client, walked: Client, met: set<Path>, listed: seq<Path>)
    requires env.excludes == [] && Closed(met) && (forall q :: q in met && q != [] ==> q in walked.disk)
    requires [] in met && [] !in walked.rows && (forall p :: p in listed ==> p in walked.rows)
    requires Dropping(c, walked, met, set p | p in listed)
    requires DropVanished(env, c, met, walked.rows, listed).Done?
    ensures Dropping(DropVanished(env, c, met, walked.rows, listed).c, walked, met, {})
    decreases |listed|
  {
    if listed == [] {
      assert (set p | p in listed) == {};
    } else {
      var rest := set p | p in listed[1..];
      assert (set p | p in listed) == rest + {listed[0]};
      if listed[0] in met {
        DropAll(env, c, walked, met, listed[1..]);
      } else {
        DropStep(env, c, walked, met, listed[0], rest);
        DropAll(env, DropLocal(env, c, listed[0], walked.rows[listed[0]]).c, walked, met, listed[1..]);
      }
    }
  }

  // ---- the reconcile as a whole ---------------------------------------------------------------

  lemma MetAll(env: Env, s: Tree, c0: Client, c: Client, order: seq<Id>)
    requires env.excludes == [] && IsTreeWalk(env, s, order) && Met(s, c0, c, order, |order|)
    ensures forall x :: x in s ==> s[x].path in MetPaths(s, order) && Placed(c, s[x]) && OwnRow(s, c0, c, x)
    ensures forall p :: p in MetPaths(s, order) ==> exists x :: x in s && s[x].path == p
  {
    forall x | x in s ensures s[x].path in MetPaths(s, order) && Placed(c, s[x]) && OwnRow(s, c0, c, x) {
      var i :| 0 <= i < |order| && order[i] == x;
    }
    forall p | p in MetPaths(s, order) ensures exists x :: x in s && s[x].path == p {
      var i :| 0 <= i < |order| && s[order[i]].path == p;
      assert order[i] in order;
    }
  }

  lemma MetIsClosed(env: Env, s: Tree, order: seq<Id>)
    requires env.excludes == [] && ValidTree(s) && IsTreeWalk(env, s, order)
    requires forall x :: x in s ==> s[x].path in MetPaths(s, order)
    requires forall p :: p in MetPaths(s, order) ==> exists x :: x in s && s[x].path == p
    ensures Closed(MetPaths(s, order) + {[]})
  {
    var met := MetPaths(s, order) + {[]};
    forall p, q | q in met && Under(q, p) ensures p in met {
      if p != [] && p != q {
        var x :| x in s && s[x].path == q;
        var g := FolderAbove(s, x, p);
      }
    }
  }

  /** The rows name exactly the live paths, with their kinds and versions, and disk agrees. */
  ghost predicate Agrees(c: Client, s: Tree) {
    && IsTree(c.disk) && HashesAgree(c.rows)
    && (forall x :: x in s ==> Placed(c, s[x]))
    && (forall p :: p in c.rows ==> exists x :: x in s && s[x].path == p)
  }

  lemma WalkAgrees(env: Env, s: Tree, c: Client, order: seq<Id>)
    requires env.excludes == [] && ValidTree(s) && IsTree(c.disk) && HashesAgree(c.rows)
    requires forall x :: x in s ==> Honest(c, s[x].path)
    requires IsTreeWalk(env, s, order) && WalkTree(env, s, c, order).Done?
    ensures var w := WalkTree(env, s, c, order).c;
            && IsTree(w.disk) && HashesAgree(w.rows)
            && (forall x :: x in s ==> s[x].path in MetPaths(s, order) && Placed(w, s[x]) && OwnRow(s, c, w, x))
            && (forall p :: p in MetPaths(s, order) ==> exists x :: x in s && s[x].path == p)
            && ([] !in c.rows ==> [] !in w.rows)
  {
    assert order[..0] == [] && order[0..] == order && order[..|order|] == order;
    WalkMeets(env, s, c, c, order, 0);
    var w := WalkTree(env, s, c, order).c;
    MetAll(env, s, c, w, order);
    assert [] in MetPaths(s, order) || SameAt(c, w, []);
  }

  /** A full reconcile that returns without an error leaves rows and disk agreeing with the
      server on paths, kinds, versions and content; node ids agree too if and only if no stale
      row was kept, which cannot happen from an empty database. */
  lemma ReconcileAgrees(env: Env, s: Tree, c: Client, order: seq<Id>, listed: seq<Path>, out: Outcome)
    requires env.excludes == [] && ValidTree(s) && IsTree(c.disk) && HashesAgree(c.rows) && [] !in c.rows
    requires forall x :: x in s ==> Honest(c, s[x].path)
    requires Reconciles(env, s, c, order, listed, out) && out.Done?
    ensures Agrees(out.c, s)
    ensures Mirrors(out.c.rows, s) <==> forall x :: x in s ==> !KeptStale(c, x, s[x])
    ensures c.rows == map[] ==> Mirrors(out.c.rows, s)
  {
    WalkAgrees(env, s, c, order);
    var w := WalkTree(env, s, c, order).c;
    var met := MetPaths(s, order) + {[]};
    WalkedThenDropped(env, s, w, order, listed);
    DroppedAgrees(s, c, w, out.c, met);
    AgreesMirrors(s, c, out.c);
  }

  lemma WalkedThenDropped(env: Env, s: Tree, w: Client, order: seq<Id>, listed: seq<Path>)
    requires env.excludes == [] && ValidTree(s) && IsTreeWalk(env, s, order) && IsTree(w.disk) && [] !in w.rows
    requires forall x :: x in s ==> s[x].path in MetPaths(s, order) && Placed(w, s[x])
    requires forall p :: p in MetPaths(s, order) ==> exists x :: x in s && s[x].path == p
    requires forall p :: p in listed <==> p in w.rows
    requires DropVanished(env, w, MetPaths(s, order) + {[]}, w.rows, listed).Done?
    ensures var met := MetPaths(s, order) + {[]};
            Dropping(DropVanished(env, w, met, w.rows, listed).c, w, met, {})
  {
    MetIsClosed(env, s, order);
    forall q | q in MetPaths(s, order) ensures q in w.disk {
      var x :| x in s && s[x].path == q;
      assert Placed(w, s[x]);
    }
    DropAll(env, w, w, MetPaths(s, order) + {[]}, listed);
  }

  lemma DroppedAgrees(s: Tree, c0: Client, w: Client, c: Client, met: set<Path>)
    requires HashesAgree(w.rows) && [] !in w.rows
    requires forall x :: x in s ==> s[x].path in met && Placed(w, s[x]) && OwnRow(s, c0, w, x)
    requires forall p :: p in met ==> p == [] || exists x :: x in s && s[x].path == p
    requires Dropping(c, w, met, {})
    ensures Agrees(c, s) && forall x :: x in s ==> OwnRow(s, c0, c, x)
  {
    forall x | x in s ensures Placed(c, s[x]) && OwnRow(s, c0, c, x) {
      PlacedSame(s, c0, w, c, x);
    }
    DroppedHashes(w, c, met);
    forall p | p in c.rows ensures exists x :: x in s && s[x].path == p {
      assert p in met;
    }
  }

  lemma PlacedSame(s: Tree, c0: Client, w: Client, c: Client, x: Id)
    requires x in s && SameAt(w, c, s[x].path) && Placed(w, s[x]) && OwnRow(s, c0, w, x)
    ensures Placed(c, s[x]) && OwnRow(s, c0, c, x)
  {
  }

  lemma DroppedHashes(w: Client, c: Client, met: set<Path>)
    requires HashesAgree(w.rows) && Dropping(c, w, met, {})
    ensures HashesAgree(c.rows)
  {
  }

  lemma AgreesMirrors(s: Tree, c0: Client, c: Client)
    requires ValidTree(s) && Agrees(c, s) && forall x :: x in s ==> OwnRow(s, c0, c, x)
    ensures Mirrors(c.rows, s) <==> forall x :: x in s ==> !KeptStale(c0, x, s[x])
  {
    forall x | x in s ensures Tracked(c.rows, s, x) <==> !KeptStale(c0, x, s[x]) {
      assert Placed(c, s[x]) && OwnRow(s, c0, c, x);
    }
    if forall x :: x in s ==> !KeptStale(c0, x, s[x]) {
      forall p | p in c.rows ensures c.rows[p].id in s && s[c.rows[p].id].path == p {
        var x :| x in s && s[x].path == p;
        assert Tracked(c.rows, s, x);
      }
    }
  }

  /** What a push needs: after a reconcile that mirrors, every recorded path is in step. */
  lemma AgreesSettles(c: Client, s: Tree)
    requires Agrees(c, s) && Mirrors(c.rows, s)
    ensures Settled(c)
  {
    forall p | p in c.disk && p in c.rows ensures InStep(c, p) {
      assert Placed(c, s[c.rows[p].id]);
    }
  }

  /** A stale id does survive: node 1 was replaced on the server by node 2, with the same bytes
      at the same path, and a full reconcile leaves the row of node 1 as it is. */
  lemma StaleIdSurvives(env: Env)
    requires env.excludes == []
    ensures var p, v := ["a"], Sha256([1]);
            var s: Tree := map[2 := Node(p, IsFile, v)];
            var c := Client(map[p := File([1], env.stamp(p, v))], map[p := FileEntry(env, 1, Node(p, IsFile, v))], 0);
            && ValidTree(s) && Sound(c) && KeptStale(c, 2, s[2])
            && Reconciles(env, s, c, [2], [p], Done(c)) && !Mirrors(c.rows, s)
  {
    var p, v := ["a"], Sha256([1]);
    var s: Tree := map[2 := Node(p, IsFile, v)];
    var c := Client(map[p := File([1], env.stamp(p, v))], map[p := FileEntry(env, 1, Node(p, IsFile, v))], 0);
    assert Parent(p) == [] && IsDir(c.disk, Parent(p));
    assert Materialize(env, c, 2, s[2]) == Done(c);
    assert [2][1..] == [] && WalkTree(env, s, c, [2]) == Done(c);
    assert s[[2][0]].path in MetPaths(s, [2]);
    assert [p][1..] == [];
    assert !Tracked(c.rows, s, 2);
  }

  // ---- any reconcile keeps the disk a tree ----------------------------------------------------

  lemma MaterializeKeepsTree(env: Env, c: Client, x: Id, n: Node)
    requires IsTree(c.disk) && n.path != []
    ensures IsTree(Materialize(env, c, x, n).c.disk)
  {
    PullDownKeepsTree(env, c, x, n);
    if MkdirAll(c.disk, n.path).Some? {
      MkdirAllKeepsTree(c.disk, n.path);
    }
  }

  lemma {:induction false} WalkKeepsTree(env: Env, s: Tree, c: Client, order: seq<Id>)
    requires ValidTree(s) && IsTree(c.disk) && forall x :: x in order ==> x in s
    ensures IsTree(WalkTree(env, s, c, order).c.disk)
    decreases |order|
  {
    if order != [] {
      assert order[0] in order;
      MaterializeKeepsTree(env, c, order[0], s[order[0]]);
      var first := Materialize(env, c, order[0], s[order[0]]);
      if first.Done? {
        WalkKeepsTree(env, s, first.c, order[1..]);
      }
    }
  }

  lemma DropKeepsTree(env: Env, c: Client, p: Path, e: Entry)
    requires IsTree(c.disk)
    ensures IsTree(DropLocal(env, c, p, e).c.disk)
  {
    if e.kind == IsFolder {
      WithoutKeepsTree(c.disk, p);
    } else if LocalStatus(c.disk, p, e) == (true, true) {
      ConflictCopyKeepsTree(env, c, p);
    } else if Remove(c.disk, p).Some? {
      RemoveKeepsTree(c.disk, p);
    }
  }

  lemma {:induction false} DropVanishedKeepsTree(env: Env, c: Client, met: set<Path>, rows: Rows, listed: seq<Path>)
    requires IsTree(c.disk) && forall p :: p in listed ==> p in rows
    ensures IsTree(DropVanished(env, c, met, rows, listed).c.disk)
    decreases |listed|
  {
    if listed != [] {
      if listed[0] in met || Excluded(env, listed[0]) {
        DropVanishedKeepsTree(env, c, met, rows, listed[1..]);
      } else {
        DropKeepsTree(env, c, listed[0], rows[listed[0]]);
        var first := DropLocal(env, c, listed[0], rows[listed[0]]);
        if first.Done? {
          DropVanishedKeepsTree(env, first.c, met, rows, listed[1..]);
        }
      }
    }
  }
}
