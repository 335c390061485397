/**
  Selective sync is sync of what is left: with a database that records nothing excluded, every step of a
  pass does to the rest of disk and server what a pass without excludes does to a server that shows
  nothing else. So the theorems about passes without excludes carry over.
 */
module Visible {
  import opened Base
  import opened LocalDisk
  import opened Pull
  import opened Journal
  import opened Server
  import opened Push
  import opened Reconcile
  import opened Selective
  import opened Sync
  import opened Exclusion

  /** The nodes that are not excluded. */
  function Shown(env: Env, t: Tree): Tree {
    map x | x in t && !Excluded(env, t[x].path) :: t[x]
  }

  function ShownServer(env: Env, srv: Server): Server {
    srv.(nodes := Shown(env, srv.nodes))
  }

  function ShownDisk(env: Env, d: Disk): Disk {
    map p | p in d && !Excluded(env, p) :: d[p]
  }

  function ShownClient(env: Env, c: Client): Client {
    c.(disk := ShownDisk(env, c.disk))
  }

  /** The same machine without excludes. */
  function Full(env: Env): Env {
    env.(excludes := [])
  }

  lemma NothingIsOff(env: Env, p: Path)
    ensures !Excluded(Full(env), p)
  {
  }

  // ---- the pull -----------------------------------------------------------------------------

  lemma ConflictCopySame(env: Env, c: Client, p: Path)
    ensures ConflictCopy(env, c, p) == ConflictCopy(Full(env), c, p)
  {
    SameTag(env, Full(env), c, p);
  }

  lemma SameTag(a: Env, b: Env, c: Client, p: Path)
    requires a.tag == b.tag
    ensures ConflictCopy(a, c, p) == ConflictCopy(b, c, p)
  {
  }

  lemma PullDownSame(env: Env, c: Client, x: Id, n: Node)
    ensures PullDown(env, c, x, n) == PullDown(Full(env), c, x, n)
  {
  }

  /** A file upsert, from the steps it may come to. */
  function UpsertOf(c: Client, n: Node, pulled: Outcome, aside: Outcome, after: Outcome): Outcome {
    if n.path !in c.rows then pulled
    else if Barred(c.disk, n.path) then Failed(c)
    else
      var (present, changed) := LocalStatus(c.disk, n.path, c.rows[n.path]);
      if c.rows[n.path].remote == n.hash then (if present then Done(c) else pulled)
      else if present && changed then (if aside.Failed? then aside else after)
      else pulled
  }

  lemma UpsertIs(env: Env, c: Client, x: Id, n: Node)
    ensures var aside := ConflictCopy(env, c, n.path);
            ApplyFileUpsert(env, c, x, n) == UpsertOf(c, n, PullDown(env, c, x, n), aside, PullDown(env, aside.c, x, n))
  {
  }

  lemma FileUpsertSame(env: Env, c: Client, x: Id, n: Node)
    ensures ApplyFileUpsert(env, c, x, n) == ApplyFileUpsert(Full(env), c, x, n)
  {
    var aside := ConflictCopy(env, c, n.path);
    ConflictCopySame(env, c, n.path);
    PullDownSame(env, c, x, n);
    PullDownSame(env, aside.c, x, n);
    UpsertIs(env, c, x, n);
    UpsertIs(Full(env), c, x, n);
  }

  lemma DropLocalSame(env: Env, c: Client, p: Path, e: Entry)
    ensures DropLocal(env, c, p, e) == DropLocal(Full(env), c, p, e)
  {
    ConflictCopySame(env, c, p);
    DropsAlike(env, Full(env), c, p, e, ConflictCopy(env, c, p));
  }

  lemma DropsAlike(a: Env, b: Env, c: Client, p: Path, e: Entry, aside: Outcome)
    requires ConflictCopy(a, c, p) == aside && ConflictCopy(b, c, p) == aside
    ensures DropLocal(a, c, p, e) == DropLocal(b, c, p, e)
  {
    if e.kind == IsFile && !Barred(c.disk, p) && LocalStatus(c.disk, p, e) == (true, true) {
      assert DropLocal(a, c, p, e) == aside;
      assert DropLocal(b, c, p, e) == aside;
    }
  }

  lemma ChangeIsShown(env: Env, s: Tree, c: Client, ch: Change)
    ensures ApplyChange(env, s, c, ch) == ApplyChange(Full(env), Shown(env, s), c, ch)
  {
    match ch
    case Delete(x) =>
      if Locate(c.rows, x).Some? {
        DropLocalSame(env, c, Locate(c.rows, x).value, c.rows[Locate(c.rows, x).value]);
      }
    case Upsert(x) =>
      if x in s && !Excluded(env, s[x].path) {
        NothingIsOff(env, s[x].path);
        FileUpsertSame(env, FollowMove(c, x, s[x].path).c, x, s[x]);
      }
  }

  /** A replay under excludes is the replay without them against a server that shows only the rest. */
  lemma {:induction false} ReplayIsShown(env: Env, s: Tree, c: Client, cs: seq<Change>)
    ensures Replay(env, s, c, cs) == Replay(Full(env), Shown(env, s), c, cs)
    decreases |cs|
  {
    if cs != [] {
      ChangeIsShown(env, s, c, cs[0]);
      var first := ApplyChange(env, s, c, cs[0]);
      if first.Done? {
        ReplayIsShown(env, s, first.c, cs[1..]);
      }
    }
  }

  lemma {:induction false} PagesAreShown(env: Env, srv: Server, dev: Device, limit: nat)
    requires limit > 0
    ensures ApplyPages(env, srv, dev, limit) == ApplyPages(Full(env), ShownServer(env, srv), dev, limit)
    decreases |srv.journal| - dev.cursor
  {
    var page := Poll(srv.journal, 0, dev.cursor, limit);
    var out := Replay(env, srv.nodes, dev.c, page.changes);
    ReplayIsShown(env, srv.nodes, dev.c, page.changes);
    if out.Done? && page.more {
      PagesAreShown(env, srv, Device(out.c, page.cursor), limit);
    }
  }

  lemma MaterializeSame(env: Env, c: Client, x: Id, n: Node)
    ensures Materialize(env, c, x, n) == Materialize(Full(env), c, x, n)
  {
    PullDownSame(env, c, x, n);
  }

  lemma {:induction false} WalkIsShown(env: Env, s: Tree, c: Client, order: seq<Id>)
    requires forall x :: x in order ==> x in s && x in Shown(env, s)
    ensures WalkTree(env, s, c, order) == WalkTree(Full(env), Shown(env, s), c, order)
    ensures MetPaths(s, order) == MetPaths(Shown(env, s), order)
    decreases |order|
  {
    assert forall i :: 0 <= i < |order| ==> order[i] in order && Shown(env, s)[order[i]] == s[order[i]];
    if order != [] {
      assert order[0] in order;
      MaterializeSame(env, c, order[0], s[order[0]]);
      var first := Materialize(env, c, order[0], s[order[0]]);
      if first.Done? {
        WalkIsShown(env, s, first.c, order[1..]);
      }
    }
  }

  lemma MetIsShown(env: Env, s: Tree, order: seq<Id>, i: nat)
    requires i <= |order| && forall x :: x in order ==> x in s && x in Shown(env, s)
    ensures (forall x :: x in order[..i] ==> x in s && x in Shown(env, s)) && MetPaths(s, order[..i]) == MetPaths(Shown(env, s), order[..i])
  {
    assert forall j :: 0 <= j < i ==> order[..i][j] in order && Shown(env, s)[order[..i][j]] == s[order[..i][j]];
  }

  lemma TreeWalkIsShown(env: Env, s: Tree, order: seq<Id>)
    requires forall x :: x in order ==> x in s && x in Shown(env, s)
    ensures IsTreeWalk(env, s, order) <==> IsTreeWalk(Full(env), Shown(env, s), order)
  {
    var t := Shown(env, s);
    assert forall i :: 0 <= i < |order| ==> order[i] in order && t[order[i]] == s[order[i]];
    forall i | 0 <= i < |order|
      ensures (forall x :: x in order[..i] ==> x in s && x in t) && MetPaths(s, order[..i]) == MetPaths(t, order[..i])
    {
      MetIsShown(env, s, order, i);
    }
    forall x | x in t ensures !Excluded(Full(env), t[x].path) {
      NothingIsOff(env, t[x].path);
    }
  }

  lemma {:induction false} DropVanishedSame(env: Env, c: Client, met: set<Path>, rows: Rows, listed: seq<Path>)
    requires forall p :: p in listed ==> p in rows && !Excluded(env, p)
    ensures DropVanished(env, c, met, rows, listed) == DropVanished(Full(env), c, met, rows, listed)
    decreases |listed|
  {
    if listed != [] {
      var p := listed[0];
      assert p in listed;
      NothingIsOff(env, p);
      DropLocalSame(env, c, p, rows[p]);
      DropVanishedSame(env, c, met, rows, listed[1..]);
      var first := DropLocal(env, c, p, rows[p]);
      if p !in met && first.Done? {
        DropVanishedSame(env, first.c, met, rows, listed[1..]);
      }
    }
  }

  /** So is a full reconcile, from a database that records nothing excluded. */
  lemma ReconcileIsShown(env: Env, s: Tree, c: Client, order: seq<Id>, listed: seq<Path>, out: Outcome)
    requires NoneRecorded(env, c.rows) && forall x :: x in order ==> x in s && x in Shown(env, s)
    ensures Reconciles(env, s, c, order, listed, out) <==> Reconciles(Full(env), Shown(env, s), c, order, listed, out)
  {
    WalkIsShown(env, s, c, order);
    TreeWalkIsShown(env, s, order);
    WalkOffPaths(env, s, c, order);
    var walked := WalkTree(env, s, c, order);
    assert NoneRecorded(env, walked.c.rows);
    if forall p :: p in listed <==> p in walked.c.rows {
      DropVanishedSame(env, walked.c, MetPaths(s, order) + {[]}, walked.c.rows, listed);
    }
  }

  /** And so is a pull. */
  lemma PullIsShown(env: Env, srv: Server, pruned: nat, dev: Device, order: seq<Id>, listed: seq<Path>, out: Pulled)
    requires NoneRecorded(env, dev.c.rows) && forall x :: x in order ==> x in srv.nodes && x in Shown(env, srv.nodes)
    ensures Pulls(env, srv, pruned, dev, order, listed, out) <==>
            Pulls(Full(env), ShownServer(env, srv), pruned, dev, order, listed, out)
  {
    if Rewalks(srv, pruned, dev) {
      ReconcileIsShown(env, srv.nodes, dev.c, order, listed, if out.ok then Done(out.dev.c) else Failed(out.dev.c));
    } else {
      PagesAreShown(env, srv, dev, PAGE_LIMIT);
    }
  }

  // ---- the push ------------------------------------------------------------------------------

  /** `v` is `w` without what is excluded, but for the journal. */
  ghost predicate Shows(env: Env, w: Sides, v: Sides) {
    && v.c == ShownClient(env, w.c) && v.pushes == w.pushes
    && v.srv.nodes == Shown(env, w.srv.nodes) && v.srv.next == w.srv.next
  }

  ghost predicate ProgressShows(env: Env, a: Progress, b: Progress) {
    (a.Ok? <==> b.Ok?) && Shows(env, a.w, b.w)
  }

  lemma TakenIsShown(env: Env, t: Tree, p: Path)
    requires ValidTree(t) && !Excluded(env, p)
    ensures Taken(t, p) <==> Taken(Shown(env, t), p)
    ensures Taken(t, p) ==> NodeAt(t, p) == NodeAt(Shown(env, t), p) && Shown(env, t)[NodeAt(t, p)] == t[NodeAt(t, p)]
  {
    if Taken(t, p) {
      assert NodeAt(t, p) in Shown(env, t);
    }
  }

  lemma PutIsShown(env: Env, t: Tree, x: Id, n: Node)
    requires !Excluded(env, n.path)
    ensures Shown(env, t[x := n]) == Shown(env, t)[x := n]
  {
  }

  /** A recorded parent is live on both sides, at the same place. */
  lemma ParentIsShown(env: Env, w: Sides, v: Sides, p: Path)
    requires Shows(env, w, v) && Mirrors(w.c.rows, v.srv.nodes) && ROOT !in w.srv.nodes && ParentId(w.c.rows, p).Some?
    ensures var parent := ParentId(w.c.rows, p).value;
            && (IsLiveFolder(w.srv.nodes, parent) <==> IsLiveFolder(v.srv.nodes, parent))
            && (IsLiveFolder(w.srv.nodes, parent) ==> PathOf(w.srv.nodes, parent) == PathOf(v.srv.nodes, parent) == Parent(p))
  {
  }

  lemma FolderShows(env: Env, w: Sides, v: Sides, p: Path)
    requires Shows(env, w, v) && ValidServer(w.srv) && Mirrored(v) && p != [] && !Excluded(env, p)
    ensures ProgressShows(env, PushFolder(w, p), PushFolder(v, p))
    ensures ValidServer(PushFolder(w, p).w.srv)
  {
    var parent := ParentId(w.c.rows, p);
    if p !in w.c.rows && parent.Some? {
      ParentIsShown(env, w, v, p);
      if IsLiveFolder(w.srv.nodes, parent.value) {
        assert Parent(p) + [BaseName(p)] == p;
        TakenIsShown(env, w.srv.nodes, p);
        TakenIsRecorded(v, p);
        CreateKeepsValid(w.srv, parent.value, BaseName(p));
        PutIsShown(env, w.srv.nodes, w.srv.next, Node(p, IsFolder, NoHash));
      }
    }
  }

  lemma FileShows(env: Env, w: Sides, v: Sides, p: Path)
    requires Shows(env, w, v) && ValidServer(w.srv) && Mirrored(v) && p != [] && !Excluded(env, p) && p in w.c.disk
    ensures ProgressShows(env, PushFile(w, p), PushFile(v, p))
    ensures ValidServer(PushFile(w, p).w.srv)
  {
    var parent := ParentId(w.c.rows, p);
    if parent.Some? && w.c.disk[p].File? {
      ParentIsShown(env, w, v, p);
      if IsLiveFolder(w.srv.nodes, parent.value) {
        UploadShows(env, w, v, p, parent.value);
      }
    }
  }

  lemma UploadShows(env: Env, w: Sides, v: Sides, p: Path, parent: Id)
    requires Shows(env, w, v) && ValidServer(w.srv) && p != [] && !Excluded(env, p) && p in w.c.disk && w.c.disk[p].File?
    requires ParentId(w.c.rows, p) == Some(parent) && IsLiveFolder(w.srv.nodes, parent) && IsLiveFolder(v.srv.nodes, parent)
    requires PathOf(w.srv.nodes, parent) == PathOf(v.srv.nodes, parent) == Parent(p)
    ensures ProgressShows(env, PushFile(w, p), PushFile(v, p))
    ensures ValidServer(PushFile(w, p).w.srv)
  {
    var bytes := w.c.disk[p].bytes;
    assert Parent(p) + [BaseName(p)] == p;
    RepliesShow(env, w, v, p, parent, bytes);
    var a, b := Upload(w.srv, parent, BaseName(p), bytes), Upload(v.srv, parent, BaseName(p), bytes);
    if a.Made? && (p in w.c.rows ==> LocalStatus(w.c.disk, p, w.c.rows[p]) == (true, true)) {
      PushFileUploads(w, p);
      PushFileUploads(v, p);
    }
  }

  /** Both servers give the same answer, and put the same node. */
  lemma RepliesShow(env: Env, w: Sides, v: Sides, p: Path, parent: Id, bytes: Bytes)
    requires Shows(env, w, v) && ValidServer(w.srv) && !Excluded(env, p)
    requires IsLiveFolder(w.srv.nodes, parent) && IsLiveFolder(v.srv.nodes, parent)
    requires PathOf(w.srv.nodes, parent) + [BaseName(p)] == p == PathOf(v.srv.nodes, parent) + [BaseName(p)]
    ensures var a, b := Upload(w.srv, parent, BaseName(p), bytes), Upload(v.srv, parent, BaseName(p), bytes);
            && (a.Made? <==> b.Made?)
            && (a.Made? ==> a.id == b.id && b.srv.nodes == Shown(env, a.srv.nodes) && a.srv.next == b.srv.next && ValidServer(a.srv))
  {
    TakenIsShown(env, w.srv.nodes, p);
    if Upload(w.srv, parent, BaseName(p), bytes).Made? {
      UploadKeepsValid(w.srv, parent, BaseName(p), bytes);
      PutIsShown(env, w.srv.nodes, Upload(w.srv, parent, BaseName(p), bytes).id, Node(p, IsFile, ContentHash(bytes)));
    }
  }

  lemma StepShows(env: Env, w: Sides, v: Sides, p: Path)
    requires Shows(env, w, v) && ValidServer(w.srv) && Mirrored(v) && p != [] && p in w.c.disk
    ensures ValidServer(PushOne(env, w, p).w.srv)
    ensures if Excluded(env, p) then PushOne(env, w, p) == Ok(w)
            else ProgressShows(env, PushOne(env, w, p), PushOne(Full(env), v, p))
  {
    if !Excluded(env, p) {
      NothingIsOff(env, p);
      if w.c.disk[p].Dir? {
        FolderShows(env, w, v, p);
      } else {
        FileShows(env, w, v, p);
      }
    }
  }

  /** The walk without what is excluded. */
  function Visits(env: Env, walk: seq<Path>): seq<Path> {
    if walk == [] then [] else (if Excluded(env, walk[0]) then [] else [walk[0]]) + Visits(env, walk[1..])
  }

  lemma PushFirst(env: Env, w: Sides, p: Path, rest: seq<Path>)
    ensures PushExisting(env, w, [p] + rest) ==
            var first := PushOne(env, w, p); if first.Err? then first else PushExisting(env, first.w, rest)
  {
    assert ([p] + rest)[1..] == rest;
  }

  lemma {:induction false} WalkShows(env: Env, w: Sides, v: Sides, walk: seq<Path>)
    requires Shows(env, w, v) && ValidServer(w.srv) && Mirrored(v) && forall p :: p in walk ==> p != [] && p in w.c.disk
    ensures var a, b := PushExisting(env, w, walk), PushExisting(Full(env), v, Visits(env, walk));
            ProgressShows(env, a, b) && ValidServer(a.w.srv) && (b.Ok? ==> Mirrored(b.w))
    decreases |walk|
  {
    if walk != [] {
      var p, rest := walk[0], walk[1..];
      assert walk == [p] + rest && p in walk && forall q :: q in rest ==> q in walk;
      PushFirst(env, w, p, rest);
      StepShows(env, w, v, p);
      if Excluded(env, p) {
        assert Visits(env, walk) == Visits(env, rest);
        WalkShows(env, w, v, rest);
      } else {
        assert Visits(env, walk) == [p] + Visits(env, rest);
        PushFirst(Full(env), v, p, Visits(env, rest));
        if PushOne(env, w, p).Ok? {
          StaysMirrored(Full(env), v, p);
          PushKeepsDisk(env, w, p);
          WalkShows(env, PushOne(env, w, p).w, PushOne(Full(env), v, p).w, rest);
        }
      }
    }
  }

  lemma PushKeepsDisk(env: Env, w: Sides, p: Path)
    ensures PushOne(env, w, p).w.c.disk == w.c.disk
  {
  }

  // ---- the walk is a walk of what is shown ------------------------------------------------------

  lemma {:induction false} VisitsAre(env: Env, walk: seq<Path>, p: Path)
    ensures p in Visits(env, walk) <==> p in walk && !Excluded(env, p)
    decreases |walk|
  {
    if walk != [] {
      VisitsAre(env, walk[1..], p);
      assert walk == [walk[0]] + walk[1..];
    }
  }

  /** Where the i-th visited path stands in the walk. */
  lemma {:induction false} VisitAt(env: Env, walk: seq<Path>, i: nat) returns (k: nat)
    requires i < |Visits(env, walk)|
    ensures k < |walk| && walk[k] == Visits(env, walk)[i] && Visits(env, walk[..k]) == Visits(env, walk)[..i]
    decreases |walk|
  {
    if Excluded(env, walk[0]) {
      var j := VisitAt(env, walk[1..], i);
      k := j + 1;
      assert walk[..k][0] == walk[0] && walk[..k][1..] == walk[1..][..j];
    } else if i == 0 {
      k := 0;
    } else {
      var j := VisitAt(env, walk[1..], i - 1);
      k := j + 1;
      assert walk[..k][0] == walk[0] && walk[..k][1..] == walk[1..][..j];
      assert Visits(env, walk) == [walk[0]] + Visits(env, walk[1..]);
      assert Visits(env, walk)[..i] == [walk[0]] + Visits(env, walk[1..])[..i - 1];
    }
  }

  lemma VisitsWalk(env: Env, walk: seq<Path>, d: Disk)
    requires IsWalk(walk, d)
    ensures IsWalk(Visits(env, walk), ShownDisk(env, d))
  {
    var vs := Visits(env, walk);
    forall p ensures p in vs <==> p in ShownDisk(env, d) {
      VisitsAre(env, walk, p);
    }
    forall i, j | 0 <= i < j < |vs| ensures vs[i] != vs[j] {
      var k := VisitAt(env, walk, j);
      assert vs[i] == vs[..j][i];
      VisitsAre(env, walk[..k], vs[i]);
      var l :| 0 <= l < k && walk[..k][l] == vs[i];
      assert walk[l] != walk[k];
    }
    forall i | 0 <= i < |vs| ensures Parent(vs[i]) == [] || Parent(vs[i]) in vs[..i] {
      var k := VisitAt(env, walk, i);
      VisitsAre(env, walk[..k], Parent(vs[i]));
      VisitsAre(env, walk, vs[i]);
      assert vs[i] in vs;
      ParentIsOn(env, vs[i]);
    }
  }

  // ---- the deletions ------------------------------------------------------------------------------

  lemma SeenIsShown(env: Env, d: Disk)
    ensures Seen(env, d) == Seen(Full(env), ShownDisk(env, d))
  {
    forall p | p in d ensures !Excluded(Full(env), p) {
      NothingIsOff(env, p);
    }
  }

  /** The rows as listed name no excluded path, and a live node only where it is. */
  ghost predicate AtHome(env: Env, rows: Rows, t: Tree) {
    forall p {:trigger rows[p]} :: p in rows ==> !Excluded(env, p) && (rows[p].id in t ==> t[rows[p].id].path == p)
  }

  lemma TrashShows(env: Env, w: Sides, v: Sides, seen: set<Path>, rows: Rows, p: Path)
    requires Shows(env, w, v) && p in rows && AtHome(env, rows, w.srv.nodes)
    ensures var a, b := TrashOne(env, w, seen, p, rows[p].id), TrashOne(Full(env), v, seen, p, rows[p].id);
            Shows(env, a, b) && AtHome(env, rows, a.srv.nodes)
  {
    NothingIsOff(env, p);
    var x := rows[p].id;
    assert x in w.srv.nodes <==> x in v.srv.nodes;
    if p !in seen && x in w.srv.nodes {
      assert Shown(env, Trash(w.srv, x).value.nodes) == Trash(v.srv, x).value.nodes;
    }
  }

  lemma {:induction false} DeletionsShow(env: Env, w: Sides, v: Sides, seen: set<Path>, rows: Rows, listed: seq<Path>)
    requires Shows(env, w, v) && (forall p :: p in listed ==> p in rows) && AtHome(env, rows, w.srv.nodes)
    ensures Shows(env, PushDeletions(env, w, seen, rows, listed), PushDeletions(Full(env), v, seen, rows, listed))
    decreases |listed|
  {
    if listed != [] {
      var p := listed[0];
      assert p in listed;
      TrashShows(env, w, v, seen, rows, p);
      DeletionsShow(env, TrashOne(env, w, seen, p, rows[p].id), TrashOne(Full(env), v, seen, p, rows[p].id), seen, rows, listed[1..]);
    }
  }

  lemma MirrorsAtHome(env: Env, rows: Rows, t: Tree)
    requires Mirrors(rows, Shown(env, t))
    ensures AtHome(env, rows, t)
  {
    forall p | p in rows ensures !Excluded(env, p) && rows[p].id in t && t[rows[p].id].path == p {
      assert rows[p].id in Shown(env, t) && Shown(env, t)[rows[p].id].path == p;
    }
  }

  /** What a push does under excludes, a push without them does to what is shown. */
  lemma PushIsShown(env: Env, w: Sides, v: Sides, walk: seq<Path>, listed: seq<Path>, out: Progress) returns (shown: Progress)
    requires Shows(env, w, v) && ValidServer(w.srv) && Mirrored(v) && IsTree(w.c.disk)
    requires Pushes(env, w, walk, listed, out)
    ensures Pushes(Full(env), v, Visits(env, walk), listed, shown) && ProgressShows(env, out, shown)
  {
    forall p | p in walk ensures p != [] && p in w.c.disk {
    }
    WalkShows(env, w, v, walk);
    VisitsWalk(env, walk, w.c.disk);
    var a, b := PushExisting(env, w, walk), PushExisting(Full(env), v, Visits(env, walk));
    if a.Err? {
      shown := b;
    } else {
      var seen := Seen(env, a.w.c.disk);
      SeenIsShown(env, a.w.c.disk);
      MirrorsAtHome(env, a.w.c.rows, a.w.srv.nodes);
      DeletionsShow(env, a.w, b.w, seen, a.w.c.rows, listed);
      shown := Ok(PushDeletions(Full(env), b.w, seen, b.w.c.rows, listed));
    }
  }

  function ShownSides(env: Env, w: Sides): Sides {
    Sides(ShownClient(env, w.c), ShownServer(env, w.srv), w.pushes)
  }

  lemma ShownIsValid(env: Env, srv: Server)
    requires ValidServer(srv)
    ensures ValidServer(ShownServer(env, srv))
  {
    ShownTreeIsValid(env, srv.nodes);
  }

  lemma ShownTreeIsValid(env: Env, t: Tree)
    requires ValidTree(t)
    ensures ValidTree(Shown(env, t))
  {
    var u := Shown(env, t);
    forall x | x in u ensures HasFolder(u, Parent(u[x].path)) {
      var up := Parent(t[x].path);
      assert HasFolder(t, up);
      ParentIsOn(env, t[x].path);
      if up != [] {
        var g :| g in t && t[g].path == up && t[g].kind == IsFolder;
        assert g in u && u[g].path == up && u[g].kind == IsFolder;
      }
    }
  }

  lemma ShownIsTree(env: Env, d: Disk)
    requires IsTree(d)
    ensures IsTree(ShownDisk(env, d))
  {
    forall p | p in ShownDisk(env, d) ensures IsDir(ShownDisk(env, d), Parent(p)) {
      assert IsDir(d, Parent(p));
      ParentIsOn(env, p);
    }
  }

  /** From a database that mirrors what is not excluded on the server, a push under excludes ends with the
      rest of disk and server in agreement if and only if there no path changed kind and the gate hides no
      edit; the disk is as it was. */
  lemma PushConvergesOnTheRest(env: Env, w: Sides, walk: seq<Path>, listed: seq<Path>, out: Progress)
    requires Sound(w.c) && ValidServer(w.srv) && Mirrors(w.c.rows, Shown(env, w.srv.nodes))
    requires Pushes(env, w, walk, listed, out)
    ensures out.Ok? && Agreed(env, out.w.c, out.w.srv) <==>
            KindsAgree(ShownClient(env, w.c)) && GateSound(ShownClient(env, w.c))
  {
    var v := ShownSides(env, w);
    ShownIsValid(env, w.srv);
    ShownIsTree(env, w.c.disk);
    var shown := PushIsShown(env, w, v, walk, listed, out);
    PushConvergesIff(Full(env), v, Visits(env, walk), listed, shown);
    JournalIsNoMatter(shown.w.c, shown.w.srv, ShownServer(env, out.w.srv));
  }

  lemma JournalIsNoMatter(c: Client, a: Server, b: Server)
    requires a.nodes == b.nodes && a.next == b.next
    ensures Converged(c, a) <==> Converged(c, b)
  {
  }

  // ---- histories ------------------------------------------------------------------------------------

  /** The nodes in `hidden` are the excluded ones. */
  ghost predicate Parts(env: Env, hidden: set<Id>, t: Tree) {
    forall x :: x in t ==> (x in hidden <==> Excluded(env, t[x].path))
  }

  /** No node moves into or out of an excluded subtree. */
  ghost predicate KeptApart(env: Env, hidden: set<Id>, b: Tree, hs: seq<Commit>)
    decreases |hs|
  {
    Parts(env, hidden, b) && (hs != [] ==> KeptApart(env, hidden, hs[0].tree, hs[1..]))
  }

  function Rest(hidden: set<Id>, cs: seq<Change>): seq<Change> {
    if cs == [] then [] else (if cs[0].id in hidden then [] else [cs[0]]) + Rest(hidden, cs[1..])
  }

  function ShownHistory(env: Env, hidden: set<Id>, hs: seq<Commit>): seq<Commit>
    decreases |hs|
  {
    if hs == [] then []
    else [Commit(Rest(hidden, hs[0].changes), Shown(env, hs[0].tree))] + ShownHistory(env, hidden, hs[1..])
  }

  lemma {:induction false} RestAre(hidden: set<Id>, cs: seq<Change>, ch: Change)
    ensures ch in Rest(hidden, cs) <==> ch in cs && ch.id !in hidden
    decreases |cs|
  {
    if cs != [] {
      RestAre(hidden, cs[1..], ch);
      assert cs == [cs[0]] + cs[1..];
    }
  }

  lemma {:induction false} RestAppend(hidden: set<Id>, a: seq<Change>, b: seq<Change>)
    ensures Rest(hidden, a + b) == Rest(hidden, a) + Rest(hidden, b)
    decreases |a|
  {
    if a == [] {
      assert a + b == b;
    } else {
      assert (a + b)[0] == a[0] && (a + b)[1..] == a[1..] + b;
      RestAppend(hidden, a[1..], b);
    }
  }

  lemma RestIds(hidden: set<Id>, cs: seq<Change>, x: Id)
    ensures x in Ids(Rest(hidden, cs)) <==> x in Ids(cs) && x !in hidden
  {
    var vs := Rest(hidden, cs);
    if x in Ids(vs) {
      var i :| 0 <= i < |vs| && vs[i].id == x;
      assert vs[i] in vs;
      RestAre(hidden, cs, vs[i]);
      var j :| 0 <= j < |cs| && cs[j] == vs[i];
    }
    if x in Ids(cs) && x !in hidden {
      var i :| 0 <= i < |cs| && cs[i].id == x;
      assert cs[i] in cs;
      RestAre(hidden, cs, cs[i]);
      var j :| 0 <= j < |vs| && vs[j] == cs[i];
    }
  }

  lemma ShownCommit(env: Env, hidden: set<Id>, b: Tree, h: Commit)
    requires ValidTree(b) && ValidCommit(b, h) && Parts(env, hidden, b) && Parts(env, hidden, h.tree)
    ensures ValidCommit(Shown(env, b), Commit(Rest(hidden, h.changes), Shown(env, h.tree)))
  {
    var a, t, vs := Shown(env, b), Shown(env, h.tree), Rest(hidden, h.changes);
    ShownTreeIsValid(env, h.tree);
    forall ch | ch in vs ensures ch.Upsert? <==> ch.id in t {
      RestAre(hidden, h.changes, ch);
    }
    forall x | (x in a) != (x in t) || (x in a && x in t && a[x] != t[x]) ensures x in Ids(vs) {
      assert x in Ids(h.changes);
      RestIds(hidden, h.changes, x);
    }
    ShownCarries(env, hidden, b, h.tree);
  }

  lemma ShownCarries(env: Env, hidden: set<Id>, b: Tree, t: Tree)
    requires CarriesSubtrees(b, t) && Parts(env, hidden, b) && Parts(env, hidden, t)
    ensures CarriesSubtrees(Shown(env, b), Shown(env, t))
  {
  }

  lemma {:induction false} ShownHistoryIsValid(env: Env, hidden: set<Id>, b: Tree, hs: seq<Commit>)
    requires ValidHistory(b, hs) && KeptApart(env, hidden, b, hs)
    ensures var vs := ShownHistory(env, hidden, hs);
            && ValidHistory(Shown(env, b), vs) && Latest(Shown(env, b), vs) == Shown(env, Latest(b, hs))
            && Entries(vs) == Rest(hidden, Entries(hs))
    decreases |hs|
  {
    ShownTreeIsValid(env, b);
    if hs != [] {
      ShownCommit(env, hidden, b, hs[0]);
      ShownHistoryIsValid(env, hidden, hs[0].tree, hs[1..]);
      RestAppend(hidden, hs[0].changes, Entries(hs[1..]));
      var vs := ShownHistory(env, hidden, hs);
      assert vs[0] == Commit(Rest(hidden, hs[0].changes), Shown(env, hs[0].tree));
      assert vs[1..] == ShownHistory(env, hidden, hs[1..]);
    }
  }

  ghost predicate NoneOf(hidden: set<Id>, rows: Rows) {
    forall p :: p in rows ==> rows[p].id !in hidden
  }

  lemma HiddenStayUnrecorded(env: Env, hidden: set<Id>, t: Tree, c: Client, ch: Change)
    requires env.excludes == [] && ValidTree(t) && Sound(c) && NoneOf(hidden, c.rows) && (forall x :: x in t ==> x !in hidden)
    requires ApplyChange(env, t, c, ch).Done?
    ensures NoneOf(hidden, ApplyChange(env, t, c, ch).c.rows)
    ensures ch.id in hidden ==> ApplyChange(env, t, c, ch) == Done(c)
  {
    match ch
    case Delete(x) => DeleteRows(env, t, c, x);
    case Upsert(x) =>
      if x in t {
        UpsertRows(env, t, c, x);
      }
  }

  /** Entries about hidden nodes change nothing. */
  lemma {:induction false} HiddenAreIdle(env: Env, hidden: set<Id>, t: Tree, c: Client, cs: seq<Change>)
    requires env.excludes == [] && ValidTree(t) && Sound(c) && NoneOf(hidden, c.rows) && (forall x :: x in t ==> x !in hidden)
    ensures Replay(env, t, c, cs) == Replay(env, t, c, Rest(hidden, cs))
    decreases |cs|
  {
    if cs != [] {
      var first := ApplyChange(env, t, c, cs[0]);
      if cs[0].id in hidden {
        HiddenIsIdle(env, hidden, t, c, cs[0]);
        assert Rest(hidden, cs) == Rest(hidden, cs[1..]);
        HiddenAreIdle(env, hidden, t, c, cs[1..]);
      } else {
        assert Rest(hidden, cs)[0] == cs[0] && Rest(hidden, cs)[1..] == Rest(hidden, cs[1..]);
        if first.Done? {
          HiddenStayUnrecorded(env, hidden, t, c, cs[0]);
          ApplyChangeSound(env, t, c, cs[0]);
          HiddenAreIdle(env, hidden, t, first.c, cs[1..]);
        }
      }
    }
  }

  lemma HiddenIsIdle(env: Env, hidden: set<Id>, t: Tree, c: Client, ch: Change)
    requires NoneOf(hidden, c.rows) && (forall x :: x in t ==> x !in hidden) && ch.id in hidden
    ensures ApplyChange(env, t, c, ch) == Done(c)
  {
  }

  lemma {:induction false} LatestParts(env: Env, hidden: set<Id>, b: Tree, hs: seq<Commit>)
    requires KeptApart(env, hidden, b, hs)
    ensures Parts(env, hidden, Latest(b, hs))
    decreases |hs|
  {
    if hs != [] {
      LatestParts(env, hidden, hs[0].tree, hs[1..]);
    }
  }

  /** While no node moves into or out of an excluded subtree, a replay under excludes that returns without an
      error leaves a database that mirrors the rest of the server if and only if no last upsert of the rest
      was shadowed. */
  lemma ReplayMirrorsTheRest(env: Env, c: Client, b: Tree, hs: seq<Commit>, hidden: set<Id>)
    requires ValidHistory(b, hs) && KeptApart(env, hidden, b, hs) && Sound(c) && Mirrors(c.rows, Shown(env, b))
    requires Replay(env, Latest(b, hs), c, Entries(hs)).Done?
    ensures Mirrors(Replay(env, Latest(b, hs), c, Entries(hs)).c.rows, Shown(env, Latest(b, hs))) <==>
            Clean(Full(env), Shown(env, Latest(b, hs)), c, Rest(hidden, Entries(hs)))
  {
    var s := Latest(b, hs);
    ShownHistoryIsValid(env, hidden, b, hs);
    LatestIsValid(Shown(env, b), ShownHistory(env, hidden, hs));
    LatestParts(env, hidden, b, hs);
    ReplayIsShown(env, s, c, Entries(hs));
    assert NoneOf(hidden, c.rows);
    HiddenAreIdle(Full(env), hidden, Shown(env, s), c, Entries(hs));
    ReplayMirrors(Full(env), c, Shown(env, b), ShownHistory(env, hidden, hs));
  }

  // ---- a pass -----------------------------------------------------------------------------------------

  /** Where a pass starts once it has pruned. By replay: the database mirrors the rest of the tree of its
      cursor, no node has moved into or out of an excluded subtree since, and no last upsert of the rest is
      shadowed. By a full walk: the rest is fit for one. */
  ghost predicate MayStart(env: Env, srv: Server, pruned: nat, dev: Device, b: Tree, hs: seq<Commit>, hidden: set<Id>) {
    if Rewalks(srv, pruned, dev) then FitToRewalk(dev.c, Shown(env, srv.nodes))
    else
      && ValidHistory(b, hs) && KeptApart(env, hidden, b, hs) && Latest(b, hs) == srv.nodes
      && dev.cursor <= |srv.journal| && Entries(hs) == srv.journal[dev.cursor..]
      && Sound(dev.c) && Mirrors(dev.c.rows, Shown(env, b))
      && Clean(Full(env), Shown(env, srv.nodes), dev.c, Rest(hidden, Entries(hs)))
  }

  lemma PullMirrorsTheRest(env: Env, srv: Server, pruned: nat, dev: Device, b: Tree, hs: seq<Commit>, hidden: set<Id>,
                           order: seq<Id>, listed: seq<Path>, out: Pulled)
    requires ValidServer(srv) && NoneRecorded(env, dev.c.rows) && MayStart(env, srv, pruned, dev, b, hs, hidden)
    requires forall x :: x in order ==> x in srv.nodes && x in Shown(env, srv.nodes)
    requires Pulls(env, srv, pruned, dev, order, listed, out) && out.ok
    ensures Mirrors(out.dev.c.rows, Shown(env, srv.nodes)) && Sound(out.dev.c)
    ensures Rewalks(srv, pruned, dev) ==> KindsAgree(out.dev.c) && GateSound(out.dev.c)
  {
    if Rewalks(srv, pruned, dev) {
      PullIsShown(env, srv, pruned, dev, order, listed, out);
      ShownIsValid(env, srv);
      PullMirrors(Full(env), ShownServer(env, srv), pruned, dev, b, hs, order, listed, out);
    } else {
      PagesAreReplay(env, srv, dev, PAGE_LIMIT);
      assert srv.journal[dev.cursor..|srv.journal|] == srv.journal[dev.cursor..];
      ReplayMirrorsTheRest(env, dev.c, b, hs, hidden);
      ReplaySound(env, srv.nodes, dev.c, Entries(hs));
    }
  }

  /** Convergence of what is not excluded. */
  ghost predicate Agreed(env: Env, c: Client, srv: Server) {
    Converged(ShownClient(env, c), ShownServer(env, srv))
  }

  lemma ShownKinds(env: Env, c: Client)
    requires KindsAgree(c) && GateSound(c)
    ensures KindsAgree(ShownClient(env, c)) && GateSound(ShownClient(env, c))
  {
  }

  /** A pass under excludes whose pull returns without an error ends with the rest of disk, database and
      server in agreement if and only if, where the pull left it, no path of the rest had changed kind and
      the gate hid no edit there; after a full walk that is always so. */
  lemma SelectiveSyncConverges(env: Env, w: World, pruned: nat, b: Tree, hs: seq<Commit>, hidden: set<Id>, o: Orders,
                               pulled: Pulled, out: World, ok: bool)
    requires OutermostFirst(env.excludes) && ValidServer(w.srv)
    requires Syncs(env, w, pruned, o, pulled, out, ok) && pulled.ok
    requires forall x :: x in o.tree ==> x in w.srv.nodes && x in Shown(env, w.srv.nodes)
    requires MayStart(env, w.srv, pruned, w.dev.(c := Prune(w.dev.c, env.excludes, o.scan, o.prefixes).c), b, hs, hidden)
    ensures var c := ShownClient(env, pulled.dev.c);
            && (ok && Agreed(env, out.dev.c, out.srv) <==> KindsAgree(c) && GateSound(c))
            && (Rewalks(w.srv, pruned, w.dev.(c := Prune(w.dev.c, env.excludes, o.scan, o.prefixes).c)) ==>
                  KindsAgree(c) && GateSound(c))
  {
    var trimmed := Prune(w.dev.c, env.excludes, o.scan, o.prefixes);
    PruneIsSafe(env, w.dev.c, o.scan, o.prefixes, trimmed);
    var start := w.dev.(c := trimmed.c);
    PullMirrorsTheRest(env, w.srv, pruned, start, b, hs, hidden, o.tree, o.vanish, pulled);
    if Rewalks(w.srv, pruned, start) {
      ShownKinds(env, pulled.dev.c);
    }
    var sides := Sides(pulled.dev.c, w.srv, w.pushes);
    var p :| Pushes(env, sides, o.disk, o.deletions, p)
             && out == World(pulled.dev.(c := p.w.c), p.w.srv, p.w.pushes) && (ok <==> p.Ok?);
    PushConvergesOnTheRest(env, sides, o.disk, o.deletions, p);
  }
}
