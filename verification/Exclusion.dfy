/**
  Selective sync through a whole pass: what push and pull do at the excluded paths, for any list of
  excluded prefixes.
 */
module Exclusion {
  import opened Base
  import opened LocalDisk
  import opened ConflictNames
  import opened Pull
  import opened Journal
  import opened Server
  import opened Push
  import opened Resume
  import opened Reconcile
  import opened EditSurvival

  // ---- the push ------------------------------------------------------------------------------

  /** Every recorded id is one the server gave out, and its node, if it is live, lives at the row's path. */
  ghost predicate Homed(rows: Rows, srv: Server) {
    forall p {:trigger rows[p]} :: p in rows ==>
      ROOT < rows[p].id < srv.next && (rows[p].id in srv.nodes ==> srv.nodes[rows[p].id].path == p)
  }

  /** The excluded nodes are the same, and no new entry is about one. */
  ghost predicate Untouched(env: Env, a: Server, b: Server) {
    && (forall x :: x in a.nodes ==> x in b.nodes && b.nodes[x].path == a.nodes[x].path)
    && (forall x {:trigger b.nodes[x]} :: x in b.nodes && Excluded(env, b.nodes[x].path) ==> x in a.nodes && a.nodes[x] == b.nodes[x])
    && a.next <= b.next && (forall x :: x in b.nodes && x !in a.nodes ==> a.next <= x)
    && a.journal <= b.journal
    && (forall i :: |a.journal| <= i < |b.journal| ==>
          b.journal[i].id in b.nodes && !Excluded(env, b.nodes[b.journal[i].id].path))
  }

  ghost predicate SameRows(env: Env, a: Rows, b: Rows) {
    forall p :: Excluded(env, p) ==> (p in a <==> p in b) && (p in a ==> a[p] == b[p])
  }

  lemma UntouchedFurther(env: Env, a: Server, b: Server, c: Server)
    requires Untouched(env, a, b) && Untouched(env, b, c)
    ensures Untouched(env, a, c)
  {
    forall i | |a.journal| <= i < |c.journal|
      ensures c.journal[i].id in c.nodes && !Excluded(env, c.nodes[c.journal[i].id].path)
    {
      if i < |b.journal| {
        assert c.journal[i] == b.journal[i];
      }
    }
    forall x | x in c.nodes && x !in a.nodes ensures a.next <= x {
      if x in b.nodes {
        assert a.next <= x;
      }
    }
  }

  /** A node put at a path that is not excluded. */
  lemma PutUntouched(env: Env, a: Server, b: Server, x: Id, n: Node)
    requires b.nodes == a.nodes[x := n] && b.journal == a.journal + [Upsert(x)] && !Excluded(env, n.path)
    requires if x in a.nodes then a.nodes[x].path == n.path && b.next == a.next else x == a.next && b.next == a.next + 1
    ensures Untouched(env, a, b)
  {
    forall i | |a.journal| <= i < |b.journal| ensures b.journal[i] == Upsert(x) {
    }
  }

  /** The parent a row or the root names is the folder above. */
  lemma ParentIsHome(rows: Rows, srv: Server, p: Path)
    requires Homed(rows, srv) && p != [] && ParentId(rows, p).Some? && IsLiveFolder(srv.nodes, ParentId(rows, p).value)
    ensures PathOf(srv.nodes, ParentId(rows, p).value) + [BaseName(p)] == p
  {
    assert p == Parent(p) + [BaseName(p)];
    if Parent(p) != [] {
      assert Parent(p) in rows && rows[Parent(p)].id != ROOT;
    }
  }

  /** What one step of the walk leaves: only the row at `p` is another, and it is at home. */
  ghost predicate Stepped(env: Env, w: Sides, v: Sides, p: Path) {
    && Homed(v.c.rows, v.srv) && v.c.disk == w.c.disk && Untouched(env, w.srv, v.srv)
    && (forall q :: q != p ==> (q in w.c.rows <==> q in v.c.rows) && (q in w.c.rows ==> w.c.rows[q] == v.c.rows[q]))
    && (ValidServer(w.srv) ==> ValidServer(v.srv))
  }

  lemma UntouchedSelf(env: Env, a: Server)
    ensures Untouched(env, a, a)
  {
  }

  /** Recording at its path the node that was put there. */
  lemma RecordsHome(env: Env, w: Sides, srv: Server, p: Path, e: Entry, n: Node)
    requires Homed(w.c.rows, w.srv) && ValidServer(w.srv) && ValidServer(srv) && n.path == p
    requires srv.nodes == w.srv.nodes[e.id := n] && e.id < srv.next
    requires if e.id in w.srv.nodes then w.srv.nodes[e.id].path == p && srv.next == w.srv.next
             else e.id == w.srv.next && srv.next == w.srv.next + 1
    ensures Homed(w.c.rows[p := e], srv)
  {
  }

  lemma FolderSpares(env: Env, w: Sides, p: Path)
    requires Homed(w.c.rows, w.srv) && ValidServer(w.srv) && p != [] && !Excluded(env, p)
    ensures Stepped(env, w, PushFolder(w, p).w, p)
  {
    UntouchedSelf(env, w.srv);
    var parent := ParentId(w.c.rows, p);
    if p !in w.c.rows && parent.Some? && IsLiveFolder(w.srv.nodes, parent.value) {
      ParentIsHome(w.c.rows, w.srv, p);
      if Taken(w.srv.nodes, p) {
        AdoptSpares(env, w, p, parent.value);
      } else {
        NewFolderSpares(env, w, p, parent.value);
      }
    }
  }

  lemma AdoptSpares(env: Env, w: Sides, p: Path, parent: Id)
    requires Homed(w.c.rows, w.srv) && ValidServer(w.srv) && p != [] && p !in w.c.rows && Taken(w.srv.nodes, p)
    requires ParentId(w.c.rows, p) == Some(parent) && IsLiveFolder(w.srv.nodes, parent)
    requires PathOf(w.srv.nodes, parent) + [BaseName(p)] == p
    ensures Stepped(env, w, PushFolder(w, p).w, p)
  {
    UntouchedSelf(env, w.srv);
    assert PushFolder(w, p) == Ok(AdoptFolder(w, parent, p));
    var x := NodeAt(w.srv.nodes, p);
    assert w.srv.nodes[x].path == p && ROOT < x < w.srv.next;
  }

  lemma NewFolderSpares(env: Env, w: Sides, p: Path, parent: Id)
    requires Homed(w.c.rows, w.srv) && ValidServer(w.srv) && p != [] && p !in w.c.rows && !Taken(w.srv.nodes, p)
    requires !Excluded(env, p) && ParentId(w.c.rows, p) == Some(parent) && IsLiveFolder(w.srv.nodes, parent)
    requires PathOf(w.srv.nodes, parent) + [BaseName(p)] == p
    ensures Stepped(env, w, PushFolder(w, p).w, p)
  {
    var n := Node(p, IsFolder, NoHash);
    assert CreateFolder(w.srv, parent, BaseName(p)) == Made(Add(w.srv, n), w.srv.next);
    CreateKeepsValid(w.srv, parent, BaseName(p));
    PutUntouched(env, w.srv, Add(w.srv, n), w.srv.next, n);
    RecordsHome(env, w, Add(w.srv, n), p, FolderEntry(w.srv.next), n);
  }

  lemma FileSpares(env: Env, w: Sides, p: Path)
    requires Homed(w.c.rows, w.srv) && ValidServer(w.srv) && p != [] && !Excluded(env, p)
    ensures Stepped(env, w, PushFile(w, p).w, p)
  {
    UntouchedSelf(env, w.srv);
    var parent := ParentId(w.c.rows, p);
    if parent.Some? && IsLiveFolder(w.srv.nodes, parent.value) && p in w.c.disk && w.c.disk[p].File? {
      ParentIsHome(w.c.rows, w.srv, p);
      UploadSpares(env, w, p, parent.value);
    }
  }

  lemma UploadSpares(env: Env, w: Sides, p: Path, parent: Id)
    requires Homed(w.c.rows, w.srv) && ValidServer(w.srv) && p != [] && !Excluded(env, p)
    requires ParentId(w.c.rows, p) == Some(parent) && IsLiveFolder(w.srv.nodes, parent)
    requires PathOf(w.srv.nodes, parent) + [BaseName(p)] == p && p in w.c.disk && w.c.disk[p].File?
    ensures Stepped(env, w, PushFile(w, p).w, p)
  {
    UntouchedSelf(env, w.srv);
    var r := Upload(w.srv, parent, BaseName(p), w.c.disk[p].bytes);
    if r.Made? && (p in w.c.rows ==> LocalStatus(w.c.disk, p, w.c.rows[p]) == (true, true)) {
      PushFileUploads(w, p);
      NewVersionSpares(env, w, p, parent, r);
    }
  }

  lemma NewVersionSpares(env: Env, w: Sides, p: Path, parent: Id, r: Reply)
    requires Homed(w.c.rows, w.srv) && ValidServer(w.srv) && p != [] && !Excluded(env, p)
    requires IsLiveFolder(w.srv.nodes, parent) && PathOf(w.srv.nodes, parent) + [BaseName(p)] == p
    requires p in w.c.disk && w.c.disk[p].File? && r == Upload(w.srv, parent, BaseName(p), w.c.disk[p].bytes) && r.Made?
    ensures var f := w.c.disk[p];
            Stepped(env, w, WithRow(w, r.srv, p, UploadedEntry(r.id, f, ContentHash(f.bytes))).(pushes := w.pushes + 1), p)
  {
    var f := w.c.disk[p];
    var n := Node(p, IsFile, ContentHash(f.bytes));
    UploadKeepsValid(w.srv, parent, BaseName(p), f.bytes);
    PutUntouched(env, w.srv, r.srv, r.id, n);
    RecordsHome(env, w, r.srv, p, UploadedEntry(r.id, f, n.hash), n);
  }

  /** The walk: excluded nodes and rows are not touched, and everything stays at home. */
  lemma {:induction false} WalkSpares(env: Env, w: Sides, walk: seq<Path>)
    requires Homed(w.c.rows, w.srv) && ValidServer(w.srv) && IsTree(w.c.disk) && forall p :: p in walk ==> p in w.c.disk
    ensures var v := PushExisting(env, w, walk).w;
            && Homed(v.c.rows, v.srv) && ValidServer(v.srv) && v.c.disk == w.c.disk && Untouched(env, w.srv, v.srv)
            && SameRows(env, w.c.rows, v.c.rows)
            && (forall p :: p !in w.c.disk ==> (p in w.c.rows <==> p in v.c.rows) && (p in w.c.rows ==> w.c.rows[p] == v.c.rows[p]))
    decreases |walk|
  {
    UntouchedSelf(env, w.srv);
    if walk != [] {
      var p := walk[0];
      var first := PushOne(env, w, p);
      assert p in walk;
      StepSpares(env, w, p);
      if first.Ok? {
        WalkSpares(env, first.w, walk[1..]);
        UntouchedFurther(env, w.srv, first.w.srv, PushExisting(env, first.w, walk[1..]).w.srv);
      }
    }
  }

  lemma StepSpares(env: Env, w: Sides, p: Path)
    requires Homed(w.c.rows, w.srv) && ValidServer(w.srv) && p != [] && p in w.c.disk
    ensures Stepped(env, w, PushOne(env, w, p).w, p) && SameRows(env, w.c.rows, PushOne(env, w, p).w.c.rows)
  {
    UntouchedSelf(env, w.srv);
    if !Excluded(env, p) {
      FolderSpares(env, w, p);
      FileSpares(env, w, p);
    }
  }

  // ---- the deletions ---------------------------------------------------------------------------

  /** The deletion of the entry at `p` takes the node `g` along. */
  predicate Takes(env: Env, t: Tree, seen: set<Path>, rows: Rows, p: Path, g: Id)
    requires g in t && p in rows
  {
    p !in seen && !Excluded(env, p) && rows[p].id in t && Under(t[g].path, t[rows[p].id].path)
  }

  /** A node dies in the deletions if and only if the entry of a path that was not seen and is not excluded
      names it or a folder above it. */
  lemma {:induction false} DiesIff(env: Env, w: Sides, seen: set<Path>, rows: Rows, listed: seq<Path>, g: Id)
    requires (forall p :: p in listed ==> p in rows) && g in w.srv.nodes
    ensures var t := PushDeletions(env, w, seen, rows, listed).srv.nodes;
            && (g !in t <==> exists p :: p in listed && Takes(env, w.srv.nodes, seen, rows, p, g))
            && (g in t ==> t[g] == w.srv.nodes[g])
    decreases |listed|
  {
    if listed != [] {
      var p := listed[0];
      var v := TrashOne(env, w, seen, p, rows[p].id);
      assert p in listed;
      assert g !in v.srv.nodes <==> Takes(env, w.srv.nodes, seen, rows, p, g);
      if g in v.srv.nodes {
        DiesIff(env, v, seen, rows, listed[1..], g);
        forall q | q in listed && q != p ensures Takes(env, v.srv.nodes, seen, rows, q, g) <==> Takes(env, w.srv.nodes, seen, rows, q, g) {
          StillTakes(env, w, v, seen, rows, p, q, g);
        }
        assert forall q :: q in listed && q != p ==> q in listed[1..];
        assert !Takes(env, v.srv.nodes, seen, rows, p, g);
      } else {
        NeverBack(env, v, seen, rows, listed[1..], g);
      }
    }
  }

  /** If the first deletion spared `g`, it spared what takes `g` along. */
  lemma StillTakes(env: Env, w: Sides, v: Sides, seen: set<Path>, rows: Rows, p: Path, q: Path, g: Id)
    requires p in rows && q in rows && v == TrashOne(env, w, seen, p, rows[p].id) && g in w.srv.nodes && g in v.srv.nodes
    ensures Takes(env, v.srv.nodes, seen, rows, q, g) <==> Takes(env, w.srv.nodes, seen, rows, q, g)
  {
  }

  lemma {:induction false} NeverBack(env: Env, w: Sides, seen: set<Path>, rows: Rows, listed: seq<Path>, g: Id)
    requires (forall p :: p in listed ==> p in rows) && g !in w.srv.nodes
    ensures g !in PushDeletions(env, w, seen, rows, listed).srv.nodes
    decreases |listed|
  {
    if listed != [] {
      NeverBack(env, TrashOne(env, w, seen, listed[0], rows[listed[0]].id), seen, rows, listed[1..], g);
    }
  }

  lemma {:induction false} DeletionsKeepRows(env: Env, w: Sides, seen: set<Path>, rows: Rows, listed: seq<Path>)
    requires forall p :: p in listed ==> p in rows
    ensures SameRows(env, w.c.rows, PushDeletions(env, w, seen, rows, listed).c.rows)
    decreases |listed|
  {
    if listed != [] {
      DeletionsKeepRows(env, TrashOne(env, w, seen, listed[0], rows[listed[0]].id), seen, rows, listed[1..]);
    }
  }

  // ---- the push as a whole ---------------------------------------------------------------------------

  /** Recorded, not excluded, live, and no longer on disk, at or above `q`. */
  predicate DeletedAbove(env: Env, w: Sides, q: Path) {
    exists p | p in w.c.rows :: p !in w.c.disk && !Excluded(env, p) && w.c.rows[p].id in w.srv.nodes && Under(q, p)
  }

  /** No node is made at an excluded path, and none there changes. */
  ghost predicate NoneMade(env: Env, a: Server, b: Server) {
    forall g {:trigger b.nodes[g]} :: g in b.nodes && Excluded(env, b.nodes[g].path) ==>
      g in a.nodes && a.nodes[g] == b.nodes[g]
  }

  /** The new entries about excluded nodes are about dead ones. */
  ghost predicate OnlyOfTheDead(env: Env, a: Server, b: Server) {
    && a.journal <= b.journal
    && forall i :: |a.journal| <= i < |b.journal| && IsExcluded(env, a.nodes, b.journal[i].id) ==>
         b.journal[i].Delete? && b.journal[i].id !in b.nodes
  }

  predicate IsExcluded(env: Env, t: Tree, g: Id) {
    g in t && Excluded(env, t[g].path)
  }

  /** A push records nothing at an excluded path and forgets nothing there; it makes no node there and
      changes none; and a node there dies if and only if the user deleted a recorded folder above it that is
      not excluded. Only then does the journal mention it. */
  lemma PushSparesExcluded(env: Env, w: Sides, walk: seq<Path>, listed: seq<Path>, out: Progress)
    requires Homed(w.c.rows, w.srv) && ValidServer(w.srv) && IsTree(w.c.disk) && Pushes(env, w, walk, listed, out)
    ensures SameRows(env, w.c.rows, out.w.c.rows) && NoneMade(env, w.srv, out.w.srv) && out.w.c.disk == w.c.disk
    ensures forall g :: IsExcluded(env, w.srv.nodes, g) ==>
              (g !in out.w.srv.nodes <==> out.Ok? && DeletedAbove(env, w, w.srv.nodes[g].path))
    ensures OnlyOfTheDead(env, w.srv, out.w.srv)
  {
    WalkSpares(env, w, walk);
    var v := PushExisting(env, w, walk);
    if v.Ok? {
      var seen := Seen(env, v.w.c.disk);
      DeletionsKeepRows(env, v.w, seen, v.w.c.rows, listed);
      DeletionsSpend(env, v.w.srv, v.w, seen, v.w.c.rows, listed);
      forall g | IsExcluded(env, w.srv.nodes, g)
        ensures g !in out.w.srv.nodes <==> DeletedAbove(env, w, w.srv.nodes[g].path)
      {
        ExcludedNodeAfter(env, w, v.w, listed, out.w, g);
      }
      NoneMadeAfter(env, w, v.w, listed, out.w);
      JournalAfter(env, w.srv, v.w.srv, out.w.srv);
    } else {
      StillThere(env, w.srv, v.w.srv);
    }
  }

  lemma StillThere(env: Env, a: Server, b: Server)
    requires Untouched(env, a, b)
    ensures NoneMade(env, a, b) && OnlyOfTheDead(env, a, b) && forall g :: IsExcluded(env, a.nodes, g) ==> g in b.nodes
  {
  }

  lemma JournalAfter(env: Env, a: Server, b: Server, c: Server)
    requires Untouched(env, a, b) && DeadStay(b, c) && OnlyDeletes(b, c)
    ensures OnlyOfTheDead(env, a, c)
  {
    forall i | |a.journal| <= i < |c.journal|
      ensures IsExcluded(env, a.nodes, c.journal[i].id) ==> c.journal[i].Delete? && c.journal[i].id !in c.nodes
    {
      if i < |b.journal| {
        assert c.journal[i] == b.journal[i];
      }
    }
  }

  /** The state between the walk of a push and its deletions. */
  ghost predicate AfterWalk(env: Env, w: Sides, v: Sides, listed: seq<Path>, out: Sides) {
    && Untouched(env, w.srv, v.srv) && Homed(w.c.rows, w.srv) && Homed(v.c.rows, v.srv) && v.c.disk == w.c.disk
    && (forall p :: p !in w.c.disk ==> (p in w.c.rows <==> p in v.c.rows) && (p in w.c.rows ==> w.c.rows[p] == v.c.rows[p]))
    && (forall p :: p in listed <==> p in v.c.rows)
    && out == PushDeletions(env, v, Seen(env, v.c.disk), v.c.rows, listed)
  }

  lemma ExcludedNodeAfter(env: Env, w: Sides, v: Sides, listed: seq<Path>, out: Sides, g: Id)
    requires AfterWalk(env, w, v, listed, out) && IsExcluded(env, w.srv.nodes, g)
    ensures g !in out.srv.nodes <==> DeletedAbove(env, w, w.srv.nodes[g].path)
  {
    var seen, q := Seen(env, v.c.disk), w.srv.nodes[g].path;
    DiesIff(env, v, seen, v.c.rows, listed, g);
    forall p | p in v.c.rows
      ensures Takes(env, v.srv.nodes, seen, v.c.rows, p, g) <==>
              p in w.c.rows && p !in w.c.disk && !Excluded(env, p) && w.c.rows[p].id in w.srv.nodes && Under(q, p)
    {
      TakesIff(env, w, v, p, g);
    }
  }

  lemma TakesIff(env: Env, w: Sides, v: Sides, p: Path, g: Id)
    requires Untouched(env, w.srv, v.srv) && Homed(w.c.rows, w.srv) && Homed(v.c.rows, v.srv) && v.c.disk == w.c.disk
    requires p !in w.c.disk ==> (p in w.c.rows <==> p in v.c.rows) && (p in w.c.rows ==> w.c.rows[p] == v.c.rows[p])
    requires p in v.c.rows && g in w.srv.nodes
    ensures Takes(env, v.srv.nodes, Seen(env, v.c.disk), v.c.rows, p, g) <==>
            p in w.c.rows && p !in w.c.disk && !Excluded(env, p) && w.c.rows[p].id in w.srv.nodes && Under(w.srv.nodes[g].path, p)
  {
  }

  lemma NoneMadeAfter(env: Env, w: Sides, v: Sides, listed: seq<Path>, out: Sides)
    requires AfterWalk(env, w, v, listed, out)
    ensures NoneMade(env, w.srv, out.srv)
  {
    forall g | IsExcluded(env, out.srv.nodes, g) ensures g in w.srv.nodes && w.srv.nodes[g] == out.srv.nodes[g] {
      if g in v.srv.nodes {
        DiesIff(env, v, Seen(env, v.c.disk), v.c.rows, listed, g);
      } else {
        NeverBack(env, v, Seen(env, v.c.disk), v.c.rows, listed, g);
      }
    }
  }

  // ---- the pull: rows ---------------------------------------------------------------------------------

  /** Only the row at `p` may be new or another. */
  ghost predicate NewRowOnlyAt(a: Rows, b: Rows, p: Path) {
    forall q :: q in b && q != p ==> q in a && a[q] == b[q]
  }

  /** No row appears or changes at an excluded path. */
  ghost predicate NoNewRows(env: Env, a: Rows, b: Rows) {
    forall q :: q in b && Excluded(env, q) ==> q in a && a[q] == b[q]
  }

  lemma UpsertRowsAt(env: Env, c: Client, x: Id, n: Node)
    ensures NewRowOnlyAt(c.rows, ApplyUpsert(env, c, x, n).c.rows, n.path)
  {
    var moved := FollowMove(c, x, n.path);
    assert NewRowOnlyAt(c.rows, moved.c.rows, n.path);
    if moved.Done? && n.kind == IsFile {
      FileUpsertRowsAt(env, moved.c, x, n);
    }
  }

  lemma FileUpsertRowsAt(env: Env, c: Client, x: Id, n: Node)
    ensures NewRowOnlyAt(c.rows, ApplyFileUpsert(env, c, x, n).c.rows, n.path)
  {
    var out := ApplyFileUpsert(env, c, x, n);
    PulledRowsAt(env, c, x, n);
    if out != PullDown(env, c, x, n) && out.c != c {
      var aside := ConflictCopy(env, c, n.path);
      ConflictCopyRows(env, c, n.path);
      PulledRowsAt(env, aside.c, x, n);
    }
  }

  lemma PulledRowsAt(env: Env, c: Client, x: Id, n: Node)
    ensures NewRowOnlyAt(c.rows, PullDown(env, c, x, n).c.rows, n.path)
  {
  }

  lemma DropRowsOnly(env: Env, c: Client, p: Path, e: Entry)
    ensures var r := DropLocal(env, c, p, e).c.rows; forall q :: q in r ==> q in c.rows && r[q] == c.rows[q]
  {
    ConflictCopyRows(env, c, p);
    var out := DropLocal(env, c, p, e);
    assert out == ConflictCopy(env, c, p) || out.c.rows == c.rows - {p} || out.c.rows == ForgetSubtree(c.rows, p) || out.c == c;
  }

  lemma ChangeRows(env: Env, s: Tree, c: Client, ch: Change)
    ensures NoNewRows(env, c.rows, ApplyChange(env, s, c, ch).c.rows)
  {
    match ch
    case Delete(x) =>
      if Locate(c.rows, x).Some? {
        DropRowsOnly(env, c, Locate(c.rows, x).value, c.rows[Locate(c.rows, x).value]);
      }
    case Upsert(x) =>
      if x in s && !Excluded(env, s[x].path) {
        UpsertRowsAt(env, c, x, s[x]);
      }
  }

  /** A replay, completed or stopped, records nothing at an excluded path. */
  lemma {:induction false} ReplayRecordsNothing(env: Env, s: Tree, c: Client, cs: seq<Change>)
    ensures NoNewRows(env, c.rows, Replay(env, s, c, cs).c.rows)
    decreases |cs|
  {
    if cs != [] {
      var first := ApplyChange(env, s, c, cs[0]);
      ChangeRows(env, s, c, cs[0]);
      if first.Done? {
        ReplayRecordsNothing(env, s, first.c, cs[1..]);
      }
    }
  }

  // ---- the pull: the disk -----------------------------------------------------------------------------

  /** What stands at an excluded path stood there before, unless that very path is excluded and is the name
      of a conflict copy. */
  ghost predicate NothingPut(env: Env, a: Disk, b: Disk) {
    forall q {:trigger q in b} :: q in b && Excluded(env, q) ==>
      (q in a && a[q] == b[q]) || (q in env.excludes && IsCopyName(env, q))
  }

  /** Nothing stands at an excluded path that did not stand there before. */
  ghost predicate NothingArrives(env: Env, a: Disk, b: Disk) {
    forall q {:trigger q in b} :: q in b && Excluded(env, q) ==> q in a && a[q] == b[q]
  }

  ghost predicate NoneRecorded(env: Env, rows: Rows) {
    forall p :: p in rows ==> !Excluded(env, p)
  }

  lemma AboveIsOff(env: Env, p: Path, q: Path)
    requires Excluded(env, q) && Under(p, q)
    ensures Excluded(env, p)
  {
    var x :| x in env.excludes && Under(q, x);
    assert Under(p, x);
  }

  lemma MkdirPutsNothing(env: Env, d: Disk, p: Path)
    requires MkdirAll(d, p).Some? && !Excluded(env, p)
    ensures NothingArrives(env, d, MkdirAll(d, p).value)
  {
    forall q | q in Prefixes(p) ensures !Excluded(env, q) {
      if Excluded(env, q) {
        AboveIsOff(env, p, q);
      }
    }
  }

  lemma ParentIsOn(env: Env, p: Path)
    requires !Excluded(env, p)
    ensures !Excluded(env, Parent(p))
  {
    if Excluded(env, Parent(p)) {
      AboveIsOff(env, p, Parent(p));
    }
  }

  lemma PutsFurther(env: Env, a: Disk, b: Disk, c: Disk)
    requires NothingPut(env, a, b) && NothingPut(env, b, c)
    ensures NothingPut(env, a, c)
  {
  }

  lemma PullDownPutsNothing(env: Env, c: Client, x: Id, n: Node)
    requires !Excluded(env, n.path)
    ensures NothingArrives(env, c.disk, PullDown(env, c, x, n).c.disk)
  {
    ParentIsOn(env, n.path);
    if MkdirAll(c.disk, Parent(n.path)).Some? {
      MkdirPutsNothing(env, c.disk, Parent(n.path));
    }
  }

  /** The conflict name of a path that is not excluded is excluded only if it is itself on the list. */
  lemma CopyIsOnTheList(env: Env, q: Path, p: Path)
    requires Excluded(env, q) && !Excluded(env, p) && Parent(q) == Parent(p) && q != []
    ensures q in env.excludes
  {
    var x :| x in env.excludes && Under(q, x);
    if x != q {
      assert Parent(q)[..|x|] == x;
      assert Excluded(env, Parent(p));
      AboveIsOff(env, p, Parent(p));
    }
  }

  lemma GoesBeside(env: Env, c: Client, p: Path) returns (dst: Path)
    requires IsTree(c.disk) && p in c.disk && c.disk[p].File?
    ensures ConflictCopy(env, c, p).c.disk == (c.disk - {p})[dst := c.disk[p]]
    ensures Parent(dst) == Parent(p) && dst != [] && IsCopyName(env, dst)
  {
    dst := CopyPath(c.disk.Keys, p, env.tag);
    ConflictCopyMoves(env, c, p);
    CopyPathHasCopyName(env, c.disk.Keys, p);
  }

  /** Nothing arrives at an excluded path but at `dst`, and there only if that path is on the list. */
  ghost predicate OnlyAt(env: Env, a: Disk, b: Disk, dst: Path) {
    forall q {:trigger q in b} :: q in b && Excluded(env, q) ==>
      (q in a && a[q] == b[q]) || (q == dst && dst in env.excludes)
  }

  lemma BesidePutsOne(env: Env, d: Disk, p: Path, dst: Path)
    requires p in d && !Excluded(env, p) && Parent(dst) == Parent(p) && dst != []
    ensures OnlyAt(env, d, (d - {p})[dst := d[p]], dst)
  {
    if Excluded(env, dst) {
      CopyIsOnTheList(env, dst, p);
    }
  }

  lemma OneCopy(env: Env, a: Disk, b: Disk, dst: Path)
    requires OnlyAt(env, a, b, dst) && IsCopyName(env, dst)
    ensures NothingPut(env, a, b)
  {
    forall q | q in b && Excluded(env, q) ensures (q in a && a[q] == b[q]) || (q in env.excludes && IsCopyName(env, q)) {
      assert (q in a && a[q] == b[q]) || q == dst;
    }
  }

  lemma CopyPutsNothing(env: Env, c: Client, p: Path)
    requires IsTree(c.disk) && p in c.disk && c.disk[p].File? && !Excluded(env, p)
    ensures NothingPut(env, c.disk, ConflictCopy(env, c, p).c.disk)
  {
    var dst := GoesBeside(env, c, p);
    BesidePutsOne(env, c.disk, p, dst);
    OneCopy(env, c.disk, ConflictCopy(env, c, p).c.disk, dst);
  }

  lemma FileUpsertPutsNothing(env: Env, c: Client, x: Id, n: Node)
    requires IsTree(c.disk) && !Excluded(env, n.path)
    ensures NothingPut(env, c.disk, ApplyFileUpsert(env, c, x, n).c.disk)
  {
    PullDownPutsNothing(env, c, x, n);
    if n.path in c.rows && c.rows[n.path].remote != n.hash && LocalStatus(c.disk, n.path, c.rows[n.path]) == (true, true) {
      var aside := ConflictCopy(env, c, n.path);
      CopyPutsNothing(env, c, n.path);
      PullDownPutsNothing(env, aside.c, x, n);
      PutsFurther(env, c.disk, aside.c.disk, PullDown(env, aside.c, x, n).c.disk);
    }
  }

  lemma DropPutsNothing(env: Env, c: Client, p: Path, e: Entry)
    requires IsTree(c.disk) && !Excluded(env, p)
    ensures NothingPut(env, c.disk, DropLocal(env, c, p, e).c.disk)
  {
    if e.kind == IsFile && LocalStatus(c.disk, p, e) == (true, true) {
      CopyPutsNothing(env, c, p);
    }
  }

  /** Following the move of a folder takes part of its contents to an excluded path. */
  ghost predicate CarriesIn(env: Env, c: Client, x: Id, q: Path) {
    var at := Locate(c.rows, x);
    && at.Some? && at.value != q && at.value in c.disk && c.disk[at.value].Dir?
    && exists r :: r in c.disk && Under(r, at.value) && Excluded(env, Relocate(r, at.value, q))
  }

  lemma FollowPutsNothing(env: Env, c: Client, x: Id, q: Path)
    requires IsTree(c.disk) && q != [] && !Excluded(env, q) && !CarriesIn(env, c, x, q)
    ensures NothingArrives(env, c.disk, FollowMove(c, x, q).c.disk)
  {
    var at := Locate(c.rows, x);
    ParentIsOn(env, q);
    if at.Some? && at.value != q && MkdirAll(c.disk, Parent(q)).Some? {
      var d := MkdirAll(c.disk, Parent(q)).value;
      MkdirPutsNothing(env, c.disk, Parent(q));
      MkdirAllKeepsTree(c.disk, Parent(q));
      if Rename(d, at.value, q).Moved? {
        RenamePutsNothing(env, c.disk, d, at.value, q);
      }
    }
  }

  lemma RenamePutsNothing(env: Env, c: Disk, d: Disk, p: Path, q: Path)
    requires IsTree(c) && IsTree(d) && !Excluded(env, q) && Rename(d, p, q).Moved?
    requires forall r :: r in d && r !in c ==> d[r].Dir? && Under(Parent(q), r)
    requires forall r :: r in c ==> r in d && d[r] == c[r]
    requires p in c && c[p].Dir? ==> forall r :: r in c && Under(r, p) ==> !Excluded(env, Relocate(r, p, q))
    ensures NothingArrives(env, d, Rename(d, p, q).disk)
  {
    if d[p].Dir? {
      forall r | r in MoveTree(d, p, q) ensures !Excluded(env, r) || (r in d && d[r] == MoveTree(d, p, q)[r]) {
        MoveTreeAt(d, p, q, r);
        if Under(r, q) {
          RelocateInverse(r, q, p);
        }
      }
    }
  }

  /** The move of a node puts something at an excluded path if and only if it carries it there. */
  lemma ArrivesIffCarried(env: Env, c: Client, x: Id, q: Path)
    requires IsTree(c.disk) && q != [] && !Excluded(env, q) && FollowMove(c, x, q).Done?
    ensures NothingArrives(env, c.disk, FollowMove(c, x, q).c.disk) <==> !CarriesIn(env, c, x, q)
  {
    if CarriesIn(env, c, x, q) {
      var p := Locate(c.rows, x).value;
      MkdirAllKeepsTree(c.disk, Parent(q));
      var d := MkdirAll(c.disk, Parent(q)).value;
      NotBarred(d, p);
      assert Rename(d, p, q).Moved?;
      var r :| r in c.disk && Under(r, p) && Excluded(env, Relocate(r, p, q));
      Carried(c.disk, d, p, q, r);
    } else {
      FollowPutsNothing(env, c, x, q);
    }
  }

  lemma Carried(c: Disk, d: Disk, p: Path, q: Path, r: Path)
    requires IsTree(c) && IsTree(d) && (forall k :: k in c ==> k in d && d[k] == c[k]) && q != []
    requires p in c && c[p].Dir? && Rename(d, p, q).Moved? && r in c && Under(r, p)
    ensures Relocate(r, p, q) in Rename(d, p, q).disk && Relocate(r, p, q) !in c
  {
    RelocateInverse(r, p, q);
    MoveTreeAt(d, p, q, Relocate(r, p, q));
    NothingBeneath(d, q, Relocate(r, p, q));
  }

  ghost predicate Carries(env: Env, s: Tree, c: Client, ch: Change) {
    ch.Upsert? && ch.id in s && !Excluded(env, s[ch.id].path) && CarriesIn(env, c, ch.id, s[ch.id].path)
  }

  /** Some entry of the replay carries something to an excluded path. */
  ghost predicate CarriesAlong(env: Env, s: Tree, c: Client, cs: seq<Change>)
    decreases |cs|
  {
    && cs != []
    && (Carries(env, s, c, cs[0]) ||
        var next := ApplyChange(env, s, c, cs[0]); next.Done? && CarriesAlong(env, s, next.c, cs[1..]))
  }

  lemma ChangePutsNothing(env: Env, s: Tree, c: Client, ch: Change)
    requires Sound(c) && ValidTree(s) && NoneRecorded(env, c.rows) && !Carries(env, s, c, ch)
    ensures NothingPut(env, c.disk, ApplyChange(env, s, c, ch).c.disk)
  {
    match ch
    case Delete(x) =>
      if Locate(c.rows, x).Some? {
        DropPutsNothing(env, c, Locate(c.rows, x).value, c.rows[Locate(c.rows, x).value]);
      }
    case Upsert(x) =>
      if x in s && !Excluded(env, s[x].path) {
        UpsertPutsNothing(env, c, x, s[x]);
      }
  }

  lemma UpsertPutsNothing(env: Env, c: Client, x: Id, n: Node)
    requires Sound(c) && n.path != [] && !Excluded(env, n.path) && !CarriesIn(env, c, x, n.path)
    ensures NothingPut(env, c.disk, ApplyUpsert(env, c, x, n).c.disk)
  {
    FollowPutsNothing(env, c, x, n.path);
    FollowMoveSound(c, x, n.path);
    var moved := FollowMove(c, x, n.path);
    if moved.Done? {
      if n.kind == IsFolder {
        FolderPutsNothing(env, moved.c, x, n);
        PutsFurther(env, c.disk, moved.c.disk, MaterializeFolder(moved.c, x, n).c.disk);
      } else {
        FileUpsertPutsNothing(env, moved.c, x, n);
        PutsFurther(env, c.disk, moved.c.disk, ApplyFileUpsert(env, moved.c, x, n).c.disk);
      }
    }
  }

  lemma FolderPutsNothing(env: Env, c: Client, x: Id, n: Node)
    requires !Excluded(env, n.path)
    ensures NothingArrives(env, c.disk, MaterializeFolder(c, x, n).c.disk)
  {
    if MkdirAll(c.disk, n.path).Some? {
      MkdirPutsNothing(env, c.disk, n.path);
    }
  }

  /** A replay, completed or stopped, that starts with no excluded row puts nothing at an excluded path,
      unless an entry carries it there with the folder it lies in, or the path is both a conflict name and
      on the list. */
  lemma {:induction false} ReplayPutsNothing(env: Env, s: Tree, c: Client, cs: seq<Change>)
    requires Sound(c) && ValidTree(s) && NoneRecorded(env, c.rows) && !CarriesAlong(env, s, c, cs)
    ensures NothingPut(env, c.disk, Replay(env, s, c, cs).c.disk) && NoneRecorded(env, Replay(env, s, c, cs).c.rows)
    decreases |cs|
  {
    if cs != [] {
      var first := ApplyChange(env, s, c, cs[0]);
      ChangePutsNothing(env, s, c, cs[0]);
      ChangeRows(env, s, c, cs[0]);
      ApplyChangeSound(env, s, c, cs[0]);
      if first.Done? {
        ReplayPutsNothing(env, s, first.c, cs[1..]);
        PutsFurther(env, c.disk, first.c.disk, Replay(env, s, first.c, cs[1..]).c.disk);
      }
    }
  }

  // ---- the full walk ----------------------------------------------------------------------------------

  lemma MaterializeOffPaths(env: Env, c: Client, x: Id, n: Node)
    requires !Excluded(env, n.path)
    ensures NothingArrives(env, c.disk, Materialize(env, c, x, n).c.disk)
    ensures NoNewRows(env, c.rows, Materialize(env, c, x, n).c.rows)
  {
    FolderPutsNothing(env, c, x, n);
    PullDownPutsNothing(env, c, x, n);
    PulledRowsAt(env, c, x, n);
  }

  lemma {:induction false} WalkOffPaths(env: Env, s: Tree, c: Client, order: seq<Id>)
    requires forall x :: x in order ==> x in s && !Excluded(env, s[x].path)
    ensures NothingArrives(env, c.disk, WalkTree(env, s, c, order).c.disk)
    ensures NoNewRows(env, c.rows, WalkTree(env, s, c, order).c.rows)
    decreases |order|
  {
    if order != [] {
      assert order[0] in order;
      MaterializeOffPaths(env, c, order[0], s[order[0]]);
      var first := Materialize(env, c, order[0], s[order[0]]);
      if first.Done? {
        WalkOffPaths(env, s, first.c, order[1..]);
      }
    }
  }

  lemma {:induction false} DropOffPaths(env: Env, c: Client, met: set<Path>, rows: Rows, listed: seq<Path>)
    requires IsTree(c.disk) && forall p :: p in listed ==> p in rows
    ensures NothingPut(env, c.disk, DropVanished(env, c, met, rows, listed).c.disk)
    ensures NoNewRows(env, c.rows, DropVanished(env, c, met, rows, listed).c.rows)
    decreases |listed|
  {
    if listed != [] {
      var p := listed[0];
      if p in met || Excluded(env, p) {
        DropOffPaths(env, c, met, rows, listed[1..]);
      } else {
        var first := DropLocal(env, c, p, rows[p]);
        DropPutsNothing(env, c, p, rows[p]);
        DropRowsOnly(env, c, p, rows[p]);
        DropKeepsTree(env, c, p, rows[p]);
        if first.Done? {
          DropOffPaths(env, first.c, met, rows, listed[1..]);
          PutsFurther(env, c.disk, first.c.disk, DropVanished(env, first.c, met, rows, listed[1..]).c.disk);
        }
      }
    }
  }

  /** A full reconcile, completed or stopped, records nothing at an excluded path and puts nothing there
      but conflict copies whose very name is on the list. */
  lemma ReconcilePutsNothing(env: Env, s: Tree, c: Client, order: seq<Id>, listed: seq<Path>, out: Outcome)
    requires ValidTree(s) && IsTree(c.disk) && Reconciles(env, s, c, order, listed, out)
    requires forall x :: x in order ==> x in s && !Excluded(env, s[x].path)
    ensures NothingPut(env, c.disk, out.c.disk) && NoNewRows(env, c.rows, out.c.rows)
  {
    WalkOffPaths(env, s, c, order);
    var walked := WalkTree(env, s, c, order);
    if walked.Done? {
      WalkKeepsTree(env, s, c, order);
      DropOffPaths(env, walked.c, MetPaths(s, order) + {[]}, walked.c.rows, listed);
      PutsFurther(env, c.disk, walked.c.disk, out.c.disk);
    }
  }
}
