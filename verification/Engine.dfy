/**
  The engine as the program writes it: an object that changes the disk, the state database and
  the server in place, step by step. Every method is proved to do exactly what the functions of
  Pull, Reconcile, Push and Selective say, so what is proved about those holds for it.
 */
module Engine {
  import opened Base
  import opened LocalDisk
  import opened ConflictNames
  import opened Pull
  import opened Journal
  import opened Server
  import Remote = Server
  import opened Push
  import opened Reconcile
  import opened Selective
  import opened Sync
  import opened TreeWalk

  class SyncEngine {
    const env: Env
    var disk: Disk
    var rows: Rows
    var cursor: nat
    var pulls: nat
    var pushes: nat
    var srv: Server
    var pruned: nat

    constructor (env: Env, disk: Disk, rows: Rows, cursor: nat, srv: Server, pruned: nat)
      ensures this.env == env && View() == Client(disk, rows, 0) && this.cursor == cursor
      ensures this.srv == srv && pushes == 0 && this.pruned == pruned
    {
      this.env, this.disk, this.rows, this.cursor := env, disk, rows, cursor;
      this.srv, this.pruned, this.pulls, this.pushes := srv, pruned, 0, 0;
    }

    ghost function View(): Client
      reads this
    {
      Client(disk, rows, pulls)
    }

    ghost function TwoSides(): Sides
      reads this
    {
      Sides(View(), srv, pushes)
    }

    ghost function Everything(): World
      reads this
    {
      World(Device(View(), cursor), srv, pushes)
    }

    /** The object is where `out` says, and the method reported as `out` says. */
    ghost predicate Ran(out: Outcome, ok: bool)
      reads this
    {
      View() == out.c && (ok <==> out.Done?)
    }

    // ---- pull.go -----------------------------------------------------------------------

    /** The row of a node, by a scan of the table. */
    method GetByNodeID(id: Id) returns (r: Option<Path>)
      requires UniqueIds(rows)
      ensures r == Locate(rows, id)
    {
      var todo := rows.Keys;
      r := None;
      while todo != {}
        invariant todo <= rows.Keys
        invariant forall p :: p in rows && p !in todo ==> rows[p].id != id
      {
        var p :| p in todo;
        if rows[p].id == id { return Some(p); }
        todo := todo - {p};
      }
    }

    method MaterializeFolder(id: Id, n: Node) returns (ok: bool)
      modifies `disk, `rows
      ensures Ran(Pull.MaterializeFolder(old(View()), id, n), ok)
    {
      var made := MkdirAll(disk, n.path);
      if made.None? { return false; }
      disk := made.value;
      rows := rows[n.path := FolderEntry(id)];
      ok := true;
    }

    method PullDown(id: Id, n: Node) returns (ok: bool)
      modifies `disk, `rows, `pulls
      ensures Ran(Pull.PullDown(env, old(View()), id, n), ok)
    {
      var made := MkdirAll(disk, Parent(n.path));
      if made.None? { return false; }
      disk := made.value;
      if IsDir(disk, n.path) { return false; }
      disk := disk[n.path := File(Content(n.hash), env.stamp(n.path, n.hash))];
      pulls := pulls + 1;
      rows := rows[n.path := FileEntry(env, id, n)];
      ok := true;
    }

    /** The search for a free conflict name. */
    method FreeName(p: Path) returns (dst: Path)
      ensures dst == CopyPath(disk.Keys, p, env.tag)
    {
      var n := 1;
      assert Tried(p, env.tag, 1) == {};
      while Candidate(p, env.tag, n) in disk
        invariant n >= 1 && Tried(p, env.tag, n) <= disk.Keys
        invariant FreeFrom(disk.Keys, p, env.tag, n) == FreeFrom(disk.Keys, p, env.tag, 1)
        decreases |disk.Keys| + 1 - n
      {
        FreeStep(disk.Keys, p, env.tag, n);
        n := n + 1;
      }
      dst := Candidate(p, env.tag, n);
    }

    method ConflictCopy(p: Path) returns (ok: bool)
      modifies `disk, `rows
      ensures Ran(Pull.ConflictCopy(env, old(View()), p), ok)
    {
      var dst := FreeName(p);
      var made := MkdirAll(disk, Parent(dst));
      if made.None? { return false; }
      disk := made.value;
      match Rename(disk, p, dst) {
        case Refused => return false;
        case NoSource =>
        case Moved(d) => disk := d;
      }
      rows := rows - {p};
      ok := true;
    }

    method MoveLocal(p: Path, q: Path) returns (ok: bool)
      requires p in rows
      modifies `disk, `rows
      ensures Ran(Pull.MoveLocal(old(View()), p, q), ok)
    {
      var made := MkdirAll(disk, Parent(q));
      if made.None? { return false; }
      disk := made.value;
      match Rename(disk, p, q) {
        case Refused => return false;
        case NoSource =>
        case Moved(d) => disk := d;
      }
      var prev := rows[p];
      rows := rows - {p};
      rows := rows[q := prev];
      ok := true;
    }

    /** Deletes the listed rows at or beneath `root`, one at a time. */
    method ForgetSubtree(root: Path)
      modifies `rows
      ensures rows == Pull.ForgetSubtree(old(rows), root)
    {
      var todo := rows.Keys;
      while todo != {}
        invariant forall p :: p in rows <==> p in old(rows) && (Under(p, root) ==> p in todo)
        invariant forall p :: p in rows ==> rows[p] == old(rows)[p]
      {
        var p :| p in todo;
        if Under(p, root) { rows := rows - {p}; }
        todo := todo - {p};
      }
    }

    method ApplyFileUpsert(id: Id, n: Node) returns (ok: bool)
      modifies `disk, `rows, `pulls
      ensures Ran(Pull.ApplyFileUpsert(env, old(View()), id, n), ok)
    {
      if n.path !in rows {
        ok := PullDown(id, n);
        return;
      }
      if Barred(disk, n.path) { return false; }
      var (present, changed) := LocalStatus(disk, n.path, rows[n.path]);
      if rows[n.path].remote == n.hash {
        if present { return true; }
        ok := PullDown(id, n);
        return;
      }
      if present && changed {
        var aside := ConflictCopy(n.path);
        if !aside { return false; }
      }
      ok := PullDown(id, n);
    }

    /** What applyDelete and removeVanished do with one recorded entry. */
    method DropLocal(p: Path, e: Entry) returns (ok: bool)
      modifies `disk, `rows
      ensures Ran(Pull.DropLocal(env, old(View()), p, e), ok)
    {
      if e.kind == IsFolder {
        var swept := RemoveAll(disk, p);
        if swept.None? { return false; }
        disk := swept.value;
        ForgetSubtree(p);
        return true;
      }
      if Barred(disk, p) { return false; }
      var (present, changed) := LocalStatus(disk, p, e);
      if present && changed {
        ok := ConflictCopy(p);
        return;
      }
      var removed := Remove(disk, p);
      if removed.None? { return false; }
      disk := removed.value;
      rows := rows - {p};
      ok := true;
    }

    method ApplyDelete(id: Id) returns (ok: bool)
      requires UniqueIds(rows)
      modifies `disk, `rows
      ensures Ran(Pull.ApplyDelete(env, old(View()), id), ok)
    {
      var found := GetByNodeID(id);
      if found.None? { return true; }
      ok := DropLocal(found.value, rows[found.value]);
    }

    method ApplyChange(ch: Change) returns (ok: bool)
      requires UniqueIds(rows)
      modifies `disk, `rows, `pulls
      ensures Ran(Pull.ApplyChange(env, srv.nodes, old(View()), ch), ok)
    {
      if ch.Delete? {
        ok := ApplyDelete(ch.id);
        return;
      }
      if ch.id !in srv.nodes { return true; }
      var n := srv.nodes[ch.id];
      if Excluded(env, n.path) { return true; }
      var prev := GetByNodeID(ch.id);
      if prev.Some? && prev.value != n.path {
        var moved := MoveLocal(prev.value, n.path);
        if !moved { return false; }
      }
      if n.kind == IsFolder {
        ok := MaterializeFolder(ch.id, n);
      } else {
        ok := ApplyFileUpsert(ch.id, n);
      }
    }

    /** The changes of one page, in order, up to the first error. */
    method ApplyPage(changes: seq<Change>) returns (ok: bool)
      requires Sound(View()) && ValidTree(srv.nodes)
      modifies `disk, `rows, `pulls
      ensures Ran(Replay(env, srv.nodes, old(View()), changes), ok)
    {
      ghost var start := View();
      assert changes[0..] == changes;
      for k := 0 to |changes|
        invariant Sound(View())
        invariant Replay(env, srv.nodes, View(), changes[k..]) == Replay(env, srv.nodes, start, changes)
      {
        assert changes[k..][0] == changes[k] && changes[k..][1..] == changes[k + 1..];
        ApplyChangeSound(env, srv.nodes, View(), changes[k]);
        var applied := ApplyChange(changes[k]);
        if !applied { return false; }
      }
      ok := true;
    }

    // ---- reconcileTree ---------------------------------------------------------------------

    /** ListChildren: the live nodes directly inside a folder, in some order. */
    method ListChildren(parent: Id) returns (ids: seq<Id>)
      requires IsLiveFolder(srv.nodes, parent)
      ensures Distinct(ids) && forall x :: x in ids <==> IsChild(srv.nodes, x, parent)
    {
      ids := [];
      var todo := srv.nodes.Keys;
      while todo != {}
        invariant forall x :: x in ids <==> IsChild(srv.nodes, x, parent) && x !in todo
        invariant Distinct(ids) && todo <= srv.nodes.Keys
      {
        var x :| x in todo;
        if IsChild(srv.nodes, x, parent) { ids := ids + [x]; }
        todo := todo - {x};
      }
    }

    /** The breadth-first walk. `order` is the order in which the nodes were met: it is a walk of
        the whole tree, each node once and after its folder, unless a step failed. */
    method WalkTree() returns (met: set<Path>, ok: bool, ghost order: seq<Id>)
      requires ValidServer(srv)
      modifies `disk, `rows, `pulls
      ensures forall x :: x in order ==> x in srv.nodes
      ensures Ran(Reconcile.WalkTree(env, srv.nodes, old(View()), order), ok)
      ensures ok ==> IsTreeWalk(env, srv.nodes, order) && met == MetPaths(srv.nodes, order) + {[]}
    {
      order, met, ok := [], {[]}, true;
      var queue := [ROOT];
      WalkStarts(env, srv.nodes);
      while queue != []
        invariant Walking(env, srv.nodes, order, queue, {})
        invariant met == MetPaths(srv.nodes, order) + {[]}
        invariant Reconcile.WalkTree(env, srv.nodes, old(View()), order) == Done(View())
        decreases |srv.nodes| - |order|, |queue|
      {
        var parent := queue[0];
        assert parent in queue;
        var children := ListChildren(parent);
        Dequeue(env, srv.nodes, order, queue, From(children, 0));
        met, queue, ok, order := MeetChildren(children, met, queue[1..], order, old(View()));
        if !ok { return; }
        DistinctFits(order, srv.nodes.Keys);
      }
      WalkEnds(env, srv.nodes, order);
    }

    /** One child of the folder being listed: an excluded one is passed over. */
    method MeetChild(x: Id, met0: set<Path>, queue0: seq<Id>, ghost order0: seq<Id>, ghost rest: set<Id>, ghost start: Client)
      returns (met: set<Path>, queue: seq<Id>, ok: bool, ghost order: seq<Id>)
      requires ValidServer(srv) && x in srv.nodes && x !in rest
      requires Walking(env, srv.nodes, order0, queue0, rest + {x})
      requires Reconcile.WalkTree(env, srv.nodes, start, order0) == Done(View())
      requires met0 == MetPaths(srv.nodes, order0) + {[]}
      modifies `disk, `rows, `pulls
      ensures forall y :: y in order ==> y in srv.nodes
      ensures Ran(Reconcile.WalkTree(env, srv.nodes, start, order), ok)
      ensures ok ==> Walking(env, srv.nodes, order, queue, rest) && met == MetPaths(srv.nodes, order) + {[]}
      ensures |order0| <= |order| && (|order| == |order0| ==> queue == queue0)
    {
      met, queue, order, ok := met0, queue0, order0, true;
      var n := srv.nodes[x];
      if Excluded(env, n.path) {
        SkipExcluded(env, srv.nodes, order, queue, rest, x);
        return;
      }
      met := met + {n.path};
      Visit(env, srv.nodes, start, View(), order, queue, rest, x);
      order := order + [x];
      ok := Materialize(x, n);
      if !ok { return; }
      queue := if n.kind == IsFolder then queue + [x] else queue;
    }

    /** The children of one folder. */
    method MeetChildren(children: seq<Id>, met0: set<Path>, queue0: seq<Id>, ghost order0: seq<Id>, ghost start: Client)
      returns (met: set<Path>, queue: seq<Id>, ok: bool, ghost order: seq<Id>)
      requires ValidServer(srv) && Distinct(children) && forall x :: x in children ==> x in srv.nodes
      requires Walking(env, srv.nodes, order0, queue0, From(children, 0))
      requires Reconcile.WalkTree(env, srv.nodes, start, order0) == Done(View())
      requires met0 == MetPaths(srv.nodes, order0) + {[]}
      modifies `disk, `rows, `pulls
      ensures forall x :: x in order ==> x in srv.nodes
      ensures Ran(Reconcile.WalkTree(env, srv.nodes, start, order), ok)
      ensures ok ==> Walking(env, srv.nodes, order, queue, {}) && met == MetPaths(srv.nodes, order) + {[]}
      ensures |order0| <= |order|
      ensures |order| == |order0| ==> queue == queue0
    {
      met, queue, order, ok := met0, queue0, order0, true;
      for k := 0 to |children|
        invariant |order0| <= |order| && (|order| == |order0| ==> queue == queue0)
        invariant Walking(env, srv.nodes, order, queue, From(children, k))
        invariant met == MetPaths(srv.nodes, order) + {[]}
        invariant Reconcile.WalkTree(env, srv.nodes, start, order) == Done(View())
      {
        FromSplit(children, k);
        met, queue, ok, order := MeetChild(children[k], met, queue, order, From(children, k + 1), start);
        if !ok { return; }
      }
      assert From(children, |children|) == {};
    }

    method Materialize(id: Id, n: Node) returns (ok: bool)
      modifies `disk, `rows, `pulls
      ensures Ran(Reconcile.Materialize(env, old(View()), id, n), ok)
    {
      if n.kind == IsFolder {
        ok := MaterializeFolder(id, n);
      } else {
        ok := MaterializeFile(id, n);
      }
    }

    method MaterializeFile(id: Id, n: Node) returns (ok: bool)
      modifies `disk, `rows, `pulls
      ensures Ran(Reconcile.MaterializeFile(env, old(View()), id, n), ok)
    {
      if n.path in rows && rows[n.path].remote == n.hash {
        if Barred(disk, n.path) { return false; }
        var (present, changed) := LocalStatus(disk, n.path, rows[n.path]);
        if present && !changed { return true; }
      }
      ok := PullDown(id, n);
    }

    /** The recorded paths, in some order. */
    method List() returns (listed: seq<Path>)
      ensures forall p :: p in listed <==> p in rows
    {
      listed := [];
      var todo := rows.Keys;
      while todo != {}
        invariant todo <= rows.Keys && forall p :: p in listed <==> p in rows && p !in todo
      {
        var p :| p in todo;
        listed := listed + [p];
        todo := todo - {p};
      }
    }

    /** What was recorded when the walk ended and was not met is dropped. */
    method DropVanished(met: set<Path>, listed: seq<Path>) returns (ok: bool)
      requires forall p :: p in listed ==> p in rows
      modifies `disk, `rows
      ensures Ran(Reconcile.DropVanished(env, old(View()), met, old(rows), listed), ok)
    {
      var recorded := rows;
      ghost var start := View();
      assert listed[0..] == listed;
      for k := 0 to |listed|
        invariant Reconcile.DropVanished(env, View(), met, recorded, listed[k..]) ==
                  Reconcile.DropVanished(env, start, met, recorded, listed)
      {
        var p := listed[k];
        assert listed[k..][0] == p && listed[k..][1..] == listed[k + 1..];
        if p in met || Excluded(env, p) { continue; }
        var dropped := DropLocal(p, recorded[p]);
        if !dropped { return false; }
      }
      ok := true;
    }

    method ReconcileTree() returns (ok: bool, ghost order: seq<Id>, ghost listed: seq<Path>)
      requires ValidServer(srv) && IsTree(disk)
      modifies `disk, `rows, `pulls
      ensures Reconciles(env, srv.nodes, old(View()), order, listed, if ok then Done(View()) else Failed(View()))
      ensures IsTree(disk)
    {
      var met;
      met, ok, order := WalkTree();
      WalkKeepsTree(env, srv.nodes, old(View()), order);
      listed := [];
      if !ok { return; }
      var entries := List();
      listed := entries;
      DropVanishedKeepsTree(env, View(), met, rows, entries);
      ok := DropVanished(met, entries);
    }

    // ---- engine.go -------------------------------------------------------------------------

    /** Poll, apply, save the cursor, until a page is short; after a reset walk the tree. */
    method ApplyRemote() returns (ok: bool, ghost order: seq<Id>, ghost listed: seq<Path>)
      requires Sound(View()) && ValidServer(srv)
      modifies `disk, `rows, `pulls, `cursor
      ensures var before, after := old(Device(View(), cursor)), Pulled(Device(View(), cursor), ok);
              if Poll(srv.journal, pruned, before.cursor, PAGE_LIMIT).Reset?
              then Rewalked(env, srv, before, order, listed, after)
              else after == ApplyPages(env, srv, before, PAGE_LIMIT)
      ensures IsTree(disk)
    {
      order, listed := [], [];
      ghost var start := Device(View(), cursor);
      while true
        invariant Sound(View()) && cursor >= start.cursor
        invariant Poll(srv.journal, pruned, start.cursor, PAGE_LIMIT).Reset? ==> Device(View(), cursor) == start
        invariant ApplyPages(env, srv, Device(View(), cursor), PAGE_LIMIT) == ApplyPages(env, srv, start, PAGE_LIMIT)
        decreases |srv.journal| - cursor
      {
        var page := Poll(srv.journal, pruned, cursor, PAGE_LIMIT);
        if page.Reset? {
          ok, order, listed := ReconcileTree();
          if ok { cursor := page.latest; }
          return;
        }
        OnePage(env, srv, Device(View(), cursor), pruned);
        ReplaySound(env, srv.nodes, View(), page.changes);
        ok := ApplyPage(page.changes);
        if !ok { return; }
        cursor := page.cursor;
        if !page.more { return; }
      }
    }

    method PullRemote() returns (ok: bool, ghost order: seq<Id>, ghost listed: seq<Path>)
      requires Sound(View()) && ValidServer(srv)
      modifies `disk, `rows, `pulls, `cursor
      ensures Pulls(env, srv, pruned, old(Device(View(), cursor)), order, listed, Pulled(Device(View(), cursor), ok))
      ensures IsTree(disk)
    {
      if |rows| == 0 {
        var latest := |srv.journal|;
        ok, order, listed := ReconcileTree();
        if ok { cursor := latest; }
        return;
      }
      ok, order, listed := ApplyRemote();
    }

    // ---- selective.go ----------------------------------------------------------------------

    /** The scan: the prefixes with recorded entries, and among them those with an edited file beneath. */
    method FindPrefixes(listed: seq<Path>) returns (tracked: set<Path>, dirty: set<Path>, ok: bool)
      requires forall p :: p in listed <==> p in rows
      ensures ScanEntries(View(), env.excludes, listed, {}) == if ok then Some(dirty) else None
      ensures ok ==> tracked == TrackedPrefixes(View(), env.excludes)
    {
      tracked, dirty, ok := {}, {}, true;
      assert listed[0..] == listed;
      for k := 0 to |listed|
        invariant forall x :: x in tracked <==> exists j :: 0 <= j < k && MatchingPrefix(listed[j], env.excludes) == Some(x)
        invariant ScanEntries(View(), env.excludes, listed[k..], dirty) == ScanEntries(View(), env.excludes, listed, {})
      {
        var p := listed[k];
        assert listed[k..][0] == p && listed[k..][1..] == listed[k + 1..];
        var prefix := MatchingPrefix(p, env.excludes);
        if prefix.None? { continue; }
        tracked := tracked + {prefix.value};
        if rows[p].kind == IsFolder || prefix.value in dirty { continue; }
        if Barred(disk, p) { return tracked, dirty, false; }
        var (present, changed) := LocalStatus(disk, p, rows[p]);
        if present && changed { dirty := dirty + {prefix.value}; }
      }
      AllTracked(View(), env.excludes, listed, tracked);
    }

    /** The prefixes are taken in whatever order the table yields them. */
    method PruneExcluded() returns (ok: bool, ghost listed: seq<Path>, ghost prefixes: seq<Path>)
      modifies `disk, `rows
      ensures Prunes(old(View()), env.excludes, listed, prefixes, if ok then Done(View()) else Failed(View()))
    {
      prefixes := [];
      var entries := List();
      listed := entries;
      if |env.excludes| == 0 {
        NoExcludes(View(), entries);
        return true, entries, [];
      }
      var tracked, dirty;
      tracked, dirty, ok := FindPrefixes(entries);
      if !ok { return; }
      var todo := tracked;
      ghost var start := View();
      while todo != {}
        invariant todo <= tracked && forall x :: x in prefixes <==> x in tracked - todo
        invariant PrunePrefixes(start, dirty, prefixes) == Done(View())
      {
        var prefix :| prefix in todo;
        PruneSnoc(start, dirty, prefixes, prefix);
        prefixes := prefixes + [prefix];
        if prefix !in dirty {
          var removed := RemoveAll(disk, prefix);
          if removed.None? { return false, listed, prefixes; }
          disk := removed.value;
        }
        ForgetSubtree(prefix);
        todo := todo - {prefix};
      }
    }

    // ---- the server's side of a request ---------------------------------------------------

    method FindAt(p: Path) returns (r: Option<Id>)
      requires ValidTree(srv.nodes)
      ensures r.Some? <==> Taken(srv.nodes, p)
      ensures r.Some? ==> r.value == NodeAt(srv.nodes, p)
    {
      var todo := srv.nodes.Keys;
      r := None;
      while todo != {}
        invariant todo <= srv.nodes.Keys
        invariant forall x :: x in srv.nodes && x !in todo ==> srv.nodes[x].path != p
      {
        var x :| x in todo;
        if srv.nodes[x].path == p { return Some(x); }
        todo := todo - {x};
      }
    }

    method CreateFolder(parent: Id, name: string) returns (reply: Reply)
      requires ValidServer(srv)
      ensures reply == Remote.CreateFolder(srv, parent, name)
    {
      if !IsLiveFolder(srv.nodes, parent) { return NoParent; }
      var p := PathOf(srv.nodes, parent) + [name];
      var at := FindAt(p);
      reply := if at.Some? then NameTaken else Made(Add(srv, Node(p, IsFolder, NoHash)), srv.next);
    }

    method Upload(parent: Id, name: string, bytes: Bytes) returns (reply: Reply)
      requires ValidServer(srv)
      ensures reply == Remote.Upload(srv, parent, name, bytes)
    {
      if !IsLiveFolder(srv.nodes, parent) { return NoParent; }
      var p := PathOf(srv.nodes, parent) + [name];
      var n := Node(p, IsFile, ContentHash(bytes));
      var at := FindAt(p);
      if at.None? { return Made(Add(srv, n), srv.next); }
      if srv.nodes[at.value].kind == IsFolder { return NameTaken; }
      reply := Made(Server(srv.nodes[at.value := n], srv.journal + [Upsert(at.value)], srv.next), at.value);
    }

    // ---- push.go -----------------------------------------------------------------------------

    /** The object is where `out` says, and the method reported as `out` says. */
    ghost predicate Pushed(out: Progress, ok: bool)
      reads this
    {
      TwoSides() == out.w && (ok <==> out.Ok?)
    }

    method PushFolder(p: Path) returns (ok: bool)
      requires ValidServer(srv)
      modifies `rows, `srv
      ensures Pushed(Push.PushFolder(old(TwoSides()), p), ok) && ValidServer(srv)
    {
      if p in rows { return true; }
      var parent := ParentId(rows, p);
      if parent.None? { return false; }
      var reply := CreateFolder(parent.value, BaseName(p));
      match reply {
        case NameTaken => AdoptExistingFolder(parent.value, p);
        case NoParent =>
        case Made(made, id) =>
          CreateKeepsValid(srv, parent.value, BaseName(p));
          srv := made;
          rows := rows[p := FolderEntry(id)];
      }
      ok := true;
    }

    /** Lists the parent's children for a folder of this name. */
    method AdoptExistingFolder(parent: Id, p: Path)
      requires ValidServer(srv) && IsLiveFolder(srv.nodes, parent)
      modifies `rows
      ensures TwoSides() == AdoptFolder(old(TwoSides()), parent, p)
    {
      var children := ListChildren(parent);
      var q := PathOf(srv.nodes, parent) + [BaseName(p)];
      for k := 0 to |children|
        invariant rows == old(rows)
        invariant forall i :: 0 <= i < k ==> !IsFolderAt(srv.nodes, children[i], q)
      {
        var x := children[k];
        assert x in children;
        if BaseName(srv.nodes[x].path) == BaseName(p) && srv.nodes[x].kind == IsFolder {
          AdoptNamed(TwoSides(), parent, p, x);
          rows := rows[p := FolderEntry(x)];
          return;
        }
      }
      AdoptNobody(TwoSides(), parent, p, children);
    }

    method PushFile(p: Path) returns (ok: bool)
      requires ValidServer(srv)
      modifies `rows, `srv, `pushes
      ensures Pushed(Push.PushFile(old(TwoSides()), p), ok) && ValidServer(srv)
    {
      if p in rows {
        var (present, changed) := LocalStatus(disk, p, rows[p]);
        if !present || !changed { return true; }
      }
      var parent := ParentId(rows, p);
      if parent.None? { return false; }
      if p !in disk || disk[p].Dir? { return false; }
      var f := disk[p];
      var reply := Upload(parent.value, BaseName(p), f.bytes);
      match reply {
        case NameTaken => return false;
        case NoParent => return false;
        case Made(made, id) =>
          UploadKeepsValid(srv, parent.value, BaseName(p), f.bytes);
          srv := made;
          pushes := pushes + 1;
          rows := rows[p := UploadedEntry(id, f, ContentHash(f.bytes))];
          ok := true;
      }
    }

    /** The disk walk, given the order in which WalkDir visits; what is excluded is skipped. */
    method PushExisting(walk: seq<Path>) returns (seen: set<Path>, ok: bool)
      requires ValidServer(srv) && forall p :: p in walk <==> p in disk
      modifies `rows, `srv, `pushes
      ensures Pushed(Push.PushExisting(env, old(TwoSides()), walk), ok) && ValidServer(srv)
      ensures ok ==> seen == Seen(env, disk)
    {
      ghost var start := TwoSides();
      seen := {};
      assert walk[0..] == walk;
      for k := 0 to |walk|
        invariant ValidServer(srv)
        invariant seen == SeenAmong(env, walk[..k])
        invariant Push.PushExisting(env, TwoSides(), walk[k..]) == Push.PushExisting(env, start, walk)
      {
        var p := walk[k];
        PushNext(env, TwoSides(), walk, k);
        SeenGrows(env, walk, k);
        assert p in walk;
        if Excluded(env, p) { continue; }
        seen := seen + {p};
        if disk[p].Dir? {
          ok := PushFolder(p);
        } else {
          ok := PushFile(p);
        }
        if !ok { return; }
      }
      ok := true;
      SeenAll(env, walk, disk);
    }

    method PushDeletions(seen: set<Path>, listed: seq<Path>)
      requires ValidServer(srv) && forall p :: p in listed ==> p in rows
      modifies `rows, `srv
      ensures TwoSides() == Push.PushDeletions(env, old(TwoSides()), seen, old(rows), listed) && ValidServer(srv)
    {
      var recorded := rows;
      ghost var start := TwoSides();
      assert listed[0..] == listed;
      for k := 0 to |listed|
        invariant ValidServer(srv)
        invariant Push.PushDeletions(env, TwoSides(), seen, recorded, listed[k..]) ==
                  Push.PushDeletions(env, start, seen, recorded, listed)
      {
        var p := listed[k];
        assert listed[k..][0] == p && listed[k..][1..] == listed[k + 1..];
        if p in seen || Excluded(env, p) { continue; }
        var trashed := Trash(srv, recorded[p].id);
        if trashed.Some? {
          TrashKeepsValid(srv, recorded[p].id);
          srv := trashed.value;
        }
        rows := rows - {p};
      }
    }

    method PushLocal(walk: seq<Path>) returns (ok: bool, ghost listed: seq<Path>)
      requires ValidServer(srv) && IsWalk(walk, disk)
      modifies `rows, `srv, `pushes
      ensures Pushes(env, old(TwoSides()), walk, listed, if ok then Ok(TwoSides()) else Err(TwoSides()))
    {
      var seen;
      seen, ok := PushExisting(walk);
      listed := [];
      if !ok { return; }
      var entries := List();
      listed := entries;
      PushDeletions(seen, entries);
    }

    /** One pass: prune, pull, push. */
    method Sync() returns (ok: bool, ghost o: Orders, ghost pulled: Pulled)
      requires Sound(View()) && ValidServer(srv)
      modifies this
      ensures Syncs(env, old(Everything()), old(pruned), o, pulled, Everything(), ok)
    {
      ghost var scan, prefixes;
      ok, scan, prefixes := PruneExcluded();
      PruneKeepsSound(env, old(View()), scan, prefixes, if ok then Done(View()) else Failed(View()));
      o, pulled := Orders(scan, prefixes, [], [], [], []), Pulled(Device(View(), cursor), false);
      if !ok { return; }
      ghost var order, vanish;
      ok, order, vanish := PullRemote();
      o, pulled := Orders(scan, prefixes, order, vanish, [], []), Pulled(Device(View(), cursor), ok);
      if !ok { return; }
      var walk := WalkDir();
      ghost var listed;
      ok, listed := PushLocal(walk);
      o := Orders(scan, prefixes, order, vanish, walk, listed);
    }

    /** A new device: the first pass, over whatever files are already there, converges if its pull
        succeeds. */
    method FirstSync() returns (ok: bool)
      requires rows == map[] && IsTree(disk) && ValidServer(srv) && env.excludes == []
      modifies this
      ensures ok ==> Converged(View(), srv) && cursor == |old(srv).journal| && Spent(old(srv), srv)
    {
      ghost var o, pulled;
      ok, o, pulled := Sync();
      FirstSyncConverges(env, old(Everything()), old(pruned), o, pulled, Everything(), ok);
    }

    /** A pass right after one that converged, `before` being the server it started from: nothing
        changes but the cursor. */
    method SyncAgain(ghost before: Server) returns (ok: bool)
      requires env.excludes == [] && Converged(View(), srv) && Spent(before, srv) && cursor == |before.journal|
      modifies this
      ensures ok && Everything() == old(Everything()).(dev := Device(old(View()), |old(srv).journal|))
    {
      ghost var o, pulled;
      ok, o, pulled := Sync();
      NoEcho(env, before, old(Everything()), old(pruned), o, pulled, Everything(), ok);
    }

    /** filepath.WalkDir, as far as its order matters: folders before what they hold. */
    method WalkDir() returns (walk: seq<Path>)
      requires IsTree(disk)
      ensures IsWalk(walk, disk)
    {
      walk := [];
      var todo := disk.Keys;
      while todo != {}
        invariant todo <= disk.Keys && forall p :: p in walk <==> p in disk && p !in todo
        invariant forall i, j :: 0 <= i < j < |walk| ==> walk[i] != walk[j]
        invariant forall i {:trigger walk[i]} :: 0 <= i < |walk| ==> Parent(walk[i]) == [] || Parent(walk[i]) in walk[..i]
      {
        TopmostExists(disk, todo);
        var p :| p in todo && Parent(p) !in todo;
        assert IsDir(disk, Parent(p));
        ghost var longer := walk + [p];
        assert longer[..|walk|] == walk && forall i :: 0 <= i < |walk| ==> longer[..i] == walk[..i];
        walk := walk + [p];
        todo := todo - {p};
      }
    }
  }

  lemma {:induction false} TopmostExists(d: Disk, todo: set<Path>)
    requires IsTree(d) && todo <= d.Keys && todo != {}
    ensures exists p :: p in todo && Parent(p) !in todo
  {
    var p :| p in todo;
    TopmostFrom(d, todo, p);
  }

  lemma {:induction false} TopmostFrom(d: Disk, todo: set<Path>, p: Path)
    requires IsTree(d) && todo <= d.Keys && p in todo
    ensures exists q :: q in todo && Parent(q) !in todo
    decreases |p|
  {
    assert p != [];
    if Parent(p) in todo {
      TopmostFrom(d, todo, Parent(p));
    }
  }

  predicate IsFolderAt(t: Tree, x: Id, q: Path) {
    x in t && t[x].path == q && t[x].kind == IsFolder
  }

  lemma NamedChild(t: Tree, parent: Id, x: Id, q: Path)
    requires ValidTree(t) && IsLiveFolder(t, parent) && IsChild(t, x, parent)
    requires q == PathOf(t, parent) + [BaseName(q)] && BaseName(t[x].path) == BaseName(q)
    ensures t[x].path == q && Taken(t, q) && NodeAt(t, q) == x
  {
    assert t[x].path == Parent(t[x].path) + [BaseName(t[x].path)];
  }

  lemma AdoptNamed(w: Sides, parent: Id, p: Path, x: Id)
    requires ValidTree(w.srv.nodes) && IsLiveFolder(w.srv.nodes, parent) && IsChild(w.srv.nodes, x, parent)
    requires BaseName(w.srv.nodes[x].path) == BaseName(p) && w.srv.nodes[x].kind == IsFolder
    ensures AdoptFolder(w, parent, p) == WithRow(w, w.srv, p, FolderEntry(x))
  {
    NamedChild(w.srv.nodes, parent, x, PathOf(w.srv.nodes, parent) + [BaseName(p)]);
  }

  lemma AdoptNobody(w: Sides, parent: Id, p: Path, children: seq<Id>)
    requires ValidTree(w.srv.nodes) && IsLiveFolder(w.srv.nodes, parent)
    requires forall x :: x in children <==> IsChild(w.srv.nodes, x, parent)
    requires forall i :: 0 <= i < |children| ==>
               !IsFolderAt(w.srv.nodes, children[i], PathOf(w.srv.nodes, parent) + [BaseName(p)])
    ensures AdoptFolder(w, parent, p) == w
  {
    var t, q := w.srv.nodes, PathOf(w.srv.nodes, parent) + [BaseName(p)];
    if Taken(t, q) {
      assert IsChild(t, NodeAt(t, q), parent);
    }
  }

  lemma AllTracked(c: Client, xs: seq<Path>, listed: seq<Path>, tracked: set<Path>)
    requires forall p :: p in listed <==> p in c.rows
    requires forall x :: x in tracked <==> exists j :: 0 <= j < |listed| && MatchingPrefix(listed[j], xs) == Some(x)
    ensures tracked == TrackedPrefixes(c, xs)
  {
    forall x | x in TrackedPrefixes(c, xs) ensures x in tracked {
      var p :| p in c.rows && MatchingPrefix(p, xs).Some? && MatchingPrefix(p, xs).value == x;
      var j :| 0 <= j < |listed| && listed[j] == p;
    }
    forall x | x in tracked ensures x in TrackedPrefixes(c, xs) {
      var j :| 0 <= j < |listed| && MatchingPrefix(listed[j], xs) == Some(x);
      assert listed[j] in c.rows;
    }
  }

  lemma {:induction false} NoExcludes(c: Client, listed: seq<Path>)
    requires forall p :: p in listed ==> p in c.rows
    ensures Prune(c, [], listed, []) == Done(c) && TrackedPrefixes(c, []) == {}
    decreases |listed|
  {
    if listed != [] {
      NoExcludes(c, listed[1..]);
    }
  }

  lemma {:induction false} PruneSnoc(c: Client, dirty: set<Path>, prefixes: seq<Path>, x: Path)
    requires PrunePrefixes(c, dirty, prefixes).Done?
    ensures PrunePrefixes(c, dirty, prefixes + [x]) == PrunePrefixes(PrunePrefixes(c, dirty, prefixes).c, dirty, [x])
    decreases |prefixes|
  {
    if prefixes == [] {
      assert prefixes + [x] == [x];
    } else {
      assert (prefixes + [x])[0] == prefixes[0] && (prefixes + [x])[1..] == prefixes[1..] + [x];
      var next := c.(disk := (if prefixes[0] in dirty then c.disk else RemoveAll(c.disk, prefixes[0]).value),
                     rows := Pull.ForgetSubtree(c.rows, prefixes[0]));
      PruneSnoc(next, dirty, prefixes[1..], x);
    }
  }

  lemma OnePage(env: Env, srv: Server, dev: Device, pruned: nat)
    requires !Poll(srv.journal, pruned, dev.cursor, PAGE_LIMIT).Reset?
    ensures var page := Poll(srv.journal, pruned, dev.cursor, PAGE_LIMIT);
            && page.cursor >= dev.cursor && (page.more ==> dev.cursor < page.cursor <= |srv.journal|)
            && var out := Replay(env, srv.nodes, dev.c, page.changes);
               ApplyPages(env, srv, dev, PAGE_LIMIT) ==
               if out.Failed? then Pulled(dev.(c := out.c), false)
               else if page.more then ApplyPages(env, srv, Device(out.c, page.cursor), PAGE_LIMIT)
               else Pulled(Device(out.c, page.cursor), true)
  {
  }

  function SeenAmong(env: Env, walk: seq<Path>): set<Path> {
    set p | p in walk && !Excluded(env, p)
  }

  lemma SeenGrows(env: Env, walk: seq<Path>, k: nat)
    requires k < |walk|
    ensures SeenAmong(env, walk[..k + 1]) ==
            SeenAmong(env, walk[..k]) + if Excluded(env, walk[k]) then {} else {walk[k]}
  {
    assert walk[..k + 1] == walk[..k] + [walk[k]];
  }

  lemma SeenAll(env: Env, walk: seq<Path>, d: Disk)
    requires forall p :: p in walk <==> p in d
    ensures SeenAmong(env, walk[..|walk|]) == Seen(env, d)
  {
    assert walk[..|walk|] == walk;
  }

  lemma PushNext(env: Env, w: Sides, walk: seq<Path>, k: nat)
    requires k < |walk|
    ensures Push.PushExisting(env, w, walk[k..]) ==
            var first := PushOne(env, w, walk[k]);
            if first.Err? then first else Push.PushExisting(env, first.w, walk[k + 1..])
  {
    assert walk[k..][0] == walk[k] && walk[k..][1..] == walk[k + 1..];
  }
}
