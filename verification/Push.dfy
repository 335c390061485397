/**
  The push half of the sync engine (client/internal/engine/push.go) as functions, and the
  proof that a push from a state database that mirrors the server ends in agreement.
 */
module Push {
  import opened Base
  import opened LocalDisk
  import opened Pull
  import opened Journal
  import opened Server

  /** The client, the server, and the number of files pushed. */
  datatype Sides = Sides(c: Client, srv: Server, pushes: nat)

  datatype Progress = Ok(w: Sides) | Err(w: Sides)

  function WithRow(w: Sides, srv: Server, p: Path, e: Entry): Sides {
    w.(c := w.c.(rows := w.c.rows[p := e]), srv := srv)
  }

  /** parentNodeID. */
  function ParentId(rows: Rows, p: Path): Option<Id> {
    if Parent(p) == [] then Some(ROOT)
    else if Parent(p) in rows then Some(rows[Parent(p)].id)
    else None
  }

  ghost function PushFolder(w: Sides, p: Path): Progress {
    if p in w.c.rows then Ok(w)
    else
      match ParentId(w.c.rows, p)
      case None => Err(w)
      case Some(parent) =>
        match CreateFolder(w.srv, parent, BaseName(p))
        case Made(srv, id) => Ok(WithRow(w, srv, p, FolderEntry(id)))
        case NoParent => Ok(w)
        case NameTaken => Ok(AdoptFolder(w, parent, p))
  }

  /** adoptExistingFolder: record the server's folder, unless a file has the name. */
  ghost function AdoptFolder(w: Sides, parent: Id, p: Path): Sides {
    var q := if IsLiveFolder(w.srv.nodes, parent) then PathOf(w.srv.nodes, parent) + [BaseName(p)] else p;
    if Taken(w.srv.nodes, q) && w.srv.nodes[NodeAt(w.srv.nodes, q)].kind == IsFolder
    then WithRow(w, w.srv, p, FolderEntry(NodeAt(w.srv.nodes, q)))
    else w
  }

  /** When the name is taken on the server, the folder that has it is recorded as the local one; a file
      that has it is not, and nothing is changed on the server. */
  lemma AdoptsOnlyFolders(w: Sides, p: Path, parent: Id, x: Id)
    requires ValidServer(w.srv) && p != [] && p !in w.c.rows && ParentId(w.c.rows, p) == Some(parent)
    requires IsLiveFolder(w.srv.nodes, parent) && PathOf(w.srv.nodes, parent) + [BaseName(p)] == p
    requires x in w.srv.nodes && w.srv.nodes[x].path == p
    ensures PushFolder(w, p).Ok? && PushFolder(w, p).w.srv == w.srv && PushFolder(w, p).w.pushes == w.pushes
    ensures PushFolder(w, p).w.c ==
            if w.srv.nodes[x].kind == IsFolder then w.c.(rows := w.c.rows[p := FolderEntry(x)]) else w.c
  {
    assert Taken(w.srv.nodes, p) && NodeAt(w.srv.nodes, p) == x;
  }

  function UploadedEntry(id: Id, f: Obj, version: Digest): Entry
    requires f.File?
  {
    Entry(id, IsFile, |f.bytes|, f.mtime, Blake3(f.bytes), version)
  }

  ghost function PushFile(w: Sides, p: Path): Progress {
    if p in w.c.rows && LocalStatus(w.c.disk, p, w.c.rows[p]) != (true, true) then Ok(w)
    else
      match ParentId(w.c.rows, p)
      case None => Err(w)
      case Some(parent) =>
        if p !in w.c.disk || w.c.disk[p].Dir? then Err(w)
        else
          var f := w.c.disk[p];
          match Upload(w.srv, parent, BaseName(p), f.bytes)
          case Made(srv, id) =>
            Ok(WithRow(w, srv, p, UploadedEntry(id, f, ContentHash(f.bytes))).(pushes := w.pushes + 1))
          case NoParent => Err(w)
          case NameTaken => Err(w)
  }

  ghost function PushOne(env: Env, w: Sides, p: Path): Progress {
    if p !in w.c.disk || Excluded(env, p) then Ok(w)
    else if w.c.disk[p].Dir? then PushFolder(w, p)
    else PushFile(w, p)
  }

  /** pushExisting: the disk walk. */
  ghost function PushExisting(env: Env, w: Sides, walk: seq<Path>): Progress
    decreases |walk|
  {
    if walk == [] then Ok(w)
    else
      var first := PushOne(env, w, walk[0]);
      if first.Err? then first else PushExisting(env, first.w, walk[1..])
  }

  /** The paths the walk reports as existing locally. */
  function Seen(env: Env, d: Disk): set<Path> {
    set p | p in d && !Excluded(env, p)
  }

  /** One recorded entry of the list taken before any deletion: a 404 is as good as a trash. */
  function TrashOne(env: Env, w: Sides, seen: set<Path>, p: Path, id: Id): Sides {
    if p in seen || Excluded(env, p) then w
    else
      var srv := match Trash(w.srv, id) case None => w.srv case Some(s) => s;
      w.(c := w.c.(rows := w.c.rows - {p}), srv := srv)
  }

  /** pushDeletions over the paths `listed`, with the rows as they were listed. */
  function PushDeletions(env: Env, w: Sides, seen: set<Path>, rows: Rows, listed: seq<Path>): Sides
    requires forall p :: p in listed ==> p in rows
    decreases |listed|
  {
    if listed == [] then w
    else PushDeletions(env, TrashOne(env, w, seen, listed[0], rows[listed[0]].id), seen, rows, listed[1..])
  }

  /** filepath.WalkDir: every path once, folders before what they hold. */
  ghost predicate IsWalk(walk: seq<Path>, d: Disk) {
    && (forall p :: p in walk <==> p in d)
    && (forall i, j :: 0 <= i < j < |walk| ==> walk[i] != walk[j])
    && (forall i {:trigger walk[i]} :: 0 <= i < |walk| ==> Parent(walk[i]) == [] || Parent(walk[i]) in walk[..i])
  }

  /** `out` is where a push ends that walks the disk in the order `walk` and then goes through
      the recorded paths in the order `listed`. */
  ghost predicate Pushes(env: Env, w: Sides, walk: seq<Path>, listed: seq<Path>, out: Progress) {
    var walked := PushExisting(env, w, walk);
    && IsWalk(walk, w.c.disk)
    && if walked.Err? then out == walked
       else
         && (forall p :: p in listed <==> p in walked.w.c.rows)
         && out == Ok(PushDeletions(env, walked.w, Seen(env, walked.w.c.disk), walked.w.c.rows, listed))
  }

  // ---- the state a push needs and keeps -------------------------------------------------

  /** No path changed kind. */
  ghost predicate KindsAgree(c: Client) {
    forall p :: p in c.disk && p in c.rows ==> (c.disk[p].Dir? <==> c.rows[p].kind == IsFolder)
  }

  /** The size and modification time gate is honest: an edit moves one of them. */
  ghost predicate GateSound(c: Client) {
    forall p :: p in c.disk && p in c.rows && c.disk[p].File? &&
                |c.disk[p].bytes| == c.rows[p].size && c.disk[p].mtime == c.rows[p].mtime ==>
      Blake3(c.disk[p].bytes) == c.rows[p].hash
  }

  ghost predicate Ready(w: Sides) {
    && Settled(w.c) && ValidServer(w.srv)
    && Mirrors(w.c.rows, w.srv.nodes)
  }

  ghost predicate Settled(c: Client) {
    Sound(c) && KindsAgree(c) && GateSound(c)
  }

  /** Disk and row agree, and a file holds the bytes of the version the row names. */
  ghost predicate InStep(c: Client, p: Path) {
    && p in c.disk && p in c.rows
    && (c.disk[p].Dir? <==> c.rows[p].kind == IsFolder)
    && (c.disk[p].File? ==>
          c.disk[p].bytes == Content(c.rows[p].remote) && LocalStatus(c.disk, p, c.rows[p]) == (true, false))
  }

  /** Disk, state database and server tree agree on paths, kinds, ids, versions and content. */
  ghost predicate Converged(c: Client, srv: Server) {
    && Sound(c) && ValidServer(srv)
    && Mirrors(c.rows, srv.nodes)
    && c.rows.Keys == c.disk.Keys
    && forall p :: p in c.disk ==> InStep(c, p)
  }

  /** The walk so far: the disk is untouched and everything visited is in step. */
  ghost predicate Walked(w0: Sides, w: Sides, visited: set<Path>) {
    && Ready(w) && w.c.disk == w0.c.disk && w.c.pulls == w0.c.pulls
    && (forall p :: p in visited ==> InStep(w.c, p))
    && OnlyUpserts(w0.srv, w.srv, w.c.disk)
  }

  /** The journal grew by upserts alone, of live nodes at paths of `d`, and no node moved or died. */
  ghost predicate OnlyUpserts(a: Server, b: Server, d: Disk) {
    && a.journal <= b.journal
    && (forall x :: x in a.nodes ==> x in b.nodes && b.nodes[x].path == a.nodes[x].path)
    && forall i :: |a.journal| <= i < |b.journal| ==> b.journal[i].Upsert? && LivesIn(b.nodes, b.journal[i].id, d)
  }

  ghost predicate LivesIn(t: Tree, x: Id, d: Disk) {
    x in t && t[x].path in d
  }

  // ---- the walk ---------------------------------------------------------------------------

  /** In a mirrored state the parent of a visited folder's child is the live node above it. */
  lemma ParentIsLive(w: Sides, p: Path)
    requires Ready(w) && p != [] && p in w.c.disk
    requires Parent(p) != [] ==> Parent(p) in w.c.rows
    ensures var id := ParentId(w.c.rows, p);
            id.Some? && IsLiveFolder(w.srv.nodes, id.value) && PathOf(w.srv.nodes, id.value) + [BaseName(p)] == p
    ensures HasFolder(w.srv.nodes, Parent(p))
  {
    assert p == Parent(p) + [BaseName(p)];
    if Parent(p) != [] {
      assert IsDir(w.c.disk, Parent(p));
      var g := w.c.rows[Parent(p)].id;
      assert Tracked(w.c.rows, w.srv.nodes, g);
    }
  }

  lemma NotTaken(w: Sides, p: Path)
    requires Ready(w)
    ensures Taken(w.srv.nodes, p) <==> p in w.c.rows
    ensures Taken(w.srv.nodes, p) ==> NodeAt(w.srv.nodes, p) == w.c.rows[p].id
  {
    if Taken(w.srv.nodes, p) {
      assert Tracked(w.c.rows, w.srv.nodes, NodeAt(w.srv.nodes, p));
    }
  }

  /** Recording a node at its path keeps the mirror. */
  lemma RecordKeepsMirror(rows: Rows, t: Tree, p: Path, e: Entry, n: Node)
    requires Mirrors(rows, t) && n.path == p && e.kind == n.kind && e.remote == n.hash
    requires if p in rows then e.id == rows[p].id else e.id !in t
    ensures Mirrors(rows[p := e], t[e.id := n])
  {
    var r, u := rows[p := e], t[e.id := n];
    forall x | x in u ensures Tracked(r, u, x) {
      if x != e.id {
        assert Tracked(rows, t, x);
      }
    }
  }

  /** Recording what is on disk at `p` puts `p` in step and disturbs no other path. */
  lemma RecordSettles(c: Client, p: Path, e: Entry)
    requires Settled(c) && p in c.disk && HashesAgree(map[p := e])
    requires forall q :: q in c.rows && c.rows[q].id == e.id ==> q == p
    requires if c.disk[p].Dir? then e.kind == IsFolder
             else e.kind == IsFile && e.size == |c.disk[p].bytes| && e.mtime == c.disk[p].mtime &&
                  e.hash == Blake3(c.disk[p].bytes)
    ensures var d := c.(rows := c.rows[p := e]);
            Settled(d) && InStep(d, p) && forall q :: q != p && InStep(c, q) ==> InStep(d, q)
  {
    assert map[p := e][p] == e;
  }

  lemma FolderStep(w0: Sides, w: Sides, visited: set<Path>, p: Path)
    requires Walked(w0, w, visited) && p != [] && p in w.c.disk && w.c.disk[p].Dir?
    requires Parent(p) == [] || Parent(p) in visited
    ensures PushFolder(w, p).Ok? && Walked(w0, PushFolder(w, p).w, visited + {p})
  {
    assert Parent(p) != [] ==> InStep(w.c, Parent(p));
    if p in w.c.rows {
      assert InStep(w.c, p);
    } else {
      NewFolder(w, p);
      var v := PushFolder(w, p).w;
      PutIsUpsert(w.srv, v.srv, w.srv.next, Node(p, IsFolder, NoHash), w.c.disk);
      NowVisited(w0, w, v, visited, p);
    }
  }

  /** One node put into the tree, new or as a new version. */
  lemma PutIsUpsert(a: Server, b: Server, x: Id, n: Node, d: Disk)
    requires b.nodes == a.nodes[x := n] && b.journal == a.journal + [Upsert(x)]
    requires n.path in d && (x in a.nodes ==> a.nodes[x].path == n.path)
    ensures OnlyUpserts(a, b, d)
  {
    assert LivesIn(b.nodes, x, d);
    forall i | |a.journal| <= i < |b.journal| ensures b.journal[i].Upsert? && LivesIn(b.nodes, b.journal[i].id, d) {
      assert b.journal[i] == Upsert(x);
    }
  }

  lemma OnlyUpsertsFurther(a: Server, b: Server, c: Server, d: Disk)
    requires OnlyUpserts(a, b, d) && OnlyUpserts(b, c, d)
    ensures OnlyUpserts(a, c, d)
  {
    forall i | |a.journal| <= i < |c.journal| ensures c.journal[i].Upsert? && LivesIn(c.nodes, c.journal[i].id, d) {
      if i < |b.journal| {
        assert c.journal[i] == b.journal[i] && LivesIn(b.nodes, b.journal[i].id, d);
      }
    }
  }

  lemma NowVisited(w0: Sides, w: Sides, v: Sides, visited: set<Path>, p: Path)
    requires Walked(w0, w, visited) && Ready(v) && v.c.disk == w.c.disk && v.c.pulls == w.c.pulls
    requires OnlyUpserts(w.srv, v.srv, w.c.disk)
    requires InStep(v.c, p) && forall q :: q != p && InStep(w.c, q) ==> InStep(v.c, q)
    ensures Walked(w0, v, visited + {p})
  {
    forall q | q in visited + {p} ensures InStep(v.c, q) {
      assert q != p ==> InStep(w.c, q);
    }
    OnlyUpsertsFurther(w0.srv, w.srv, v.srv, w.c.disk);
  }

  lemma NewFolder(w: Sides, p: Path)
    requires Ready(w) && p != [] && p in w.c.disk && w.c.disk[p].Dir? && p !in w.c.rows
    requires Parent(p) != [] ==> Parent(p) in w.c.rows
    ensures PushFolder(w, p) == Ok(WithRow(w, Add(w.srv, Node(p, IsFolder, NoHash)), p, FolderEntry(w.srv.next)))
    ensures var v := PushFolder(w, p).w;
            Ready(v) && InStep(v.c, p) && forall q :: q != p && InStep(w.c, q) ==> InStep(v.c, q)
  {
    ParentIsLive(w, p);
    NotTaken(w, p);
    var n, e := Node(p, IsFolder, NoHash), FolderEntry(w.srv.next);
    AddKeepsValid(w.srv, n);
    RecordKeepsMirror(w.c.rows, w.srv.nodes, p, e, n);
    RecordSettles(w.c, p, e);
  }

  lemma FileStep(w0: Sides, w: Sides, visited: set<Path>, p: Path)
    requires Walked(w0, w, visited) && p != [] && p in w.c.disk && w.c.disk[p].File?
    requires Parent(p) == [] || Parent(p) in visited
    ensures PushFile(w, p).Ok? && Walked(w0, PushFile(w, p).w, visited + {p})
  {
    assert Parent(p) != [] ==> InStep(w.c, Parent(p));
    if p in w.c.rows && LocalStatus(w.c.disk, p, w.c.rows[p]) != (true, true) {
      Unchanged(w.c, p);
    } else {
      NewVersion(w, p);
      NowVisited(w0, w, PushFile(w, p).w, visited, p);
    }
  }

  /** A file the gate or the hash calls unchanged holds the bytes its row names. */
  lemma Unchanged(c: Client, p: Path)
    requires Settled(c) && p in c.disk && c.disk[p].File? && p in c.rows
    requires LocalStatus(c.disk, p, c.rows[p]) != (true, true)
    ensures InStep(c, p)
  {
  }

  lemma NewVersion(w: Sides, p: Path)
    requires Ready(w) && p != [] && p in w.c.disk && w.c.disk[p].File?
    requires p in w.c.rows ==> LocalStatus(w.c.disk, p, w.c.rows[p]) == (true, true)
    requires Parent(p) != [] ==> Parent(p) in w.c.rows
    ensures PushFile(w, p).Ok?
    ensures var v := PushFile(w, p).w;
            && Ready(v) && InStep(v.c, p) && (forall q :: q != p && InStep(w.c, q) ==> InStep(v.c, q))
            && v.c.disk == w.c.disk && v.c.pulls == w.c.pulls && OnlyUpserts(w.srv, v.srv, w.c.disk)
  {
    ParentIsLive(w, p);
    var parent := ParentId(w.c.rows, p).value;
    UploadStep(w, p, parent);
    var f := w.c.disk[p];
    var r := Upload(w.srv, parent, BaseName(p), f.bytes);
    PushFileUploads(w, p);
    RecordSettles(w.c, p, UploadedEntry(r.id, f, ContentHash(f.bytes)));
  }

  lemma PushFileUploads(w: Sides, p: Path)
    requires p in w.c.disk && w.c.disk[p].File? && ParentId(w.c.rows, p).Some?
    requires p in w.c.rows ==> LocalStatus(w.c.disk, p, w.c.rows[p]) == (true, true)
    requires Upload(w.srv, ParentId(w.c.rows, p).value, BaseName(p), w.c.disk[p].bytes).Made?
    ensures var f := w.c.disk[p];
            var r := Upload(w.srv, ParentId(w.c.rows, p).value, BaseName(p), f.bytes);
            PushFile(w, p) == Ok(WithRow(w, r.srv, p, UploadedEntry(r.id, f, ContentHash(f.bytes))).(pushes := w.pushes + 1))
  {
  }

  lemma UploadStep(w: Sides, p: Path, parent: Id)
    requires Ready(w) && p != [] && p in w.c.disk && w.c.disk[p].File?
    requires IsLiveFolder(w.srv.nodes, parent) && PathOf(w.srv.nodes, parent) + [BaseName(p)] == p
    ensures var f := w.c.disk[p];
            var r := Upload(w.srv, parent, BaseName(p), f.bytes);
            && r.Made? && ValidServer(r.srv) && OnlyUpserts(w.srv, r.srv, w.c.disk)
            && Mirrors(w.c.rows[p := UploadedEntry(r.id, f, ContentHash(f.bytes))], r.srv.nodes)
            && (forall q :: q in w.c.rows && w.c.rows[q].id == r.id ==> q == p)
  {
    NotTaken(w, p);
    var f := w.c.disk[p];
    var n := Node(p, IsFile, ContentHash(f.bytes));
    var r := UploadPuts(w, p, parent);
    UploadKeepsValid(w.srv, parent, BaseName(p), f.bytes);
    RecordKeepsMirror(w.c.rows, w.srv.nodes, p, UploadedEntry(r.id, f, ContentHash(f.bytes)), n);
    PutIsUpsert(w.srv, r.srv, r.id, n, w.c.disk);
  }

  /** What the server makes of an upload to a recorded or a free path. */
  lemma UploadPuts(w: Sides, p: Path, parent: Id) returns (r: Reply)
    requires Ready(w) && p != [] && p in w.c.disk && w.c.disk[p].File?
    requires IsLiveFolder(w.srv.nodes, parent) && PathOf(w.srv.nodes, parent) + [BaseName(p)] == p
    ensures r == Upload(w.srv, parent, BaseName(p), w.c.disk[p].bytes) && r.Made?
    ensures r.srv.nodes == w.srv.nodes[r.id := Node(p, IsFile, ContentHash(w.c.disk[p].bytes))]
    ensures r.srv.journal == w.srv.journal + [Upsert(r.id)]
    ensures if p in w.c.rows then r.id == w.c.rows[p].id && r.id in w.srv.nodes && w.srv.nodes[r.id].path == p
            else r.id !in w.srv.nodes
    ensures forall q :: q in w.c.rows && w.c.rows[q].id == r.id ==> q == p
  {
    NotTaken(w, p);
    if p in w.c.rows {
      assert Tracked(w.c.rows, w.srv.nodes, w.c.rows[p].id);
    }
    r := Upload(w.srv, parent, BaseName(p), w.c.disk[p].bytes);
  }

  lemma VisitStep(env: Env, w0: Sides, w: Sides, visited: set<Path>, p: Path)
    requires env.excludes == [] && Walked(w0, w, visited) && p != [] && p in w.c.disk
    requires Parent(p) == [] || Parent(p) in visited
    ensures PushOne(env, w, p).Ok? && Walked(w0, PushOne(env, w, p).w, visited + {p})
  {
    assert PushOne(env, w, p) == if w.c.disk[p].Dir? then PushFolder(w, p) else PushFile(w, p);
    if w.c.disk[p].Dir? {
      FolderStep(w0, w, visited, p);
    } else {
      FileStep(w0, w, visited, p);
    }
  }

  function FirstOf(walk: seq<Path>, k: nat): set<Path>
    requires k <= |walk|
  {
    set i | 0 <= i < k :: walk[i]
  }

  /** The k-th path of a walk is on disk and its folder was visited before. */
  lemma WalkOrder(walk: seq<Path>, d: Disk, k: nat)
    requires IsWalk(walk, d) && IsTree(d) && k < |walk|
    ensures walk[k] in d && walk[k] != []
    ensures Parent(walk[k]) == [] || Parent(walk[k]) in FirstOf(walk, k)
    ensures FirstOf(walk, k + 1) == FirstOf(walk, k) + {walk[k]}
  {
    assert walk[k] in walk;
    if Parent(walk[k]) != [] {
      var i :| 0 <= i < k && walk[..k][i] == Parent(walk[k]);
      assert walk[i] in FirstOf(walk, k);
    }
  }

  lemma WalkCovers(walk: seq<Path>, d: Disk)
    requires IsWalk(walk, d)
    ensures FirstOf(walk, |walk|) == d.Keys
  {
    forall p | p in d ensures p in FirstOf(walk, |walk|) {
      var i :| 0 <= i < |walk| && walk[i] == p;
    }
    forall p | p in FirstOf(walk, |walk|) ensures p in d {
      assert p in walk;
    }
  }

  lemma {:induction false} WalkStays(env: Env, w0: Sides, w: Sides, walk: seq<Path>, k: nat)
    requires env.excludes == [] && IsWalk(walk, w0.c.disk) && k <= |walk|
    requires Walked(w0, w, FirstOf(walk, k))
    ensures var out := PushExisting(env, w, walk[k..]);
            out.Ok? && Walked(w0, out.w, w0.c.disk.Keys)
    decreases |walk| - k
  {
    if k == |walk| {
      WalkCovers(walk, w0.c.disk);
    } else {
      WalkOrder(walk, w0.c.disk, k);
      VisitStep(env, w0, w, FirstOf(walk, k), walk[k]);
      assert walk[k..][0] == walk[k] && walk[k..][1..] == walk[k + 1..];
      WalkStays(env, w0, PushOne(env, w, walk[k]).w, walk, k + 1);
    }
  }

  // ---- the deletions ----------------------------------------------------------------------

  /** While recorded paths with nothing on disk are trashed; `left` are still to come, `rows`
      is the list taken before, `d` the disk. */
  ghost predicate Trashing(now: Rows, t: Tree, rows: Rows, d: Disk, left: set<Path>) {
    && (forall p :: p in now ==> p in rows && now[p] == rows[p])
    && (forall x :: x in t ==> Tracked(now, t, x))
    && (forall p :: p in d ==> p in now && Lives(now, t, p))
    && (forall p :: p in now && p !in d ==> p in left)
  }

  ghost predicate Lives(rows: Rows, t: Tree, p: Path)
    requires p in rows
  {
    rows[p].id in t && t[rows[p].id].path == p
  }

  /** What a trash at `p` leaves. */
  function Left(t: Tree, p: Path): Tree {
    map x | x in t && !Under(t[x].path, p) :: t[x]
  }

  lemma LeftIsTracked(now: Rows, t: Tree, p: Path, x: Id)
    requires x in Left(t, p) && Tracked(now, t, x)
    ensures Tracked(now - {p}, Left(t, p), x)
  {
  }

  lemma LeftLives(now: Rows, t: Tree, p: Path, q: Path)
    requires q in now && q != p && !Under(q, p) && Lives(now, t, q)
    ensures Lives(now - {p}, Left(t, p), q)
  {
  }

  /** The server's trash takes along only nodes whose local counterparts are gone too. */
  lemma TrashLive(now: Rows, t: Tree, rows: Rows, d: Disk, p: Path, left: set<Path>)
    requires Trashing(now, t, rows, d, left + {p}) && p in rows && p !in d
    requires forall q :: q in d ==> !Under(q, p)
    ensures Trashing(now - {p}, Left(t, p), rows, d, left)
  {
    forall x | x in Left(t, p) ensures Tracked(now - {p}, Left(t, p), x) {
      LeftIsTracked(now, t, p, x);
    }
    forall q | q in d ensures q in now && Lives(now - {p}, Left(t, p), q) {
      LeftLives(now, t, p, q);
    }
  }

  /** A 404: the node went with its folder, and so did its row's claim. */
  lemma TrashGone(now: Rows, t: Tree, rows: Rows, d: Disk, p: Path, left: set<Path>)
    requires Trashing(now, t, rows, d, left + {p}) && p in rows && p !in d && rows[p].id !in t
    ensures Trashing(now - {p}, t, rows, d, left)
  {
    forall x | x in t ensures Tracked(now - {p}, t, x) {
      assert Tracked(now, t, x);
    }
    forall q | q in d ensures q in now && Lives(now - {p}, t, q) {
      assert Lives(now, t, q);
    }
  }

  lemma TrashStep(env: Env, w: Sides, rows: Rows, d: Disk, p: Path, left: set<Path>)
    requires env.excludes == [] && IsTree(d) && UniqueIds(rows) && ValidServer(w.srv) && p in rows
    requires Trashing(w.c.rows, w.srv.nodes, rows, d, left + {p})
    ensures var v := TrashOne(env, w, Seen(env, d), p, rows[p].id);
            ValidServer(v.srv) && Trashing(v.c.rows, v.srv.nodes, rows, d, left)
            && forall x :: LivesIn(w.srv.nodes, x, d) ==> LivesIn(v.srv.nodes, x, d)
  {
    var x := rows[p].id;
    assert p !in d ==> TrashOne(env, w, Seen(env, d), p, x).c.rows == w.c.rows - {p};
    if p in d {
    } else if x in w.srv.nodes {
      ListedNode(w.c.rows, w.srv.nodes, rows, p);
      TrashKeepsValid(w.srv, x);
      forall q | q in d ensures !Under(q, p) {
        NothingBeneathAbsent(d, p, q);
      }
      TrashLive(w.c.rows, w.srv.nodes, rows, d, p, left);
      LeftKeepsLiving(w.srv.nodes, d, p);
      assert Trash(w.srv, x).value.nodes == Left(w.srv.nodes, p);
    } else {
      TrashGone(w.c.rows, w.srv.nodes, rows, d, p, left);
    }
  }

  lemma LeftKeepsLiving(t: Tree, d: Disk, p: Path)
    requires forall q :: q in d ==> !Under(q, p)
    ensures forall x :: LivesIn(t, x, d) ==> LivesIn(Left(t, p), x, d)
  {
  }

  /** A live node that was listed at `p` lives at `p`. */
  lemma ListedNode(now: Rows, t: Tree, rows: Rows, p: Path)
    requires UniqueIds(rows) && ValidTree(t) && p in rows && rows[p].id in t
    requires forall q :: q in now ==> q in rows && now[q] == rows[q]
    requires forall x :: x in t ==> Tracked(now, t, x)
    ensures t[rows[p].id].path == p && p != []
  {
    assert Tracked(now, t, rows[p].id);
  }

  lemma NothingBeneathAbsent(d: Disk, p: Path, q: Path)
    requires IsTree(d) && p != [] && p !in d && q in d
    ensures !Under(q, p)
  {
    if Under(q, p) {
      NothingBeneath(d, p, q);
    }
  }

  lemma {:induction false} TrashAll(env: Env, w: Sides, rows: Rows, d: Disk, listed: seq<Path>)
    requires env.excludes == [] && (forall p :: p in listed ==> p in rows)
    requires IsTree(d) && UniqueIds(rows) && ValidServer(w.srv)
    requires Trashing(w.c.rows, w.srv.nodes, rows, d, set p | p in listed)
    ensures var v := PushDeletions(env, w, Seen(env, d), rows, listed);
            ValidServer(v.srv) && Trashing(v.c.rows, v.srv.nodes, rows, d, {})
            && forall x :: LivesIn(w.srv.nodes, x, d) ==> LivesIn(v.srv.nodes, x, d)
    decreases |listed|
  {
    if listed == [] {
      assert (set p | p in listed) == {};
    } else {
      var rest := set p | p in listed[1..];
      assert (set p | p in listed) == rest + {listed[0]};
      TrashStep(env, w, rows, d, listed[0], rest);
      TrashAll(env, TrashOne(env, w, Seen(env, d), listed[0], rows[listed[0]].id), rows, d, listed[1..]);
    }
  }

  // ---- the push as a whole ------------------------------------------------------------------

  /** The journal grew, and its new entries are upserts of live nodes and deletes of dead ones. */
  ghost predicate Spent(a: Server, b: Server) {
    && a.journal <= b.journal
    && forall i :: |a.journal| <= i < |b.journal| ==> (b.journal[i].Upsert? <==> b.journal[i].id in b.nodes)
  }

  /** The journal grew, and what it newly calls deleted is not live. */
  ghost predicate DeadStay(a: Server, b: Server) {
    && a.journal <= b.journal
    && forall i :: |a.journal| <= i < |b.journal| && b.journal[i].Delete? ==> b.journal[i].id !in b.nodes
  }

  ghost predicate OnlyDeletes(a: Server, b: Server) {
    && a.journal <= b.journal
    && forall i :: |a.journal| <= i < |b.journal| ==> b.journal[i].Delete?
  }

  lemma TrashSpends(a: Server, srv: Server, id: Id)
    requires DeadStay(a, srv) && Trash(srv, id).Some?
    ensures DeadStay(a, Trash(srv, id).value) && OnlyDeletes(srv, Trash(srv, id).value)
  {
    BeneathIsBeneath(srv.nodes, srv.nodes[id].path, srv.next);
  }

  lemma {:induction false} DeletionsSpend(env: Env, a: Server, w: Sides, seen: set<Path>, rows: Rows, listed: seq<Path>)
    requires DeadStay(a, w.srv) && forall p :: p in listed ==> p in rows
    ensures var v := PushDeletions(env, w, seen, rows, listed);
            DeadStay(a, v.srv) && OnlyDeletes(w.srv, v.srv) && v.c.disk == w.c.disk && v.c.pulls == w.c.pulls
    decreases |listed|
  {
    if listed != [] {
      var x := rows[listed[0]].id;
      if x in w.srv.nodes {
        TrashSpends(a, w.srv, x);
      }
      DeletionsSpend(env, a, TrashOne(env, w, seen, listed[0], x), seen, rows, listed[1..]);
    }
  }

  /** What the walk uploaded is on disk, so no deletion takes it. */
  lemma PushSpends(a: Server, b: Server, c: Server, d: Disk)
    requires OnlyUpserts(a, b, d) && OnlyDeletes(b, c) && DeadStay(a, c)
    requires forall x :: LivesIn(b.nodes, x, d) ==> LivesIn(c.nodes, x, d)
    ensures Spent(a, c)
  {
    forall i | |a.journal| <= i < |c.journal| ensures c.journal[i].Upsert? <==> c.journal[i].id in c.nodes {
      if i < |b.journal| {
        assert c.journal[i] == b.journal[i] && LivesIn(b.nodes, b.journal[i].id, d);
      }
    }
  }

  lemma ReadyTrashes(w: Sides, left: set<Path>)
    requires Ready(w) && (forall p :: p in w.c.disk ==> InStep(w.c, p)) && left == w.c.rows.Keys
    ensures Trashing(w.c.rows, w.srv.nodes, w.c.rows, w.c.disk, left)
  {
    forall p | p in w.c.disk ensures p in w.c.rows && Lives(w.c.rows, w.srv.nodes, p) {
      assert InStep(w.c, p);
    }
  }

  lemma TrashedConverges(before: Client, c: Client, srv: Server)
    requires Sound(before) && ValidServer(srv) && c.disk == before.disk
    requires forall p :: p in before.disk ==> InStep(before, p)
    requires Trashing(c.rows, srv.nodes, before.rows, c.disk, {})
    ensures Converged(c, srv)
  {
    assert Mirrors(c.rows, srv.nodes) by {
      forall p | p in c.rows ensures c.rows[p].id in srv.nodes && srv.nodes[c.rows[p].id].path == p {
        assert p in c.disk;
        assert Lives(c.rows, srv.nodes, p);
      }
    }
    assert c.rows.Keys == c.disk.Keys;
    FewerRowsSound(before, c);
    forall p | p in c.disk ensures InStep(c, p) {
      assert InStep(before, p);
    }
  }

  lemma FewerRowsSound(before: Client, c: Client)
    requires Sound(before) && c.disk == before.disk && forall p :: p in c.rows ==> p in before.rows && c.rows[p] == before.rows[p]
    ensures Sound(c)
  {
  }

  /** From a state database that mirrors the server and whose recorded hashes are honest, the
      push always succeeds and leaves disk, database and server in agreement; the disk is not
      touched, and what the push journals as deleted stays dead, and what it uploads stays live. */
  lemma PushConverges(env: Env, w: Sides, walk: seq<Path>, listed: seq<Path>, out: Progress)
    requires env.excludes == [] && Ready(w) && Pushes(env, w, walk, listed, out)
    ensures out.Ok? && Converged(out.w.c, out.w.srv) && Spent(w.srv, out.w.srv)
    ensures out.w.c.disk == w.c.disk && out.w.c.pulls == w.c.pulls
  {
    assert FirstOf(walk, 0) == {};
    assert walk[0..] == walk;
    WalkStays(env, w, w, walk, 0);
    var v := PushExisting(env, w, walk).w;
    var left := set p | p in listed;
    ReadyTrashes(v, left);
    DeletionsSpend(env, w.srv, v, Seen(env, v.c.disk), v.c.rows, listed);
    TrashAll(env, v, v.c.rows, v.c.disk, listed);
    PushSpends(w.srv, v.srv, out.w.srv, v.c.disk);
    TrashedConverges(v.c, out.w.c, out.w.srv);
  }

  // ---- nothing less will do -------------------------------------------------------------------

  /** What a pull leaves, whatever is on disk. */
  ghost predicate Mirrored(w: Sides) {
    ValidServer(w.srv) && Mirrors(w.c.rows, w.srv.nodes)
  }

  /** Where the server puts an upload or a new folder of a mirrored client. */
  lemma LandsAt(w: Sides, p: Path)
    requires Mirrored(w) && p != [] && ParentId(w.c.rows, p).Some?
    requires IsLiveFolder(w.srv.nodes, ParentId(w.c.rows, p).value)
    ensures PathOf(w.srv.nodes, ParentId(w.c.rows, p).value) + [BaseName(p)] == p
  {
    assert p == Parent(p) + [BaseName(p)];
  }

  lemma TakenIsRecorded(w: Sides, p: Path)
    requires Mirrored(w)
    ensures Taken(w.srv.nodes, p) <==> p in w.c.rows
    ensures Taken(w.srv.nodes, p) ==>
              var x := w.c.rows[p].id;
              NodeAt(w.srv.nodes, p) == x && x in w.srv.nodes && w.srv.nodes[x].kind == w.c.rows[p].kind
  {
    if Taken(w.srv.nodes, p) {
      assert Tracked(w.c.rows, w.srv.nodes, NodeAt(w.srv.nodes, p));
    }
    if p in w.c.rows {
      assert w.srv.nodes[w.c.rows[p].id].path == p;
    }
  }

  /** Without regard to kinds or edits, a path that is pushed keeps the database a mirror. */
  lemma FolderKeepsMirrored(w: Sides, p: Path)
    requires Mirrored(w) && p != [] && PushFolder(w, p).Ok?
    ensures Mirrored(PushFolder(w, p).w)
  {
    if p !in w.c.rows && IsLiveFolder(w.srv.nodes, ParentId(w.c.rows, p).value) {
      LandsAt(w, p);
      TakenIsRecorded(w, p);
      CreateKeepsValid(w.srv, ParentId(w.c.rows, p).value, BaseName(p));
      RecordKeepsMirror(w.c.rows, w.srv.nodes, p, FolderEntry(w.srv.next), Node(p, IsFolder, NoHash));
    }
  }

  lemma FileKeepsMirrored(w: Sides, p: Path)
    requires Mirrored(w) && p != [] && PushFile(w, p).Ok?
    ensures Mirrored(PushFile(w, p).w)
  {
    if PushFile(w, p) != Ok(w) {
      LandsAt(w, p);
      TakenIsRecorded(w, p);
      var f, parent := w.c.disk[p], ParentId(w.c.rows, p).value;
      var r := Upload(w.srv, parent, BaseName(p), f.bytes);
      UploadKeepsValid(w.srv, parent, BaseName(p), f.bytes);
      RecordKeepsMirror(w.c.rows, w.srv.nodes, p, UploadedEntry(r.id, f, ContentHash(f.bytes)),
                        Node(p, IsFile, ContentHash(f.bytes)));
    }
  }

  /** A path at which a push goes wrong: it changed kind, or the gate hides an edit. */
  ghost predicate Amiss(c: Client, p: Path) {
    && p in c.disk && p in c.rows
    && ((c.disk[p].Dir? <==> c.rows[p].kind == IsFile)
        || (c.disk[p].File? && |c.disk[p].bytes| == c.rows[p].size && c.disk[p].mtime == c.rows[p].mtime &&
            Blake3(c.disk[p].bytes) != c.rows[p].hash))
  }

  /** The server refuses a file where it has a folder. */
  lemma FileOverFolder(w: Sides, p: Path)
    requires Mirrored(w) && p != [] && p in w.c.disk && w.c.disk[p].File?
    requires p in w.c.rows && w.c.rows[p].kind == IsFolder && PushFile(w, p).Ok?
    ensures PushFile(w, p) == Ok(w)
  {
    if PushFile(w, p) != Ok(w) {
      LandsAt(w, p);
      TakenIsRecorded(w, p);
    }
  }

  /** Pushing a path changes no row but its own. */
  lemma OwnRowOnly(env: Env, w: Sides, q: Path, p: Path)
    requires q != p
    ensures var c := PushOne(env, w, q).w.c;
            c.disk == w.c.disk && (p in c.rows <==> p in w.c.rows) && (p in w.c.rows ==> c.rows[p] == w.c.rows[p])
  {
  }

  lemma AmissAtHome(env: Env, w: Sides, p: Path)
    requires Mirrored(w) && p != [] && Amiss(w.c, p) && PushOne(env, w, p).Ok?
    ensures PushOne(env, w, p) == Ok(w)
  {
    if w.c.disk[p].File? && w.c.rows[p].kind == IsFolder {
      assert PushOne(env, w, p) != Ok(w) ==> PushOne(env, w, p) == PushFile(w, p);
      if PushFile(w, p).Ok? {
        FileOverFolder(w, p);
      }
    }
  }

  lemma StaysMirrored(env: Env, w: Sides, q: Path)
    requires Mirrored(w) && q != [] && PushOne(env, w, q).Ok?
    ensures Mirrored(PushOne(env, w, q).w)
  {
    if q in w.c.disk && !Excluded(env, q) {
      if w.c.disk[q].Dir? {
        FolderKeepsMirrored(w, q);
      } else {
        FileKeepsMirrored(w, q);
      }
    }
  }

  lemma AmissStays(env: Env, w: Sides, q: Path, p: Path)
    requires Mirrored(w) && q != [] && p != [] && Amiss(w.c, p) && PushOne(env, w, q).Ok?
    ensures var v := PushOne(env, w, q).w; v.c.disk == w.c.disk && Amiss(v.c, p) && Mirrored(v)
  {
    StaysMirrored(env, w, q);
    if q == p {
      AmissAtHome(env, w, p);
    } else {
      OwnRowOnly(env, w, q, p);
    }
  }

  lemma {:induction false} AmissThroughWalk(env: Env, w: Sides, walk: seq<Path>, p: Path)
    requires env.excludes == [] && Mirrored(w) && p != [] && Amiss(w.c, p) && [] !in walk
    requires PushExisting(env, w, walk).Ok?
    ensures var v := PushExisting(env, w, walk).w; v.c.disk == w.c.disk && Amiss(v.c, p)
    decreases |walk|
  {
    if walk != [] {
      assert walk[0] in walk;
      AmissStays(env, w, walk[0], p);
      AmissThroughWalk(env, PushOne(env, w, walk[0]).w, walk[1..], p);
    }
  }

  lemma {:induction false} AmissThroughDeletions(env: Env, w: Sides, seen: set<Path>, rows: Rows, listed: seq<Path>, p: Path)
    requires (forall q :: q in listed ==> q in rows) && Amiss(w.c, p) && p in seen
    ensures var v := PushDeletions(env, w, seen, rows, listed); v.c.disk == w.c.disk && Amiss(v.c, p)
    decreases |listed|
  {
    if listed != [] {
      AmissThroughDeletions(env, TrashOne(env, w, seen, listed[0], rows[listed[0]].id), seen, rows, listed[1..], p);
    }
  }

  lemma AmissIsApart(c: Client, srv: Server, p: Path)
    requires Amiss(c, p)
    ensures !Converged(c, srv)
  {
    assert Converged(c, srv) ==> InStep(c, p);
  }

  lemma AmissEndsApart(env: Env, w: Sides, walk: seq<Path>, listed: seq<Path>, out: Progress, p: Path)
    requires env.excludes == [] && Sound(w.c) && Mirrored(w) && Pushes(env, w, walk, listed, out) && Amiss(w.c, p)
    ensures !(out.Ok? && Converged(out.w.c, out.w.srv))
  {
    assert p != [] && [] !in walk;
    if out.Ok? {
      var v := PushExisting(env, w, walk).w;
      AmissThroughWalk(env, w, walk, p);
      AmissThroughDeletions(env, v, Seen(env, v.c.disk), v.c.rows, listed, p);
      AmissIsApart(out.w.c, out.w.srv, p);
    }
  }

  lemma NothingAmiss(c: Client)
    ensures KindsAgree(c) && GateSound(c) <==> forall p :: !Amiss(c, p)
  {
    if forall p :: !Amiss(c, p) {
      forall p | p in c.disk && p in c.rows ensures c.disk[p].Dir? <==> c.rows[p].kind == IsFolder {
        assert !Amiss(c, p);
      }
      forall p | p in c.disk && p in c.rows && c.disk[p].File? &&
                 |c.disk[p].bytes| == c.rows[p].size && c.disk[p].mtime == c.rows[p].mtime
        ensures Blake3(c.disk[p].bytes) == c.rows[p].hash
      {
        assert !Amiss(c, p);
      }
    }
  }

  /** From a state database that mirrors the server, the push ends in agreement if and only if no
      path changed kind and the gate hides no edit. */
  lemma PushConvergesIff(env: Env, w: Sides, walk: seq<Path>, listed: seq<Path>, out: Progress)
    requires env.excludes == [] && Sound(w.c) && Mirrored(w) && Pushes(env, w, walk, listed, out)
    ensures out.Ok? && Converged(out.w.c, out.w.srv) <==> KindsAgree(w.c) && GateSound(w.c)
  {
    NothingAmiss(w.c);
    if KindsAgree(w.c) && GateSound(w.c) {
      PushConverges(env, w, walk, listed, out);
    } else {
      var p :| Amiss(w.c, p);
      AmissEndsApart(env, w, walk, listed, out, p);
    }
  }

  /** After such a push the server holds at the path of every file the bytes that are on disk. */
  lemma PushedContent(env: Env, w: Sides, walk: seq<Path>, listed: seq<Path>, out: Progress, q: Path)
    requires env.excludes == [] && Ready(w) && Pushes(env, w, walk, listed, out)
    requires q in w.c.disk && w.c.disk[q].File?
    ensures out.Ok? && Taken(out.w.srv.nodes, q)
    ensures Content(out.w.srv.nodes[NodeAt(out.w.srv.nodes, q)].hash) == w.c.disk[q].bytes
  {
    PushConverges(env, w, walk, listed, out);
    assert InStep(out.w.c, q);
    assert Tracked(out.w.c.rows, out.w.srv.nodes, out.w.c.rows[q].id);
  }

  // ---- a push with nothing to do --------------------------------------------------------------

  lemma {:induction false} WalkIdle(env: Env, w: Sides, walk: seq<Path>)
    requires Converged(w.c, w.srv)
    ensures PushExisting(env, w, walk) == Ok(w)
    decreases |walk|
  {
    if walk != [] {
      assert walk[0] in w.c.disk ==> InStep(w.c, walk[0]);
      WalkIdle(env, w, walk[1..]);
    }
  }

  lemma {:induction false} DeletionsIdle(env: Env, w: Sides, seen: set<Path>, rows: Rows, listed: seq<Path>)
    requires forall p :: p in listed ==> p in rows && p in seen
    ensures PushDeletions(env, w, seen, rows, listed) == w
    decreases |listed|
  {
    if listed != [] {
      DeletionsIdle(env, w, seen, rows, listed[1..]);
    }
  }

  /** From agreement a push changes nothing: no row, no server node, no journal entry, no count. */
  lemma ConvergedPushIsIdle(env: Env, w: Sides, walk: seq<Path>, listed: seq<Path>, out: Progress)
    requires env.excludes == [] && Converged(w.c, w.srv) && Pushes(env, w, walk, listed, out)
    ensures out == Ok(w)
  {
    WalkIdle(env, w, walk);
    DeletionsIdle(env, w, Seen(env, w.c.disk), w.c.rows, listed);
  }
}
