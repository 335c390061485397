/**
  The pull half of the sync engine (client/internal/engine/pull.go) as functions on the
  client's state: the disk and the path-keyed state database. Class Engine runs them in place.
 */
module Pull {
  import opened Base
  import opened LocalDisk
  import opened ConflictNames

  /** One row of the state database, keyed by path. */
  datatype Entry = Entry(id: Id, kind: Kind, size: nat, mtime: int, hash: Digest, remote: Digest)

  type Rows = map<Path, Entry>

  /** A live server node; `hash` is its content hash, NoHash for a folder. */
  datatype Node = Node(path: Path, kind: Kind, hash: Digest)

  type Tree = map<Id, Node>

  /** A journal entry. Poll attaches the node's current state to an upsert, or nothing when
      the node is gone: that is a lookup in the tree the server has now. */
  datatype Change = Upsert(id: Id) | Delete(id: Id)

  /** `pulls` counts downloaded files. */
  datatype Client = Client(disk: Disk, rows: Rows, pulls: nat)

  /** What stays fixed during a pass: the excluded prefixes, the machine name and date that
      decorate conflict copies, and the modification time a download of a version gets. */
  datatype Env = Env(excludes: seq<Path>, tag: string, stamp: (Path, Digest) -> int)

  /** The state a step leaves behind, and whether it returned without an error. */
  datatype Outcome = Done(c: Client) | Failed(c: Client)

  function Content(h: Digest): Bytes {
    if h == NoHash then [] else h.of
  }

  predicate Excluded(env: Env, p: Path) {
    exists x | x in env.excludes :: Under(p, x)
  }

  /** localStatus of a path that is not barred, which is its error: does the recorded file exist, and
      do its bytes differ from the baseline? Size and modification time are the gate; only when they
      moved is the file hashed. */
  function LocalStatus(d: Disk, p: Path, e: Entry): (bool, bool) {
    if p !in d then (false, false)
    else if d[p].Dir? then (true, false)
    else if |d[p].bytes| == e.size && d[p].mtime == e.mtime then (true, false)
    else (true, Blake3(d[p].bytes) != e.hash)
  }

  predicate Exists(d: Disk, p: Path) {
    p in d
  }

  /** Recorded, present, and edited since the baseline. */
  predicate Edited(c: Client, p: Path) {
    p in c.rows && LocalStatus(c.disk, p, c.rows[p]).1
  }

  ghost predicate UniqueIds(rows: Rows) {
    forall p, q :: p in rows && q in rows && rows[p].id == rows[q].id ==> p == q
  }

  /** GetByNodeID. */
  ghost function Locate(rows: Rows, id: Id): (r: Option<Path>)
    ensures r.Some? ==> r.value in rows && rows[r.value].id == id
    ensures r.None? ==> forall p :: p in rows ==> rows[p].id != id
  {
    if exists p :: p in rows && rows[p].id == id then
      var p :| p in rows && rows[p].id == id; Some(p)
    else None
  }

  function FolderEntry(id: Id): Entry {
    Entry(id, IsFolder, 0, 0, NoHash, NoHash)
  }

  function FileEntry(env: Env, id: Id, n: Node): Entry {
    var bytes := Content(n.hash);
    Entry(id, IsFile, |bytes|, env.stamp(n.path, n.hash), Blake3(bytes), n.hash)
  }

  function MaterializeFolder(c: Client, id: Id, n: Node): Outcome {
    match MkdirAll(c.disk, n.path)
    case None => Failed(c)
    case Some(d) => Done(c.(disk := d, rows := c.rows[n.path := FolderEntry(id)]))
  }

  /** pullDown: the download lands under a temporary name and is renamed into place. */
  function PullDown(env: Env, c: Client, id: Id, n: Node): Outcome {
    match MkdirAll(c.disk, Parent(n.path))
    case None => Failed(c)
    case Some(d) =>
      if IsDir(d, n.path) then Failed(c.(disk := d))
      else Done(Client(d[n.path := File(Content(n.hash), env.stamp(n.path, n.hash))],
                       c.rows[n.path := FileEntry(env, id, n)],
                       c.pulls + 1))
  }

  /** conflictCopy: the edited file moves to a free name and the original name is forgotten. */
  function ConflictCopy(env: Env, c: Client, p: Path): Outcome {
    var dst := CopyPath(c.disk.Keys, p, env.tag);
    match MkdirAll(c.disk, Parent(dst))
    case None => Failed(c)
    case Some(d) =>
      match Rename(d, p, dst)
      case Refused => Failed(c.(disk := d))
      case NoSource => Done(c.(disk := d, rows := c.rows - {p}))
      case Moved(e) => Done(c.(disk := e, rows := c.rows - {p}))
  }

  /** moveLocal: the file or folder follows its node; only its own row is rekeyed. */
  function MoveLocal(c: Client, p: Path, q: Path): Outcome
    requires p in c.rows
  {
    match MkdirAll(c.disk, Parent(q))
    case None => Failed(c)
    case Some(d) =>
      match Rename(d, p, q)
      case Refused => Failed(c.(disk := d))
      case NoSource => Done(c.(disk := d, rows := (c.rows - {p})[q := c.rows[p]]))
      case Moved(e) => Done(c.(disk := e, rows := (c.rows - {p})[q := c.rows[p]]))
  }

  function ForgetSubtree(rows: Rows, root: Path): Rows {
    map p | p in rows && !Under(p, root) :: rows[p]
  }

  function ApplyFileUpsert(env: Env, c: Client, id: Id, n: Node): Outcome {
    if n.path !in c.rows then PullDown(env, c, id, n)
    else if Barred(c.disk, n.path) then Failed(c)
    else
      var (present, changed) := LocalStatus(c.disk, n.path, c.rows[n.path]);
      if c.rows[n.path].remote == n.hash then
        if present then Done(c) else PullDown(env, c, id, n)
      else if present && changed then
        var aside := ConflictCopy(env, c, n.path);
        if aside.Failed? then aside else PullDown(env, aside.c, id, n)
      else PullDown(env, c, id, n)
  }

  /** Drop the node recorded at `p` as `e`: what applyDelete and removeVanished share. */
  function DropLocal(env: Env, c: Client, p: Path, e: Entry): Outcome {
    if e.kind == IsFolder then
      match RemoveAll(c.disk, p)
      case None => Failed(c)
      case Some(d) => Done(c.(disk := d, rows := ForgetSubtree(c.rows, p)))
    else if Barred(c.disk, p) then Failed(c)
    else
      var (present, changed) := LocalStatus(c.disk, p, e);
      if present && changed then ConflictCopy(env, c, p)
      else
        match Remove(c.disk, p)
        case None => Failed(c)
        case Some(d) => Done(c.(disk := d, rows := c.rows - {p}))
  }

  ghost function ApplyDelete(env: Env, c: Client, id: Id): Outcome {
    match Locate(c.rows, id)
    case None => Done(c)
    case Some(p) => DropLocal(env, c, p, c.rows[p])
  }

  /** The first half of an upsert: a node held elsewhere moves to where it now lives. */
  ghost function FollowMove(c: Client, id: Id, q: Path): Outcome {
    match Locate(c.rows, id)
    case None => Done(c)
    case Some(p) => if p == q then Done(c) else MoveLocal(c, p, q)
  }

  ghost function ApplyUpsert(env: Env, c: Client, id: Id, n: Node): Outcome {
    var moved := FollowMove(c, id, n.path);
    if moved.Failed? then moved
    else if n.kind == IsFolder then MaterializeFolder(moved.c, id, n)
    else ApplyFileUpsert(env, moved.c, id, n)
  }

  ghost function ApplyChange(env: Env, s: Tree, c: Client, ch: Change): Outcome {
    match ch
    case Delete(id) => ApplyDelete(env, c, id)
    case Upsert(id) =>
      if id !in s || Excluded(env, s[id].path) then Done(c)
      else ApplyUpsert(env, c, id, s[id])
  }

  /** Replay of journal entries in order, stopping at the first error. */
  ghost function Replay(env: Env, s: Tree, c: Client, cs: seq<Change>): Outcome
    decreases |cs|
  {
    if cs == [] then Done(c)
    else
      var first := ApplyChange(env, s, c, cs[0]);
      if first.Failed? then first else Replay(env, s, first.c, cs[1..])
  }

  lemma {:induction false} ReplaySplit(env: Env, s: Tree, c: Client, a: seq<Change>, b: seq<Change>)
    ensures Replay(env, s, c, a + b) ==
            var first := Replay(env, s, c, a);
            if first.Failed? then first else Replay(env, s, first.c, b)
    decreases |a|
  {
    if a == [] {
      assert a + b == b;
    } else {
      assert (a + b)[0] == a[0] && (a + b)[1..] == a[1..] + b;
      var first := ApplyChange(env, s, c, a[0]);
      if first.Done? {
        ReplaySplit(env, s, first.c, a[1..], b);
      }
    }
  }

  lemma ReplayOne(env: Env, s: Tree, c: Client, ch: Change)
    ensures Replay(env, s, c, [ch]) == ApplyChange(env, s, c, ch)
  {
    assert [ch][1..] == [];
  }

  // ---- what every step keeps ----------------------------------------------------------

  /** What the engine relies on and every step keeps: the disk is a tree, a node has one row,
      a folder's row is blank, and a file's two recorded hashes name the same bytes. */
  ghost predicate Sound(c: Client) {
    && IsTree(c.disk)
    && UniqueIds(c.rows)
    && HashesAgree(c.rows)
  }

  ghost predicate HashesAgree(rows: Rows) {
    forall p {:trigger rows[p]} :: p in rows ==>
      && (rows[p].kind == IsFolder <==> rows[p].remote == NoHash)
      && (rows[p].kind == IsFolder ==> rows[p] == FolderEntry(rows[p].id))
      && (rows[p].kind == IsFile ==> rows[p].hash == Blake3(Content(rows[p].remote)))
  }

  /** A server tree: distinct non-root paths, every parent a live folder, folders carry no hash. */
  ghost predicate ValidTree(s: Tree) {
    && (forall x {:trigger s[x]} :: x in s ==> s[x].path != [] && (s[x].kind == IsFolder <==> s[x].hash == NoHash))
    && (forall x, y :: x in s && y in s && s[x].path == s[y].path ==> x == y)
    && (forall x {:trigger HasFolder(s, Parent(s[x].path))} :: x in s ==> HasFolder(s, Parent(s[x].path)))
  }

  ghost predicate HasFolder(s: Tree, p: Path) {
    p == [] || exists g :: g in s && s[g].path == p && s[g].kind == IsFolder
  }

  lemma PullDownKeepsTree(env: Env, c: Client, id: Id, n: Node)
    requires IsTree(c.disk) && n.path != []
    ensures IsTree(PullDown(env, c, id, n).c.disk)
  {
    if MkdirAll(c.disk, Parent(n.path)).Some? {
      MkdirAllKeepsTree(c.disk, Parent(n.path));
      var d, e := MkdirAll(c.disk, Parent(n.path)).value, PullDown(env, c, id, n).c.disk;
      forall p | p in e ensures p != [] && IsDir(e, Parent(p)) {
        assert p != n.path ==> IsDir(d, Parent(p));
      }
    }
  }

  lemma ConflictCopyRows(env: Env, c: Client, p: Path)
    ensures var aside := ConflictCopy(env, c, p);
            aside.c.rows == (if aside.Done? then c.rows - {p} else c.rows) && aside.c.pulls == c.pulls
  {
  }

  lemma ConflictCopySound(env: Env, c: Client, p: Path)
    requires Sound(c)
    ensures var aside := ConflictCopy(env, c, p);
            Sound(aside.c) && (aside.Done? ==> aside.c.rows == c.rows - {p})
  {
    ConflictCopyKeepsTree(env, c, p);
    ConflictCopyRows(env, c, p);
  }

  lemma ConflictCopyKeepsTree(env: Env, c: Client, p: Path)
    requires IsTree(c.disk)
    ensures IsTree(ConflictCopy(env, c, p).c.disk)
  {
    var dst := CopyPath(c.disk.Keys, p, env.tag);
    if MkdirAll(c.disk, Parent(dst)).Some? {
      MkdirAllKeepsTree(c.disk, Parent(dst));
      RenamesKeepTree(MkdirAll(c.disk, Parent(dst)).value, p, dst);
    }
  }

  lemma RenamesKeepTree(d: Disk, p: Path, q: Path)
    requires IsTree(d)
    ensures Rename(d, p, q).Moved? ==> IsTree(Rename(d, p, q).disk)
  {
    if Rename(d, p, q).Moved? {
      RenameKeepsTree(d, p, q);
    }
  }

  lemma MoveLocalKeepsTree(c: Client, p: Path, q: Path)
    requires IsTree(c.disk) && p in c.rows
    ensures IsTree(MoveLocal(c, p, q).c.disk)
  {
    if MkdirAll(c.disk, Parent(q)).Some? {
      MkdirAllKeepsTree(c.disk, Parent(q));
      var d := MkdirAll(c.disk, Parent(q)).value;
      if Rename(d, p, q).Moved? {
        RenameKeepsTree(d, p, q);
      }
    }
  }

  lemma DropLocalSound(env: Env, c: Client, p: Path, e: Entry)
    requires Sound(c)
    ensures Sound(DropLocal(env, c, p, e).c)
  {
    if e.kind == IsFolder {
      WithoutKeepsTree(c.disk, p);
    } else if LocalStatus(c.disk, p, e) == (true, true) {
      ConflictCopySound(env, c, p);
    } else if Remove(c.disk, p).Some? {
      RemoveKeepsTree(c.disk, p);
      assert DropLocal(env, c, p, e).c.rows == c.rows - {p};
    }
  }

  lemma MaterializeFolderSound(c: Client, id: Id, n: Node)
    requires Sound(c)
    requires forall p :: p in c.rows && c.rows[p].id == id ==> p == n.path
    ensures Sound(MaterializeFolder(c, id, n).c)
  {
    if MkdirAll(c.disk, n.path).Some? {
      MkdirAllKeepsTree(c.disk, n.path);
    }
  }

  lemma PullDownSound(env: Env, c: Client, id: Id, n: Node)
    requires Sound(c) && n.path != [] && n.hash != NoHash
    requires forall p :: p in c.rows && c.rows[p].id == id ==> p == n.path
    ensures Sound(PullDown(env, c, id, n).c)
  {
    PullDownKeepsTree(env, c, id, n);
  }

  lemma ApplyFileUpsertSound(env: Env, c: Client, id: Id, n: Node)
    requires Sound(c) && n.path != [] && n.hash != NoHash
    requires forall p :: p in c.rows && c.rows[p].id == id ==> p == n.path
    ensures Sound(ApplyFileUpsert(env, c, id, n).c)
  {
    var out := ApplyFileUpsert(env, c, id, n);
    PullDownSound(env, c, id, n);
    if out == PullDown(env, c, id, n) || out == Done(c) {
    } else {
      ConflictCopySound(env, c, n.path);
      var aside := ConflictCopy(env, c, n.path);
      if aside.Failed? {
        assert out == aside;
      } else {
        PullDownSound(env, aside.c, id, n);
        assert out == PullDown(env, aside.c, id, n);
      }
    }
  }

  /** Following a move leaves the node's only row at its new path. */
  lemma FollowMoveSound(c: Client, id: Id, q: Path)
    requires Sound(c)
    ensures Sound(FollowMove(c, id, q).c)
    ensures var moved := FollowMove(c, id, q);
            moved.Done? ==> forall p :: p in moved.c.rows && moved.c.rows[p].id == id ==> p == q
  {
    if Locate(c.rows, id).Some? && Locate(c.rows, id).value != q {
      MoveLocalKeepsTree(c, Locate(c.rows, id).value, q);
    }
  }

  lemma ApplyUpsertSound(env: Env, c: Client, id: Id, n: Node)
    requires Sound(c) && n.path != [] && (n.kind == IsFolder <==> n.hash == NoHash)
    ensures Sound(ApplyUpsert(env, c, id, n).c)
  {
    FollowMoveSound(c, id, n.path);
    var moved := FollowMove(c, id, n.path);
    if moved.Done? {
      if n.kind == IsFolder {
        MaterializeFolderSound(moved.c, id, n);
      } else {
        ApplyFileUpsertSound(env, moved.c, id, n);
      }
    }
  }

  /** Every journal entry, applied or failed half way, keeps the engine's invariant. */
  lemma ApplyChangeSound(env: Env, s: Tree, c: Client, ch: Change)
    requires Sound(c) && ValidTree(s)
    ensures Sound(ApplyChange(env, s, c, ch).c)
  {
    match ch
    case Delete(id) =>
      if Locate(c.rows, id).Some? {
        DropLocalSound(env, c, Locate(c.rows, id).value, c.rows[Locate(c.rows, id).value]);
      }
    case Upsert(id) =>
      if id in s {
        ApplyUpsertSound(env, c, id, s[id]);
      }
  }

  lemma {:induction false} ReplaySound(env: Env, s: Tree, c: Client, cs: seq<Change>)
    requires Sound(c) && ValidTree(s)
    ensures Sound(Replay(env, s, c, cs).c)
    decreases |cs|
  {
    if cs != [] {
      ApplyChangeSound(env, s, c, cs[0]);
      var first := ApplyChange(env, s, c, cs[0]);
      if first.Done? {
        ReplaySound(env, s, first.c, cs[1..]);
      }
    }
  }
}
