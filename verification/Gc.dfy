/**
  Garbage collection of manifests and chunks (server/internal/cas/gc.go) over the tables of
  server/internal/db/migrations/00007_cas.sql. Every SQL statement, and the transaction that
  writes a manifest with its rows, is one atomic step; the lists the collector works through are
  stale, so it may try to delete anything at any time.
 */
module Gc {
  import opened Base

  type Hash = nat
  type ManifestId = nat
  type VersionId = nat

  /** A row of `chunks`. */
  datatype Chunk = Chunk(refcount: int, created: nat)

  /** A key of `manifest_chunks`. */
  datatype Slot = Slot(manifest: ManifestId, seqno: nat)

  /** The tables: chunks, manifests (with the time of creation), manifest_chunks and the
      manifest-backed rows of file_versions. */
  datatype Db = Db(chunks: map<Hash, Chunk>, manifests: map<ManifestId, nat>, slots: map<Slot, Hash>,
                   versions: map<VersionId, ManifestId>, now: nat)

  /** Which slots hold a chunk. */
  function Holding(slots: map<Slot, Hash>, h: Hash): set<Slot> {
    set k | k in slots && slots[k] == h
  }

  function Refs(slots: map<Slot, Hash>, h: Hash): nat {
    |Holding(slots, h)|
  }

  function SlotsOf(slots: map<Slot, Hash>, m: ManifestId): map<Slot, Hash> {
    map k | k in slots && k.manifest == m :: slots[k]
  }

  predicate IsReferenced(db: Db, m: ManifestId) {
    exists v | v in db.versions :: db.versions[v] == m
  }

  // ---- the statements, as they are ----------------------------------------------------------

  /** INSERT ... ON CONFLICT DO NOTHING. */
  function InsertChunk(db: Db, h: Hash): Db {
    if h in db.chunks then db else db.(chunks := db.chunks[h := Chunk(0, db.now)])
  }

  function NewSlots(m: ManifestId, hashes: seq<Hash>): map<Slot, Hash> {
    map i | 0 <= i < |hashes| :: Slot(m, i) := hashes[i]
  }

  /** The trigger, once per inserted or deleted row: every count moves by the rows that name it. */
  function Counted(chunks: map<Hash, Chunk>, rows: map<Slot, Hash>, sign: int): map<Hash, Chunk> {
    map h | h in chunks :: Chunk(chunks[h].refcount + sign * Refs(rows, h), chunks[h].created)
  }

  /** The manifest and its rows, or nothing when a foreign key is violated. */
  function CommitManifest(db: Db, m: ManifestId, hashes: seq<Hash>): Db {
    if m in db.manifests || exists i | 0 <= i < |hashes| :: hashes[i] !in db.chunks then db
    else
      var rows := NewSlots(m, hashes);
      db.(manifests := db.manifests[m := db.now], slots := db.slots + rows, chunks := Counted(db.chunks, rows, 1))
  }

  /** A version may name only a manifest that is there. */
  function InsertVersion(db: Db, v: VersionId, m: ManifestId): Db {
    if v in db.versions || m !in db.manifests then db else db.(versions := db.versions[v := m])
  }

  function DeleteVersion(db: Db, v: VersionId): Db {
    db.(versions := db.versions - {v})
  }

  /** Only if still unreferenced; the rows of manifest_chunks cascade. */
  function DeleteManifest(db: Db, m: ManifestId): Db {
    if m !in db.manifests || IsReferenced(db, m) then db
    else
      var rows := SlotsOf(db.slots, m);
      db.(manifests := db.manifests - {m}, slots := db.slots - rows.Keys, chunks := Counted(db.chunks, rows, -1))
  }

  /** Only if the recorded count is still zero; RESTRICT refuses while a row names the chunk. */
  function DeleteChunk(db: Db, h: Hash): Db {
    if h !in db.chunks || db.chunks[h].refcount != 0 || Refs(db.slots, h) > 0 then db
    else db.(chunks := db.chunks - {h})
  }

  datatype Statement =
    | DoInsertChunk(h: Hash)
    | DoCommitManifest(m: ManifestId, hashes: seq<Hash>)
    | DoInsertVersion(v: VersionId, m: ManifestId)
    | DoDeleteVersion(v: VersionId)
    | DoDeleteManifest(m: ManifestId)
    | DoDeleteChunk(h: Hash)
    | Tick

  function Execute(db: Db, s: Statement): Db {
    match s
    case DoInsertChunk(h) => InsertChunk(db, h)
    case DoCommitManifest(m, hashes) => CommitManifest(db, m, hashes)
    case DoInsertVersion(v, m) => InsertVersion(db, v, m)
    case DoDeleteVersion(v) => DeleteVersion(db, v)
    case DoDeleteManifest(m) => DeleteManifest(db, m)
    case DoDeleteChunk(h) => DeleteChunk(db, h)
    case Tick => db.(now := db.now + 1)
  }

  function Run(db: Db, ss: seq<Statement>): Db
    decreases |ss|
  {
    if ss == [] then db else Run(Execute(db, ss[0]), ss[1..])
  }

  // ---- what the statements achieve -----------------------------------------------------------

  /** An accepted manifest lists exactly its hashes, in their order; nothing else changes but the counts. */
  lemma CommitTakesEffect(db: Db, m: ManifestId, hashes: seq<Hash>)
    requires Inv(db) && m !in db.manifests && forall i :: 0 <= i < |hashes| ==> hashes[i] in db.chunks
    ensures var e := CommitManifest(db, m, hashes);
            && e.manifests == db.manifests[m := db.now] && e.versions == db.versions && e.chunks.Keys == db.chunks.Keys
            && (forall i :: 0 <= i < |hashes| ==> Slot(m, i) in e.slots && e.slots[Slot(m, i)] == hashes[i])
            && (forall k :: k in e.slots && k.manifest == m ==> k.seqno < |hashes|)
            && (forall k: Slot :: k.manifest != m ==> (k in e.slots <==> k in db.slots) && (k in db.slots ==> e.slots[k] == db.slots[k]))
  {
  }

  /** A manifest that no version names goes with its rows, and no other row does. */
  lemma DeleteTakesEffect(db: Db, m: ManifestId)
    requires m in db.manifests && !IsReferenced(db, m)
    ensures var e := DeleteManifest(db, m);
            && e.manifests == db.manifests - {m} && e.versions == db.versions && e.chunks.Keys == db.chunks.Keys
            && (forall k: Slot :: k in e.slots <==> k in db.slots && k.manifest != m)
            && (forall k :: k in e.slots ==> e.slots[k] == db.slots[k])
  {
  }

  /** A chunk that no manifest lists can be deleted, for its recorded count is true. */
  lemma ChunkGoes(db: Db, h: Hash)
    requires Inv(db)
    ensures DeleteChunk(db, h) == if exists k :: k in db.slots && db.slots[k] == h then db else db.(chunks := db.chunks - {h})
  {
    if exists k :: k in db.slots && db.slots[k] == h {
      var k :| k in db.slots && db.slots[k] == h;
      assert k in Holding(db.slots, h);
    } else {
      assert Holding(db.slots, h) == {};
      assert h !in db.chunks ==> db.chunks - {h} == db.chunks;
    }
  }

  // ---- safety ----------------------------------------------------------------------------------

  /** Recorded counts are the true counts, and nothing dangles. */
  ghost predicate Inv(db: Db) {
    && (forall h :: h in db.chunks ==> db.chunks[h].refcount == Refs(db.slots, h))
    && (forall k :: k in db.slots ==> k.manifest in db.manifests && db.slots[k] in db.chunks)
    && (forall v :: v in db.versions ==> db.versions[v] in db.manifests)
  }

  lemma RefsAdd(a: map<Slot, Hash>, b: map<Slot, Hash>, h: Hash)
    requires a.Keys !! b.Keys
    ensures Refs(a + b, h) == Refs(a, h) + Refs(b, h)
  {
    assert Holding(a + b, h) == Holding(a, h) + Holding(b, h);
    assert Holding(a, h) !! Holding(b, h);
  }

  lemma RefsSub(a: map<Slot, Hash>, b: map<Slot, Hash>, h: Hash)
    requires forall k :: k in b ==> k in a && a[k] == b[k]
    ensures Refs(a - b.Keys, h) == Refs(a, h) - Refs(b, h)
  {
    assert (a - b.Keys) + b == a;
    RefsAdd(a - b.Keys, b, h);
  }

  lemma NoRefs(slots: map<Slot, Hash>, h: Hash)
    requires Refs(slots, h) == 0
    ensures forall k :: k in slots ==> slots[k] != h
  {
    assert Holding(slots, h) == {};
    assert forall k :: k in slots && slots[k] == h ==> k in Holding(slots, h);
  }

  lemma CommitKeepsInv(db: Db, m: ManifestId, hashes: seq<Hash>)
    requires Inv(db)
    ensures Inv(CommitManifest(db, m, hashes))
  {
    var after := CommitManifest(db, m, hashes);
    if after != db {
      var rows := NewSlots(m, hashes);
      assert rows.Keys !! db.slots.Keys;
      forall h | h in after.chunks ensures after.chunks[h].refcount == Refs(after.slots, h) {
        RefsAdd(db.slots, rows, h);
      }
    }
  }

  lemma DeleteManifestKeepsInv(db: Db, m: ManifestId)
    requires Inv(db)
    ensures Inv(DeleteManifest(db, m))
  {
    var after := DeleteManifest(db, m);
    if after != db {
      var rows := SlotsOf(db.slots, m);
      forall h | h in after.chunks ensures after.chunks[h].refcount == Refs(after.slots, h) {
        RefsSub(db.slots, rows, h);
      }
    }
  }

  lemma InsertChunkKeepsInv(db: Db, h: Hash)
    requires Inv(db)
    ensures Inv(InsertChunk(db, h))
  {
    if h !in db.chunks {
      assert Holding(db.slots, h) == {};
    }
  }

  lemma ExecuteKeepsInv(db: Db, s: Statement)
    requires Inv(db)
    ensures Inv(Execute(db, s))
  {
    match s
    case DoInsertChunk(h) => InsertChunkKeepsInv(db, h);
    case DoCommitManifest(m, hashes) => CommitKeepsInv(db, m, hashes);
    case DoDeleteManifest(m) => DeleteManifestKeepsInv(db, m);
    case DoDeleteChunk(h) => if Refs(db.slots, h) == 0 { NoRefs(db.slots, h); }
    case _ =>
  }

  /** In every interleaving of uploads, manifest reuse, version changes and collector deletes, each
      driven by whatever stale list: recorded counts are true, no version names a missing manifest
      and no manifest a missing chunk. */
  lemma {:induction false} GcSafety(db: Db, ss: seq<Statement>)
    requires Inv(db)
    ensures Inv(Run(db, ss))
    decreases |ss|
  {
    if ss != [] {
      ExecuteKeepsInv(db, ss[0]);
      GcSafety(Execute(db, ss[0]), ss[1..]);
    }
  }

  /** So the RESTRICT on chunk rows never fires: a zero count always means what it says. */
  lemma RestrictNeverFires(db: Db, h: Hash)
    requires Inv(db) && h in db.chunks && db.chunks[h].refcount == 0
    ensures Refs(db.slots, h) == 0 && h !in DeleteChunk(db, h).chunks
  {
  }

  lemma VersionStays(db: Db, s: Statement, v: VersionId)
    requires Inv(db) && v in db.versions && s != DoDeleteVersion(v)
    ensures var after := Execute(db, s);
            && v in after.versions && after.versions[v] == db.versions[v]
            && SlotsOf(after.slots, after.versions[v]) == SlotsOf(db.slots, db.versions[v])
  {
    var m, after := db.versions[v], Execute(db, s);
    match s
    case DoCommitManifest(n, hashes) =>
      assert forall k :: k in NewSlots(n, hashes) ==> k.manifest == n;
      assert SlotsOf(after.slots, m) == SlotsOf(db.slots, m);
    case DoDeleteManifest(n) =>
      assert IsReferenced(db, m);
      assert SlotsOf(after.slots, m) == SlotsOf(db.slots, m);
    case _ =>
  }

  /** A file's content is never severed: as long as a version is not deleted it names the same
      manifest, which lists the same chunks, whose rows are all there. */
  lemma {:induction false} VersionKeepsItsChunks(db: Db, ss: seq<Statement>, v: VersionId)
    requires Inv(db) && v in db.versions && DoDeleteVersion(v) !in ss
    ensures var after := Run(db, ss);
            && v in after.versions && after.versions[v] == db.versions[v]
            && SlotsOf(after.slots, after.versions[v]) == SlotsOf(db.slots, db.versions[v])
            && forall k :: k in after.slots && k.manifest == after.versions[v] ==> after.slots[k] in after.chunks
    decreases |ss|
  {
    GcSafety(db, ss);
    if ss != [] {
      assert ss[0] in ss;
      VersionStays(db, ss[0], v);
      ExecuteKeepsInv(db, ss[0]);
      VersionKeepsItsChunks(Execute(db, ss[0]), ss[1..], v);
    }
  }
}
