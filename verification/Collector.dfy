/**
  The collector's queries and loops (server/internal/cas/gc.go, and the two passes of
  server/internal/files/service.go that drive them), in place on the tables.
 */
module Collector {
  import opened Base
  import opened Gc

  /** A chunk whose recorded count is not the true one. */
  datatype Drift = Drift(h: Hash, recorded: int, actual: nat)

  class Database {
    var chunks: map<Hash, Chunk>
    var manifests: map<ManifestId, nat>
    var slots: map<Slot, Hash>
    var versions: map<VersionId, ManifestId>
    var now: nat

    ghost function View(): Db
      reads this
    {
      Db(chunks, manifests, slots, versions, now)
    }

    constructor ()
      ensures Inv(View()) && View() == Db(map[], map[], map[], map[], 0)
    {
      chunks, manifests, slots, versions, now := map[], map[], map[], map[], 0;
    }

    /** The trigger body. */
    method Bump(h: Hash, sign: int)
      modifies `chunks
      ensures chunks == Bumped(old(chunks), h, sign)
    {
      if h in chunks {
        chunks := chunks[h := chunks[h].(refcount := chunks[h].refcount + sign)];
      }
    }

    /** The rows of a manifest go in one at a time, each firing the trigger. */
    method InsertRows(m: ManifestId, hashes: seq<Hash>)
      requires forall i :: Slot(m, i) !in slots
      modifies `slots, `chunks
      ensures slots == old(slots) + NewSlots(m, hashes) && chunks == Counted(old(chunks), NewSlots(m, hashes), 1)
    {
      CountNoRows(chunks, m);
      assert slots + NewSlots(m, []) == slots;
      for i := 0 to |hashes|
        invariant slots == old(slots) + NewSlots(m, hashes[..i])
        invariant chunks == Counted(old(chunks), NewSlots(m, hashes[..i]), 1)
      {
        CountOneMore(old(chunks), m, hashes, i);
        SlotsOneMore(old(slots), m, hashes, i);
        slots := slots[Slot(m, i) := hashes[i]];
        Bump(hashes[i], 1);
      }
      assert hashes[..|hashes|] == hashes;
    }

    method CommitManifest(m: ManifestId, hashes: seq<Hash>) returns (ok: bool)
      requires Inv(View())
      modifies this
      ensures View() == Gc.CommitManifest(old(View()), m, hashes) && Inv(View())
      ensures ok <==> m !in old(manifests) && forall i :: 0 <= i < |hashes| ==> hashes[i] in old(chunks)
    {
      CommitKeepsInv(View(), m, hashes);
      if m in manifests || exists i | 0 <= i < |hashes| :: hashes[i] !in chunks { return false; }
      manifests := manifests[m := now];
      InsertRows(m, hashes);
      ok := true;
    }

    /** A deleted row fires the trigger. */
    method DeleteRow(k: Slot)
      requires k in slots
      modifies `slots, `chunks
      ensures slots == old(slots) - {k} && chunks == Bumped(old(chunks), old(slots)[k], -1)
    {
      var h := slots[k];
      slots := slots - {k};
      Bump(h, -1);
    }

    /** ON DELETE CASCADE: the rows of a manifest go one at a time. */
    method Cascade(m: ManifestId)
      modifies `slots, `chunks
      ensures Cascaded(old(slots), old(chunks), SlotsOf(old(slots), m), SlotsOf(old(slots), m).Keys, slots, chunks)
    {
      ghost var slots0, chunks0 := slots, chunks;
      var rows := SlotsOf(slots, m);
      var todo := rows.Keys;
      ghost var done: set<Slot> := {};
      CountNone(chunks, rows);
      while todo != {}
        invariant done + todo == rows.Keys && done !! todo
        invariant Cascaded(slots0, chunks0, rows, done, slots, chunks)
      {
        var k :| k in todo;
        CascadeStep(slots0, chunks0, rows, done, slots, chunks, k);
        DeleteRow(k);
        todo, done := todo - {k}, done + {k};
      }
      assert done == rows.Keys;
    }

    /** DELETE FROM manifests ... AND NOT EXISTS. */
    method DeleteManifestRow(m: ManifestId) returns (deleted: bool)
      requires Inv(View())
      modifies this
      ensures View() == DeleteManifest(old(View()), m) && Inv(View())
      ensures deleted <==> m in old(manifests) && !IsReferenced(old(View()), m)
    {
      DeleteManifestKeepsInv(View(), m);
      if m !in manifests || exists v | v in versions :: versions[v] == m { return false; }
      manifests := manifests - {m};
      Cascade(m);
      OnlyAll(SlotsOf(old(slots), m));
      deleted := true;
    }

    /** DELETE FROM chunks ... AND refcount = 0. The foreign key has no say: the count is true. */
    method DeleteChunkRow(h: Hash) returns (deleted: bool)
      requires Inv(View())
      modifies `chunks
      ensures View() == DeleteChunk(old(View()), h) && Inv(View())
      ensures deleted <==> h in old(chunks) && old(chunks)[h].refcount == 0
    {
      ExecuteKeepsInv(View(), DoDeleteChunk(h));
      deleted := h in chunks && chunks[h].refcount == 0;
      if deleted {
        chunks := chunks - {h};
      }
    }

    method UnreferencedManifests(grace: nat, limit: nat) returns (out: seq<ManifestId>)
      ensures |out| <= limit && forall m :: m in out ==> StaleManifest(View(), grace, m)
      ensures |out| == limit || forall m :: StaleManifest(View(), grace, m) ==> m in out
      ensures forall i, j :: 0 <= i < j < |out| ==> out[i] != out[j]
    {
      out := [];
      var todo := manifests.Keys;
      while todo != {} && |out| < limit
        invariant |out| <= limit && todo <= manifests.Keys
        invariant forall m :: m in out ==> m !in todo && StaleManifest(View(), grace, m)
        invariant forall i, j :: 0 <= i < j < |out| ==> out[i] != out[j]
        invariant forall m :: StaleManifest(View(), grace, m) && m !in todo ==> m in out
      {
        var m :| m in todo;
        todo := todo - {m};
        if manifests[m] + grace < now && !exists v | v in versions :: versions[v] == m { out := out + [m]; }
      }
    }

    method UnreferencedChunks(grace: nat, limit: nat) returns (out: seq<Hash>)
      ensures |out| <= limit && forall h :: h in out ==> StaleChunk(View(), grace, h)
      ensures |out| == limit || forall h :: StaleChunk(View(), grace, h) ==> h in out
      ensures forall i, j :: 0 <= i < j < |out| ==> out[i] != out[j]
    {
      out := [];
      var todo := chunks.Keys;
      while todo != {} && |out| < limit
        invariant |out| <= limit && todo <= chunks.Keys
        invariant forall h :: h in out ==> h !in todo && StaleChunk(View(), grace, h)
        invariant forall i, j :: 0 <= i < j < |out| ==> out[i] != out[j]
        invariant forall h :: StaleChunk(View(), grace, h) && h !in todo ==> h in out
      {
        var h :| h in todo;
        todo := todo - {h};
        if chunks[h].refcount == 0 && chunks[h].created + grace < now { out := out + [h]; }
      }
    }

    /** VerifyRefcounts reports up to `limit` disagreements; on a state that statements alone
        brought about it reports none. */
    method VerifyRefcounts(limit: nat) returns (out: seq<Drift>)
      ensures forall d :: d in out ==> d.h in chunks && d.recorded == chunks[d.h].refcount != d.actual == Refs(slots, d.h)
      ensures |out| == limit ||
              forall h :: h in chunks && chunks[h].refcount != Refs(slots, h) ==> exists d :: d in out && d.h == h
      ensures Inv(View()) ==> out == []
    {
      out := [];
      var todo := chunks.Keys;
      while todo != {} && |out| < limit
        invariant |out| <= limit && todo <= chunks.Keys
        invariant forall d :: d in out ==> d.h in chunks && d.recorded == chunks[d.h].refcount != d.actual == Refs(slots, d.h)
        invariant forall h :: h in chunks && h !in todo && chunks[h].refcount != Refs(slots, h) ==>
                    exists d :: d in out && d.h == h
      {
        var h :| h in todo;
        todo := todo - {h};
        var actual := Refs(slots, h);
        if chunks[h].refcount != actual {
          var d := Drift(h, chunks[h].refcount, actual);
          assert d in out + [d];
          out := out + [d];
        }
      }
      assert out != [] ==> out[0] in out;
    }

    // ---- the passes ----------------------------------------------------------------------------

    /** collectManifests: one list, then one conditional delete per entry. A pass deletes all that was
        listed, so as many as the limit allows or all there are. */
    method CollectManifests(grace: nat, limit: nat) returns (freed: nat)
      requires Inv(View()) && limit > 0
      modifies this
      ensures Inv(View()) && Collected(old(View()), View()) && Sheltered(old(View()), View(), grace)
      ensures freed == 0 ==> View() == old(View())
      ensures |manifests| == |old(manifests)| - freed
      ensures freed == limit || forall m :: !StaleManifest(View(), grace, m)
    {
      var candidates := UnreferencedManifests(grace, limit);
      freed := 0;
      ghost var start := View();
      for i := 0 to |candidates|
        invariant freed == i && (i == 0 ==> View() == start) && ManifestsGone(start, View(), grace, candidates[..i])
      {
        ListedManifestGoes(start, View(), grace, candidates, i);
        var deleted := DeleteManifestRow(candidates[i]);
        if deleted {
          freed := freed + 1;
        }
      }
      assert candidates[..|candidates|] == candidates;
      NoStaleManifestLeft(start, View(), grace, limit, candidates);
    }

    /** collectChunks, likewise. */
    method CollectChunks(grace: nat, limit: nat) returns (freed: nat)
      requires Inv(View()) && limit > 0
      modifies this
      ensures Inv(View()) && Collected(old(View()), View()) && Sheltered(old(View()), View(), grace)
      ensures freed == 0 ==> View() == old(View())
      ensures |chunks| == |old(chunks)| - freed
      ensures freed == limit || forall h :: !StaleChunk(View(), grace, h)
    {
      var candidates := UnreferencedChunks(grace, limit);
      freed := 0;
      ghost var start := View();
      for i := 0 to |candidates|
        invariant freed == i && (i == 0 ==> View() == start) && ChunksGone(start, View(), grace, candidates[..i])
      {
        ListedChunkGoes(start, View(), grace, candidates, i);
        var deleted := DeleteChunkRow(candidates[i]);
        if deleted {
          freed := freed + 1;
        }
      }
      assert candidates[..|candidates|] == candidates;
      NoStaleChunkLeft(start, View(), grace, limit, candidates);
    }

    /** With uploads stopped and the grace period over, passes with any positive limit come to an
        end, and leave exactly the manifests that versions name and the chunks those manifests
        list. No version changes. */
    method CollectUntilIdle(grace: nat, limit: nat)
      requires Inv(View()) && limit > 0 && Aged(View(), grace)
      modifies this
      ensures Inv(View()) && Collected(old(View()), View())
      ensures manifests.Keys == set v | v in versions :: versions[v]
      ensures chunks.Keys == set k | k in slots :: slots[k]
    {
      while true
        invariant Inv(View()) && Collected(old(View()), View()) && Aged(View(), grace)
        decreases |manifests| + |chunks|
      {
        ghost var before := View();
        var m := CollectManifests(grace, limit);
        CollectedFurther(old(View()), before, View());
        CollectedAges(before, View(), grace);
        ghost var between := View();
        var c := CollectChunks(grace, limit);
        CollectedFurther(old(View()), between, View());
        CollectedAges(between, View(), grace);
        CollectedSizes(before, between);
        CollectedSizes(between, View());
        if m == 0 && c == 0 {
          NothingStale(View(), grace);
          return;
        }
      }
    }
  }

  /** What collecting leaves alone: versions, and the manifests they name with their rows; nothing
      is added. */
  ghost predicate Collected(a: Db, b: Db) {
    && b.versions == a.versions && b.now == a.now
    && (forall m :: m in b.manifests ==> m in a.manifests && b.manifests[m] == a.manifests[m])
    && (forall h :: h in b.chunks ==> h in a.chunks && b.chunks[h].created == a.chunks[h].created)
    && (forall k :: k in b.slots ==> k in a.slots && b.slots[k] == a.slots[k])
    && (forall k :: k in a.slots && IsReferenced(a, k.manifest) ==> k in b.slots)
  }

  lemma CollectedFurther(a: Db, b: Db, c: Db)
    requires Collected(a, b) && Collected(b, c)
    ensures Collected(a, c)
  {
    assert forall m :: IsReferenced(a, m) <==> IsReferenced(b, m);
  }

  lemma DeleteManifestShrinks(db: Db, m: ManifestId)
    ensures Collected(db, DeleteManifest(db, m))
    ensures m in db.manifests && !IsReferenced(db, m) ==> |DeleteManifest(db, m).manifests| < |db.manifests|
    ensures |DeleteManifest(db, m).manifests| <= |db.manifests|
  {
    assert (db.manifests - {m}).Keys == db.manifests.Keys - {m};
    assert |(db.manifests - {m}).Keys| == |db.manifests - {m}|;
    assert |db.manifests.Keys| == |db.manifests|;
  }

  lemma DeleteChunkShrinks(db: Db, h: Hash)
    ensures Collected(db, DeleteChunk(db, h))
    ensures h !in DeleteChunk(db, h).chunks && h in db.chunks ==> |DeleteChunk(db, h).chunks| < |db.chunks|
    ensures |DeleteChunk(db, h).chunks| <= |db.chunks|
  {
    assert (db.chunks - {h}).Keys == db.chunks.Keys - {h};
    assert |(db.chunks - {h}).Keys| == |db.chunks - {h}|;
    assert |db.chunks.Keys| == |db.chunks|;
  }

  /** The grace period is over for everything there is. */
  ghost predicate Aged(db: Db, grace: nat) {
    && (forall m :: m in db.manifests ==> db.manifests[m] + grace < db.now)
    && (forall h :: h in db.chunks ==> db.chunks[h].created + grace < db.now)
  }

  lemma CollectedAges(a: Db, b: Db, grace: nat)
    requires Collected(a, b) && Aged(a, grace)
    ensures Aged(b, grace)
  {
  }

  lemma SmallerSet<T>(a: set<T>, b: set<T>)
    requires b <= a
    ensures |b| <= |a|
  {
    assert a == b + (a - b);
  }

  lemma CollectedSizes(a: Db, b: Db)
    requires Collected(a, b)
    ensures |b.manifests| <= |a.manifests| && |b.chunks| <= |a.chunks|
  {
    SmallerSet(a.manifests.Keys, b.manifests.Keys);
    SmallerSet(a.chunks.Keys, b.chunks.Keys);
    assert |a.manifests.Keys| == |a.manifests| && |b.manifests.Keys| == |b.manifests|;
    assert |a.chunks.Keys| == |a.chunks| && |b.chunks.Keys| == |b.chunks|;
  }

  lemma NothingStale(db: Db, grace: nat)
    requires Inv(db) && Aged(db, grace)
    requires (forall m :: !StaleManifest(db, grace, m)) && (forall h :: !StaleChunk(db, grace, h))
    ensures db.manifests.Keys == set v | v in db.versions :: db.versions[v]
    ensures db.chunks.Keys == set k | k in db.slots :: db.slots[k]
  {
    forall h | h in db.chunks ensures exists k :: k in db.slots && db.slots[k] == h {
      assert !StaleChunk(db, grace, h);
      var k :| k in Holding(db.slots, h);
    }
    forall m | m in db.manifests ensures IsReferenced(db, m) {
      assert !StaleManifest(db, grace, m);
    }
  }

  /** `b` is `a` without the keys in `gone`, which were all there. */
  ghost predicate Without<K(!new), V>(a: map<K, V>, b: map<K, V>, gone: seq<K>) {
    (forall k :: k in b <==> k in a && k !in gone) && |b| == |a| - |gone|
  }

  lemma WithoutOneMore<K(!new), V>(a: map<K, V>, b: map<K, V>, c: map<K, V>, gone: seq<K>, k: K)
    requires Without(a, b, gone) && k in b && c.Keys == b.Keys - {k}
    ensures Without(a, c, gone + [k])
  {
    assert |c| == |c.Keys| && |b| == |b.Keys|;
  }

  lemma NextIsNew<K>(ks: seq<K>, i: nat)
    requires i < |ks| && forall i, j :: 0 <= i < j < |ks| ==> ks[i] != ks[j]
    ensures ks[i] !in ks[..i] && ks[..i + 1] == ks[..i] + [ks[i]]
  {
  }

  /** In the middle of a pass over manifests: those in `gone` went, and nothing young did. */
  ghost predicate ManifestsGone(start: Db, db: Db, grace: nat, gone: seq<ManifestId>) {
    Inv(db) && Collected(start, db) && Sheltered(start, db, grace) && Without(start.manifests, db.manifests, gone)
  }

  ghost predicate ChunksGone(start: Db, db: Db, grace: nat, gone: seq<Hash>) {
    && Inv(db) && Collected(start, db) && Sheltered(start, db, grace) && Without(start.chunks, db.chunks, gone)
    && db == start.(chunks := db.chunks)
  }

  /** A listed manifest is still there and still unreferenced when its turn comes. */
  lemma ListedManifestGoes(start: Db, db: Db, grace: nat, candidates: seq<ManifestId>, i: nat)
    requires i < |candidates| && forall j, k :: 0 <= j < k < |candidates| ==> candidates[j] != candidates[k]
    requires (forall m :: m in candidates ==> StaleManifest(start, grace, m)) && ManifestsGone(start, db, grace, candidates[..i])
    ensures var m := candidates[i];
            && m in db.manifests && !IsReferenced(db, m)
            && ManifestsGone(start, DeleteManifest(db, m), grace, candidates[..i + 1])
  {
    NextIsNew(candidates, i);
    var m := candidates[i];
    assert m in candidates && StaleManifest(start, grace, m);
    assert IsReferenced(db, m) <==> IsReferenced(start, m);
    DeleteManifestShelters(db, m, grace);
    DeleteManifestShrinks(db, m);
    DeleteManifestKeepsInv(db, m);
    CollectedFurther(start, db, DeleteManifest(db, m));
    ShelteredFurther(start, db, DeleteManifest(db, m), grace);
    WithoutOneMore(start.manifests, db.manifests, DeleteManifest(db, m).manifests, candidates[..i], m);
  }

  lemma ListedChunkGoes(start: Db, db: Db, grace: nat, candidates: seq<Hash>, i: nat)
    requires i < |candidates| && forall j, k :: 0 <= j < k < |candidates| ==> candidates[j] != candidates[k]
    requires (forall h :: h in candidates ==> StaleChunk(start, grace, h)) && Inv(start)
    requires ChunksGone(start, db, grace, candidates[..i])
    ensures var h := candidates[i];
            h in db.chunks && db.chunks[h].refcount == 0 && ChunksGone(start, DeleteChunk(db, h), grace, candidates[..i + 1])
  {
    NextIsNew(candidates, i);
    var h := candidates[i];
    assert h in candidates && StaleChunk(start, grace, h);
    assert db.chunks[h].refcount == Refs(db.slots, h) == Refs(start.slots, h) == start.chunks[h].refcount;
    DeleteChunkShelters(db, h, grace);
    DeleteChunkShrinks(db, h);
    ExecuteKeepsInv(db, DoDeleteChunk(h));
    CollectedFurther(start, db, DeleteChunk(db, h));
    ShelteredFurther(start, db, DeleteChunk(db, h), grace);
    WithoutOneMore(start.chunks, db.chunks, DeleteChunk(db, h).chunks, candidates[..i], h);
  }

  lemma NoStaleManifestLeft(start: Db, db: Db, grace: nat, limit: nat, candidates: seq<ManifestId>)
    requires |candidates| == limit || forall m :: StaleManifest(start, grace, m) ==> m in candidates
    requires Collected(start, db) && Without(start.manifests, db.manifests, candidates)
    ensures |candidates| == limit || forall m :: !StaleManifest(db, grace, m)
  {
    forall m | StaleManifest(db, grace, m) ensures StaleManifest(start, grace, m) {
      assert IsReferenced(start, m) ==> IsReferenced(db, m);
    }
  }

  lemma NoStaleChunkLeft(start: Db, db: Db, grace: nat, limit: nat, candidates: seq<Hash>)
    requires |candidates| == limit || forall h :: StaleChunk(start, grace, h) ==> h in candidates
    requires db == start.(chunks := db.chunks) && Without(start.chunks, db.chunks, candidates) && Collected(start, db)
    requires Inv(start) && Inv(db)
    ensures |candidates| == limit || forall h :: !StaleChunk(db, grace, h)
  {
    forall h | StaleChunk(db, grace, h) ensures StaleChunk(start, grace, h) {
      assert start.chunks[h].refcount == Refs(start.slots, h) == db.chunks[h].refcount;
    }
  }

  /** Every manifest and every chunk younger than the grace period is still there, the rows of the
      manifests with them. */
  ghost predicate Sheltered(a: Db, b: Db, grace: nat) {
    && (forall m :: m in a.manifests && a.manifests[m] + grace >= a.now ==> m in b.manifests && b.manifests[m] == a.manifests[m])
    && (forall k :: k in a.slots && k.manifest in a.manifests && a.manifests[k.manifest] + grace >= a.now ==>
          k in b.slots && b.slots[k] == a.slots[k])
    && (forall h :: h in a.chunks && a.chunks[h].created + grace >= a.now ==>
          h in b.chunks && b.chunks[h].created == a.chunks[h].created)
  }

  lemma ShelteredFurther(a: Db, b: Db, c: Db, grace: nat)
    requires b.now == a.now && Sheltered(a, b, grace) && Sheltered(b, c, grace)
    ensures Sheltered(a, c, grace)
  {
  }

  lemma DeleteManifestShelters(db: Db, m: ManifestId, grace: nat)
    requires m in db.manifests ==> db.manifests[m] + grace < db.now
    ensures Sheltered(db, DeleteManifest(db, m), grace)
  {
  }

  lemma DeleteChunkShelters(db: Db, h: Hash, grace: nat)
    requires h in db.chunks ==> db.chunks[h].created + grace < db.now
    ensures Sheltered(db, DeleteChunk(db, h), grace)
  {
  }

  predicate StaleManifest(db: Db, grace: nat, m: ManifestId) {
    m in db.manifests && db.manifests[m] + grace < db.now && !IsReferenced(db, m)
  }

  predicate StaleChunk(db: Db, grace: nat, h: Hash) {
    h in db.chunks && db.chunks[h].refcount == 0 && db.chunks[h].created + grace < db.now
  }

  /** The trigger's UPDATE. */
  function Bumped(chunks: map<Hash, Chunk>, h: Hash, sign: int): map<Hash, Chunk> {
    if h in chunks then chunks[h := Chunk(chunks[h].refcount + sign, chunks[h].created)] else chunks
  }

  // ---- counting row by row ---------------------------------------------------------------------

  ghost function Only(rows: map<Slot, Hash>, keys: set<Slot>): map<Slot, Hash> {
    map k | k in rows && k in keys :: rows[k]
  }

  lemma CountNoRows(chunks: map<Hash, Chunk>, m: ManifestId)
    ensures Counted(chunks, NewSlots(m, []), 1) == chunks
  {
    forall h | h in chunks ensures Refs(NewSlots(m, []), h) == 0 {
      assert Holding(NewSlots(m, []), h) == {};
    }
  }

  lemma CountOneMore(chunks: map<Hash, Chunk>, m: ManifestId, hashes: seq<Hash>, i: nat)
    requires i < |hashes|
    ensures var before, after := Counted(chunks, NewSlots(m, hashes[..i]), 1), Counted(chunks, NewSlots(m, hashes[..i + 1]), 1);
            after == Bumped(before, hashes[i], 1)
  {
    var a, b := NewSlots(m, hashes[..i]), NewSlots(m, hashes[..i + 1]);
    forall h ensures Refs(b, h) == Refs(a, h) + if h == hashes[i] then 1 else 0 {
      OneRow(a, b, Slot(m, i), h);
    }
  }

  lemma OnlyAll(rows: map<Slot, Hash>)
    ensures Only(rows, rows.Keys) == rows
  {
  }

  lemma SlotsOneMore(slots: map<Slot, Hash>, m: ManifestId, hashes: seq<Hash>, i: nat)
    requires i < |hashes|
    ensures (slots + NewSlots(m, hashes[..i]))[Slot(m, i) := hashes[i]] == slots + NewSlots(m, hashes[..i + 1])
  {
  }

  /** The rows `done` are gone and counted off. */
  ghost predicate Cascaded(slots0: map<Slot, Hash>, chunks0: map<Hash, Chunk>, rows: map<Slot, Hash>, done: set<Slot>,
                           slots: map<Slot, Hash>, chunks: map<Hash, Chunk>) {
    slots == slots0 - done && chunks == Counted(chunks0, Only(rows, done), -1)
  }

  lemma CascadeStep(slots0: map<Slot, Hash>, chunks0: map<Hash, Chunk>, rows: map<Slot, Hash>, done: set<Slot>,
                    slots: map<Slot, Hash>, chunks: map<Hash, Chunk>, k: Slot)
    requires Cascaded(slots0, chunks0, rows, done, slots, chunks) && k in rows && k !in done
    requires k in slots0 && slots0[k] == rows[k]
    ensures k in slots && Cascaded(slots0, chunks0, rows, done + {k}, slots - {k}, Bumped(chunks, slots[k], -1))
  {
    CountOneLess(chunks0, rows, done, k);
  }

  lemma OneRow(a: map<Slot, Hash>, b: map<Slot, Hash>, k: Slot, h: Hash)
    requires k !in a && k in b && b == a[k := b[k]]
    ensures Refs(b, h) == Refs(a, h) + if h == b[k] then 1 else 0
  {
    assert Holding(b, h) == Holding(a, h) + if h == b[k] then {k} else {};
    assert k !in Holding(a, h);
  }

  lemma CountNone(chunks: map<Hash, Chunk>, rows: map<Slot, Hash>)
    ensures Counted(chunks, Only(rows, {}), -1) == chunks
  {
    forall h | h in chunks ensures Refs(Only(rows, {}), h) == 0 {
      assert Holding(Only(rows, {}), h) == {};
    }
  }

  lemma CountOneLess(chunks: map<Hash, Chunk>, rows: map<Slot, Hash>, done: set<Slot>, k: Slot)
    requires k in rows && k !in done
    ensures var before, after := Counted(chunks, Only(rows, done), -1), Counted(chunks, Only(rows, done + {k}), -1);
            after == Bumped(before, rows[k], -1)
  {
    var a, b := Only(rows, done), Only(rows, done + {k});
    assert b == a[k := rows[k]];
    forall h ensures Refs(b, h) == Refs(a, h) + if h == rows[k] then 1 else 0 {
      OneRow(a, b, k, h);
    }
  }
}
