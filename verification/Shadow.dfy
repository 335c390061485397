/**
  When can an upsert be shadowed? Only if a node died whose old path and content a live node
  took over within the replayed stretch; and then a replay really can lose the new node.
 */
module Shadow {
  import opened Base
  import opened LocalDisk
  import opened ConflictNames
  import opened Pull
  import opened Journal

  /** No live file sits where a file that has since died used to be, with the same content. */
  ghost predicate NoTwins(b: Tree, s: Tree) {
    forall m, x {:trigger b[m], s[x]} :: m in b && m !in s && x in s && b[m].path == s[x].path ==> b[m].hash != s[x].hash
  }

  /** Within one transaction no path passes from one node to another. */
  ghost predicate NoHandover(b: Tree, hs: seq<Commit>)
    decreases |hs|
  {
    hs != [] ==>
      && (forall m, x {:trigger b[m], hs[0].tree[x]} :: m in b && x in hs[0].tree && m != x ==> b[m].path != hs[0].tree[x].path)
      && NoHandover(hs[0].tree, hs[1..])
  }

  /** A row that is not yet where its node ended up is the row the replay started with. */
  ghost predicate Explained(e: Entry, p: Path, origin: Tree, b: Tree, s: Tree) {
    || (e.id in s && s[e.id].path == p)
    || (e.id in s && e.id in b && b[e.id].path == p)
    || (e.id !in s && e.id in origin && origin[e.id].path == p && origin[e.id].hash == e.remote)
  }

  /** While the entries `left` of a transaction from `b` to `t` remain. */
  ghost predicate Rows(rows: Rows, origin: Tree, b: Tree, t: Tree, left: seq<Change>, s: Tree) {
    forall p :: p in rows ==>
      && Explained(rows[p], p, origin, b, s)
      && (rows[p].id in s && s[rows[p].id].path != p && rows[p].id !in Ids(left) ==>
            rows[p].id in t && rows[p].id in b && t[rows[p].id] == b[rows[p].id])
  }

  lemma RowsStep(env: Env, c: Client, origin: Tree, b: Tree, t: Tree, left: seq<Change>, s: Tree)
    requires env.excludes == [] && ValidTree(s) && Sound(c) && left != []
    requires Rows(c.rows, origin, b, t, left, s)
    requires ApplyChange(env, s, c, left[0]).Done?
    ensures Rows(ApplyChange(env, s, c, left[0]).c.rows, origin, b, t, left[1..], s)
  {
    assert left == [left[0]] + left[1..];
    IdsConcat([left[0]], left[1..]);
    match left[0] {
      case Upsert(y) => if y in s { UpsertRows(env, s, c, y); }
      case Delete(y) => DeleteRows(env, s, c, y);
    }
  }

  /** At the last upsert of a node its path belongs to nobody else, so nothing shadows it. */
  lemma NotShadowed(c: Client, origin: Tree, b: Tree, h: Commit, left: seq<Change>, s: Tree, x: Id)
    requires ValidTree(s) && NoTwins(origin, s) && Sound(c)
    requires Rows(c.rows, origin, b, h.tree, left, s)
    requires x in s && x in h.tree && h.tree[x] == s[x]
    requires forall m :: m in b && m != x ==> b[m].path != h.tree[x].path
    ensures !Shadowed(c, s, x)
  {
    if s[x].path in c.rows {
      assert Explained(c.rows[s[x].path], s[x].path, origin, b, s);
    }
  }

  lemma {:induction false} CleanCommit(env: Env, c: Client, origin: Tree, b: Tree, h: Commit, left: seq<Change>,
                                       hs: seq<Commit>, s: Tree)
    requires env.excludes == [] && ValidTree(s) && NoTwins(origin, s) && Sound(c)
    requires ValidCommit(b, h) && ValidHistory(h.tree, hs) && s == Latest(h.tree, hs) && NoHandover(b, [h] + hs)
    requires forall ch :: ch in left ==> ch in h.changes
    requires Rows(c.rows, origin, b, h.tree, left, s)
    requires Replay(env, s, c, left).Done? ==>
               var mid := Replay(env, s, c, left).c;
               Sound(mid) && Rows(mid.rows, origin, b, h.tree, [], s) ==> Clean(env, s, mid, Entries(hs))
    ensures Clean(env, s, c, left + Entries(hs))
    decreases |left|
  {
    if left == [] {
      assert left + Entries(hs) == Entries(hs);
    } else {
      var cs := left + Entries(hs);
      var x := left[0].id;
      assert cs[0] == left[0] && cs[1..] == left[1..] + Entries(hs);
      IdsConcat(left[1..], Entries(hs));
      if left[0].Upsert? && x !in Ids(cs[1..]) && x in s {
        UnmentionedIsSteady(x, h.tree, hs);
        assert ([h] + hs)[0] == h;
        NotShadowed(c, origin, b, h, left, s, x);
      }
      if ApplyChange(env, s, c, left[0]).Done? {
        ApplyChangeSound(env, s, c, left[0]);
        RowsStep(env, c, origin, b, h.tree, left, s);
        CleanCommit(env, ApplyChange(env, s, c, left[0]).c, origin, b, h, left[1..], hs, s);
      }
    }
  }

  lemma {:induction false} CleanHistory(env: Env, c: Client, origin: Tree, b: Tree, hs: seq<Commit>)
    requires env.excludes == [] && ValidHistory(b, hs) && NoHandover(b, hs) && Sound(c)
    requires NoTwins(origin, Latest(b, hs))
    requires forall p :: p in c.rows ==> Explained(c.rows[p], p, origin, b, Latest(b, hs))
    ensures Clean(env, Latest(b, hs), c, Entries(hs))
    decreases |hs|
  {
    if hs != [] {
      var s, h := Latest(b, hs), hs[0];
      LatestIsValid(b, hs);
      IntoCommit(c, origin, b, h, s);
      assert [h] + hs[1..] == hs;
      if Replay(env, s, c, h.changes).Done? {
        var mid := Replay(env, s, c, h.changes).c;
        if Sound(mid) && Rows(mid.rows, origin, b, h.tree, [], s) {
          forall p | p in mid.rows ensures Explained(mid.rows[p], p, origin, h.tree, s) {
          }
          CleanHistory(env, mid, origin, h.tree, hs[1..]);
        }
      }
      CleanCommit(env, c, origin, b, h, h.changes, hs[1..], s);
    }
  }

  lemma IntoCommit(c: Client, origin: Tree, b: Tree, h: Commit, s: Tree)
    requires ValidCommit(b, h)
    requires forall p :: p in c.rows ==> Explained(c.rows[p], p, origin, b, s)
    ensures Rows(c.rows, origin, b, h.tree, h.changes, s)
  {
  }

  /** Without twins no upsert is shadowed; the condition looks only at the tree of the cursor
      and the tree of now. */
  lemma NoTwinsClean(env: Env, c: Client, b: Tree, hs: seq<Commit>)
    requires env.excludes == [] && ValidHistory(b, hs) && NoHandover(b, hs)
    requires Sound(c) && Mirrors(c.rows, b) && NoTwins(b, Latest(b, hs))
    ensures Clean(env, Latest(b, hs), c, Entries(hs))
  {
    forall p | p in c.rows ensures Explained(c.rows[p], p, b, b, Latest(b, hs)) {
      assert Tracked(c.rows, b, c.rows[p].id);
    }
    CleanHistory(env, c, b, b, hs);
  }

  /** So a replay that returns without an error always mirrors the server. */
  lemma NoTwinsMirrors(env: Env, c: Client, b: Tree, hs: seq<Commit>)
    requires env.excludes == [] && ValidHistory(b, hs) && NoHandover(b, hs)
    requires Sound(c) && Mirrors(c.rows, b) && NoTwins(b, Latest(b, hs))
    requires Replay(env, Latest(b, hs), c, Entries(hs)).Done?
    ensures Mirrors(Replay(env, Latest(b, hs), c, Entries(hs)).c.rows, Latest(b, hs))
  {
    NoTwinsClean(env, c, b, hs);
    ReplayMirrors(env, c, b, hs);
  }

  // ---- a replay that loses a node --------------------------------------------------------

  const A: Path := ["a"]
  const B: Path := ["b"]
  const BODY: Digest := Sha256([1])

  function OneFile(p: Path): Node {
    Node(p, IsFile, BODY)
  }

  const T0: Tree := map[1 := OneFile(A)]
  const T1: Tree := map[1 := OneFile(B)]
  const T2: Tree := map[1 := OneFile(B), 2 := OneFile(A)]
  const T3: Tree := map[2 := OneFile(A)]

  /** Node 1 moves from a to b; node 2 is created at a with the same bytes; node 1 is trashed. */
  function LosingHistory(): seq<Commit> {
    [Commit([Upsert(1)], T1), Commit([Upsert(2)], T2), Commit([Delete(1)], T3)]
  }

  function LosingClient(env: Env): Client {
    Client(map[A := File([1], env.stamp(A, BODY))], map[A := FileEntry(env, 1, OneFile(A))], 0)
  }

  lemma TreesAreValid()
    ensures ValidTree(T0) && ValidTree(T1) && ValidTree(T2) && ValidTree(T3)
  {
    assert Parent(A) == [] && Parent(B) == [];
    assert A[0] != B[0];
  }

  lemma Move1IsValid()
    ensures ValidCommit(T0, Commit([Upsert(1)], T1))
  {
    TreesAreValid();
    assert [Upsert(1)][0].id in Ids([Upsert(1)]);
  }

  lemma Create2IsValid()
    ensures ValidCommit(T1, Commit([Upsert(2)], T2))
  {
    TreesAreValid();
    assert [Upsert(2)][0].id in Ids([Upsert(2)]);
  }

  lemma Trash1IsValid()
    ensures ValidCommit(T2, Commit([Delete(1)], T3))
  {
    TreesAreValid();
    assert [Delete(1)][0].id in Ids([Delete(1)]);
  }

  lemma Prepend(b: Tree, h: Commit, hs: seq<Commit>)
    requires ValidTree(b) && ValidCommit(b, h) && ValidHistory(h.tree, hs)
    ensures ValidHistory(b, [h] + hs)
    ensures Latest(b, [h] + hs) == Latest(h.tree, hs)
    ensures Entries([h] + hs) == h.changes + Entries(hs)
  {
    assert ([h] + hs)[0] == h && ([h] + hs)[1..] == hs;
  }

  lemma LosingHistoryIsValid()
    ensures ValidHistory(T0, LosingHistory())
    ensures Latest(T0, LosingHistory()) == T3
    ensures Entries(LosingHistory()) == [Upsert(1), Upsert(2), Delete(1)]
  {
    TreesAreValid();
    Move1IsValid();
    Create2IsValid();
    Trash1IsValid();
    ThreeCommits(T0, Commit([Upsert(1)], T1), Commit([Upsert(2)], T2), Commit([Delete(1)], T3));
  }

  lemma PrependAs(b: Tree, h: Commit, hs: seq<Commit>, all: seq<Commit>)
    requires ValidTree(b) && ValidCommit(b, h) && ValidHistory(h.tree, hs) && all == [h] + hs
    ensures ValidHistory(b, all) && Latest(b, all) == Latest(h.tree, hs) && Entries(all) == h.changes + Entries(hs)
  {
    Prepend(b, h, hs);
  }

  lemma LastCommit(b: Tree, h: Commit)
    requires ValidTree(b) && ValidCommit(b, h)
    ensures ValidHistory(b, [h]) && Latest(b, [h]) == h.tree && Entries([h]) == h.changes
  {
    PrependAs(b, h, [], [h]);
  }

  lemma ThreeCommits(b: Tree, h0: Commit, h1: Commit, h2: Commit)
    requires ValidTree(b) && ValidCommit(b, h0) && ValidCommit(h0.tree, h1) && ValidCommit(h1.tree, h2)
    ensures ValidHistory(b, [h0, h1, h2])
    ensures Latest(b, [h0, h1, h2]) == h2.tree
    ensures Entries([h0, h1, h2]) == h0.changes + (h1.changes + h2.changes)
  {
    LastCommit(h1.tree, h2);
    PrependAs(h0.tree, h1, [h2], [h1, h2]);
    PrependAs(b, h0, [h1, h2], [h0, h1, h2]);
  }

  lemma LosingSteps(env: Env)
    requires env.excludes == []
    ensures var c := LosingClient(env);
            && ApplyChange(env, T3, c, Upsert(1)) == Done(c)
            && ApplyChange(env, T3, c, Upsert(2)) == Done(c)
            && ApplyChange(env, T3, c, Delete(1)) == Done(Client(map[], map[], 0))
  {
    var c := LosingClient(env);
    assert c.rows[A].id == 1 && Locate(c.rows, 1) == Some(A) && Locate(c.rows, 2).None?;
    assert c.disk - {A} == map[] && c.rows - {A} == map[];
  }

  /** The replay goes through without an error and the live node 2 is not tracked: neither a
      row nor a file is left, although the cursor moves past its only entry. */
  lemma ShadowLosesANode(env: Env)
    requires env.excludes == []
    ensures var c, hs := LosingClient(env), LosingHistory();
            && ValidHistory(T0, hs) && Sound(c) && Mirrors(c.rows, T0)
            && Replay(env, Latest(T0, hs), c, Entries(hs)) == Done(Client(map[], map[], 0))
            && !Mirrors(map[], Latest(T0, hs))
  {
    LosingHistoryIsValid();
    LosingReplay(env);
    LosingStart(env);
    assert 2 in T3 && !Tracked(map[], T3, 2);
  }

  lemma LosingStart(env: Env)
    ensures Sound(LosingClient(env)) && Mirrors(LosingClient(env).rows, T0)
  {
    assert Parent(A) == [];
  }

  lemma LosingReplay(env: Env)
    requires env.excludes == []
    ensures Replay(env, T3, LosingClient(env), [Upsert(1), Upsert(2), Delete(1)]) == Done(Client(map[], map[], 0))
  {
    LosingSteps(env);
    var c := LosingClient(env);
    ReplayOne(env, T3, c, Delete(1));
    ReplayOne(env, T3, c, Upsert(2));
    ReplayOne(env, T3, c, Upsert(1));
    ReplaySplit(env, T3, c, [Upsert(2)], [Delete(1)]);
    ReplaySplit(env, T3, c, [Upsert(1)], [Upsert(2)] + [Delete(1)]);
    assert [Upsert(1)] + ([Upsert(2)] + [Delete(1)]) == [Upsert(1), Upsert(2), Delete(1)];
  }
}
