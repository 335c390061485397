/**
  Journal replay mirrors the server. The journal is a sequence of committed server
  transactions; a client that mirrored the tree before them replays their entries against the
  tree after them, and ends mirroring it unless an upsert was shadowed (see Shadowed).
 */
module Journal {
  import opened Base
  import opened LocalDisk
  import opened Pull

  /** One server transaction: the entries it journalled and the live tree it left. */
  datatype Commit = Commit(changes: seq<Change>, tree: Tree)

  function Ids(cs: seq<Change>): set<Id> {
    set i | 0 <= i < |cs| :: cs[i].id
  }

  /** What a transaction does to the tree `b`:
      every node it changes has an entry, live ones an upsert, dead ones a delete; a trash
      changes nothing else; a folder that moves takes its subtree along; kinds do not change. */
  ghost predicate ValidCommit(b: Tree, h: Commit) {
    var t := h.tree;
    && ValidTree(t)
    && (forall ch :: ch in h.changes ==> (ch.Upsert? <==> ch.id in t))
    && (forall x {:trigger x in Ids(h.changes)} ::
          (x in b) != (x in t) || (x in b && x in t && b[x] != t[x]) ==> x in Ids(h.changes))
    && ((exists x :: x in b && x !in t) ==> forall y :: y in t ==> y in b && b[y] == t[y])
    && CarriesSubtrees(b, t)
    && (forall x :: x in b && x in t ==> b[x].kind == t[x].kind)
  }

  /** Above a node that stayed put, every folder stayed put. */
  ghost predicate CarriesSubtrees(b: Tree, t: Tree) {
    forall x, g {:trigger b[x], t[g]} :: x in b && x in t && b[x].path == t[x].path && g in t && t[g].path < t[x].path ==>
      g in b && b[g].path == t[g].path
  }

  ghost predicate ValidHistory(b: Tree, hs: seq<Commit>)
    decreases |hs|
  {
    && ValidTree(b)
    && (hs != [] ==> ValidCommit(b, hs[0]) && ValidHistory(hs[0].tree, hs[1..]))
  }

  /** The tree the server has now. */
  function Latest(b: Tree, hs: seq<Commit>): Tree
    decreases |hs|
  {
    if hs == [] then b else Latest(hs[0].tree, hs[1..])
  }

  /** The journal entries past the cursor. */
  function Entries(hs: seq<Commit>): seq<Change>
    decreases |hs|
  {
    if hs == [] then [] else hs[0].changes + Entries(hs[1..])
  }

  /** The row of `x` says where and what `x` is. */
  ghost predicate Tracked(rows: Rows, s: Tree, x: Id)
    requires x in s
  {
    && s[x].path in rows
    && rows[s[x].path].id == x
    && rows[s[x].path].kind == s[x].kind
    && rows[s[x].path].remote == s[x].hash
  }

  /** The state database agrees with the tree on paths, ids, kinds and versions. */
  ghost predicate Mirrors(rows: Rows, s: Tree) {
    && (forall x :: x in s ==> Tracked(rows, s, x))
    && (forall p :: p in rows ==> rows[p].id in s && s[rows[p].id].path == p)
  }

  /** The branch that loses a node: `x` is not tracked, the row at its path belongs to another
      node with the same content hash, and the file is there, so nothing is recorded for `x`. */
  ghost predicate Shadowed(c: Client, s: Tree, x: Id) {
    && x in s && s[x].kind == IsFile
    && Locate(c.rows, x).None?
    && s[x].path in c.rows && c.rows[s[x].path].remote == s[x].hash
    && Exists(c.disk, s[x].path)
  }

  /** No node's last upsert is shadowed at the moment it is replayed. */
  ghost predicate Clean(env: Env, s: Tree, c: Client, cs: seq<Change>)
    decreases |cs|
  {
    cs != [] ==>
      && (cs[0].Upsert? && cs[0].id !in Ids(cs[1..]) ==> !Shadowed(c, s, cs[0].id))
      && var next := ApplyChange(env, s, c, cs[0]);
         (next.Done? ==> Clean(env, s, next.c, cs[1..]))
  }

  // ---- effect of one entry on the rows -------------------------------------------------

  /** An upsert touches the node's own row and whatever row sat at its path. */
  lemma UpsertRows(env: Env, s: Tree, c: Client, x: Id)
    requires UniqueIds(c.rows) && HashesAgree(c.rows) && x in s && env.excludes == []
    requires s[x].kind == IsFolder <==> s[x].hash == NoHash
    requires ApplyChange(env, s, c, Upsert(x)).Done?
    ensures var r := ApplyChange(env, s, c, Upsert(x)).c.rows;
            && (forall p :: p in r ==> (r[p].id == x && p == s[x].path) || (p in c.rows && r[p] == c.rows[p] && r[p].id != x))
            && (forall p :: p in c.rows && c.rows[p].id != x && p != s[x].path ==> p in r && r[p] == c.rows[p])
            && (!Shadowed(c, s, x) ==> Tracked(r, s, x))
            && (Shadowed(c, s, x) ==> r == c.rows)
  {
    var n := s[x];
    FollowMoveRows(c, x, n.path);
    var moved := FollowMove(c, x, n.path).c;
    if n.kind == IsFile {
      FileUpsertRows(env, moved, x, n);
    }
  }

  lemma FollowMoveRows(c: Client, x: Id, q: Path)
    requires UniqueIds(c.rows) && FollowMove(c, x, q).Done?
    ensures var r := FollowMove(c, x, q).c.rows;
            && (forall p :: p in r ==> (r[p].id == x && p == q) || (p in c.rows && r[p] == c.rows[p] && r[p].id != x))
            && (forall p :: p in c.rows && c.rows[p].id != x && p != q ==> p in r && r[p] == c.rows[p])
            && (Locate(c.rows, x).None? ==> FollowMove(c, x, q).c == c)
            && (Locate(c.rows, x).Some? ==> q in r && r[q] == c.rows[Locate(c.rows, x).value])
  {
  }

  lemma FileUpsertRows(env: Env, c: Client, x: Id, n: Node)
    requires ApplyFileUpsert(env, c, x, n).Done?
    ensures var r := ApplyFileUpsert(env, c, x, n).c.rows;
            r == c.rows[n.path := FileEntry(env, x, n)] ||
            (r == c.rows && n.path in r && r[n.path].remote == n.hash && Exists(c.disk, n.path))
    ensures n.path in c.rows && c.rows[n.path].remote == n.hash && Exists(c.disk, n.path) ==>
              ApplyFileUpsert(env, c, x, n).c.rows == c.rows
  {
    var out := ApplyFileUpsert(env, c, x, n);
    if out != Done(c) && out != PullDown(env, c, x, n) {
      SetAsideRows(env, c, x, n);
    }
  }

  /** After the edited file was set aside its row is written anew. */
  lemma SetAsideRows(env: Env, c: Client, x: Id, n: Node)
    requires ConflictCopy(env, c, n.path).Done? && PullDown(env, ConflictCopy(env, c, n.path).c, x, n).Done?
    ensures PullDown(env, ConflictCopy(env, c, n.path).c, x, n).c.rows == c.rows[n.path := FileEntry(env, x, n)]
  {
    ConflictCopyRows(env, c, n.path);
    assert (c.rows - {n.path})[n.path := FileEntry(env, x, n)] == c.rows[n.path := FileEntry(env, x, n)];
  }

  /** A delete drops the node's row, and for a folder the rows beneath it. */
  lemma DeleteRows(env: Env, s: Tree, c: Client, x: Id)
    requires UniqueIds(c.rows) && ApplyChange(env, s, c, Delete(x)).Done?
    ensures var r := ApplyChange(env, s, c, Delete(x)).c.rows;
            && (forall p :: p in r ==> p in c.rows && r[p] == c.rows[p] && r[p].id != x)
            && (forall p :: p in c.rows && p !in r ==>
                  exists f :: f in c.rows && c.rows[f].id == x && Under(p, f))
  {
    if Locate(c.rows, x).Some? {
      DropLocalRows(env, c, Locate(c.rows, x).value);
    }
  }

  lemma DropLocalRows(env: Env, c: Client, p: Path)
    requires p in c.rows && DropLocal(env, c, p, c.rows[p]).Done?
    ensures DropLocal(env, c, p, c.rows[p]).c.rows ==
            if c.rows[p].kind == IsFolder then ForgetSubtree(c.rows, p) else c.rows - {p}
  {
    ConflictCopyRows(env, c, p);
  }

  // ---- nodes that have come to rest ------------------------------------------------------

  /** `x` is in its final state from `b` on. */
  ghost predicate Steady(x: Id, b: Tree, hs: seq<Commit>, s: Tree)
    decreases |hs|
  {
    && x in s && x in b && b[x] == s[x]
    && (hs != [] ==> Steady(x, hs[0].tree, hs[1..], s))
  }

  /** A node no remaining entry mentions has come to rest. */
  lemma {:induction false} UnmentionedIsSteady(x: Id, b: Tree, hs: seq<Commit>)
    requires ValidHistory(b, hs) && x in Latest(b, hs) && x !in Ids(Entries(hs))
    ensures Steady(x, b, hs, Latest(b, hs))
    decreases |hs|
  {
    if hs != [] {
      IdsConcat(hs[0].changes, Entries(hs[1..]));
      UnmentionedIsSteady(x, hs[0].tree, hs[1..]);
    }
  }

  lemma IdsConcat(a: seq<Change>, b: seq<Change>)
    ensures Ids(a + b) == Ids(a) + Ids(b)
  {
    forall x | x in Ids(a) + Ids(b) ensures x in Ids(a + b) {
      if x in Ids(a) {
        var i :| 0 <= i < |a| && a[i].id == x;
        assert (a + b)[i].id == x;
      } else {
        var i :| 0 <= i < |b| && b[i].id == x;
        assert (a + b)[|a| + i].id == x;
      }
    }
  }

  lemma AncestorWasThere(g: Id, x: Id, b: Tree, h: Commit)
    requires ValidTree(b) && ValidCommit(b, h)
    requires x in b && x in h.tree && b[x] == h.tree[x]
    requires g in h.tree && h.tree[g].kind == IsFolder && h.tree[g].path < h.tree[x].path
    ensures g in b && b[g] == h.tree[g]
  {
  }

  /** The folders above a node at rest are at rest too. */
  lemma {:induction false} AncestorsAreSteady(g: Id, x: Id, b: Tree, hs: seq<Commit>, s: Tree)
    requires ValidHistory(b, hs) && s == Latest(b, hs) && Steady(x, b, hs, s)
    requires g in s && s[g].kind == IsFolder && s[g].path < s[x].path
    ensures Steady(g, b, hs, s)
    decreases |hs|
  {
    if hs != [] {
      AncestorsAreSteady(g, x, hs[0].tree, hs[1..], s);
      AncestorWasThere(g, x, b, hs[0]);
    }
  }

  /** Every folder on the way to a live node is live. */
  lemma {:induction false} FolderAbove(s: Tree, x: Id, p: Path) returns (g: Id)
    requires ValidTree(s) && x in s && p != [] && p < s[x].path
    ensures g in s && s[g].path == p && s[g].kind == IsFolder
    decreases |s[x].path|
  {
    var up := Parent(s[x].path);
    assert p <= up;
    assert HasFolder(s, up);
    var h :| h in s && s[h].path == up && s[h].kind == IsFolder;
    if p == up {
      g := h;
    } else {
      g := FolderAbove(s, h, p);
    }
  }

  lemma {:induction false} LatestIsValid(b: Tree, hs: seq<Commit>)
    requires ValidHistory(b, hs)
    ensures ValidTree(Latest(b, hs))
    decreases |hs|
  {
    if hs != [] {
      LatestIsValid(hs[0].tree, hs[1..]);
    }
  }

  // ---- inside one transaction -----------------------------------------------------------

  /** The rows while the entries of the transaction `b -> t` are replayed, `left` to go, `hs`
      after it, `s` the final tree. */
  ghost predicate Midway(c: Client, b: Tree, t: Tree, left: seq<Change>, hs: seq<Commit>, s: Tree) {
    && Sound(c) && [] !in c.rows
    && (forall p :: p in c.rows ==> RowExplained(c.rows[p].id, p, b, t, left, s))
    && (forall x :: Steady(x, t, hs, s) && s[x].kind == IsFolder && (x !in Ids(left) || (x in b && b[x] == s[x])) ==>
          Tracked(c.rows, s, x))
    && (forall x :: x in s && x !in Ids(left) && x !in Ids(Entries(hs)) ==> Tracked(c.rows, s, x))
  }

  ghost predicate RowExplained(x: Id, p: Path, b: Tree, t: Tree, left: seq<Change>, s: Tree) {
    x in t || (x in s && s[x].path == p) || (x in b && Delete(x) in left)
  }

  /** Above a node at rest stands a live folder; while live nodes are being removed it is tracked. */
  lemma OwnerAbove(c: Client, b: Tree, h: Commit, left: seq<Change>, hs: seq<Commit>, s: Tree, x: Id, p: Path)
    returns (g: Id)
    requires ValidCommit(b, h) && ValidTree(s) && ValidHistory(h.tree, hs) && s == Latest(h.tree, hs)
    requires Midway(c, b, h.tree, left, hs, s)
    requires Steady(x, h.tree, hs, s) && p != [] && p < s[x].path
    ensures g in s && s[g].path == p && g in h.tree
    ensures (exists y :: y in b && y !in h.tree) ==> p in c.rows && c.rows[p].id == g
  {
    g := FolderAbove(s, x, p);
    AncestorsAreSteady(g, x, h.tree, hs, s);
    if exists y :: y in b && y !in h.tree {
      assert b[g] == h.tree[g];
      assert Tracked(c.rows, s, g);
    }
  }

  /** Whatever is recorded above a node at rest is live after the transaction. */
  lemma RecordedAboveIsLive(c: Client, b: Tree, h: Commit, left: seq<Change>, hs: seq<Commit>, s: Tree, x: Id, p: Path)
    requires ValidCommit(b, h) && ValidTree(s) && ValidHistory(h.tree, hs) && s == Latest(h.tree, hs)
    requires Midway(c, b, h.tree, left, hs, s)
    requires Steady(x, h.tree, hs, s) && p in c.rows && p < s[x].path
    ensures c.rows[p].id in h.tree
  {
    var f := c.rows[p].id;
    var g := OwnerAbove(c, b, h, left, hs, s, x, p);
    assert RowExplained(f, p, b, h.tree, left, s);
    assert f in s && s[f].path == p ==> f == g;
    assert f in b && f !in h.tree ==> f == g;
  }

  /** A folder delete sweeps no row of a node at rest. */
  lemma SweepSpares(c: Client, b: Tree, h: Commit, left: seq<Change>, hs: seq<Commit>, s: Tree, f: Id, p: Path, x: Id)
    requires ValidCommit(b, h) && ValidTree(s) && ValidHistory(h.tree, hs) && s == Latest(h.tree, hs)
    requires Midway(c, b, h.tree, left, hs, s)
    requires f !in h.tree && p in c.rows && c.rows[p].id == f
    requires Steady(x, h.tree, hs, s) && Tracked(c.rows, s, x)
    ensures !Under(s[x].path, p)
  {
    SteadyNow(x, h.tree, hs, s);
    assert p != s[x].path;
    if p < s[x].path {
      RecordedAboveIsLive(c, b, h, left, hs, s, x, p);
    }
  }

  lemma SteadyNow(x: Id, b: Tree, hs: seq<Commit>, s: Tree)
    requires Steady(x, b, hs, s)
    ensures x in s && x in b && b[x] == s[x]
  {
  }

  lemma DeleteSpares(env: Env, c: Client, b: Tree, h: Commit, left: seq<Change>, hs: seq<Commit>, s: Tree, f: Id, x: Id)
    requires ValidCommit(b, h) && ValidTree(s) && ValidHistory(h.tree, hs) && s == Latest(h.tree, hs)
    requires Midway(c, b, h.tree, left, hs, s)
    requires f !in h.tree && ApplyChange(env, s, c, Delete(f)).Done?
    requires Steady(x, h.tree, hs, s) && Tracked(c.rows, s, x)
    ensures Tracked(ApplyChange(env, s, c, Delete(f)).c.rows, s, x)
  {
    DeleteRows(env, s, c, f);
    if s[x].path !in ApplyChange(env, s, c, Delete(f)).c.rows {
      var p :| p in c.rows && c.rows[p].id == f && Under(s[x].path, p);
      SweepSpares(c, b, h, left, hs, s, f, p, x);
    }
  }

  lemma MidwayStep(env: Env, c: Client, b: Tree, h: Commit, left: seq<Change>, hs: seq<Commit>, s: Tree)
    requires env.excludes == []
    requires ValidCommit(b, h) && ValidTree(s) && ValidHistory(h.tree, hs) && s == Latest(h.tree, hs)
    requires left != [] && forall ch :: ch in left ==> ch in h.changes
    requires Midway(c, b, h.tree, left, hs, s)
    requires ApplyChange(env, s, c, left[0]).Done?
    requires left[0].Upsert? && left[0].id !in Ids(left[1..]) && left[0].id !in Ids(Entries(hs)) ==>
               !Shadowed(c, s, left[0].id)
    ensures Midway(ApplyChange(env, s, c, left[0]).c, b, h.tree, left[1..], hs, s)
  {
    ApplyChangeSound(env, s, c, left[0]);
    assert left[0] in left;
    assert left == [left[0]] + left[1..];
    IdsConcat([left[0]], left[1..]);
    assert [left[0]][0].id in Ids([left[0]]);
    forall x | x in s && x !in Ids(Entries(hs)) ensures Steady(x, h.tree, hs, s) {
      UnmentionedIsSteady(x, h.tree, hs);
    }
    match left[0] {
      case Upsert(y) => MidwayUpsert(env, c, b, h, left, hs, s, y);
      case Delete(f) => MidwayDelete(env, c, b, h, left, hs, s, f);
    }
  }

  /** How the rows may change when an entry is replayed, whichever kind it is. */
  ghost predicate RowsStep(before: Rows, after: Rows, s: Tree, ch: Change) {
    forall p :: p in after ==>
      || (ch.id in s && after[p].id == ch.id && s[ch.id].path == p)
      || (p in before && after[p] == before[p] && (ch.Delete? ==> after[p].id != ch.id))
  }

  /** A step that keeps every settled row, and settles the row of `y` if `y` is done, keeps Midway. */
  lemma MidwayFrom(c: Client, e: Client, b: Tree, t: Tree, left: seq<Change>, hs: seq<Commit>, s: Tree)
    requires left != [] && Ids(left) == {left[0].id} + Ids(left[1..])
    requires ValidTree(s) && Midway(c, b, t, left, hs, s) && Sound(e)
    requires RowsStep(c.rows, e.rows, s, left[0])
    requires forall x :: Steady(x, t, hs, s) && x != left[0].id && Tracked(c.rows, s, x) ==> Tracked(e.rows, s, x)
    requires forall x :: x in s && x !in Ids(Entries(hs)) ==> Steady(x, t, hs, s)
    requires var y := left[0].id;
             Steady(y, t, hs, s) && (s[y].kind == IsFolder || (y !in Ids(left[1..]) && y !in Ids(Entries(hs)))) ==>
               Tracked(e.rows, s, y)
    ensures Midway(e, b, t, left[1..], hs, s)
  {
    forall p | p in e.rows ensures RowExplained(e.rows[p].id, p, b, t, left[1..], s) {
      StillExplained(c.rows, e.rows, b, t, left, s, p);
    }
  }

  lemma StillExplained(before: Rows, after: Rows, b: Tree, t: Tree, left: seq<Change>, s: Tree, p: Path)
    requires left != [] && RowsStep(before, after, s, left[0]) && p in after
    requires p in before ==> RowExplained(before[p].id, p, b, t, left, s)
    ensures RowExplained(after[p].id, p, b, t, left[1..], s)
  {
    var x := after[p].id;
    if left[0] != Delete(x) && Delete(x) in left {
      var i :| 0 <= i < |left| && left[i] == Delete(x);
      assert left[1..][i - 1] == Delete(x);
    }
  }

  lemma MidwayUpsert(env: Env, c: Client, b: Tree, h: Commit, left: seq<Change>, hs: seq<Commit>, s: Tree, y: Id)
    requires env.excludes == [] && ValidTree(s)
    requires left != [] && left[0] == Upsert(y) && Ids(left) == {y} + Ids(left[1..])
    requires forall x :: x in s && x !in Ids(Entries(hs)) ==> Steady(x, h.tree, hs, s)
    requires Midway(c, b, h.tree, left, hs, s)
    requires ApplyChange(env, s, c, left[0]).Done? && Sound(ApplyChange(env, s, c, left[0]).c)
    requires y !in Ids(left[1..]) && y !in Ids(Entries(hs)) ==> !Shadowed(c, s, y)
    ensures Midway(ApplyChange(env, s, c, left[0]).c, b, h.tree, left[1..], hs, s)
  {
    var e := ApplyChange(env, s, c, left[0]).c;
    if y in s {
      UpsertRows(env, s, c, y);
    }
    MidwayFrom(c, e, b, h.tree, left, hs, s);
  }

  lemma MidwayDelete(env: Env, c: Client, b: Tree, h: Commit, left: seq<Change>, hs: seq<Commit>, s: Tree, f: Id)
    requires ValidCommit(b, h) && ValidTree(s) && ValidHistory(h.tree, hs) && s == Latest(h.tree, hs)
    requires left != [] && left[0] == Delete(f) && left[0] in h.changes && Ids(left) == {f} + Ids(left[1..])
    requires forall x :: x in s && x !in Ids(Entries(hs)) ==> Steady(x, h.tree, hs, s)
    requires Midway(c, b, h.tree, left, hs, s)
    requires ApplyChange(env, s, c, left[0]).Done? && Sound(ApplyChange(env, s, c, left[0]).c)
    ensures Midway(ApplyChange(env, s, c, left[0]).c, b, h.tree, left[1..], hs, s)
  {
    var e := ApplyChange(env, s, c, left[0]).c;
    DeleteRows(env, s, c, f);
    forall x | Steady(x, h.tree, hs, s) && Tracked(c.rows, s, x) ensures Tracked(e.rows, s, x) {
      DeleteSpares(env, c, b, h, left, hs, s, f, x);
    }
    MidwayFrom(c, e, b, h.tree, left, hs, s);
  }

  lemma CleanHead(env: Env, s: Tree, c: Client, left: seq<Change>, rest: seq<Change>)
    requires left != [] && Replay(env, s, c, left).Done? && Clean(env, s, c, left + rest)
    ensures var next := ApplyChange(env, s, c, left[0]);
            && next.Done?
            && Replay(env, s, next.c, left[1..]) == Replay(env, s, c, left)
            && Clean(env, s, next.c, left[1..] + rest)
    ensures left[0].Upsert? && left[0].id !in Ids(left[1..]) && left[0].id !in Ids(rest) ==> !Shadowed(c, s, left[0].id)
  {
    var cs := left + rest;
    assert cs[0] == left[0] && cs[1..] == left[1..] + rest;
    IdsConcat(left[1..], rest);
  }

  lemma {:induction false} ReplayCommit(env: Env, c: Client, b: Tree, h: Commit, left: seq<Change>, hs: seq<Commit>, s: Tree)
    requires env.excludes == []
    requires ValidCommit(b, h) && ValidTree(s) && ValidHistory(h.tree, hs) && s == Latest(h.tree, hs)
    requires forall ch :: ch in left ==> ch in h.changes
    requires Midway(c, b, h.tree, left, hs, s)
    requires Replay(env, s, c, left).Done?
    requires Clean(env, s, c, left + Entries(hs))
    ensures var out := Replay(env, s, c, left).c;
            Midway(out, b, h.tree, [], hs, s) && Clean(env, s, out, Entries(hs))
    decreases |left|
  {
    if left == [] {
      assert left + Entries(hs) == Entries(hs);
    } else {
      CleanHead(env, s, c, left, Entries(hs));
      MidwayStep(env, c, b, h, left, hs, s);
      ReplayCommit(env, ApplyChange(env, s, c, left[0]).c, b, h, left[1..], hs, s);
    }
  }

  // ---- the whole replay -----------------------------------------------------------------

  /** Between transactions. */
  ghost predicate Between(c: Client, b: Tree, hs: seq<Commit>, s: Tree) {
    && Sound(c) && [] !in c.rows
    && (forall p :: p in c.rows ==> c.rows[p].id in b || (c.rows[p].id in s && s[c.rows[p].id].path == p))
    && (forall x :: Steady(x, b, hs, s) && s[x].kind == IsFolder ==> Tracked(c.rows, s, x))
    && (forall x :: x in s && x !in Ids(Entries(hs)) ==> Tracked(c.rows, s, x))
  }

  lemma EnterCommit(c: Client, b: Tree, hs: seq<Commit>, s: Tree)
    requires hs != [] && ValidHistory(b, hs) && Between(c, b, hs, s)
    ensures Midway(c, b, hs[0].tree, hs[0].changes, hs[1..], s)
  {
    var h := hs[0];
    IdsConcat(h.changes, Entries(hs[1..]));
    forall x | x in b && x !in h.tree ensures Delete(x) in h.changes {
      assert x in Ids(h.changes);
      var i :| 0 <= i < |h.changes| && h.changes[i].id == x;
      assert h.changes[i] == Delete(x);
    }
    forall x | Steady(x, h.tree, hs[1..], s) && (x !in Ids(h.changes) || (x in b && b[x] == s[x]))
      ensures Steady(x, b, hs, s)
    {
    }
  }

  lemma LeaveCommit(c: Client, b: Tree, h: Commit, hs: seq<Commit>, s: Tree)
    requires Midway(c, b, h.tree, [], hs, s)
    ensures Between(c, h.tree, hs, s)
  {
  }

  lemma {:induction false} ReplayHistory(env: Env, c: Client, b: Tree, hs: seq<Commit>)
    requires env.excludes == [] && ValidHistory(b, hs)
    requires Between(c, b, hs, Latest(b, hs))
    requires Replay(env, Latest(b, hs), c, Entries(hs)).Done?
    requires Clean(env, Latest(b, hs), c, Entries(hs))
    ensures Between(Replay(env, Latest(b, hs), c, Entries(hs)).c, Latest(b, hs), [], Latest(b, hs))
    decreases |hs|
  {
    var s := Latest(b, hs);
    if hs != [] {
      LatestIsValid(b, hs);
      EnterCommit(c, b, hs, s);
      ReplaySplit(env, s, c, hs[0].changes, Entries(hs[1..]));
      ReplayCommit(env, c, b, hs[0], hs[0].changes, hs[1..], s);
      var mid := Replay(env, s, c, hs[0].changes).c;
      LeaveCommit(mid, b, hs[0], hs[1..], s);
      ReplayHistory(env, mid, hs[0].tree, hs[1..]);
    }
  }

  lemma MirrorIsBetween(c: Client, b: Tree, hs: seq<Commit>)
    requires ValidHistory(b, hs) && Sound(c) && Mirrors(c.rows, b)
    ensures Between(c, b, hs, Latest(b, hs))
  {
    var s := Latest(b, hs);
    forall x | x in s && x !in Ids(Entries(hs)) ensures Steady(x, b, hs, s) {
      UnmentionedIsSteady(x, b, hs);
    }
    forall x | Steady(x, b, hs, s) ensures Tracked(c.rows, s, x) {
      assert Tracked(c.rows, b, x);
    }
  }

  /** A node without a row that no remaining entry mentions stays without a row. */
  lemma {:induction false} LostStaysLost(env: Env, s: Tree, c: Client, cs: seq<Change>, x: Id)
    requires env.excludes == [] && ValidTree(s) && Sound(c)
    requires Locate(c.rows, x).None? && x !in Ids(cs)
    requires Replay(env, s, c, cs).Done?
    ensures Locate(Replay(env, s, c, cs).c.rows, x).None?
    decreases |cs|
  {
    if cs != [] {
      assert cs[0].id in Ids(cs);
      assert Ids(cs[1..]) <= Ids(cs) by {
        assert cs == [cs[0]] + cs[1..];
        IdsConcat([cs[0]], cs[1..]);
      }
      ApplyChangeSound(env, s, c, cs[0]);
      match cs[0] {
        case Upsert(y) => if y in s { UpsertRows(env, s, c, y); }
        case Delete(y) => DeleteRows(env, s, c, y);
      }
      LostStaysLost(env, s, ApplyChange(env, s, c, cs[0]).c, cs[1..], x);
    }
  }

  lemma {:induction false} MirrorImpliesClean(env: Env, s: Tree, c: Client, cs: seq<Change>)
    requires env.excludes == [] && ValidTree(s) && Sound(c)
    requires Replay(env, s, c, cs).Done? && Mirrors(Replay(env, s, c, cs).c.rows, s)
    ensures Clean(env, s, c, cs)
    decreases |cs|
  {
    if cs != [] {
      var next := ApplyChange(env, s, c, cs[0]).c;
      ApplyChangeSound(env, s, c, cs[0]);
      var x := cs[0].id;
      assert cs[0].Upsert? && x !in Ids(cs[1..]) ==> !Shadowed(c, s, x) by {
        if cs[0].Upsert? && x !in Ids(cs[1..]) && Shadowed(c, s, x) {
          UpsertRows(env, s, c, x);
          LostStaysLost(env, s, next, cs[1..], x);
        }
      }
      MirrorImpliesClean(env, s, next, cs[1..]);
    }
  }

  lemma CleanImpliesMirror(env: Env, c: Client, b: Tree, hs: seq<Commit>)
    requires env.excludes == [] && ValidHistory(b, hs)
    requires Sound(c) && Mirrors(c.rows, b)
    requires Replay(env, Latest(b, hs), c, Entries(hs)).Done?
    requires Clean(env, Latest(b, hs), c, Entries(hs))
    ensures Mirrors(Replay(env, Latest(b, hs), c, Entries(hs)).c.rows, Latest(b, hs))
  {
    MirrorIsBetween(c, b, hs);
    ReplayHistory(env, c, b, hs);
    BetweenIsMirror(Replay(env, Latest(b, hs), c, Entries(hs)).c, Latest(b, hs));
  }

  lemma BetweenIsMirror(c: Client, s: Tree)
    requires Between(c, s, [], s)
    ensures Mirrors(c.rows, s)
  {
    assert Entries([]) == [];
    forall p | p in c.rows ensures c.rows[p].id in s && s[c.rows[p].id].path == p {
      assert Tracked(c.rows, s, c.rows[p].id);
    }
  }

  /** A client that mirrored the tree at its cursor and replays the journal without an error
      mirrors the tree of now, folders, moves, trashes and restores included, if and only if
      no node's last upsert was shadowed. */
  lemma ReplayMirrors(env: Env, c: Client, b: Tree, hs: seq<Commit>)
    requires env.excludes == [] && ValidHistory(b, hs)
    requires Sound(c) && Mirrors(c.rows, b)
    requires Replay(env, Latest(b, hs), c, Entries(hs)).Done?
    ensures Mirrors(Replay(env, Latest(b, hs), c, Entries(hs)).c.rows, Latest(b, hs)) <==>
            Clean(env, Latest(b, hs), c, Entries(hs))
  {
    var s := Latest(b, hs);
    LatestIsValid(b, hs);
    if Clean(env, s, c, Entries(hs)) {
      CleanImpliesMirror(env, c, b, hs);
    } else if Mirrors(Replay(env, s, c, Entries(hs)).c.rows, s) {
      MirrorImpliesClean(env, s, c, Entries(hs));
    }
  }
}
