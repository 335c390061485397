/**
  What a full reconcile does to the disk: to the paths recorded but no longer on the server, to edits
  there and elsewhere, and to what was never recorded.
 */
module Vanished {
  import opened Base
  import opened LocalDisk
  import opened ConflictNames
  import opened Pull
  import opened Journal
  import opened Server
  import opened Push
  import opened Resume
  import opened Reconcile

  ghost predicate Live(s: Tree, p: Path) {
    exists x :: x in s && s[x].path == p
  }

  /** Recorded, and nothing on the server. */
  ghost predicate Vanishes(s: Tree, rows: Rows, p: Path) {
    p in rows && !Live(s, p)
  }

  ghost function Gone(s: Tree, rows: Rows): set<Path> {
    set p | p in rows && Vanishes(s, rows, p)
  }

  ghost predicate FolderVanishesAbove(s: Tree, rows: Rows, p: Path) {
    exists f :: Vanishes(s, rows, f) && rows[f].kind == IsFolder && f < p
  }

  ghost predicate CopyNameOf(env: Env, q: Path, p: Path) {
    exists n :: n >= 1 && q == Candidate(p, env.tag, n)
  }

  /** An edited file among the paths `gone`. */
  ghost predicate EditAt(w: Client, gone: set<Path>, p: Path) {
    p in gone && Edited(w, p) && w.rows[p].kind == IsFile
  }

  /** `q` is a conflict name of a vanished path, and `o` the edit of one. */
  ghost predicate SetAside(env: Env, w: Client, gone: set<Path>, q: Path, o: Obj) {
    NamedAside(env, gone, q) && IsEdit(w, gone, o)
  }

  ghost predicate NamedAside(env: Env, gone: set<Path>, q: Path) {
    exists p :: p in gone && CopyNameOf(env, q, p)
  }

  ghost predicate IsEdit(w: Client, gone: set<Path>, o: Obj) {
    exists p :: EditAt(w, gone, p) && p in w.disk && w.disk[p] == o
  }

  /** No vanished path has the conflict name of another. */
  ghost predicate NamesApart(env: Env, gone: set<Path>) {
    forall p, q :: p in gone && q in gone ==> !CopyNameOf(env, q, p)
  }

  // ---- one vanished entry -------------------------------------------------------------------

  /** The disk after one recorded node is dropped: a folder goes with all beneath it, an edited file
      moves to a free conflict name beside it, any other file goes. */
  lemma DropDisk(env: Env, c: Client, p: Path, e: Entry) returns (aside: bool, dst: Path)
    requires IsTree(c.disk) && DropLocal(env, c, p, e).Done?
    ensures aside <==> e.kind == IsFile && LocalStatus(c.disk, p, e) == (true, true)
    ensures aside ==> p in c.disk && dst !in c.disk && CopyNameOf(env, dst, p) && Parent(dst) == Parent(p) && dst != []
    ensures DropLocal(env, c, p, e).c.disk ==
            if e.kind == IsFolder then Without(c.disk, p)
            else if aside then (c.disk - {p})[dst := c.disk[p]]
            else c.disk - {p}
  {
    aside := e.kind == IsFile && LocalStatus(c.disk, p, e) == (true, true);
    dst := CopyPath(c.disk.Keys, p, env.tag);
    if aside {
      ConflictCopyMoves(env, c, p);
      CopyPathIsFree(c.disk.Keys, p, env.tag);
    }
  }

  lemma ProperlyBeneath(q: Path, f: Path)
    requires q != []
    ensures f < q <==> Under(Parent(q), f)
  {
    if f < q {
      assert Parent(q)[..|f|] == f;
    }
  }

  /** Every path of the disk is as it was, and still to come if it vanishes; or is an edit set aside. */
  ghost predicate Explains(env: Env, d: Disk, w: Client, met: set<Path>, gone: set<Path>, left: set<Path>) {
    forall q {:trigger q in d} :: q in d && q !in met ==>
      || (q in w.disk && d[q] == w.disk[q] && (q in gone ==> q in left))
      || SetAside(env, w, gone, q, d[q])
  }

  lemma ExplainsStep(env: Env, c: Client, w: Client, met: set<Path>, gone: set<Path>, p: Path, left: set<Path>)
    requires IsTree(c.disk) && p in gone && p !in met && p in w.rows && Explains(env, c.disk, w, met, gone, left + {p})
    requires DropLocal(env, c, p, w.rows[p]).Done?
    ensures Explains(env, DropLocal(env, c, p, w.rows[p]).c.disk, w, met, gone, left)
  {
    var d := DropLocal(env, c, p, w.rows[p]).c.disk;
    var aside, dst := DropDisk(env, c, p, w.rows[p]);
    if aside {
      EditedOrAside(env, c, w, met, gone, p, left + {p});
      NowAside(env, w, gone, p, dst, c.disk[p]);
    }
    FewerExplained(env, c.disk, d, w, met, gone, p, left, aside, dst);
  }

  lemma EditedOrAside(env: Env, c: Client, w: Client, met: set<Path>, gone: set<Path>, p: Path, left: set<Path>)
    requires Explains(env, c.disk, w, met, gone, left) && p in gone && p !in met && p in w.rows && p in c.disk
    requires w.rows[p].kind == IsFile && LocalStatus(c.disk, p, w.rows[p]) == (true, true)
    ensures (EditAt(w, gone, p) && p in w.disk && w.disk[p] == c.disk[p]) || SetAside(env, w, gone, p, c.disk[p])
  {
  }

  lemma NowAside(env: Env, w: Client, gone: set<Path>, p: Path, dst: Path, o: Obj)
    requires p in gone && CopyNameOf(env, dst, p)
    requires (EditAt(w, gone, p) && p in w.disk && w.disk[p] == o) || SetAside(env, w, gone, p, o)
    ensures SetAside(env, w, gone, dst, o)
  {
  }

  lemma FewerExplained(env: Env, d: Disk, e: Disk, w: Client, met: set<Path>, gone: set<Path>, p: Path, left: set<Path>,
                       aside: bool, dst: Path)
    requires Explains(env, d, w, met, gone, left + {p})
    requires forall q :: q in e && !(aside && q == dst) ==> q in d && q != p && e[q] == d[q]
    requires aside && dst in e ==> SetAside(env, w, gone, dst, e[dst])
    ensures Explains(env, e, w, met, gone, left)
  {
  }

  // ---- all of them ----------------------------------------------------------------------------

  ghost predicate Dropped(env: Env, w: Client, met: set<Path>, gone: set<Path>, listed: seq<Path>) {
    && env.excludes == [] && (forall p :: p in listed ==> p in w.rows && (p in met || p in gone))
    && met !! gone
  }

  lemma {:induction false} AllExplained(env: Env, c: Client, w: Client, met: set<Path>, gone: set<Path>, listed: seq<Path>)
    requires Dropped(env, w, met, gone, listed) && IsTree(c.disk)
    requires Explains(env, c.disk, w, met, gone, set p | p in listed)
    requires DropVanished(env, c, met, w.rows, listed).Done?
    ensures Explains(env, DropVanished(env, c, met, w.rows, listed).c.disk, w, met, gone, {})
    decreases |listed|
  {
    if listed == [] {
      assert (set p | p in listed) == {};
    } else {
      var rest := set p | p in listed[1..];
      assert (set p | p in listed) == rest + {listed[0]};
      if listed[0] in met {
        AllExplained(env, c, w, met, gone, listed[1..]);
      } else {
        ExplainsStep(env, c, w, met, gone, listed[0], rest);
        DropKeepsTree(env, c, listed[0], w.rows[listed[0]]);
        AllExplained(env, DropLocal(env, c, listed[0], w.rows[listed[0]]).c, w, met, gone, listed[1..]);
      }
    }
  }

  ghost predicate EmptyBeneath(d: Disk, f: Path) {
    forall q :: q in d && Under(q, f) ==> q == f
  }

  lemma EmptyStep(env: Env, c: Client, p: Path, e: Entry, f: Path)
    requires IsTree(c.disk) && DropLocal(env, c, p, e).Done?
    requires EmptyBeneath(c.disk, f) || (p == f && e.kind == IsFolder)
    ensures EmptyBeneath(DropLocal(env, c, p, e).c.disk, f)
  {
    var aside, dst := DropDisk(env, c, p, e);
    if aside && EmptyBeneath(c.disk, f) {
      ProperlyBeneath(p, f);
      ProperlyBeneath(dst, f);
      assert !(f < p);
    }
  }

  /** Beneath a folder that vanished nothing remains. */
  lemma {:induction false} EmptyInTheEnd(env: Env, c: Client, w: Client, met: set<Path>, gone: set<Path>, listed: seq<Path>, f: Path)
    requires Dropped(env, w, met, gone, listed) && IsTree(c.disk) && f in gone && f in w.rows && w.rows[f].kind == IsFolder
    requires f in listed || EmptyBeneath(c.disk, f)
    requires DropVanished(env, c, met, w.rows, listed).Done?
    ensures EmptyBeneath(DropVanished(env, c, met, w.rows, listed).c.disk, f)
    decreases |listed|
  {
    if listed != [] {
      if listed[0] in met {
        EmptyInTheEnd(env, c, w, met, gone, listed[1..], f);
      } else {
        if listed[0] == f || EmptyBeneath(c.disk, f) {
          EmptyStep(env, c, listed[0], w.rows[listed[0]], f);
        }
        DropKeepsTree(env, c, listed[0], w.rows[listed[0]]);
        EmptyInTheEnd(env, DropLocal(env, c, listed[0], w.rows[listed[0]]).c, w, met, gone, listed[1..], f);
      }
    }
  }

  /** A path that is neither dropped nor beneath a dropped folder stays. */
  lemma StaysStep(env: Env, c: Client, p: Path, e: Entry, q: Path)
    requires IsTree(c.disk) && DropLocal(env, c, p, e).Done? && q in c.disk && q != p
    requires e.kind == IsFolder ==> !Under(q, p)
    ensures var d := DropLocal(env, c, p, e).c.disk; q in d && d[q] == c.disk[q]
  {
    var aside, dst := DropDisk(env, c, p, e);
  }

  lemma {:induction false} StaysInTheEnd(env: Env, c: Client, w: Client, met: set<Path>, gone: set<Path>, listed: seq<Path>, q: Path)
    requires Dropped(env, w, met, gone, listed) && IsTree(c.disk) && q in c.disk && q !in gone
    requires forall f :: f in gone && f in w.rows && w.rows[f].kind == IsFolder ==> !Under(q, f)
    requires DropVanished(env, c, met, w.rows, listed).Done?
    ensures var d := DropVanished(env, c, met, w.rows, listed).c.disk; q in d && d[q] == c.disk[q]
    decreases |listed|
  {
    if listed != [] {
      if listed[0] in met {
        StaysInTheEnd(env, c, w, met, gone, listed[1..], q);
      } else {
        StaysStep(env, c, listed[0], w.rows[listed[0]], q);
        DropKeepsTree(env, c, listed[0], w.rows[listed[0]]);
        StaysInTheEnd(env, DropLocal(env, c, listed[0], w.rows[listed[0]]).c, w, met, gone, listed[1..], q);
      }
    }
  }

  ghost predicate HasCopy(env: Env, d: Disk, p: Path, o: Obj) {
    exists q :: CopyNameOf(env, q, p) && q in d && d[q] == o
  }

  lemma {:induction false} EditInTheEnd(env: Env, c: Client, w: Client, met: set<Path>, gone: set<Path>, listed: seq<Path>, p: Path)
    requires Dropped(env, w, met, gone, listed) && IsTree(c.disk) && NamesApart(env, gone)
    requires EditAt(w, gone, p) && p in w.disk && p != []
    requires forall f :: f in gone && f in w.rows && w.rows[f].kind == IsFolder ==> !(f < p)
    requires (p in listed && p in c.disk && c.disk[p] == w.disk[p]) || HasCopy(env, c.disk, p, w.disk[p])
    requires DropVanished(env, c, met, w.rows, listed).Done?
    ensures HasCopy(env, DropVanished(env, c, met, w.rows, listed).c.disk, p, w.disk[p])
    decreases |listed|
  {
    if listed != [] {
      if listed[0] in met {
        EditInTheEnd(env, c, w, met, gone, listed[1..], p);
      } else {
        var next := DropLocal(env, c, listed[0], w.rows[listed[0]]).c;
        EditStep(env, c, w, gone, listed[0], p);
        assert p in listed && p != listed[0] ==> p in listed[1..];
        DropKeepsTree(env, c, listed[0], w.rows[listed[0]]);
        EditInTheEnd(env, next, w, met, gone, listed[1..], p);
      }
    }
  }

  /** The edit is set aside in its turn, and a copy stays where it is. */
  lemma EditStep(env: Env, c: Client, w: Client, gone: set<Path>, x: Path, p: Path)
    requires IsTree(c.disk) && NamesApart(env, gone) && x in gone && x in w.rows && EditAt(w, gone, p) && p in w.disk && p != []
    requires forall f :: f in gone && f in w.rows && w.rows[f].kind == IsFolder ==> !(f < p)
    requires DropLocal(env, c, x, w.rows[x]).Done?
    ensures var d := DropLocal(env, c, x, w.rows[x]).c.disk;
            && (HasCopy(env, c.disk, p, w.disk[p]) ==> HasCopy(env, d, p, w.disk[p]))
            && (p in c.disk && c.disk[p] == w.disk[p] ==>
                  if x == p then HasCopy(env, d, p, w.disk[p]) else p in d && d[p] == w.disk[p])
  {
    if HasCopy(env, c.disk, p, w.disk[p]) {
      var q :| CopyNameOf(env, q, p) && q in c.disk && c.disk[q] == w.disk[p];
      assert q != x;
      CopyBeneath(env, q, p, x);
      StaysStep(env, c, x, w.rows[x], q);
    }
    if p in c.disk && c.disk[p] == w.disk[p] {
      if x == p {
        var aside, dst := DropDisk(env, c, p, w.rows[p]);
        assert aside;
      } else {
        StaysStep(env, c, x, w.rows[x], p);
      }
    }
  }

  /** What is above a conflict copy is above its original. */
  lemma CopyBeneath(env: Env, q: Path, p: Path, f: Path)
    requires CopyNameOf(env, q, p) && p != []
    ensures f < q <==> f < p
  {
    var n :| n >= 1 && q == Candidate(p, env.tag, n);
    CandidateIsNew(p, env.tag, n);
    ProperlyBeneath(p, f);
    ProperlyBeneath(q, f);
  }

  // ---- the reconcile as a whole -----------------------------------------------------------------

  /** What Reconcile.ReconcileAgrees starts from. */
  ghost predicate Reconcilable(env: Env, s: Tree, c: Client) {
    && env.excludes == [] && ValidTree(s) && IsTree(c.disk) && HashesAgree(c.rows) && [] !in c.rows
    && forall x :: x in s ==> Honest(c, s[x].path)
  }

  /** Off the live paths the walk leaves everything as it was. */
  lemma WalkSpares(env: Env, s: Tree, c: Client, order: seq<Id>)
    requires Reconcilable(env, s, c) && IsTreeWalk(env, s, order) && WalkTree(env, s, c, order).Done?
    ensures forall q :: !Live(s, q) ==> SameAt(c, WalkTree(env, s, c, order).c, q)
    ensures forall p :: p in MetPaths(s, order) <==> Live(s, p)
  {
    assert order[..0] == [] && order[0..] == order && order[..|order|] == order;
    WalkMeets(env, s, c, c, order, 0);
    MetAll(env, s, c, WalkTree(env, s, c, order).c, order);
  }

  /** The walk and then the recorded paths that are gone from the server. */
  lemma Reconciled(env: Env, s: Tree, c: Client, order: seq<Id>, listed: seq<Path>, out: Outcome)
    returns (w: Client, met: set<Path>, gone: set<Path>)
    requires Reconcilable(env, s, c) && Reconciles(env, s, c, order, listed, out) && out.Done?
    ensures Dropped(env, w, met, gone, listed) && IsTree(w.disk) && DropVanished(env, w, met, w.rows, listed) == out
    ensures forall p :: p in met <==> p == [] || Live(s, p)
    ensures forall p :: p in gone <==> Vanishes(s, c.rows, p)
    ensures forall p :: p in listed <==> p in w.rows
    ensures forall q :: !Live(s, q) ==> SameAt(c, w, q)
  {
    WalkAgrees(env, s, c, order);
    WalkSpares(env, s, c, order);
    w := WalkTree(env, s, c, order).c;
    met := MetPaths(s, order) + {[]};
    gone := set p | p in c.rows && p !in met;
    forall p | p in listed ensures p in w.rows && (p in met || p in gone) {
      assert p in met || SameAt(c, w, p);
    }
  }

  lemma RecordedIffLive(env: Env, s: Tree, c: Client, order: seq<Id>, listed: seq<Path>, out: Outcome)
    requires Reconcilable(env, s, c) && Reconciles(env, s, c, order, listed, out) && out.Done?
    ensures IsTree(out.c.disk) && forall q :: q in out.c.rows <==> Live(s, q)
  {
    ReconcileAgrees(env, s, c, order, listed, out);
    forall q | q !in out.c.rows ensures !Live(s, q) {
      LiveIsRecorded(s, out.c, q);
    }
  }

  lemma LiveIsRecorded(s: Tree, c: Client, q: Path)
    requires Agrees(c, s) && q !in c.rows
    ensures !Live(s, q)
  {
    forall x | x in s ensures s[x].path != q {
      assert Placed(c, s[x]);
    }
  }

  /** After a full reconcile every path of the disk that is not recorded was untracked before and is as it
      was, or is an edit of a vanished path under a conflict name. What was recorded and is gone from the
      server is therefore gone from disk. */
  lemma OnlyUntrackedAndCopies(env: Env, s: Tree, c: Client, order: seq<Id>, listed: seq<Path>, out: Outcome, q: Path)
    requires Reconcilable(env, s, c) && Reconciles(env, s, c, order, listed, out) && out.Done?
    requires q in out.c.disk && q !in out.c.rows
    ensures !Live(s, q)
    ensures || (q !in c.rows && q in c.disk && out.c.disk[q] == c.disk[q])
            || SetAside(env, c, Gone(s, c.rows), q, out.c.disk[q])
  {
    RecordedIffLive(env, s, c, order, listed, out);
    var w, met, gone := Reconciled(env, s, c, order, listed, out);
    ExplainedAfter(env, s, c, w, met, gone, listed, out, q);
  }

  lemma ExplainedAfter(env: Env, s: Tree, c: Client, w: Client, met: set<Path>, gone: set<Path>, listed: seq<Path>,
                       out: Outcome, q: Path)
    requires Dropped(env, w, met, gone, listed) && IsTree(w.disk) && DropVanished(env, w, met, w.rows, listed) == out
    requires (forall p :: p in met <==> p == [] || Live(s, p)) && (forall p :: p in gone <==> Vanishes(s, c.rows, p))
    requires (forall p :: p in listed <==> p in w.rows) && (forall p :: !Live(s, p) ==> SameAt(c, w, p))
    requires out.Done? && q in out.c.disk && !Live(s, q) && IsTree(out.c.disk)
    ensures || (q !in c.rows && q in c.disk && out.c.disk[q] == c.disk[q])
            || SetAside(env, c, Gone(s, c.rows), q, out.c.disk[q])
  {
    StartsExplained(env, s, c, w, met, gone, listed);
    AllExplained(env, w, w, met, gone, listed);
    assert gone == Gone(s, c.rows);
    ExplainedBefore(env, s, c, w, met, out.c.disk, q);
  }

  lemma StartsExplained(env: Env, s: Tree, c: Client, w: Client, met: set<Path>, gone: set<Path>, listed: seq<Path>)
    requires (forall p :: p in met <==> p == [] || Live(s, p)) && (forall p :: p in gone <==> Vanishes(s, c.rows, p))
    requires (forall p :: p in listed <==> p in w.rows) && (forall p :: !Live(s, p) ==> SameAt(c, w, p))
    ensures Explains(env, w.disk, w, met, gone, set p | p in listed)
  {
    forall q | q in w.disk && q !in met && q in gone ensures q in listed {
      assert SameAt(c, w, q);
    }
  }

  lemma ExplainedBefore(env: Env, s: Tree, c: Client, w: Client, met: set<Path>, d: Disk, q: Path)
    requires Explains(env, d, w, met, Gone(s, c.rows), {}) && IsTree(d) && q in d && !Live(s, q)
    requires (forall p :: p in met <==> p == [] || Live(s, p)) && (forall p :: !Live(s, p) ==> SameAt(c, w, p))
    ensures (q !in c.rows && q in c.disk && d[q] == c.disk[q]) || SetAside(env, c, Gone(s, c.rows), q, d[q])
  {
    assert SameAt(c, w, q) && q !in met;
    if SetAside(env, w, Gone(s, c.rows), q, d[q]) {
      AsideBefore(env, s, c, w, Gone(s, c.rows), q, d[q]);
    }
  }

  /** What vanishes was recorded and stood on disk as it did before the walk. */
  lemma AsideBefore(env: Env, s: Tree, c: Client, w: Client, gone: set<Path>, q: Path, o: Obj)
    requires (forall p :: p in gone ==> Vanishes(s, c.rows, p)) && (forall p :: !Live(s, p) ==> SameAt(c, w, p))
    requires SetAside(env, w, gone, q, o)
    ensures SetAside(env, c, gone, q, o)
  {
    EditBefore(s, c, w, gone, o);
  }

  lemma EditBefore(s: Tree, c: Client, w: Client, gone: set<Path>, o: Obj)
    requires (forall p :: p in gone ==> Vanishes(s, c.rows, p)) && (forall p :: !Live(s, p) ==> SameAt(c, w, p))
    requires IsEdit(w, gone, o)
    ensures IsEdit(c, gone, o)
  {
    var p :| EditAt(w, gone, p) && p in w.disk && w.disk[p] == o;
    assert SameAt(c, w, p);
    assert EditAt(c, gone, p) && p in c.disk && c.disk[p] == o;
  }

  /** A recorded path that is gone from the server is gone from disk, unless it is itself the conflict name
      of another; with what is beneath it, if it was recorded as a folder. */
  lemma VanishedIsGone(env: Env, s: Tree, c: Client, order: seq<Id>, listed: seq<Path>, out: Outcome, p: Path)
    requires Reconcilable(env, s, c) && Reconciles(env, s, c, order, listed, out) && out.Done?
    requires Vanishes(s, c.rows, p)
    ensures p !in out.c.rows
    ensures p in out.c.disk ==> exists r :: Vanishes(s, c.rows, r) && CopyNameOf(env, p, r)
    ensures c.rows[p].kind == IsFolder ==> EmptyBeneath(out.c.disk, p)
  {
    ReconcileAgrees(env, s, c, order, listed, out);
    if p in out.c.disk {
      OnlyUntrackedAndCopies(env, s, c, order, listed, out, p);
    }
    if c.rows[p].kind == IsFolder {
      var w, met, gone := Reconciled(env, s, c, order, listed, out);
      assert SameAt(c, w, p);
      EmptyInTheEnd(env, w, w, met, gone, listed, p);
    }
  }

  /** An edit at a vanished path is at a conflict name beside it afterwards, if and only if no folder above
      it vanished too. */
  lemma EditSetAsideIff(env: Env, s: Tree, c: Client, order: seq<Id>, listed: seq<Path>, out: Outcome, p: Path)
    requires Reconcilable(env, s, c) && Reconciles(env, s, c, order, listed, out) && out.Done?
    requires NamesApart(env, Gone(s, c.rows)) && EditAt(c, Gone(s, c.rows), p) && p in c.disk
    ensures p !in out.c.disk
    ensures HasCopy(env, out.c.disk, p, c.disk[p]) <==> !FolderVanishesAbove(s, c.rows, p)
  {
    VanishedIsGone(env, s, c, order, listed, out, p);
    if FolderVanishesAbove(s, c.rows, p) {
      var f :| Vanishes(s, c.rows, f) && c.rows[f].kind == IsFolder && f < p;
      VanishedIsGone(env, s, c, order, listed, out, f);
      NoCopyBeneath(env, out.c.disk, p, c.disk[p], f);
    } else {
      var w, met, gone := Reconciled(env, s, c, order, listed, out);
      assert gone == Gone(s, c.rows);
      EditFromWalk(env, s, c, w, gone, p);
      EditInTheEnd(env, w, w, met, gone, listed, p);
    }
  }

  lemma NoCopyBeneath(env: Env, d: Disk, p: Path, o: Obj, f: Path)
    requires EmptyBeneath(d, f) && f < p
    ensures !HasCopy(env, d, p, o)
  {
    forall q | CopyNameOf(env, q, p) ensures q !in d {
      CopyBeneath(env, q, p, f);
    }
  }

  lemma EditFromWalk(env: Env, s: Tree, c: Client, w: Client, gone: set<Path>, p: Path)
    requires IsTree(c.disk) && EditAt(c, gone, p) && p in c.disk && (forall q :: !Live(s, q) ==> SameAt(c, w, q))
    requires (forall q :: q in gone <==> Vanishes(s, c.rows, q)) && !FolderVanishesAbove(s, c.rows, p)
    ensures p in w.rows && p in w.disk && w.disk[p] == c.disk[p] && EditAt(w, gone, p) && p != []
    ensures forall f :: f in gone && f in w.rows && w.rows[f].kind == IsFolder ==> !(f < p)
  {
    assert SameAt(c, w, p);
    forall f | f in gone && f in w.rows && w.rows[f].kind == IsFolder ensures !(f < p) {
      assert SameAt(c, w, f) && Vanishes(s, c.rows, f);
    }
  }

  /** What was never recorded and is not on the server stays as it is, if and only if no recorded folder
      above it vanished. */
  lemma UntrackedStaysIff(env: Env, s: Tree, c: Client, order: seq<Id>, listed: seq<Path>, out: Outcome, q: Path)
    requires Reconcilable(env, s, c) && Reconciles(env, s, c, order, listed, out) && out.Done?
    requires q in c.disk && q !in c.rows && !Live(s, q)
    ensures q in out.c.disk && out.c.disk[q] == c.disk[q] <==> !FolderVanishesAbove(s, c.rows, q)
  {
    if FolderVanishesAbove(s, c.rows, q) {
      var f :| Vanishes(s, c.rows, f) && c.rows[f].kind == IsFolder && f < q;
      VanishedIsGone(env, s, c, order, listed, out, f);
    } else {
      var w, met, gone := Reconciled(env, s, c, order, listed, out);
      UntrackedStays(env, s, c, w, met, gone, listed, out, q);
    }
  }

  lemma UntrackedStays(env: Env, s: Tree, c: Client, w: Client, met: set<Path>, gone: set<Path>, listed: seq<Path>,
                       out: Outcome, q: Path)
    requires Dropped(env, w, met, gone, listed) && IsTree(w.disk) && DropVanished(env, w, met, w.rows, listed) == out
    requires (forall p :: p in gone <==> Vanishes(s, c.rows, p)) && (forall p :: !Live(s, p) ==> SameAt(c, w, p))
    requires out.Done? && q in c.disk && q !in c.rows && !Live(s, q) && !FolderVanishesAbove(s, c.rows, q)
    ensures q in out.c.disk && out.c.disk[q] == c.disk[q]
  {
    assert SameAt(c, w, q);
    forall f | f in gone && f in w.rows && w.rows[f].kind == IsFolder ensures !Under(q, f) {
      assert SameAt(c, w, f) && Vanishes(s, c.rows, f) && f != q;
      assert Under(q, f) ==> f < q;
    }
    StaysInTheEnd(env, w, w, met, gone, listed, q);
  }

  /** With nothing untracked, and no edit where something vanished, nothing comes back: disk and database
      name the same paths, and if the database mirrors the server the push has nothing to do. */
  lemma NothingComesBack(env: Env, s: Tree, c: Client, order: seq<Id>, listed: seq<Path>, out: Outcome,
                         w: Sides, walk: seq<Path>, trash: seq<Path>, done: Progress)
    requires Reconcilable(env, s, c) && Reconciles(env, s, c, order, listed, out) && out.Done?
    requires forall q :: q in c.disk ==> q in c.rows && (Vanishes(s, c.rows, q) && c.rows[q].kind == IsFile ==> !Edited(c, q))
    requires forall x :: x in s ==> !KeptStale(c, x, s[x])
    requires w.c == out.c && ValidServer(w.srv) && w.srv.nodes == s && Pushes(env, w, walk, trash, done)
    ensures out.c.disk.Keys == out.c.rows.Keys && done == Ok(w)
  {
    ReconcileAgrees(env, s, c, order, listed, out);
    AllRecorded(env, s, c, order, listed, out);
    MirroredIsIdle(env, w, walk, trash, done);
  }

  lemma AllRecorded(env: Env, s: Tree, c: Client, order: seq<Id>, listed: seq<Path>, out: Outcome)
    requires Reconcilable(env, s, c) && Reconciles(env, s, c, order, listed, out) && out.Done?
    requires forall q :: q in c.disk ==> q in c.rows && (Vanishes(s, c.rows, q) && c.rows[q].kind == IsFile ==> !Edited(c, q))
    ensures forall q :: q in out.c.disk ==> q in out.c.rows
  {
    forall q | q in out.c.disk ensures q in out.c.rows {
      if q !in out.c.rows {
        NoEdit(s, c, out.c.disk[q]);
        OnlyUntrackedAndCopies(env, s, c, order, listed, out, q);
        assert false;
      }
    }
  }

  lemma MirroredIsIdle(env: Env, w: Sides, walk: seq<Path>, trash: seq<Path>, done: Progress)
    requires env.excludes == [] && Agrees(w.c, w.srv.nodes) && Mirrors(w.c.rows, w.srv.nodes) && ValidServer(w.srv)
    requires (forall q :: q in w.c.disk ==> q in w.c.rows) && Pushes(env, w, walk, trash, done)
    ensures w.c.disk.Keys == w.c.rows.Keys && done == Ok(w)
  {
    AgreesSettles(w.c, w.srv.nodes);
    AgreesInStep(w.c, w.srv.nodes);
    ConvergedPushIsIdle(env, w, walk, trash, done);
  }

  lemma AgreesInStep(c: Client, s: Tree)
    requires Agrees(c, s) && Mirrors(c.rows, s)
    ensures forall p :: p in c.rows ==> InStep(c, p)
  {
    forall p | p in c.rows ensures InStep(c, p) {
      assert Placed(c, s[c.rows[p].id]);
    }
  }

  lemma NoEdit(s: Tree, c: Client, o: Obj)
    requires forall q :: q in c.disk ==> q in c.rows && (Vanishes(s, c.rows, q) && c.rows[q].kind == IsFile ==> !Edited(c, q))
    ensures !IsEdit(c, Gone(s, c.rows), o)
  {
  }

  // ---- what a full reconcile does to edits of live files ------------------------------------------

  /** At the path of a live file stands the server's version afterwards; bytes that stood there before are
      nowhere any more, unless they stood somewhere else too. Nothing is set aside. */
  lemma EditIsOverwritten(env: Env, s: Tree, c: Client, order: seq<Id>, listed: seq<Path>, out: Outcome, x: Id, b: Bytes)
    requires Reconcilable(env, s, c) && Reconciles(env, s, c, order, listed, out) && out.Done?
    requires x in s && s[x].kind == IsFile
    requires forall q :: q in c.disk && c.disk[q].File? && c.disk[q].bytes == b ==> q == s[x].path
    requires forall y :: y in s && s[y].kind == IsFile ==> Content(s[y].hash) != b
    ensures s[x].path in out.c.disk && out.c.disk[s[x].path].File? && out.c.disk[s[x].path].bytes == Content(s[x].hash)
    ensures forall q :: q in out.c.disk && out.c.disk[q].File? ==> out.c.disk[q].bytes != b
  {
    ReconcileAgrees(env, s, c, order, listed, out);
    assert Placed(out.c, s[x]);
    forall q | q in out.c.disk && out.c.disk[q].File? ensures out.c.disk[q].bytes != b {
      if q in out.c.rows {
        RecordedIsTheServers(s, out.c, q);
      } else {
        OnlyUntrackedAndCopies(env, s, c, order, listed, out, q);
        CameFrom(env, s, c, q, out.c.disk[q], x);
      }
    }
  }

  lemma RecordedIsTheServers(s: Tree, c: Client, q: Path)
    requires Agrees(c, s) && q in c.rows && q in c.disk && c.disk[q].File?
    ensures exists y :: y in s && s[y].kind == IsFile && c.disk[q].bytes == Content(s[y].hash)
  {
    var y :| y in s && s[y].path == q;
    assert Placed(c, s[y]);
  }

  /** What is not recorded afterwards stood at a path that is not live. */
  lemma CameFrom(env: Env, s: Tree, c: Client, q: Path, o: Obj, x: Id)
    requires x in s && !Live(s, q)
    requires (q in c.disk && o == c.disk[q]) || SetAside(env, c, Gone(s, c.rows), q, o)
    ensures exists p :: p in c.disk && c.disk[p] == o && p != s[x].path
  {
    if !(q in c.disk && o == c.disk[q]) {
      EditElsewhere(s, c, o, x);
    } else {
      assert Live(s, s[x].path);
    }
  }

  lemma EditElsewhere(s: Tree, c: Client, o: Obj, x: Id)
    requires x in s && IsEdit(c, Gone(s, c.rows), o)
    ensures exists p :: p in c.disk && c.disk[p] == o && p != s[x].path
  {
    var p :| EditAt(c, Gone(s, c.rows), p) && p in c.disk && c.disk[p] == o;
    assert Live(s, s[x].path);
  }
}
