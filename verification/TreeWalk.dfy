/**
  The queue discipline of reconcileTree (client/internal/engine/pull.go): a breadth-first walk
  through ListChildren meets every live node that is not excluded once, after its folder.
 */
module TreeWalk {
  import opened Base
  import opened Pull
  import opened Server
  import opened Reconcile

  predicate IsChild(t: Tree, x: Id, parent: Id)
    requires IsLiveFolder(t, parent)
  {
    x in t && t[x].path != [] && Parent(t[x].path) == PathOf(t, parent)
  }

  /** The folder has been met, so its children are due. */
  ghost predicate Reached(t: Tree, order: seq<Id>, g: Id) {
    IsLiveFolder(t, g) && (g == ROOT || g in order)
  }

  ghost predicate Distinct(ids: seq<Id>) {
    forall i, j :: 0 <= i < j < |ids| ==> ids[i] != ids[j]
  }

  /** `order` was met, the folders in `queue` are to be listed, and of the folder being listed
      the children in `rest` are to come. */
  ghost predicate Walking(env: Env, t: Tree, order: seq<Id>, queue: seq<Id>, rest: set<Id>) {
    && Ordered(env, t, order)
    && Queued(t, order, queue)
    && Parted(env, t, order, queue, rest)
    && AllDue(t, order, queue, rest)
  }

  /** Folders that have been met, each queued once. */
  ghost predicate Queued(t: Tree, order: seq<Id>, queue: seq<Id>) {
    Distinct(queue) && forall g :: g in queue ==> Reached(t, order, g)
  }

  ghost predicate AllDue(t: Tree, order: seq<Id>, queue: seq<Id>, rest: set<Id>) {
    forall x :: x in rest ==> x in t && Due(t, order, queue, x)
  }

  /** Met once each, none excluded, every folder before what it holds. */
  ghost predicate Ordered(env: Env, t: Tree, order: seq<Id>) {
    && Distinct(order)
    && (forall x :: x in order ==> x in t && !Excluded(env, t[x].path))
    && (forall i {:trigger order[i]} :: 0 <= i < |order| ==>
          Parent(t[order[i]].path) == [] || Parent(t[order[i]].path) in MetPaths(t, order[..i]))
  }

  /** A child of a folder that was met has been met itself, or its folder is queued, or it is
      among the rest: exactly one of these. */
  ghost predicate Parted(env: Env, t: Tree, order: seq<Id>, queue: seq<Id>, rest: set<Id>) {
    forall x, g :: Reached(t, order, g) && IsChild(t, x, g) && !Excluded(env, t[x].path) ==>
      (x in order <==> g !in queue && x !in rest)
  }

  /** The node's folder was met and is no longer queued. */
  ghost predicate Due(t: Tree, order: seq<Id>, queue: seq<Id>, x: Id)
    requires x in t
  {
    exists g :: Reached(t, order, g) && g !in queue && IsChild(t, x, g)
  }

  lemma OneParent(t: Tree, x: Id, g: Id, h: Id)
    requires ValidTree(t) && ROOT !in t && IsLiveFolder(t, g) && IsLiveFolder(t, h)
    requires IsChild(t, x, g) && IsChild(t, x, h)
    ensures g == h
  {
  }

  lemma WalkStarts(env: Env, t: Tree)
    ensures Walking(env, t, [], [ROOT], {})
  {
  }

  lemma Dequeue(env: Env, t: Tree, order: seq<Id>, queue: seq<Id>, rest: set<Id>)
    requires ValidTree(t) && ROOT !in t && queue != [] && Walking(env, t, order, queue, {})
    requires forall x :: x in rest <==> IsLiveFolder(t, queue[0]) && IsChild(t, x, queue[0])
    ensures Walking(env, t, order, queue[1..], rest)
  {
    var g := queue[0];
    assert g in queue && queue == [g] + queue[1..];
    forall x, h | Reached(t, order, h) && IsChild(t, x, h) && !Excluded(env, t[x].path)
      ensures x in order <==> h !in queue[1..] && x !in rest
    {
      if x in rest {
        OneParent(t, x, g, h);
      }
    }
    forall x | x in rest ensures Due(t, order, queue[1..], x) {
      assert Reached(t, order, g) && g !in queue[1..];
    }
  }

  lemma SkipExcluded(env: Env, t: Tree, order: seq<Id>, queue: seq<Id>, rest: set<Id>, x: Id)
    requires Walking(env, t, order, queue, rest + {x}) && x in t && Excluded(env, t[x].path)
    ensures Walking(env, t, order, queue, rest)
  {
  }

  /** A folder met just now has no child met before it. */
  lemma ChildNotYetMet(env: Env, t: Tree, order: seq<Id>, x: Id, y: Id)
    requires ValidTree(t) && Ordered(env, t, order) && x in t && x !in order
    requires t[x].path != [] && y in t && Parent(t[y].path) == t[x].path
    ensures y !in order
  {
    forall i | 0 <= i < |order| ensures order[i] != y {
      forall j | 0 <= j < i ensures t[order[..i][j]].path != t[x].path {
        assert order[j] in order;
      }
    }
  }

  lemma MetParent(env: Env, t: Tree, order: seq<Id>, queue: seq<Id>, x: Id)
    requires x in t && (forall y :: y in order ==> y in t) && Due(t, order, queue, x)
    ensures Parent(t[x].path) == [] || Parent(t[x].path) in MetPaths(t, order)
  {
    var g :| Reached(t, order, g) && IsChild(t, x, g);
    if g != ROOT {
      var i :| 0 <= i < |order| && order[i] == g;
    }
  }

  lemma MeetOrdered(env: Env, t: Tree, order: seq<Id>, queue: seq<Id>, x: Id)
    requires Ordered(env, t, order) && x in t && Due(t, order, queue, x) && x !in order && !Excluded(env, t[x].path)
    ensures Ordered(env, t, order + [x])
  {
    var longer := order + [x];
    MetParent(env, t, order, queue, x);
    forall i {:trigger longer[i]} | 0 <= i < |longer|
      ensures Parent(t[longer[i]].path) == [] || Parent(t[longer[i]].path) in MetPaths(t, longer[..i])
    {
      assert longer[..i] == order[..i];
      assert order[..|order|] == order;
    }
  }

  lemma MeetParted(env: Env, t: Tree, order: seq<Id>, queue: seq<Id>, rest: set<Id>, x: Id, up: Id)
    requires ValidTree(t) && ROOT !in t && Ordered(env, t, order) && Parted(env, t, order, queue, rest + {x})
    requires x in t && x !in rest && x !in order
    requires Reached(t, order, up) && up !in queue && IsChild(t, x, up) && x !in queue
    ensures Parted(env, t, order + [x], queue, rest) || t[x].kind == IsFolder
    ensures Parted(env, t, order + [x], queue + [x], rest) || t[x].kind == IsFile
  {
    forall y, g | Reached(t, order + [x], g) && IsChild(t, y, g) && !Excluded(env, t[y].path)
      ensures if g == x then y !in order + [x] else y in order + [x] <==> g !in queue && y !in rest
    {
      if g == x {
        ChildNotYetMet(env, t, order, x, y);
      } else if y == x {
        OneParent(t, x, g, up);
      } else {
        assert Reached(t, order, g);
      }
    }
  }

  lemma MeetDue(t: Tree, order: seq<Id>, queue: seq<Id>, rest: set<Id>, x: Id)
    requires AllDue(t, order, queue, rest) && x !in order && x != ROOT
    ensures AllDue(t, order + [x], queue, rest) && AllDue(t, order + [x], queue + [x], rest)
  {
    forall y | y in rest ensures y in t && Due(t, order + [x], queue, y) && Due(t, order + [x], queue + [x], y) {
      var g :| Reached(t, order, g) && g !in queue && IsChild(t, y, g);
      assert Reached(t, order + [x], g) && g != x;
    }
  }

  lemma MeetQueue(t: Tree, order: seq<Id>, queue: seq<Id>, x: Id)
    requires Queued(t, order, queue) && x !in queue && x in t
    ensures Queued(t, order + [x], queue)
    ensures t[x].kind == IsFolder ==> Queued(t, order + [x], queue + [x])
  {
    forall g | g in queue ensures Reached(t, order + [x], g) {
      assert Reached(t, order, g);
    }
    assert t[x].kind == IsFolder ==> Reached(t, order + [x], x);
  }

  /** The node is new, and so is its place in the queue. */
  lemma NotMetYet(env: Env, t: Tree, order: seq<Id>, queue: seq<Id>, rest: set<Id>, x: Id) returns (up: Id)
    requires ROOT !in t && Walking(env, t, order, queue, rest + {x}) && x in t && !Excluded(env, t[x].path)
    ensures Reached(t, order, up) && up !in queue && IsChild(t, x, up)
    ensures x !in order && x !in queue
  {
    assert Due(t, order, queue, x);
    up :| Reached(t, order, up) && up !in queue && IsChild(t, x, up);
    assert x !in order;
    assert !Reached(t, order, x);
  }

  lemma Meet(env: Env, t: Tree, order: seq<Id>, queue: seq<Id>, rest: set<Id>, x: Id)
    requires ValidTree(t) && ROOT !in t && Walking(env, t, order, queue, rest + {x})
    requires x in t && x !in rest && !Excluded(env, t[x].path)
    ensures Walking(env, t, order + [x], if t[x].kind == IsFolder then queue + [x] else queue, rest)
  {
    var up := NotMetYet(env, t, order, queue, rest, x);
    assert AllDue(t, order, queue, rest) && Due(t, order, queue, x);
    MeetOrdered(env, t, order, queue, x);
    MeetParted(env, t, order, queue, rest, x, up);
    MeetDue(t, order, queue, rest, x);
    MeetQueue(t, order, queue, x);
  }

  lemma {:induction false} AllMet(env: Env, t: Tree, order: seq<Id>, x: Id)
    requires ValidTree(t) && ROOT !in t && Walking(env, t, order, [], {}) && x in t && !Excluded(env, t[x].path)
    ensures x in order
    decreases |t[x].path|
  {
    var up := Parent(t[x].path);
    if up == [] {
      assert Reached(t, order, ROOT) && IsChild(t, x, ROOT);
    } else {
      assert HasFolder(t, up);
      var g :| g in t && t[g].path == up && t[g].kind == IsFolder;
      assert !Excluded(env, up) by {
        assert forall e :: e in env.excludes && Under(up, e) ==> Under(t[x].path, e);
      }
      AllMet(env, t, order, g);
      assert Reached(t, order, g) && IsChild(t, x, g);
    }
  }

  /** When the queue runs dry, the order in which nodes were met is a walk of the tree. */
  lemma WalkEnds(env: Env, t: Tree, order: seq<Id>)
    requires ValidTree(t) && ROOT !in t && Walking(env, t, order, [], {})
    ensures IsTreeWalk(env, t, order)
  {
    forall x | x in t && !Excluded(env, t[x].path) ensures x in order {
      AllMet(env, t, order, x);
    }
  }

  lemma {:induction false} DistinctFits(ids: seq<Id>, all: set<Id>)
    requires Distinct(ids) && forall x :: x in ids ==> x in all
    ensures |ids| <= |all|
  {
    if ids != [] {
      var n := |ids| - 1;
      forall x | x in ids[..n] ensures x in all - {ids[n]} {
        assert x in ids;
      }
      DistinctFits(ids[..n], all - {ids[n]});
    }
  }

  /** A walk extended by one node. */
  lemma {:induction false} WalkTreeSnoc(env: Env, s: Tree, c: Client, order: seq<Id>, x: Id)
    requires x in s && forall y :: y in order ==> y in s
    ensures var walked := WalkTree(env, s, c, order);
            WalkTree(env, s, c, order + [x]) == if walked.Failed? then walked else Materialize(env, walked.c, x, s[x])
    decreases |order|
  {
    if order != [] {
      assert (order + [x])[0] == order[0] && (order + [x])[1..] == order[1..] + [x];
      var first := Materialize(env, c, order[0], s[order[0]]);
      if first.Done? {
        WalkTreeSnoc(env, s, first.c, order[1..], x);
      }
    }
  }

  /** The children still to come. */
  ghost function From(ids: seq<Id>, k: nat): set<Id> {
    set i | k <= i < |ids| :: ids[i]
  }

  lemma FromSplit(ids: seq<Id>, k: nat)
    requires Distinct(ids) && k < |ids|
    ensures From(ids, k) == From(ids, k + 1) + {ids[k]} && ids[k] !in From(ids, k + 1)
  {
  }

  lemma MetPathsSnoc(t: Tree, order: seq<Id>, x: Id)
    requires x in t && forall y :: y in order ==> y in t
    ensures MetPaths(t, order + [x]) == MetPaths(t, order) + {t[x].path}
  {
    var longer := order + [x];
    assert longer[|order|] == x && forall i :: 0 <= i < |order| ==> longer[i] == order[i];
  }

  /** One node of the listing, for the queue, the set of met paths and the client alike. */
  lemma Visit(env: Env, t: Tree, start: Client, c: Client, order: seq<Id>, queue: seq<Id>, rest: set<Id>, x: Id)
    requires ValidTree(t) && ROOT !in t && Walking(env, t, order, queue, rest + {x})
    requires x in t && x !in rest && !Excluded(env, t[x].path)
    requires WalkTree(env, t, start, order) == Done(c)
    ensures Walking(env, t, order + [x], if t[x].kind == IsFolder then queue + [x] else queue, rest)
    ensures forall y :: y in order + [x] ==> y in t
    ensures MetPaths(t, order + [x]) == MetPaths(t, order) + {t[x].path}
    ensures WalkTree(env, t, start, order + [x]) == Materialize(env, c, x, t[x])
  {
    Meet(env, t, order, queue, rest, x);
    MetPathsSnoc(t, order, x);
    WalkTreeSnoc(env, t, start, order, x);
  }
}
