/**
  Where the guarantees of the tiered store end: runs that show its hypotheses are needed, and exactly when an
  upload is safe.
 */
module TieredLimits {
  import opened Base
  import opened Tiered

  const K: Key := Key("k", [1])
  const WRONG: Bytes := [2]

  /** The runs below are spelled one step at a time. */
  lemma Grow(es: seq<Event>, e: Event, s: State)
    requires Run(es) == s
    ensures Run(es + [e]) == Step(s, e)
  {
    RunSnoc(es, e);
  }

  function Plain(hot: map<Key, Bytes>, cold: map<Key, Bytes>, live: set<Key>, deleted: set<Key>): Stores {
    Stores(hot, cold, map[], map[], live, deleted)
  }

  /** An upload of K by process p that finds K nowhere, from the first look to the write. */
  function Uploading(p: Pid): seq<Event> {
    [UploadStart(p, K)] + [UploadLook(p, false)] + [UploadLook(p, false)] + [UploadLook(p, false)] + [UploadWrite(p, true, true)]
  }

  function At(s: State, p: Pid, u: Upload): State {
    s.(uploads := s.uploads[p := u], clock := s.clock + 1)
  }

  lemma Starts(s: State, p: Pid)
    requires p !in s.uploads
    ensures Step(s, UploadStart(p, K)) == At(s, p, LookHot(K))
  {
  }

  lemma Looks(s: State, p: Pid, u: Upload, v: Upload)
    requires p in s.uploads && s.uploads[p] == u && Looked(s.st, u, false) == (s.st, Some(v))
    ensures Step(s, UploadLook(p, false)) == At(s, p, v)
  {
  }

  lemma Writes(s: State, p: Pid)
    requires p in s.uploads && s.uploads[p] == Writing(K) && K !in s.st.deleted
    ensures var t := Step(s, UploadWrite(p, true, true));
            t == s.(st := s.st.(hot := s.st.hot[K := K.content], live := s.st.live + {K}),
                    uploads := s.uploads - {p}, clock := s.clock + 1)
  {
  }

  lemma Nowhere(st: Stores)
    requires K !in st.hot && K !in st.cold
    ensures Looked(st, LookHot(K), false) == (st, Some(LookCold(K)))
    ensures Looked(st, LookCold(K), false) == (st, Some(LookAgain(K)))
    ensures Looked(st, LookAgain(K), false) == (st, Some(Writing(K)))
  {
  }

  lemma UploadLooksRun(es: seq<Event>, p: Pid)
    requires var s := Run(es); p !in s.uploads && K !in s.st.hot && K !in s.st.cold
    ensures Run(es + Uploading(p)[..4]) == At(At(At(At(Run(es), p, LookHot(K)), p, LookCold(K)), p, LookAgain(K)), p, Writing(K))
  {
    var s := Run(es);
    var s1 := At(s, p, LookHot(K));
    var s2 := At(s1, p, LookCold(K));
    var s3 := At(s2, p, LookAgain(K));
    var e1 := es + [UploadStart(p, K)];
    var e2 := e1 + [UploadLook(p, false)];
    var e3 := e2 + [UploadLook(p, false)];
    Nowhere(s.st);
    Grow(es, UploadStart(p, K), s);
    Starts(s, p);
    Grow(e1, UploadLook(p, false), s1);
    Looks(s1, p, LookHot(K), LookCold(K));
    Grow(e2, UploadLook(p, false), s2);
    Looks(s2, p, LookCold(K), LookAgain(K));
    Grow(e3, UploadLook(p, false), s3);
    Looks(s3, p, LookAgain(K), Writing(K));
    assert es + Uploading(p)[..4] == e3 + [UploadLook(p, false)];
  }

  lemma UploadRuns(es: seq<Event>, p: Pid)
    requires var s := Run(es); p !in s.uploads && K !in s.st.hot && K !in s.st.cold && K !in s.st.deleted
    ensures Run(es + Uploading(p)) ==
            var s := Run(es);
            s.(st := s.st.(hot := s.st.hot[K := K.content], live := s.st.live + {K}), clock := s.clock + 5)
  {
    UploadLooksRun(es, p);
    var e4 := es + Uploading(p)[..4];
    Grow(e4, UploadWrite(p, true, true), Run(e4));
    Writes(Run(e4), p);
    assert Run(e4).uploads - {p} == Run(es).uploads;
    assert es + Uploading(p) == e4 + [UploadWrite(p, true, true)];
  }

  // ---- live since the promotion began is not enough ------------------------------------------

  /** Caller 1 misses hot; K is uploaded; only then does caller 1 start the promotion. */
  function LateUpload(): seq<Event> {
    [WarmLook(1, K, false)] + Uploading(2) + [WarmBegin(1)]
  }

  function Outcome(): seq<Event> {
    [RestoreOpen(0, false)] + [RestoreFinish(0)] + [RestoreFinish(0)] + [WarmReturn(1, false)]
  }

  function Missed(): State {
    Init().(calls := map[1 := WarmMissed(K, false)], clock := 1)
  }

  function Begun(): State {
    State(Plain(map[K := [1]], map[], {K}, {}), map[K := 0], [Restore(K, false, 6, Opening)], map[],
          map[1 := Waiting(K, 0)], 7)
  }

  lemma LateUploadRuns()
    ensures Run(LateUpload()) == Begun()
  {
    assert Run([]) == Init();
    Grow([], WarmLook(1, K, false), Init());
    assert [] + [WarmLook(1, K, false)] == [WarmLook(1, K, false)];
    assert Step(Init(), WarmLook(1, K, false)) == Missed();
    UploadRuns([WarmLook(1, K, false)], 2);
    var s := Missed().(st := Plain(map[K := [1]], map[], {K}, {}), clock := 6);
    assert Run([WarmLook(1, K, false)] + Uploading(2)) == s;
    Grow([WarmLook(1, K, false)] + Uploading(2), WarmBegin(1), s);
    assert s.calls[1 := Waiting(K, 0)] == map[1 := Waiting(K, 0)];
    assert Step(s, WarmBegin(1)) == Begun();
  }

  function Ending(phase: Phase, flying: map<Key, nat>, clock: nat): State {
    Begun().(restores := [Restore(K, false, 6, phase)], inflight := flying, clock := clock)
  }

  lemma OutcomeSteps()
    ensures Step(Begun(), RestoreOpen(0, false)) == Ending(Ended(NotFound), map[K := 0], 8)
    ensures Step(Ending(Ended(NotFound), map[K := 0], 8), RestoreFinish(0)) == Ending(Removed(NotFound), map[], 9)
    ensures Step(Ending(Removed(NotFound), map[], 9), RestoreFinish(0)) == Ending(Closed(NotFound), map[], 10)
  {
    assert map[K := 0] - {K} == map[];
  }

  lemma OutcomeReturns()
    ensures Step(Ending(Closed(NotFound), map[], 10), WarmReturn(1, false)) ==
            Ending(Closed(NotFound), map[], 11).(calls := map[1 := Returned(K, IsAbsent, false, 6)])
  {
    assert map[1 := Waiting(K, 0)][1 := Returned(K, IsAbsent, false, 6)] == map[1 := Returned(K, IsAbsent, false, 6)];
  }

  lemma OutcomeRuns(es: seq<Event>)
    requires Run(es) == Begun()
    ensures Run(es + Outcome()) == Ending(Closed(NotFound), map[], 11).(calls := map[1 := Returned(K, IsAbsent, false, 6)])
  {
    var e1 := es + [RestoreOpen(0, false)];
    var e2 := e1 + [RestoreFinish(0)];
    var e3 := e2 + [RestoreFinish(0)];
    OutcomeSteps();
    OutcomeReturns();
    Grow(es, RestoreOpen(0, false), Begun());
    Grow(e1, RestoreFinish(0), Ending(Ended(NotFound), map[K := 0], 8));
    Grow(e2, RestoreFinish(0), Ending(Removed(NotFound), map[], 9));
    Grow(e3, WarmReturn(1, false), Ending(Closed(NotFound), map[], 10));
    assert es + Outcome() == e3 + [WarmReturn(1, false)];
  }

  /** K is live, in hot and right from before the promotion is started to the end, and the call
      that started it is told the content is in neither tier. */
  lemma LiveSinceBeginIsNotEnough()
    ensures var started, ended := Run(LateUpload()), Run(LateUpload() + Outcome());
            && K in started.st.live && |started.restores| == 1 && started.restores[0].phase == Opening
            && K in ended.st.live && RightCopy(ended.st, K)
            && 1 in ended.calls && ended.calls[1].Returned? && ended.calls[1].answer == IsAbsent
  {
    LateUploadRuns();
    OutcomeRuns(LateUpload());
  }

  // ---- uploading again after a delete ------------------------------------------------------------

  /** A demotion whose PUT stores garbage and fails, then a delete whose second step fails. */
  function Poisoned(): seq<Event> {
    [DemoteDigest(K)] + [DemoteOpen(K, false)] + [DemoteLook(K, false)] + [DemotePut(K, Some(WRONG), false)]
    + [DeleteHot(9, K)] + [DeleteCold(9, false)]
  }

  lemma StoresGrow(es: seq<Event>, e: Event, st: Stores)
    requires Run(es).st == st && (e.DemoteDigest? || e.DemoteOpen? || e.DemoteLook? || e.DemotePut? || e.DeleteHot? || e.DeleteCold?)
    ensures Run(es + [e]).st == StoresStep(st, e) && Run(es + [e]).uploads == Run(es).uploads
  {
    RunSnoc(es, e);
  }

  lemma PoisonSteps()
    ensures var st := Plain(map[K := [1]], map[], {K}, {});
            && StoresStep(st, DemoteDigest(K)) == st.(demotions := map[K := Digested([1])])
            && StoresStep(st.(demotions := map[K := Digested([1])]), DemoteOpen(K, false)) ==
               st.(demotions := map[K := Opened([1])])
            && StoresStep(st.(demotions := map[K := Opened([1])]), DemoteLook(K, false)) ==
               st.(demotions := map[K := Missing([1])])
  {
    assert map[K := Digested([1])][K := Opened([1])] == map[K := Opened([1])];
    assert map[K := Opened([1])][K := Missing([1])] == map[K := Missing([1])];
  }

  lemma PoisonEnds()
    ensures var st := Plain(map[K := [1]], map[], {K}, {});
            && StoresStep(st.(demotions := map[K := Missing([1])]), DemotePut(K, Some(WRONG), false)) ==
               st.(cold := map[K := WRONG])
  {
    assert map[K := Missing([1])] - {K} == map[];
  }

  lemma DeleteEnds()
    ensures StoresStep(Plain(map[K := [1]], map[K := WRONG], {K}, {}), DeleteHot(9, K)) == HalfDeleted()
    ensures StoresStep(HalfDeleted(), DeleteCold(9, false)) == Plain(map[], map[K := WRONG], {}, {K})
  {
    assert map[K := [1]] - {K} == map[] && {K} - {K} == {} && {} + {K} == {K};
    assert map[9 := K] - {9} == map[];
  }

  function HalfDeleted(): Stores {
    Plain(map[], map[K := WRONG], {}, {K}).(deletes := map[9 := K])
  }

  lemma PoisonStarts(es: seq<Event>)
    requires Run(es).st == Plain(map[K := [1]], map[], {K}, {})
    ensures var all := es + [DemoteDigest(K)] + [DemoteOpen(K, false)] + [DemoteLook(K, false)];
            && Run(all).st == Plain(map[K := [1]], map[], {K}, {}).(demotions := map[K := Missing([1])])
            && Run(all).uploads == Run(es).uploads
  {
    var st := Plain(map[K := [1]], map[], {K}, {});
    var e1 := es + [DemoteDigest(K)];
    var e2 := e1 + [DemoteOpen(K, false)];
    PoisonSteps();
    StoresGrow(es, DemoteDigest(K), st);
    StoresGrow(e1, DemoteOpen(K, false), st.(demotions := map[K := Digested([1])]));
    StoresGrow(e2, DemoteLook(K, false), st.(demotions := map[K := Opened([1])]));
  }

  lemma PoisonFinishes(es: seq<Event>)
    requires Run(es).st == Plain(map[K := [1]], map[], {K}, {}).(demotions := map[K := Missing([1])])
    requires Run(es).uploads == map[]
    ensures var all := es + [DemotePut(K, Some(WRONG), false)] + [DeleteHot(9, K)] + [DeleteCold(9, false)];
            Run(all).st == Plain(map[], map[K := WRONG], {}, {K}) && Run(all).uploads == map[]
  {
    var st := Plain(map[K := [1]], map[], {K}, {});
    var e4 := es + [DemotePut(K, Some(WRONG), false)];
    PoisonEnds();
    DeleteEnds();
    StoresGrow(es, DemotePut(K, Some(WRONG), false), Run(es).st);
    StoresGrow(e4, DeleteHot(9, K), st.(cold := map[K := WRONG]));
    StoresGrow(e4 + [DeleteHot(9, K)], DeleteCold(9, false), HalfDeleted());
  }

  lemma PoisonedRuns(es: seq<Event>)
    requires Run(es).st == Plain(map[K := [1]], map[], {K}, {}) && Run(es).uploads == map[]
    ensures Run(es + Poisoned()).st == Plain(map[], map[K := WRONG], {}, {K}) && Run(es + Poisoned()).uploads == map[]
  {
    PoisonStarts(es);
    var e3 := es + [DemoteDigest(K)] + [DemoteOpen(K, false)] + [DemoteLook(K, false)];
    PoisonFinishes(e3);
    assert es + Poisoned() == e3 + [DemotePut(K, Some(WRONG), false)] + [DeleteHot(9, K)] + [DeleteCold(9, false)];
  }

  // ---- when uploading again is safe --------------------------------------------------------------

  /** An upload of `k` from start to end with no fault and nothing in between; looks and writes it
      does not come to are steps that change nothing. */
  function Upload(s: State, p: Pid, k: Key): State {
    var s3 := Step(Step(Step(s, UploadStart(p, k)), UploadLook(p, false)), UploadLook(p, false));
    Step(Step(s3, UploadLook(p, false)), UploadWrite(p, true, true))
  }

  /** The object that answers for the key, hot before cold, if there is one, is the right one. */
  predicate NothingWrong(st: Stores, k: Key) {
    if k in st.hot then st.hot[k] == k.content else k in st.cold ==> st.cold[k] == k.content
  }

  lemma UploadEnds(s: State, p: Pid, k: Key)
    requires p !in s.uploads
    ensures var t := Upload(s, p, k);
            && p !in t.uploads
            && t.st == Accept(if k in s.st.hot || k in s.st.cold then s.st else Install(s.st, k, k.content), k)
  {
    var s1 := Step(s, UploadStart(p, k));
    var s2 := Step(s1, UploadLook(p, false));
    var s3 := Step(s2, UploadLook(p, false));
    if k in s.st.hot {
      assert s2.uploads[p] == LookAgain(k) && s2.st == s.st;
      assert p !in s3.uploads && s3.st == Accept(s.st, k);
    } else if k in s.st.cold {
      assert s2.uploads[p] == LookCold(k) && s2.st == s.st;
      assert p !in s3.uploads && s3.st == Accept(s.st, k);
    } else {
      assert s3.uploads[p] == LookAgain(k) && s3.st == s.st;
      var s4 := Step(s3, UploadLook(p, false));
      assert s4.uploads[p] == Writing(k) && s4.st == s.st;
    }
  }

  /** From any state, an upload that returns leaves a right copy if and only if there was no wrong
      object to find: the branch that fails is the one that reports "existed". */
  lemma UploadIsSafeIff(s: State, p: Pid, k: Key)
    requires p !in s.uploads
    ensures p !in Upload(s, p, k).uploads
    ensures RightCopy(Upload(s, p, k).st, k) <==> NothingWrong(s.st, k)
  {
    UploadEnds(s, p, k);
  }

  lemma DeleteRuns(s: State, p: Pid, k: Key)
    requires p !in s.st.deletes
    ensures var t := Step(Step(s, DeleteHot(p, k)), DeleteCold(p, true));
            && t.st.hot == s.st.hot - {k} && t.st.cold == s.st.cold - {k} && t.st.demotions == s.st.demotions
            && t.st.deletes == s.st.deletes && t.uploads == s.uploads && k in t.st.deleted
    ensures forall x :: x in Step(Step(s, DeleteHot(p, k)), DeleteCold(p, true)).restores ==>
              exists y :: y in s.restores && x == RestoreSinceDelete(y, k)
  {
    var t1 := Step(s, DeleteHot(p, k));
    assert s.st.deletes[p := k] - {p} == s.st.deletes;
    forall x | x in t1.restores ensures exists y :: y in s.restores && x == RestoreSinceDelete(y, k) {
      var r :| 0 <= r < |t1.restores| && t1.restores[r] == x;
      assert s.restores[r] in s.restores && x == RestoreSinceDelete(s.restores[r], k);
    }
  }

  lemma SettlesThenLive(t: State, k: Key, q: Pid)
    requires Settled(t, k) && q !in t.uploads
    ensures k !in Step(t, Settle(k)).st.deleted && k in Upload(Step(t, Settle(k)), q, k).st.live
  {
    UploadEnds(Step(t, Settle(k)), q, k);
  }

  /** A delete that reaches both tiers, with no demotion of the key under way, no other delete of it
      and no promotion holding bytes, is settled at once; an upload after it makes the key live, so
      that from there on TierSafety and LiveIsNeverLost cover it again. */
  lemma CompleteDeleteSettles(s: State, p: Pid, k: Key, q: Pid)
    requires p !in s.st.deletes && k !in s.st.deletes.Values && k !in s.st.demotions && q !in s.uploads
    requires forall x :: x in s.restores && x.k == k ==> !x.phase.Looking? && !x.phase.Copying?
    ensures var t := Step(Step(s, DeleteHot(p, k)), DeleteCold(p, true));
            && Settled(t, k) && k !in t.st.hot && k !in t.st.cold
            && k !in Step(t, Settle(k)).st.deleted
            && k in Upload(Step(t, Settle(k)), q, k).st.live
  {
    DeleteRuns(s, p, k);
    SettlesThenLive(Step(Step(s, DeleteHot(p, k)), DeleteCold(p, true)), k, q);
  }

  lemma WrongIsLost(s: State, p: Pid)
    requires s.st == Plain(map[], map[K := WRONG], {}, {K}) && p !in s.uploads
    ensures Step(s, Settle(K)).st.deleted == {K}
    ensures var t := Upload(s, p, K); p !in t.uploads && t.st == s.st && !RightCopy(t.st, K)
  {
    UploadEnds(s, p, K);
  }

  lemma FirstUpload()
    ensures Run(Uploading(2)).st == Plain(map[K := [1]], map[], {K}, {}) && Run(Uploading(2)).uploads == map[]
  {
    assert Run([]) == Init();
    UploadRuns([], 2);
    assert [] + Uploading(2) == Uploading(2);
    assert map[][K := K.content] == map[K := [1]] && {} + {K} == {K};
  }

  /** The guarantee does not extend to content uploaded again after a delete that left a wrong object
      in cold: the delete never settles, and the new upload is reported as "existed" although
      neither tier holds the bytes. */
  lemma ReuploadAfterDeleteIsLost()
    ensures var s := Run(Uploading(2) + Poisoned());
            && Step(s, Settle(K)).st.deleted == s.st.deleted == {K}
            && var t := Upload(s, 3, K);
               3 !in t.uploads && t.st == s.st && !RightCopy(t.st, K)
  {
    FirstUpload();
    PoisonedRuns(Uploading(2));
    WrongIsLost(Run(Uploading(2) + Poisoned()), 3);
  }
}
