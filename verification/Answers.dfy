/**
  When the tiered store gives which answer: exactly when the one step that decides says so; and what a
  promotion and a demotion achieve when nothing disturbs them.
 */
module Answers {
  import opened Base
  import opened Tiered

  ghost predicate EndedIn(x: Restore, result: Result) {
    (x.phase.Ended? || x.phase.Removed? || x.phase.Closed?) && x.phase.result == result
  }

  /** The step that decides promotion `r`. "Not found": cold lacks the object when it is opened. Success:
      the look finds hot holding the key already, or the write reports ok. Failure: the open or the look
      fails, or the write does not report ok. */
  ghost predicate Concludes(s: State, e: Event, r: nat, result: Result) {
    && r < |s.restores|
    && var x := s.restores[r];
       match result
       case NotFound => e == RestoreOpen(r, false) && x.phase.Opening? && x.k !in s.st.cold
       case Success =>
         || (e == RestoreLook(r, false) && x.phase.Looking? && x.k in s.st.hot)
         || (e.RestoreInstall? && e.r == r && e.ok && x.phase.Copying?)
       case Failure =>
         || (e == RestoreOpen(r, true) && x.phase.Opening?)
         || (e == RestoreLook(r, true) && x.phase.Looking?)
         || (e.RestoreInstall? && e.r == r && !e.ok && x.phase.Copying?)
  }

  ghost predicate Uncrashed(es: seq<Event>, i: nat) {
    forall j :: i <= j < |es| ==> !es[j].Crash?
  }

  /** Step `i`, not followed by a crash, decides promotion `r`. */
  ghost predicate ConcludedAt(es: seq<Event>, i: nat, r: nat, result: Result) {
    i < |es| && Uncrashed(es, i) && Concludes(Run(es[..i]), es[i], r, result)
  }

  ghost predicate Concluded(es: seq<Event>, r: nat, result: Result) {
    exists i :: ConcludedAt(es, i, r, result)
  }

  lemma RestoreMoves(s: State, e: Event, r: nat, result: Result)
    requires r < |s.restores| && !e.Crash?
    ensures r < |Step(s, e).restores|
    ensures EndedIn(Step(s, e).restores[r], result) <==> EndedIn(s.restores[r], result) || Concludes(s, e, r, result)
  {
    if e.DeleteHot? {
      assert Step(s, e).restores[r].phase == s.restores[r].phase;
    } else {
      RestorePhase(s, e, r);
      PhaseMoves(s, e, r, result, Step(s, e).restores[r]);
    }
  }

  lemma PhaseMoves(s: State, e: Event, r: nat, result: Result, y: Restore)
    requires r < |s.restores|
    requires y.phase == if IsRestoreEvent(e) && e.r == r then NextPhase(s.st, s.restores[r], e) else s.restores[r].phase
    ensures EndedIn(y, result) <==> EndedIn(s.restores[r], result) || Concludes(s, e, r, result)
  {
  }

  lemma RestorePhase(s: State, e: Event, r: nat)
    requires r < |s.restores| && !e.Crash? && !e.DeleteHot?
    ensures r < |Step(s, e).restores|
    ensures Step(s, e).restores[r].phase ==
            if IsRestoreEvent(e) && e.r == r then NextPhase(s.st, s.restores[r], e) else s.restores[r].phase
  {
    WhoMoves(s, e);
    CallStepAppends(s, e);
  }

  lemma {:induction false} RestoresRemain(es: seq<Event>, i: nat)
    requires i <= |es| && Uncrashed(es, i)
    ensures |Run(es[..i]).restores| <= |Run(es).restores|
    decreases |es|
  {
    if i == |es| {
      assert es[..i] == es;
    } else {
      var before, e := es[..|es| - 1], es[|es| - 1];
      assert before[..i] == es[..i];
      RestoresRemain(before, i);
      if |Run(before).restores| > 0 {
        RestoreMoves(Run(before), e, |Run(before).restores| - 1, Success);
      }
    }
  }

  lemma ConcludedBefore(es: seq<Event>, e: Event, i: nat, r: nat, result: Result)
    requires !e.Crash? && i < |es|
    ensures ConcludedAt(es + [e], i, r, result) <==> ConcludedAt(es, i, r, result)
  {
    var all := es + [e];
    assert all[..i] == es[..i] && all[i] == es[i];
    assert Uncrashed(all, i) <==> Uncrashed(es, i) by {
      assert forall j :: i <= j < |es| ==> all[j] == es[j];
    }
  }

  lemma ConcludedNow(es: seq<Event>, e: Event, r: nat, result: Result)
    requires !e.Crash?
    ensures ConcludedAt(es + [e], |es|, r, result) <==> Concludes(Run(es), e, r, result)
  {
    assert (es + [e])[..|es|] == es;
  }

  lemma ConcludedSnoc(es: seq<Event>, e: Event, r: nat, result: Result)
    requires !e.Crash?
    ensures Concluded(es + [e], r, result) <==> Concluded(es, r, result) || Concludes(Run(es), e, r, result)
  {
    ConcludedNow(es, e, r, result);
    forall i | 0 <= i < |es| ensures ConcludedAt(es + [e], i, r, result) <==> ConcludedAt(es, i, r, result) {
      ConcludedBefore(es, e, i, r, result);
    }
  }

  /** A promotion ends in "not found" if and only if cold lacked the object when it opened it, in success if
      and only if its look found hot or its write reported ok, and in failure if and only if an access
      failed. */
  lemma {:induction false} PromotionEndsIff(es: seq<Event>, r: nat, result: Result)
    requires r < |Run(es).restores|
    ensures EndedIn(Run(es).restores[r], result) <==> Concluded(es, r, result)
    decreases |es|
  {
    if es != [] {
      var before, e := es[..|es| - 1], es[|es| - 1];
      assert es == before + [e];
      RunSnoc(before, e);
      assert !e.Crash?;
      ConcludedSnoc(before, e, r, result);
      if r < |Run(before).restores| {
        PromotionEndsIff(before, r, result);
        RestoreMoves(Run(before), e, r, result);
      } else {
        NotConcludedYet(before, r, result);
        RestoreIdentity(Run(before), e, r);
      }
    }
  }

  lemma NotConcludedYet(es: seq<Event>, r: nat, result: Result)
    requires r >= |Run(es).restores|
    ensures !Concluded(es, r, result)
  {
    forall i | 0 <= i < |es| && Uncrashed(es, i) ensures !ConcludedAt(es, i, r, result) {
      RestoresRemain(es, i);
    }
  }

  // ---- calls -------------------------------------------------------------------------------

  /** No call of `p` is under way. */
  predicate Idle(s: State, p: Pid) {
    p in s.calls ==> s.calls[p].Returned?
  }

  predicate WaitsFor(s: State, p: Pid, r: nat) {
    p in s.calls && s.calls[p] == Waiting(s.calls[p].k, r) && r < |s.restores| && s.restores[r].phase.Closed?
  }

  /** The result behind an answer of Warm that waited. */
  function Behind(answer: Answer): Option<Result> {
    match answer
    case IsHot => Some(Success)
    case IsAbsent => Some(NotFound)
    case IsError => Some(Failure)
    case _ => None
  }

  /** The step by which a call is answered without waiting for a promotion. Warm is told "hot" when its look
      finds the key there, and "restoring" when its time is up; Stat is told a size when it finds the key in
      either tier, and "not found" when it finds it in neither; any failed look is an error. */
  ghost predicate AnsweredByLook(s: State, e: Event, p: Pid, answer: Answer) {
    match answer
    case IsHot => e.WarmLook? && e.p == p && !e.fault && Idle(s, p) && e.k in s.st.hot
    case IsRestoring => e == WarmReturn(p, true) && p in s.calls && s.calls[p].Waiting?
    case IsSize =>
      || (e.StatLook? && e.p == p && !e.fault && Idle(s, p) && e.k in s.st.hot)
      || (e == StatCold(p, false) && p in s.calls && s.calls[p].StatMissed? && s.calls[p].k in s.st.cold)
    case IsAbsent => e == StatCold(p, false) && p in s.calls && s.calls[p].StatMissed? && s.calls[p].k !in s.st.cold
    case IsError =>
      || (((e.WarmLook? && e.p == p && e.fault) || (e.StatLook? && e.p == p && e.fault)) && Idle(s, p))
      || (e == StatCold(p, true) && p in s.calls && s.calls[p].StatMissed?)
  }

  /** The step by which a call is answered: a look of its own, or the end of the promotion that Warm waited
      for, which the step that decided the promotion has settled. */
  ghost predicate Answers(es: seq<Event>, e: Event, p: Pid, answer: Answer) {
    var s := Run(es);
    || AnsweredByLook(s, e, p, answer)
    || (e == WarmReturn(p, false) && Behind(answer).Some?
        && exists r: nat :: WaitsFor(s, p, r) && Concluded(es, r, Behind(answer).value))
  }

  /** The same read off the state before. */
  ghost predicate AnswersFrom(s: State, e: Event, p: Pid, answer: Answer) {
    || AnsweredByLook(s, e, p, answer)
    || (e == WarmReturn(p, false) && Behind(answer).Some?
        && exists r: nat :: WaitsFor(s, p, r) && EndedIn(s.restores[r], Behind(answer).value))
  }

  ghost predicate Answered(s: State, p: Pid, answer: Answer) {
    p in s.calls && s.calls[p].Returned? && s.calls[p].answer == answer
  }

  ghost predicate SameCall(s: State, t: State, p: Pid) {
    p in s.calls && p in t.calls && t.calls[p] == s.calls[p]
  }

  lemma LookAnswers(s: State, e: Event, p: Pid, answer: Answer)
    requires AnsweredByLook(s, e, p, answer)
    ensures Answered(CallStep(s, e), p, answer)
  {
  }

  lemma WaitAnswers(s: State, p: Pid, answer: Answer, r: nat)
    requires WaitsFor(s, p, r) && Behind(answer).Some? && EndedIn(s.restores[r], Behind(answer).value)
    ensures Answered(CallStep(s, WarmReturn(p, false)), p, answer)
  {
  }

  lemma AnsweredHow(s: State, e: Event, p: Pid, answer: Answer)
    requires Answered(CallStep(s, e), p, answer)
    ensures AnswersFrom(s, e, p, answer) || SameCall(s, CallStep(s, e), p)
  {
    if e == WarmReturn(p, false) && p in s.calls && s.calls[p].Waiting? {
      var r := s.calls[p].r;
      assert r < |s.restores| && s.restores[r].phase.Closed? ==> WaitsFor(s, p, r);
    }
  }

  lemma StepAnswer(s: State, e: Event, p: Pid, answer: Answer)
    ensures AnswersFrom(s, e, p, answer) ==> Answered(Step(s, e), p, answer)
    ensures Answered(Step(s, e), p, answer) ==> AnswersFrom(s, e, p, answer) || SameCall(s, Step(s, e), p)
  {
    if AnswersFrom(s, e, p, answer) {
      if AnsweredByLook(s, e, p, answer) {
        LookAnswers(s, e, p, answer);
      } else {
        var r: nat :| WaitsFor(s, p, r) && EndedIn(s.restores[r], Behind(answer).value);
        WaitAnswers(s, p, answer, r);
      }
    }
    OtherSteps(s, e, p, answer);
  }

  lemma OtherSteps(s: State, e: Event, p: Pid, answer: Answer)
    ensures Answered(Step(s, e), p, answer) ==> AnswersFrom(s, e, p, answer) || SameCall(s, Step(s, e), p)
  {
    if Answered(Step(s, e), p, answer) && !e.Crash? && !e.DeleteHot? {
      WhoMoves(s, e);
      if Answered(CallStep(s, e), p, answer) {
        AnsweredHow(s, e, p, answer);
      }
    }
  }

  lemma AnswersIff(es: seq<Event>, e: Event, p: Pid, answer: Answer)
    ensures Answers(es, e, p, answer) <==> AnswersFrom(Run(es), e, p, answer)
  {
    var s := Run(es);
    if Behind(answer).Some? {
      forall r: nat | WaitsFor(s, p, r)
        ensures Concluded(es, r, Behind(answer).value) <==> EndedIn(s.restores[r], Behind(answer).value)
      {
        PromotionEndsIff(es, r, Behind(answer).value);
      }
    }
  }

  /** The call was given the answer at step `i` and has not been used again. */
  ghost predicate AnsweredAt(es: seq<Event>, i: nat, p: Pid, answer: Answer) {
    i < |es| && Answers(es[..i], es[i], p, answer) && SameCall(Run(es[..i + 1]), Run(es), p)
  }

  lemma AnsweredNow(es: seq<Event>, i: nat, p: Pid, answer: Answer)
    requires AnsweredAt(es, i, p, answer)
    ensures Answered(Run(es), p, answer)
  {
    AnswersIff(es[..i], es[i], p, answer);
    StepAnswer(Run(es[..i]), es[i], p, answer);
    assert es[..i + 1] == es[..i] + [es[i]];
    RunSnoc(es[..i], es[i]);
  }

  lemma AnsweredSince(es: seq<Event>, e: Event, i: nat, p: Pid, answer: Answer)
    requires AnsweredAt(es, i, p, answer) && SameCall(Run(es), Run(es + [e]), p)
    ensures AnsweredAt(es + [e], i, p, answer)
  {
    var all := es + [e];
    assert all[..i] == es[..i] && all[i] == es[i] && all[..i + 1] == es[..i + 1];
  }

  lemma {:induction false} AnsweredSometime(es: seq<Event>, p: Pid, answer: Answer) returns (i: nat)
    requires Answered(Run(es), p, answer)
    ensures AnsweredAt(es, i, p, answer)
    decreases |es|
  {
    var before, e := es[..|es| - 1], es[|es| - 1];
    assert es == before + [e] && es[..|es|] == es;
    RunSnoc(before, e);
    AnswersIff(before, e, p, answer);
    StepAnswer(Run(before), e, p, answer);
    if Answers(before, e, p, answer) {
      i := |before|;
    } else {
      i := AnsweredSometime(before, p, answer);
      AnsweredSince(before, e, i, p, answer);
    }
  }

  /** Warm and Stat have given an answer if and only if the step that decides it said so: a look of their
      own, the end of the wait, or for a Warm that waited the step that decided the promotion. */
  lemma AnswerIff(es: seq<Event>, p: Pid, answer: Answer)
    ensures Answered(Run(es), p, answer) <==> exists i :: AnsweredAt(es, i, p, answer)
  {
    if Answered(Run(es), p, answer) {
      var i := AnsweredSometime(es, p, answer);
    } else if exists i :: AnsweredAt(es, i, p, answer) {
      var i :| AnsweredAt(es, i, p, answer);
      AnsweredNow(es, i, p, answer);
    }
  }

  // ---- undisturbed ---------------------------------------------------------------------------

  /** Warm from its look at hot until it waits for the promotion it has started. */
  function Begun(s: State, p: Pid, k: Key): State {
    Step(Step(s, WarmLook(p, k, false)), WarmBegin(p))
  }

  /** The promotion from the open to the close of `done`, with no fault. */
  function Promoted(s: State, r: nat): State {
    var s1 := Step(Step(Step(s, RestoreOpen(r, false)), RestoreLook(r, false)), RestoreInstall(r, true, true));
    Step(Step(s1, RestoreFinish(r)), RestoreFinish(r))
  }

  /** A Warm of `k` with no fault and nothing in between. */
  function Warmed(s: State, p: Pid, k: Key): State {
    Step(Promoted(Begun(s, p, k), |s.restores|), WarmReturn(p, false))
  }

  lemma BeginsAlone(s: State, p: Pid, k: Key)
    requires Idle(s, p) && k !in s.st.hot && k !in s.inflight
    ensures var t := Begun(s, p, k);
            && t.st == s.st && |t.restores| == |s.restores| + 1 && p in t.calls && t.calls[p] == Waiting(k, |s.restores|)
            && t.restores[|s.restores|].k == k && t.restores[|s.restores|].phase == Opening
            && t.inflight == s.inflight[k := |s.restores|]
  {
    var s1 := Step(s, WarmLook(p, k, false));
    assert s1.calls[p] == WarmMissed(k, k in s.st.live);
  }

  lemma PromotionReads(s: State, r: nat, k: Key)
    requires r < |s.restores| && s.restores[r].k == k && s.restores[r].phase == Opening && k !in s.st.hot && k in s.st.cold
    ensures var t := Step(Step(s, RestoreOpen(r, false)), RestoreLook(r, false));
            && t.st == s.st && t.calls == s.calls && t.inflight == s.inflight && |t.restores| == |s.restores|
            && t.restores[r].k == k && t.restores[r].phase == Copying(s.st.cold[k])
  {
    var s1 := Step(s, RestoreOpen(r, false));
    assert s1.restores[r].phase == Looking(s.st.cold[k]);
  }

  lemma PromotionFinishes(s: State, r: nat, k: Key, src: Bytes)
    requires r < |s.restores| && s.restores[r].k == k && s.restores[r].phase == Copying(src)
    ensures var t := Step(Step(Step(s, RestoreInstall(r, true, true)), RestoreFinish(r)), RestoreFinish(r));
            && t.st == Install(s.st, k, src) && t.calls == s.calls && t.inflight == s.inflight - {k}
            && |t.restores| == |s.restores| && t.restores[r].k == k && t.restores[r].phase == Closed(Success)
  {
    var s1 := Step(s, RestoreInstall(r, true, true));
    assert s1.restores[r].phase == Ended(Success);
    var s2 := Step(s1, RestoreFinish(r));
    assert s2.restores[r].phase == Removed(Success);
  }

  lemma PromotionRuns(s: State, r: nat, k: Key)
    requires r < |s.restores| && s.restores[r].k == k && s.restores[r].phase == Opening && k !in s.st.hot && k in s.st.cold
    ensures var t := Promoted(s, r);
            && t.st == Install(s.st, k, s.st.cold[k]) && t.calls == s.calls && t.inflight == s.inflight - {k}
            && |t.restores| == |s.restores| && t.restores[r].k == k && t.restores[r].phase == Closed(Success)
  {
    PromotionReads(s, r, k);
    PromotionFinishes(Step(Step(s, RestoreOpen(r, false)), RestoreLook(r, false)), r, k, s.st.cold[k]);
  }

  lemma GetsResult(s: State, p: Pid, r: nat)
    requires WaitsFor(s, p, r) && s.restores[r].phase == Closed(Success)
    ensures var t := Step(s, WarmReturn(p, false)); Answered(t, p, IsHot) && t.st == s.st && t.inflight == s.inflight
  {
  }

  /** A Warm that nothing disturbs, of a key in cold only and not being promoted, answers "hot" and leaves
      in hot what cold holds; the cold copy stays. */
  lemma UndisturbedWarm(s: State, p: Pid, k: Key)
    requires Idle(s, p) && k !in s.st.hot && k in s.st.cold && k !in s.inflight
    ensures var t := Warmed(s, p, k);
            && Answered(t, p, IsHot) && k !in t.inflight
            && t.st == Install(s.st, k, s.st.cold[k]) && k in t.st.hot && t.st.cold == s.st.cold
            && (InCold(s.st, k) ==> t.st.hot[k] == k.content)
  {
    BeginsAlone(s, p, k);
    PromotionRuns(Begun(s, p, k), |s.restores|, k);
    GetsResult(Promoted(Begun(s, p, k), |s.restores|), p, |s.restores|);
  }

  /** A demotion of `k` with no fault and a bucket that stores what it is given, nothing in between; the
      write is a step that changes nothing when the object is there already. */
  function Demoted(st: Stores, k: Key): Stores
    requires k in st.hot
  {
    var put := DemotePut(k, Some(st.hot[k]), true);
    var st1 := StoresStep(StoresStep(StoresStep(st, DemoteDigest(k)), DemoteOpen(k, false)), DemoteLook(k, false));
    StoresStep(StoresStep(StoresStep(st1, put), DemoteReadBack(k, false)), DemoteDelete(k, false))
  }

  /** Undisturbed, a demotion frees the local copy if and only if no other object had the key in cold;
      otherwise it leaves both tiers as they were. */
  lemma UndisturbedDemotion(st: Stores, k: Key)
    requires k in st.hot && k !in st.demotions
    ensures var t := Demoted(st, k);
            && (k !in t.hot <==> k in st.cold ==> st.cold[k] == st.hot[k])
            && (k !in t.hot ==> t.hot == st.hot - {k} && t.cold == st.cold[k := st.hot[k]])
            && (k in t.hot ==> t.hot == st.hot && t.cold == st.cold)
            && k !in t.demotions
  {
    DemotionRuns(st, k);
    assert k in st.cold && st.cold[k] == st.hot[k] ==> st.cold[k := st.hot[k]] == st.cold;
  }

  lemma DemotionRuns(st: Stores, k: Key)
    requires k in st.hot && k !in st.demotions
    ensures Demoted(st, k) ==
            var held := if k in st.cold then st else Filled(st, k);
            if held.cold[k] == st.hot[k] then held.(hot := st.hot - {k}) else st
  {
    DemotionLooks(st, k);
    var put := DemotePut(k, Some(st.hot[k]), true);
    var st1 := StoresStep(StoresStep(StoresStep(st, DemoteDigest(k)), DemoteOpen(k, false)), DemoteLook(k, false));
    if k in st.cold {
      DemotionEnds(st, StoresStep(st1, put), k);
    } else {
      PutFills(st, st1, k);
      DemotionEnds(Filled(st, k), StoresStep(st1, put), k);
    }
  }

  lemma PutFills(st: Stores, st1: Stores, k: Key)
    requires k in st.hot && st1 == st.(demotions := st.demotions[k := Missing(st.hot[k])])
    ensures StoresStep(st1, DemotePut(k, Some(st.hot[k]), true)) ==
            Filled(st, k).(demotions := st.demotions[k := Stored(st.hot[k])])
  {
    assert st1.demotions[k := Stored(st.hot[k])] == st.demotions[k := Stored(st.hot[k])];
  }

  function Filled(st: Stores, k: Key): Stores
    requires k in st.hot
  {
    st.(cold := st.cold[k := st.hot[k]])
  }

  lemma DemotionLooks(st: Stores, k: Key)
    requires k in st.hot && k !in st.demotions
    ensures StoresStep(StoresStep(StoresStep(st, DemoteDigest(k)), DemoteOpen(k, false)), DemoteLook(k, false)) ==
            st.(demotions := st.demotions[k := if k in st.cold then Stored(st.hot[k]) else Missing(st.hot[k])])
  {
    var st1 := StoresStep(st, DemoteDigest(k));
    assert st1 == st.(demotions := st.demotions[k := Digested(st.hot[k])]);
    var st2 := StoresStep(st1, DemoteOpen(k, false));
    assert st2.demotions == st.demotions[k := Opened(st.hot[k])];
  }

  lemma DemotionEnds(st: Stores, st1: Stores, k: Key)
    requires k in st.hot && k !in st.demotions && k in st.cold
    requires st1 == st.(demotions := st.demotions[k := Stored(st.hot[k])])
    ensures StoresStep(StoresStep(st1, DemoteReadBack(k, false)), DemoteDelete(k, false)) ==
            if st.cold[k] == st.hot[k] then st.(hot := st.hot - {k}) else st
  {
    assert st.demotions[k := Stored(st.hot[k])] - {k} == st.demotions;
    assert st.demotions[k := Verified(st.hot[k])] - {k} == st.demotions;
  }
}
