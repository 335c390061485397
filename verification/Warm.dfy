/**
  Warming a chunked file (server/internal/cas/tier.go): every cold chunk's promotion is started
  before any is waited for, and nil is returned only if every chunk was made hot.
 */
module Warm {
  import opened Base
  import opened Tiered

  datatype Request = Start(k: Key) | Await(k: Key)

  predicate IsHard(a: Answer) {
    a != IsHot && a != IsRestoring
  }

  function Starts(cold: seq<Key>): seq<Request> {
    seq(|cold|, i requires 0 <= i < |cold| => Start(cold[i]))
  }

  function Awaits(cold: seq<Key>): seq<Request> {
    seq(|cold|, i requires 0 <= i < |cold| => Await(cold[i]))
  }

  /** In the run `es` of the store call `pids[i]` is the wait for `cold[i]`, and `answers[i]` its answer. */
  ghost predicate AnswersOf(es: seq<Event>, cold: seq<Key>, pids: seq<Pid>, answers: seq<Answer>) {
    && |pids| == |answers| == |cold|
    && forall i :: 0 <= i < |cold| ==>
         && pids[i] in Run(es).calls && Run(es).calls[pids[i]].Returned?
         && Run(es).calls[pids[i]].k == cold[i] && Run(es).calls[pids[i]].answer == answers[i]
  }

  /** If every wait answered "hot", every chunk was in hot since its promotion was started. */
  lemma NilMeansWarm(es: seq<Event>, cold: seq<Key>, pids: seq<Pid>, answers: seq<Answer>)
    requires AnswersOf(es, cold, pids, answers)
    requires forall i :: 0 <= i < |cold| ==> answers[i] == IsHot
    ensures forall i :: 0 <= i < |cold| ==> WasHot(es, cold[i], Run(es).calls[pids[i]].since)
  {
    forall i | 0 <= i < |cold| ensures WasHot(es, cold[i], Run(es).calls[pids[i]].since) {
      WarmNilWasHot(es, pids[i]);
    }
  }

  /** WarmManifest over the keys of the manifest's cold chunks; `answers[i]` is what Warm answers
      for `cold[i]`. `waited` keys were waited for. If the answers are those of a run of the store, nil
      means that every chunk was in hot at a moment since its promotion was started. */
  method WarmManifest(cold: seq<Key>, answers: seq<Answer>, ghost es: seq<Event>, ghost pids: seq<Pid>)
    returns (r: Answer, waited: nat, requests: seq<Request>)
    requires |answers| == |cold|
    ensures waited <= |cold| && requests == Starts(cold) + Awaits(cold[..waited])
    ensures r == IsHot <==> forall i :: 0 <= i < |cold| ==> answers[i] == IsHot
    ensures r == IsRestoring <==>
              (exists i :: 0 <= i < |cold| && answers[i] == IsRestoring) && forall i :: 0 <= i < |cold| ==> !IsHard(answers[i])
    ensures IsHard(r) ==> waited > 0 && answers[waited - 1] == r && forall i :: 0 <= i < waited - 1 ==> !IsHard(answers[i])
    ensures !IsHard(r) ==> waited == |cold|
    ensures r == IsHot && AnswersOf(es, cold, pids, answers) ==>
              forall i :: 0 <= i < |cold| ==> WasHot(es, cold[i], Run(es).calls[pids[i]].since)
  {
    requests := [];
    for i := 0 to |cold|
      invariant requests == Starts(cold[..i])
    {
      assert cold[..i + 1] == cold[..i] + [cold[i]];
      requests := requests + [Start(cold[i])];
    }
    assert cold[..|cold|] == cold;
    r, waited := IsHot, 0;
    while waited < |cold|
      invariant waited <= |cold| && requests == Starts(cold) + Awaits(cold[..waited])
      invariant r == IsHot || r == IsRestoring
      invariant forall i :: 0 <= i < waited ==> !IsHard(answers[i])
      invariant r == IsHot <==> forall i :: 0 <= i < waited ==> answers[i] == IsHot
    {
      var a := answers[waited];
      assert cold[..waited + 1] == cold[..waited] + [cold[waited]];
      requests := requests + [Await(cold[waited])];
      waited := waited + 1;
      match a
      case IsHot =>
      case IsRestoring => r := IsRestoring;
      case _ =>
        r := a;
        return;
    }
    if r == IsHot && AnswersOf(es, cold, pids, answers) {
      NilMeansWarm(es, cold, pids, answers);
    }
  }
}
