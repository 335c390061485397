/**
  The two-tier blob store (server/internal/blob/tiered.go) as a state machine. Every store
  access, every step under the mutex and every outcome of a faulty disk or network is one atomic
  step; uploads, promotions, demotions, warm-ups, stats, deletes and crashes interleave freely.
 */
module Tiered {
  import opened Base

  /** A storage key, with the bytes it was assigned to. */
  datatype Key = Key(name: string, content: Bytes)

  type Pid = nat

  /** Demote, after each access: the local digest, the open, the look at cold (nothing there),
      the object in place, the read-back compared. */
  datatype Demotion =
    | Digested(want: Bytes)
    | Opened(want: Bytes)
    | Missing(want: Bytes)
    | Stored(want: Bytes)
    | Verified(want: Bytes)

  /** The two stores, the demotions under way, the deletes between their two steps, and what became
      of each key: `deleted` from the moment a delete removes the local copy until nothing harmful is
      left (see Settled); otherwise `live` once an upload of it returned without an error. */
  datatype Stores = Stores(hot: map<Key, Bytes>, cold: map<Key, Bytes>, demotions: map<Key, Demotion>,
                           deletes: map<Pid, Key>, live: set<Key>, deleted: set<Key>)

  /** TieredStore.PutKeyed, up to its next access: the look at hot, the look at cold, the look
      that FSStore.PutKeyed makes, and the write. */
  datatype Upload = LookHot(k: Key) | LookCold(k: Key) | LookAgain(k: Key) | Writing(k: Key)

  datatype Result = Success | NotFound | Failure

  /** What a promotion has done so far. Ended: the error is set. Removed: no longer in flight.
      Closed: `done` is closed. */
  datatype Phase =
    | Opening
    | Looking(src: Bytes)
    | Copying(src: Bytes)
    | Ended(result: Result)
    | Removed(result: Result)
    | Closed(result: Result)

  /** One promotion. `live`: was the key live when the caller that started it looked at hot, and
      not deleted since; `begun`: when it was started. */
  datatype Restore = Restore(k: Key, live: bool, begun: nat, phase: Phase)

  datatype Answer = IsHot | IsRestoring | IsAbsent | IsError | IsSize

  /** Warm and Stat: hot was missed (`live`: was the key live then, and not deleted since); waiting
      for promotion `r`; returned, with `live` from the look at hot by this call, or by the starter of
      what it joined, until the answer, and `since`, when that look or that promotion happened. */
  datatype Call =
    | WarmMissed(k: Key, live: bool)
    | Waiting(k: Key, r: nat)
    | StatMissed(k: Key, live: bool)
    | Returned(k: Key, answer: Answer, live: bool, since: nat)

  datatype State = State(st: Stores, inflight: map<Key, nat>, restores: seq<Restore>,
                         uploads: map<Pid, Upload>, calls: map<Pid, Call>, clock: nat)

  /** `fault`: the access fails. A write may also fail after it took effect. */
  datatype Event =
    | UploadStart(p: Pid, k: Key)
    | UploadLook(p: Pid, fault: bool)
    | UploadWrite(p: Pid, installed: bool, ok: bool)
    | WarmLook(p: Pid, k: Key, fault: bool)
    | WarmBegin(p: Pid)
    | WarmReturn(p: Pid, timeout: bool)
    | StatLook(p: Pid, k: Key, fault: bool)
    | StatCold(p: Pid, fault: bool)
    | RestoreOpen(r: nat, fault: bool)
    | RestoreLook(r: nat, fault: bool)
    | RestoreInstall(r: nat, installed: bool, ok: bool)
    | RestoreFinish(r: nat)
    | DemoteDigest(k: Key)
    | DemoteOpen(k: Key, fault: bool)
    | DemoteLook(k: Key, fault: bool)
    | DemotePut(k: Key, stored: Option<Bytes>, ok: bool)
    | DemoteReadBack(k: Key, fault: bool)
    | DemoteDelete(k: Key, fault: bool)
    | DeleteHot(p: Pid, k: Key)
    | DeleteCold(p: Pid, removed: bool)
    | Settle(k: Key)
    | Crash

  function Init(): State {
    State(Stores(map[], map[], map[], map[], {}, {}), map[], [], map[], map[], 0)
  }

  // ---- uploads ---------------------------------------------------------------------------

  function Accept(st: Stores, k: Key): Stores {
    if k in st.deleted then st else st.(live := st.live + {k})
  }

  /** One look, and where the upload is then; None when it has returned. */
  function Looked(st: Stores, u: Upload, fault: bool): (Stores, Option<Upload>) {
    match u
    case LookHot(k) =>
      // Any error of this look other than "not found" counts as present.
      (st, Some(if fault || k in st.hot then LookAgain(k) else LookCold(k)))
    case LookCold(k) =>
      if fault then (st, None) else if k in st.cold then (Accept(st, k), None) else (st, Some(LookAgain(k)))
    case LookAgain(k) =>
      if fault then (st, None) else if k in st.hot then (Accept(st, k), None) else (st, Some(Writing(k)))
    case Writing(_) => (st, Some(u))
  }

  function UploadLookStep(s: State, p: Pid, fault: bool): State
    requires p in s.uploads
  {
    var (st, next) := Looked(s.st, s.uploads[p], fault);
    s.(st := st, uploads := if next.Some? then s.uploads[p := next.value] else s.uploads - {p})
  }

  function Install(st: Stores, k: Key, bytes: Bytes): Stores {
    st.(hot := st.hot[k := bytes])
  }

  function UploadWriteStep(s: State, p: Pid, installed: bool, ok: bool): State
    requires p in s.uploads && s.uploads[p].Writing?
  {
    var k := s.uploads[p].k;
    var st := if installed || ok then Install(s.st, k, k.content) else s.st;
    s.(uploads := s.uploads - {p}, st := if ok then Accept(st, k) else st)
  }

  // ---- warm-ups, promotions, stats -----------------------------------------------------------

  function WarmLookStep(s: State, p: Pid, k: Key, fault: bool): State {
    var live := k in s.st.live;
    var call :=
      if fault then Returned(k, IsError, live, s.clock)
      else if k in s.st.hot then Returned(k, IsHot, live, s.clock)
      else WarmMissed(k, live);
    s.(calls := s.calls[p := call])
  }

  /** begin, under the mutex: join the promotion in flight, or start one. */
  function BeginStep(s: State, p: Pid): State
    requires p in s.calls && s.calls[p].WarmMissed?
  {
    var k := s.calls[p].k;
    if k in s.inflight then s.(calls := s.calls[p := Waiting(k, s.inflight[k])])
    else
      var r := |s.restores|;
      s.(calls := s.calls[p := Waiting(k, r)], inflight := s.inflight[k := r],
         restores := s.restores + [Restore(k, s.calls[p].live, s.clock, Opening)])
  }

  function AnswerOf(result: Result): Answer {
    match result
    case Success => IsHot
    case NotFound => IsAbsent
    case Failure => IsError
  }

  function WarmReturnStep(s: State, p: Pid, timeout: bool): State
    requires p in s.calls && s.calls[p].Waiting?
  {
    var k, r := s.calls[p].k, s.calls[p].r;
    if timeout then s.(calls := s.calls[p := Returned(k, IsRestoring, false, s.clock)])
    else if r < |s.restores| && s.restores[r].phase.Closed? then
      var x := s.restores[r];
      s.(calls := s.calls[p := Returned(k, AnswerOf(x.phase.result), x.live, x.begun)])
    else s
  }

  function StatLookStep(s: State, p: Pid, k: Key, fault: bool): State {
    var live := k in s.st.live;
    var call :=
      if fault then Returned(k, IsError, live, s.clock)
      else if k in s.st.hot then Returned(k, IsSize, live, s.clock)
      else StatMissed(k, live);
    s.(calls := s.calls[p := call])
  }

  function StatColdStep(s: State, p: Pid, fault: bool): State
    requires p in s.calls && s.calls[p].StatMissed?
  {
    var k, live := s.calls[p].k, s.calls[p].live;
    var answer := if fault then IsError else if k in s.st.cold then IsSize else IsAbsent;
    s.(calls := s.calls[p := Returned(k, answer, live, s.clock)])
  }

  /** How a promotion moves on: cold.Open; the look hot.PutKeyed makes; its write; and
      delete(t.inflight, key) before close(r.done). */
  function NextPhase(st: Stores, x: Restore, e: Event): Phase {
    match e
    case RestoreOpen(_, fault) =>
      if !x.phase.Opening? then x.phase
      else if fault then Ended(Failure)
      else if x.k in st.cold then Looking(st.cold[x.k])
      else Ended(NotFound)
    case RestoreLook(_, fault) =>
      if !x.phase.Looking? then x.phase
      else if fault then Ended(Failure)
      else if x.k in st.hot then Ended(Success)
      else Copying(x.phase.src)
    case RestoreInstall(_, installed, ok) =>
      if !x.phase.Copying? then x.phase else Ended(if ok then Success else Failure)
    case RestoreFinish(_) =>
      if x.phase.Ended? then Removed(x.phase.result) else if x.phase.Removed? then Closed(x.phase.result) else x.phase
    case _ => x.phase
  }

  function Installed(st: Stores, x: Restore, e: Event): Stores {
    if e.RestoreInstall? && x.phase.Copying? && (e.installed || e.ok) then Install(st, x.k, x.phase.src) else st
  }

  // ---- demotion --------------------------------------------------------------------------------

  function Abandon(st: Stores, k: Key): Stores {
    st.(demotions := st.demotions - {k})
  }

  /** digestLocal; one Demote per key at a time. */
  function DigestStep(st: Stores, k: Key): Stores {
    if k in st.demotions || k !in st.hot then st
    else st.(demotions := st.demotions[k := Digested(st.hot[k])])
  }

  function DemoteOpenStep(st: Stores, k: Key, fault: bool): Stores
    requires k in st.demotions && st.demotions[k].Digested?
  {
    if fault || k !in st.hot then Abandon(st, k)
    else st.(demotions := st.demotions[k := Opened(st.demotions[k].want)])
  }

  /** The look coldKeyed.PutKeyed makes. */
  function DemoteLookStep(st: Stores, k: Key, fault: bool): Stores
    requires k in st.demotions && st.demotions[k].Opened?
  {
    var want := st.demotions[k].want;
    if fault then Abandon(st, k)
    else st.(demotions := st.demotions[k := if k in st.cold then Stored(want) else Missing(want)])
  }

  /** The PUT may store anything, whether or not it reports success. */
  function ColdPutStep(st: Stores, k: Key, stored: Option<Bytes>, ok: bool): Stores
    requires k in st.demotions && st.demotions[k].Missing?
  {
    var put := if stored.Some? then st.(cold := st.cold[k := stored.value]) else st;
    if ok then put.(demotions := put.demotions[k := Stored(st.demotions[k].want)]) else Abandon(put, k)
  }

  function ReadBackStep(st: Stores, k: Key, fault: bool): Stores
    requires k in st.demotions && st.demotions[k].Stored?
  {
    var want := st.demotions[k].want;
    if !fault && k in st.cold && st.cold[k] == want then st.(demotions := st.demotions[k := Verified(want)])
    else Abandon(st, k)
  }

  function DemoteDeleteStep(st: Stores, k: Key, fault: bool): Stores {
    Abandon(if fault then st else st.(hot := st.hot - {k}), k)
  }

  // ---- deletes ---------------------------------------------------------------------------------

  /** Delete, first step; when hot refuses, nothing has happened. */
  function DeleteHotStep(st: Stores, p: Pid, k: Key): Stores {
    st.(hot := st.hot - {k}, deletes := st.deletes[p := k], live := st.live - {k}, deleted := st.deleted + {k})
  }

  /** Second step, which may fail before or after it took effect. */
  function DeleteColdStep(st: Stores, p: Pid, removed: bool): Stores
    requires p in st.deletes
  {
    st.(cold := if removed then st.cold - {st.deletes[p]} else st.cold, deletes := st.deletes - {p})
  }

  function CallSinceDelete(c: Call, k: Key): Call {
    match c
    case WarmMissed(x, live) => WarmMissed(x, live && x != k)
    case StatMissed(x, live) => StatMissed(x, live && x != k)
    case _ => c
  }

  function RestoreSinceDelete(x: Restore, k: Key): Restore {
    x.(live := x.live && x.k != k)
  }

  /** Whoever saw the key live before the delete cannot count on it any more. */
  function DeleteStep(s: State, p: Pid, k: Key): State {
    s.(st := StoresStep(s.st, DeleteHot(p, k)),
       calls := map q | q in s.calls :: CallSinceDelete(s.calls[q], k),
       restores := seq(|s.restores|, r requires 0 <= r < |s.restores| => RestoreSinceDelete(s.restores[r], k)))
  }

  predicate HoldsRight(x: Restore) {
    match x.phase
    case Looking(src) => src == x.k.content
    case Copying(src) => src == x.k.content
    case _ => true
  }

  /** No delete of the key is half way, no demotion of it is under way, and wrong bytes are neither
      in hot, nor in cold with hot missing, nor in the hands of a promotion. */
  predicate Settled(s: State, k: Key) {
    && k !in s.st.deletes.Values && k !in s.st.demotions
    && (k in s.st.hot ==> s.st.hot[k] == k.content)
    && (k !in s.st.hot && k in s.st.cold ==> s.st.cold[k] == k.content)
    && forall x :: x in s.restores && x.k == k ==> HoldsRight(x)
  }

  /** The end of a delete, for the books: no code runs. */
  function SettleStep(s: State, k: Key): State {
    if Settled(s, k) then s.(st := s.st.(deleted := s.st.deleted - {k})) else s
  }

  // ---- the machine -------------------------------------------------------------------------------

  function StoresStep(st: Stores, e: Event): Stores {
    match e
    case DemoteDigest(k) => DigestStep(st, k)
    case DemoteOpen(k, fault) => if k in st.demotions && st.demotions[k].Digested? then DemoteOpenStep(st, k, fault) else st
    case DemoteLook(k, fault) => if k in st.demotions && st.demotions[k].Opened? then DemoteLookStep(st, k, fault) else st
    case DemotePut(k, stored, ok) => if k in st.demotions && st.demotions[k].Missing? then ColdPutStep(st, k, stored, ok) else st
    case DemoteReadBack(k, fault) => if k in st.demotions && st.demotions[k].Stored? then ReadBackStep(st, k, fault) else st
    case DemoteDelete(k, fault) => if k in st.demotions && st.demotions[k].Verified? then DemoteDeleteStep(st, k, fault) else st
    case DeleteHot(p, k) => if p in st.deletes then st else DeleteHotStep(st, p, k)
    case DeleteCold(p, removed) => if p in st.deletes then DeleteColdStep(st, p, removed) else st
    case _ => st
  }

  function UploadStep(s: State, e: Event): State {
    match e
    case UploadStart(p, k) => if p in s.uploads then s else s.(uploads := s.uploads[p := LookHot(k)])
    case UploadLook(p, fault) => if p in s.uploads then UploadLookStep(s, p, fault) else s
    case UploadWrite(p, installed, ok) =>
      if p in s.uploads && s.uploads[p].Writing? then UploadWriteStep(s, p, installed, ok) else s
    case _ => s
  }

  function CallStep(s: State, e: Event): State {
    match e
    case WarmLook(p, k, fault) => if p in s.calls && !s.calls[p].Returned? then s else WarmLookStep(s, p, k, fault)
    case WarmBegin(p) => if p in s.calls && s.calls[p].WarmMissed? then BeginStep(s, p) else s
    case WarmReturn(p, timeout) => if p in s.calls && s.calls[p].Waiting? then WarmReturnStep(s, p, timeout) else s
    case StatLook(p, k, fault) => if p in s.calls && !s.calls[p].Returned? then s else StatLookStep(s, p, k, fault)
    case StatCold(p, fault) => if p in s.calls && s.calls[p].StatMissed? then StatColdStep(s, p, fault) else s
    case _ => s
  }

  predicate IsRestoreEvent(e: Event) {
    e.RestoreOpen? || e.RestoreLook? || e.RestoreInstall? || e.RestoreFinish?
  }

  function RestoreStep(s: State, e: Event): State {
    if !IsRestoreEvent(e) || e.r >= |s.restores| then s
    else
      var x := s.restores[e.r];
      s.(st := Installed(s.st, x, e),
         restores := s.restores[e.r := x.(phase := NextPhase(s.st, x, e))],
         inflight := if e.RestoreFinish? && x.phase.Ended? then s.inflight - {x.k} else s.inflight)
  }

  /** The process dies; the stores stay. */
  function CrashStep(s: State): State {
    State(s.st.(demotions := map[], deletes := map[]), map[], [], map[], map[], s.clock)
  }

  /** An event that is not enabled changes nothing. */
  function Effect(s: State, e: Event): State {
    if e.UploadStart? || e.UploadLook? || e.UploadWrite? then UploadStep(s, e)
    else if e.WarmLook? || e.WarmBegin? || e.WarmReturn? || e.StatLook? || e.StatCold? then CallStep(s, e)
    else if IsRestoreEvent(e) then RestoreStep(s, e)
    else if e.Crash? then CrashStep(s)
    else if e.DeleteHot? then DeleteStep(s, e.p, e.k)
    else if e.Settle? then SettleStep(s, e.k)
    else s.(st := StoresStep(s.st, e))
  }

  function Step(s: State, e: Event): State {
    Effect(s, e).(clock := s.clock + 1)
  }

  /** Any interleaving, from an empty pair of stores. */
  function Run(es: seq<Event>): State
    decreases |es|
  {
    if es == [] then Init() else Step(Run(es[..|es| - 1]), es[|es| - 1])
  }

  // ---- the invariant -------------------------------------------------------------------------------

  ghost predicate InCold(st: Stores, k: Key) {
    k in st.cold && st.cold[k] == k.content
  }

  /** For a key that is not deleted: a hot copy is right; a live key has a copy in hot, or a
      right one in cold; a wrong cold copy shadows no missing hot one; a demotion has hot to
      fall back on until it has seen the right bytes in cold. */
  ghost predicate KeySafe(st: Stores, k: Key) {
    && (k in st.hot ==> st.hot[k] == k.content)
    && (k in st.live ==> k in st.hot || InCold(st, k))
    && (k in st.cold && st.cold[k] != k.content ==> k in st.hot)
    && (k in st.demotions ==> k in st.hot && DemotionSafe(st, k, st.demotions[k]))
  }

  ghost predicate DemotionSafe(st: Stores, k: Key, d: Demotion) {
    && d.want == k.content
    && (d.Missing? ==> k !in st.cold)
    && (d.Verified? ==> InCold(st, k))
  }

  /** What a promotion read is right or still in cold, and once it means to write, it is right. */
  ghost predicate RestoreSafe(st: Stores, x: Restore) {
    match x.phase
    case Looking(src) => src == x.k.content || (x.k in st.cold && st.cold[x.k] == src)
    case Copying(src) => src == x.k.content
    case _ => true
  }

  /** A promotion whose starter could count on the key finds it. */
  ghost predicate RestoreFinds(st: Stores, x: Restore) {
    match x.phase
    case Opening => x.live ==> x.k in st.cold
    case Ended(result) => result == NotFound ==> !x.live
    case Removed(result) => result == NotFound ==> !x.live
    case Closed(result) => result == NotFound ==> !x.live
    case _ => true
  }

  ghost predicate CallSafe(st: Stores, c: Call) {
    match c
    case WarmMissed(k, live) => live ==> k in st.cold
    case StatMissed(k, live) => live ==> k in st.cold
    case Returned(k, answer, live, _) => answer == IsAbsent ==> !live
    case Waiting(_, _) => true
  }

  /** What cold holds under a key that is not deleted never changes. */
  ghost predicate ColdKept(a: Stores, b: Stores, k: Key) {
    k in a.cold ==> k in b.cold && b.cold[k] == a.cold[k]
  }

  lemma DigestKeeps(st: Stores, a: Key, k: Key)
    requires KeySafe(st, k)
    ensures KeySafe(DigestStep(st, a), k)
  {
  }

  lemma DemoteOpenKeeps(st: Stores, a: Key, fault: bool, k: Key)
    requires KeySafe(st, k) && a in st.demotions && st.demotions[a].Digested?
    ensures KeySafe(DemoteOpenStep(st, a, fault), k)
  {
  }

  lemma DemoteLookKeeps(st: Stores, a: Key, fault: bool, k: Key)
    requires KeySafe(st, k) && a in st.demotions && st.demotions[a].Opened?
    ensures KeySafe(DemoteLookStep(st, a, fault), k)
  {
  }

  /** Only a demotion that found nothing in cold writes there. */
  lemma ColdPutKeeps(st: Stores, a: Key, stored: Option<Bytes>, ok: bool, k: Key)
    requires KeySafe(st, k) && a in st.demotions && st.demotions[a].Missing?
    ensures KeySafe(ColdPutStep(st, a, stored, ok), k) && ColdKept(st, ColdPutStep(st, a, stored, ok), k)
  {
  }

  lemma ReadBackKeeps(st: Stores, a: Key, fault: bool, k: Key)
    requires KeySafe(st, k) && a in st.demotions && st.demotions[a].Stored?
    ensures KeySafe(ReadBackStep(st, a, fault), k)
  {
  }

  /** The local copy goes only after the right bytes were seen in cold. */
  lemma DemoteDeleteKeeps(st: Stores, a: Key, fault: bool, k: Key)
    requires KeySafe(st, k) && a in st.demotions && st.demotions[a].Verified?
    ensures KeySafe(DemoteDeleteStep(st, a, fault), k)
  {
  }

  /** A step of a demotion, or the second step of a delete, seen from a key that is not deleted. */
  lemma StoresStepKeeps(st: Stores, e: Event, k: Key)
    requires KeySafe(st, k) && !e.DeleteHot? && k !in st.deletes.Values
    ensures KeySafe(StoresStep(st, e), k) && ColdKept(st, StoresStep(st, e), k)
  {
    match e
    case DemoteDigest(a) => DigestKeeps(st, a, k);
    case DemoteOpen(a, fault) => if a in st.demotions && st.demotions[a].Digested? { DemoteOpenKeeps(st, a, fault, k); }
    case DemoteLook(a, fault) => if a in st.demotions && st.demotions[a].Opened? { DemoteLookKeeps(st, a, fault, k); }
    case DemotePut(a, stored, ok) => if a in st.demotions && st.demotions[a].Missing? { ColdPutKeeps(st, a, stored, ok, k); }
    case DemoteReadBack(a, fault) => if a in st.demotions && st.demotions[a].Stored? { ReadBackKeeps(st, a, fault, k); }
    case DemoteDelete(a, fault) => if a in st.demotions && st.demotions[a].Verified? { DemoteDeleteKeeps(st, a, fault, k); }
    case DeleteCold(p, removed) => if p in st.deletes { DeleteColdKeeps(st, p, removed, k); }
    case _ =>
  }

  lemma DeleteColdKeeps(st: Stores, p: Pid, removed: bool, k: Key)
    requires KeySafe(st, k) && p in st.deletes && k !in st.deletes.Values
    ensures KeySafe(DeleteColdStep(st, p, removed), k) && ColdKept(st, DeleteColdStep(st, p, removed), k)
  {
    assert st.deletes[p] in st.deletes.Values;
  }

  lemma LookedKeeps(st: Stores, u: Upload, fault: bool, k: Key)
    requires KeySafe(st, k)
    ensures var t := Looked(st, u, fault).0; KeySafe(t, k) && t.cold == st.cold && t.deleted == st.deleted
  {
  }

  lemma UploadLookKeeps(s: State, p: Pid, fault: bool, k: Key)
    requires p in s.uploads && KeySafe(s.st, k)
    ensures var t := UploadLookStep(s, p, fault);
            KeySafe(t.st, k) && t.st.cold == s.st.cold && t.st.deleted == s.st.deleted
            && t.restores == s.restores && t.inflight == s.inflight && t.calls == s.calls
  {
    LookedKeeps(s.st, s.uploads[p], fault, k);
  }

  lemma UploadWriteKeeps(s: State, p: Pid, installed: bool, ok: bool, k: Key)
    requires p in s.uploads && s.uploads[p].Writing? && KeySafe(s.st, k)
    ensures var t := UploadWriteStep(s, p, installed, ok);
            KeySafe(t.st, k) && t.st.cold == s.st.cold && t.st.deleted == s.st.deleted
            && t.restores == s.restores && t.inflight == s.inflight && t.calls == s.calls
  {
  }

  lemma UploadStepKeeps(s: State, e: Event, k: Key)
    requires KeySafe(s.st, k)
    ensures var t := UploadStep(s, e);
            KeySafe(t.st, k) && t.st.cold == s.st.cold && t.st.deleted == s.st.deleted
            && t.restores == s.restores && t.inflight == s.inflight && t.calls == s.calls
  {
    if e.UploadLook? && e.p in s.uploads {
      UploadLookKeeps(s, e.p, e.fault, k);
    } else if e.UploadWrite? && e.p in s.uploads && s.uploads[e.p].Writing? {
      UploadWriteKeeps(s, e.p, e.installed, e.ok, k);
    }
  }

  lemma InstalledKeeps(st: Stores, x: Restore, e: Event, k: Key)
    requires KeySafe(st, k) && (x.k == k ==> RestoreSafe(st, x))
    ensures KeySafe(Installed(st, x, e), k)
    ensures var t := Installed(st, x, e); t.cold == st.cold && t.deleted == st.deleted && t.live == st.live
  {
  }

  /** Once hot is missing, what was read from cold is right. */
  lemma NextPhaseSafe(st: Stores, x: Restore, e: Event)
    requires KeySafe(st, x.k) && RestoreSafe(st, x)
    ensures RestoreSafe(st, x.(phase := NextPhase(st, x, e)))
  {
  }

  lemma NextPhaseFinds(st: Stores, x: Restore, e: Event)
    requires RestoreFinds(st, x)
    ensures RestoreFinds(st, x.(phase := NextPhase(st, x, e)))
  {
  }

  // ---- the whole state -------------------------------------------------------------------------------

  ghost predicate Running(x: Restore) {
    !x.phase.Removed? && !x.phase.Closed?
  }

  /** A running promotion is the one in flight for its key. */
  ghost predicate Registered(s: State) {
    && (forall r :: 0 <= r < |s.restores| && Running(s.restores[r]) ==>
          s.restores[r].k in s.inflight && s.inflight[s.restores[r].k] == r)
    && (forall k :: k in s.inflight ==> s.inflight[k] < |s.restores| && s.restores[s.inflight[k]].k == k)
    && (forall p :: p in s.calls && s.calls[p].Waiting? ==> Joined(s, s.calls[p]))
  }

  ghost predicate Joined(s: State, c: Call)
    requires c.Waiting?
  {
    c.r < |s.restores| && s.restores[c.r].k == c.k
  }

  /** The caller, between its look at hot and what comes next, counts on the key. */
  ghost predicate Expects(c: Call) {
    (c.WarmMissed? || c.StatMissed?) && c.live
  }

  ghost predicate KeyOk(st: Stores, k: Key) {
    if k in st.deleted then k !in st.live else KeySafe(st, k) && k !in st.deletes.Values
  }

  ghost predicate RestoreOk(st: Stores, x: Restore) {
    RestoreFinds(st, x) && if x.k in st.deleted then !x.live else RestoreSafe(st, x)
  }

  ghost predicate CallOk(st: Stores, c: Call) {
    CallSafe(st, c) && (c.k in st.deleted ==> !Expects(c))
  }

  ghost predicate Inv(s: State) {
    && Registered(s)
    && (forall k :: KeyOk(s.st, k))
    && (forall r :: 0 <= r < |s.restores| ==> RestoreOk(s.st, s.restores[r]))
    && (forall p :: p in s.calls ==> CallOk(s.st, s.calls[p]))
  }

  /** What the promotions and the calls of a key rely on. */
  ghost predicate SameFor(a: Stores, b: Stores, k: Key) {
    (k in a.deleted <==> k in b.deleted) && (k !in a.deleted ==> ColdKept(a, b, k))
  }

  lemma RestoreStaysOk(a: Stores, b: Stores, x: Restore)
    requires RestoreOk(a, x) && SameFor(a, b, x.k)
    ensures RestoreOk(b, x)
  {
  }

  lemma CallStaysOk(a: Stores, b: Stores, c: Call)
    requires CallOk(a, c) && SameFor(a, b, c.k)
    ensures CallOk(b, c)
  {
  }

  lemma OnlyStores(s: State, t: State)
    requires Inv(s) && t.restores == s.restores && t.inflight == s.inflight && t.calls == s.calls
    requires forall k :: KeyOk(t.st, k) && SameFor(s.st, t.st, k)
    ensures Inv(t)
  {
    assert forall p :: p in t.calls && t.calls[p].Waiting? && Joined(s, s.calls[p]) ==> Joined(t, t.calls[p]);
    forall r | 0 <= r < |t.restores| ensures RestoreOk(t.st, t.restores[r]) {
      RestoreStaysOk(s.st, t.st, s.restores[r]);
    }
    forall p | p in t.calls ensures CallOk(t.st, t.calls[p]) {
      CallStaysOk(s.st, t.st, s.calls[p]);
    }
  }

  lemma UploadKeepsInv(s: State, e: Event)
    requires Inv(s)
    ensures Inv(UploadStep(s, e))
  {
    var t := UploadStep(s, e);
    UploadFrame(s, e);
    forall k ensures KeyOk(t.st, k) && SameFor(s.st, t.st, k) {
      assert KeyOk(s.st, k);
      if k !in s.st.deleted {
        UploadStepKeeps(s, e, k);
      } else {
        UploadIgnores(s, e, k);
      }
    }
    OnlyStores(s, t);
  }

  lemma UploadFrame(s: State, e: Event)
    ensures var t := UploadStep(s, e);
            t.st.cold == s.st.cold && t.st.deleted == s.st.deleted && t.st.deletes == s.st.deletes
            && t.restores == s.restores && t.inflight == s.inflight && t.calls == s.calls
  {
    if e.UploadLook? && e.p in s.uploads {
      LookedFrame(s.st, s.uploads[e.p], e.fault);
    }
  }

  lemma LookedFrame(st: Stores, u: Upload, fault: bool)
    ensures var t := Looked(st, u, fault).0; t == st.(live := t.live)
  {
  }

  /** An upload makes no deleted key live. */
  lemma UploadIgnores(s: State, e: Event, k: Key)
    requires k in s.st.deleted && k !in s.st.live
    ensures k !in UploadStep(s, e).st.live
  {
  }

  lemma StoresKeepInv(s: State, e: Event)
    requires Inv(s) && !e.DeleteHot?
    ensures Inv(s.(st := StoresStep(s.st, e)))
  {
    var t := s.(st := StoresStep(s.st, e));
    forall k ensures KeyOk(t.st, k) && SameFor(s.st, t.st, k) {
      assert KeyOk(s.st, k);
      StoresFrame(s.st, e, k);
      if k !in s.st.deleted {
        StoresStepKeeps(s.st, e, k);
      }
    }
    OnlyStores(s, t);
  }

  lemma StoresFrame(st: Stores, e: Event, k: Key)
    requires !e.DeleteHot?
    ensures var t := StoresStep(st, e); t.deleted == st.deleted && t.live == st.live
    ensures k !in st.deletes.Values ==> k !in StoresStep(st, e).deletes.Values
  {
    assert StoresStep(st, e).deletes.Keys <= st.deletes.Keys;
  }

  lemma RestoreKeepsInv(s: State, e: Event)
    requires Inv(s)
    ensures Inv(RestoreStep(s, e))
  {
    if IsRestoreEvent(e) && e.r < |s.restores| {
      var t, x := RestoreStep(s, e), s.restores[e.r];
      RestoreFrame(s, e);
      RestoreRegistered(s, e);
      forall k ensures KeyOk(t.st, k) {
        assert KeyOk(s.st, k) && RestoreOk(s.st, x);
        if k !in s.st.deleted {
          InstalledKeeps(s.st, x, e, k);
        }
      }
      forall r | 0 <= r < |t.restores| ensures RestoreOk(t.st, t.restores[r]) {
        RestoreStepOk(s, e, r);
      }
      forall p | p in t.calls ensures CallOk(t.st, t.calls[p]) {
        CallStaysOk(s.st, t.st, s.calls[p]);
      }
    }
  }

  lemma RestoreStepOk(s: State, e: Event, r: nat)
    requires r < |s.restores| && IsRestoreEvent(e) && e.r < |s.restores|
    requires KeyOk(s.st, s.restores[r].k) && RestoreOk(s.st, s.restores[r])
    ensures |RestoreStep(s, e).restores| == |s.restores| && RestoreOk(RestoreStep(s, e).st, RestoreStep(s, e).restores[r])
  {
    var x, t := s.restores[r], RestoreStep(s, e);
    RestoreFrame(s, e);
    NextPhaseFinds(s.st, x, e);
    if x.k !in s.st.deleted {
      NextPhaseSafe(s.st, x, e);
    }
    RestoreStaysOk(s.st, t.st, t.restores[r]);
  }

  lemma RestoreFrame(s: State, e: Event)
    ensures var t := RestoreStep(s, e);
            && t.st.cold == s.st.cold && t.st.deleted == s.st.deleted && t.st.live == s.st.live
            && t.st.deletes == s.st.deletes && t.calls == s.calls
            && |t.restores| == |s.restores| && forall r :: 0 <= r < |s.restores| ==> t.restores[r].k == s.restores[r].k
  {
  }

  lemma RestoreRegistered(s: State, e: Event)
    requires Registered(s)
    ensures Registered(RestoreStep(s, e))
  {
    var t := RestoreStep(s, e);
    RestoreFrame(s, e);
    forall r | 0 <= r < |t.restores| && Running(t.restores[r])
      ensures t.restores[r].k in t.inflight && t.inflight[t.restores[r].k] == r
    {
      assert Running(s.restores[r]);
      StillInFlight(s, e, r);
    }
    forall k | k in t.inflight ensures t.inflight[k] < |t.restores| && t.restores[t.inflight[k]].k == k {
      assert k in s.inflight && t.inflight[k] == s.inflight[k];
    }
    forall p | p in t.calls && t.calls[p].Waiting? ensures Joined(t, t.calls[p]) {
      assert Joined(s, s.calls[p]);
    }
  }

  /** Only the promotion itself leaves the table. */
  lemma StillInFlight(s: State, e: Event, r: nat)
    requires r < |s.restores| && Running(s.restores[r]) && |RestoreStep(s, e).restores| == |s.restores|
    requires s.restores[r].k in s.inflight && s.inflight[s.restores[r].k] == r
    requires e.RestoreFinish? && e.r < |s.restores| && Running(s.restores[e.r]) && s.restores[e.r].k == s.restores[r].k ==>
               e.r == r
    requires Running(RestoreStep(s, e).restores[r])
    ensures s.restores[r].k in RestoreStep(s, e).inflight && RestoreStep(s, e).inflight[s.restores[r].k] == r
  {
  }

  lemma CallKeepsInv(s: State, e: Event)
    requires Inv(s)
    ensures Inv(CallStep(s, e))
  {
    var t := CallStep(s, e);
    CallFrame(s, e);
    CallRegistered(s, e);
    forall r | 0 <= r < |t.restores| ensures RestoreOk(t.st, t.restores[r]) {
      if r < |s.restores| {
        assert RestoreOk(s.st, s.restores[r]);
      } else {
        CallStepStarts(s, e, r);
      }
    }
    forall p | p in t.calls ensures CallOk(t.st, t.calls[p]) {
      assert KeyOk(s.st, t.calls[p].k);
      assert p in s.calls && s.calls[p].Waiting? ==> Joined(s, s.calls[p]);
      CallStepOk(s, e, p);
    }
  }

  lemma CallStepOk(s: State, e: Event, p: Pid)
    requires p in CallStep(s, e).calls && KeyOk(s.st, CallStep(s, e).calls[p].k)
    requires p in s.calls ==> CallOk(s.st, s.calls[p])
    requires p in s.calls && s.calls[p].Waiting? && s.calls[p].r < |s.restores| ==>
               RestoreOk(s.st, s.restores[s.calls[p].r])
    ensures CallOk(s.st, CallStep(s, e).calls[p])
  {
  }

  /** A promotion just started knows what its starter saw. */
  lemma CallStepStarts(s: State, e: Event, r: nat)
    requires |s.restores| <= r < |CallStep(s, e).restores|
    requires e.WarmBegin? && e.p in s.calls ==> CallOk(s.st, s.calls[e.p])
    ensures RestoreOk(s.st, CallStep(s, e).restores[r])
  {
  }

  lemma CallFrame(s: State, e: Event)
    ensures var t := CallStep(s, e);
            && t.st == s.st && s.restores <= t.restores
            && (|t.restores| > |s.restores| ==> e.WarmBegin? && e.p in s.calls && s.calls[e.p].WarmMissed?)
  {
  }

  lemma CallRegistered(s: State, e: Event)
    requires Registered(s)
    ensures Registered(CallStep(s, e))
  {
    if e.WarmBegin? && e.p in s.calls && s.calls[e.p].WarmMissed? {
      BeginRegistered(s, e.p);
    } else {
      var t := CallStep(s, e);
      assert t.restores == s.restores && t.inflight == s.inflight;
      forall p | p in t.calls && t.calls[p].Waiting? ensures Joined(t, t.calls[p]) {
        assert Joined(s, s.calls[p]);
      }
    }
  }

  lemma BeginRegistered(s: State, p: Pid)
    requires Registered(s) && p in s.calls && s.calls[p].WarmMissed?
    ensures Registered(BeginStep(s, p))
  {
    var t, k := BeginStep(s, p), s.calls[p].k;
    forall r | 0 <= r < |t.restores| && Running(t.restores[r])
      ensures t.restores[r].k in t.inflight && t.inflight[t.restores[r].k] == r
    {
      assert r < |s.restores| ==> Running(s.restores[r]) && (k !in s.inflight ==> s.restores[r].k != k);
    }
    forall q | q in t.calls && t.calls[q].Waiting? ensures Joined(t, t.calls[q]) {
      assert q != p ==> Joined(s, s.calls[q]);
    }
  }

  lemma DeleteRegistered(s: State, p: Pid, k: Key)
    requires Registered(s)
    ensures Registered(DeleteStep(s, p, k))
  {
    var t := DeleteStep(s, p, k);
    forall r | 0 <= r < |t.restores| && Running(t.restores[r])
      ensures t.restores[r].k in t.inflight && t.inflight[t.restores[r].k] == r
    {
      assert Running(s.restores[r]);
    }
    forall q | q in t.calls && t.calls[q].Waiting? ensures Joined(t, t.calls[q]) {
      assert Joined(s, s.calls[q]);
    }
  }

  lemma DeleteKeeps(st: Stores, p: Pid, k: Key, a: Key)
    requires KeyOk(st, a)
    ensures KeyOk(StoresStep(st, DeleteHot(p, k)), a)
    ensures a != k ==> SameFor(st, StoresStep(st, DeleteHot(p, k)), a)
  {
  }

  lemma DeleteKeepsInv(s: State, p: Pid, k: Key)
    requires Inv(s)
    ensures Inv(DeleteStep(s, p, k))
  {
    var t := DeleteStep(s, p, k);
    DeleteRegistered(s, p, k);
    forall a ensures KeyOk(t.st, a) {
      DeleteKeeps(s.st, p, k, a);
    }
    forall r | 0 <= r < |t.restores| ensures RestoreOk(t.st, t.restores[r]) {
      RestoreSinceDeleteOk(s.st, p, k, s.restores[r]);
    }
    forall q | q in t.calls ensures CallOk(t.st, t.calls[q]) {
      CallSinceDeleteOk(s.st, p, k, s.calls[q]);
    }
  }

  lemma RestoreSinceDeleteOk(st: Stores, p: Pid, k: Key, x: Restore)
    requires RestoreOk(st, x)
    ensures RestoreOk(StoresStep(st, DeleteHot(p, k)), RestoreSinceDelete(x, k))
  {
  }

  lemma CallSinceDeleteOk(st: Stores, p: Pid, k: Key, c: Call)
    requires CallOk(st, c)
    ensures CallOk(StoresStep(st, DeleteHot(p, k)), CallSinceDelete(c, k))
  {
  }

  /** A key is settled when all that is left under it is harmless. */
  lemma SettleKeepsInv(s: State, k: Key)
    requires Inv(s)
    ensures Inv(SettleStep(s, k))
  {
    if Settled(s, k) {
      var t := SettleStep(s, k);
      assert forall p :: p in t.calls && t.calls[p].Waiting? && Joined(s, s.calls[p]) ==> Joined(t, t.calls[p]);
      forall a ensures KeyOk(t.st, a) {
        assert KeyOk(s.st, a);
      }
      forall r | 0 <= r < |t.restores| ensures RestoreOk(t.st, t.restores[r]) {
        assert RestoreOk(s.st, s.restores[r]) && s.restores[r] in s.restores;
      }
      forall p | p in t.calls ensures CallOk(t.st, t.calls[p]) {
        assert CallOk(s.st, s.calls[p]);
      }
    }
  }

  lemma StepKeepsInv(s: State, e: Event)
    requires Inv(s)
    ensures Inv(Step(s, e))
  {
    EffectKeepsInv(s, e);
    ClockIsFree(Effect(s, e), s.clock + 1);
  }

  lemma EffectKeepsInv(s: State, e: Event)
    requires Inv(s)
    ensures Inv(Effect(s, e))
  {
    if e.UploadStart? || e.UploadLook? || e.UploadWrite? {
      UploadKeepsInv(s, e);
    } else if e.WarmLook? || e.WarmBegin? || e.WarmReturn? || e.StatLook? || e.StatCold? {
      CallKeepsInv(s, e);
    } else if IsRestoreEvent(e) {
      RestoreKeepsInv(s, e);
    } else if e.Crash? {
      CrashKeepsInv(s);
    } else if e.DeleteHot? {
      DeleteKeepsInv(s, e.p, e.k);
    } else if e.Settle? {
      SettleKeepsInv(s, e.k);
    } else {
      StoresKeepInv(s, e);
    }
  }

  lemma CrashKeepsInv(s: State)
    requires Inv(s)
    ensures Inv(CrashStep(s))
  {
    forall k ensures KeyOk(CrashStep(s).st, k) {
      assert KeyOk(s.st, k);
    }
  }

  lemma ClockIsFree(s: State, n: nat)
    requires Inv(s)
    ensures Inv(s.(clock := n))
  {
    var t := s.(clock := n);
    assert forall p :: p in t.calls && t.calls[p].Waiting? && Joined(s, s.calls[p]) ==> Joined(t, t.calls[p]);
  }

  lemma {:induction false} RunIsSafe(es: seq<Event>)
    ensures Inv(Run(es)) && Run(es).clock == |es|
    decreases |es|
  {
    if es != [] {
      RunIsSafe(es[..|es| - 1]);
      StepKeepsInv(Run(es[..|es| - 1]), es[|es| - 1]);
    }
  }

  // ---- what a reader of the store may rely on -----------------------------------------------------------

  ghost predicate RightCopy(st: Stores, k: Key) {
    if k in st.hot then st.hot[k] == k.content else InCold(st, k)
  }

  /** Under every interleaving, failure and crash, whatever a demotion may have written to cold: a
      key uploaded and not deleted since has a right copy in hot, or else in cold, earlier deletes
      included once they are settled; and every hot copy of a key not deleted is right. */
  lemma TierSafety(es: seq<Event>)
    ensures forall k :: k in Run(es).st.live ==> k !in Run(es).st.deleted && RightCopy(Run(es).st, k)
    ensures forall k :: k in Run(es).st.hot && k !in Run(es).st.deleted ==> Run(es).st.hot[k] == k.content
  {
    RunIsSafe(es);
    SafeStores(Run(es).st);
  }

  lemma SafeStores(st: Stores)
    requires forall k :: KeyOk(st, k)
    ensures forall k :: k in st.live ==> k !in st.deleted && RightCopy(st, k)
    ensures forall k :: k in st.hot && k !in st.deleted ==> st.hot[k] == k.content
  {
    forall k | k in st.live ensures k !in st.deleted && RightCopy(st, k) {
      assert KeyOk(st, k);
    }
    forall k | k in st.hot && k !in st.deleted ensures st.hot[k] == k.content {
      assert KeyOk(st, k);
    }
  }

  /** Warm and Stat say "not found" only of a key that was not live when the caller, or the one that
      started the promotion it joined, looked at hot, or that was deleted between that look and the
      answer. */
  lemma LiveIsNeverLost(es: seq<Event>, p: Pid)
    requires p in Run(es).calls && Run(es).calls[p].Returned? && Run(es).calls[p].answer == IsAbsent
    ensures !Run(es).calls[p].live
  {
    RunIsSafe(es);
    assert CallOk(Run(es).st, Run(es).calls[p]);
  }

  /** At most one promotion per key runs at once. */
  lemma SingleFlight(es: seq<Event>, a: nat, b: nat)
    requires a < |Run(es).restores| && b < |Run(es).restores| && Run(es).restores[a].k == Run(es).restores[b].k
    requires Running(Run(es).restores[a]) && Running(Run(es).restores[b])
    ensures a == b
  {
    RunIsSafe(es);
  }

  // ---- a warm-up that succeeds was hot --------------------------------------------------------------------

  lemma RunSnoc(es: seq<Event>, e: Event)
    ensures Run(es + [e]) == Step(Run(es), e)
  {
    assert (es + [e])[..|es|] == es;
  }

  /** The key was in hot at some moment of the run, not before step `since`. */
  ghost predicate WasHot(es: seq<Event>, k: Key, since: nat) {
    exists i :: since <= i <= |es| && k in Run(es[..i]).st.hot
  }

  lemma WasHotStays(es: seq<Event>, e: Event, k: Key, since: nat)
    requires WasHot(es, k, since)
    ensures WasHot(es + [e], k, since)
  {
    var i :| since <= i <= |es| && k in Run(es[..i]).st.hot;
    assert (es + [e])[..i] == es[..i];
  }

  lemma IsHotNow(es: seq<Event>, k: Key, since: nat)
    requires since <= |es| && k in Run(es).st.hot
    ensures WasHot(es, k, since)
  {
    assert es[..|es|] == es;
  }

  ghost predicate Succeeded(x: Restore) {
    (x.phase.Ended? || x.phase.Removed? || x.phase.Closed?) && x.phase.result == Success
  }

  ghost predicate HotClaims(es: seq<Event>, s: State) {
    && (forall r :: 0 <= r < |s.restores| ==> s.restores[r].begun <= |es|)
    && (forall r :: 0 <= r < |s.restores| && Succeeded(s.restores[r]) ==> WasHot(es, s.restores[r].k, s.restores[r].begun))
    && (forall p :: p in s.calls && s.calls[p].Returned? && s.calls[p].answer == IsHot ==>
          WasHot(es, s.calls[p].k, s.calls[p].since))
  }

  /** A step that makes a promotion succeed leaves, or finds, the key in hot. */
  lemma SuccessIsHot(s: State, e: Event, r: nat)
    requires r < |s.restores| && r < |Step(s, e).restores| && Succeeded(Step(s, e).restores[r]) && !Succeeded(s.restores[r])
    requires !e.Crash?
    ensures s.restores[r].k in Step(s, e).st.hot
  {
  }

  /** Which part of the machine touches promotions and calls. */
  lemma WhoMoves(s: State, e: Event)
    requires !e.Crash? && !e.DeleteHot?
    ensures var after := Step(s, e).restores;
            after == s.restores || after == RestoreStep(s, e).restores || after == CallStep(s, e).restores
    ensures Step(s, e).calls == s.calls || Step(s, e).calls == CallStep(s, e).calls
  {
    UploadFrame(s, e);
    RestoreFrame(s, e);
  }

  lemma RestoreIdentity(s: State, e: Event, r: nat)
    requires r < |Step(s, e).restores| && !e.Crash?
    ensures var x := Step(s, e).restores[r];
            if r < |s.restores| then x.k == s.restores[r].k && x.begun == s.restores[r].begun
            else x.phase == Opening && x.begun == s.clock
  {
    if !e.DeleteHot? {
      WhoMoves(s, e);
      RestoreKeepsIdentity(s, e);
      CallStepAppends(s, e);
    }
  }

  lemma RestoreKeepsIdentity(s: State, e: Event)
    ensures var t := RestoreStep(s, e);
            |t.restores| == |s.restores| &&
            forall r :: 0 <= r < |s.restores| ==> t.restores[r].k == s.restores[r].k && t.restores[r].begun == s.restores[r].begun
  {
  }

  lemma CallStepAppends(s: State, e: Event)
    ensures var t := CallStep(s, e);
            s.restores <= t.restores &&
            forall r :: |s.restores| <= r < |t.restores| ==> t.restores[r].phase == Opening && t.restores[r].begun == s.clock
  {
  }

  /** A step that returns "hot" looked at hot, or waited for a promotion that succeeded. */
  lemma AnswerIsHot(s: State, e: Event, p: Pid)
    requires Registered(s) && p in Step(s, e).calls && Step(s, e).calls[p].Returned? && Step(s, e).calls[p].answer == IsHot
    ensures HotAnswer(s, p, Step(s, e).calls[p])
  {
    if !e.Crash? && !e.DeleteHot? {
      WhoMoves(s, e);
      if Step(s, e).calls == CallStep(s, e).calls {
        CallAnswersHot(s, e, p);
      }
    }
  }

  ghost predicate HotAnswer(s: State, p: Pid, c: Call)
    requires c.Returned?
  {
    || (p in s.calls && s.calls[p] == c)
    || (c.since == s.clock && c.k in s.st.hot)
    || (exists r :: 0 <= r < |s.restores| && Succeeded(s.restores[r]) && s.restores[r].k == c.k && s.restores[r].begun == c.since)
  }

  lemma CallAnswersHot(s: State, e: Event, p: Pid)
    requires Registered(s) && p in CallStep(s, e).calls
    requires CallStep(s, e).calls[p].Returned? && CallStep(s, e).calls[p].answer == IsHot
    ensures HotAnswer(s, p, CallStep(s, e).calls[p])
  {
    if p in s.calls && s.calls[p].Waiting? {
      assert Joined(s, s.calls[p]);
    }
  }

  lemma {:induction false} ClaimsHold(es: seq<Event>)
    ensures HotClaims(es, Run(es))
    decreases |es|
  {
    if es != [] {
      var before, e := es[..|es| - 1], es[|es| - 1];
      assert es == before + [e];
      ClaimsHold(before);
      RunIsSafe(before);
      var s := Run(before);
      if e.Crash? {
      } else {
        forall r | 0 <= r < |Run(es).restores|
          ensures Run(es).restores[r].begun <= |es|
          ensures Succeeded(Run(es).restores[r]) ==> WasHot(es, Run(es).restores[r].k, Run(es).restores[r].begun)
        {
          RestoreClaim(before, e, r);
        }
        forall p | p in Run(es).calls && Run(es).calls[p].Returned? && Run(es).calls[p].answer == IsHot
          ensures WasHot(es, Run(es).calls[p].k, Run(es).calls[p].since)
        {
          CallClaim(before, e, p);
        }
      }
    }
  }

  lemma RestoreClaim(es: seq<Event>, e: Event, r: nat)
    requires HotClaims(es, Run(es)) && Inv(Run(es)) && Run(es).clock == |es| && !e.Crash?
    requires r < |Step(Run(es), e).restores|
    ensures var x := Step(Run(es), e).restores[r];
            x.begun <= |es| && (Succeeded(x) ==> WasHot(es + [e], x.k, x.begun))
  {
    var s, x := Run(es), Step(Run(es), e).restores[r];
    RestoreIdentity(s, e, r);
    RunSnoc(es, e);
    if Succeeded(x) {
      if Succeeded(s.restores[r]) {
        WasHotStays(es, e, x.k, x.begun);
      } else {
        SuccessIsHot(s, e, r);
        IsHotNow(es + [e], x.k, x.begun);
      }
    }
  }

  lemma CallClaim(es: seq<Event>, e: Event, p: Pid)
    requires HotClaims(es, Run(es)) && Inv(Run(es)) && Run(es).clock == |es|
    requires p in Step(Run(es), e).calls && Step(Run(es), e).calls[p].Returned? && Step(Run(es), e).calls[p].answer == IsHot
    ensures WasHot(es + [e], Step(Run(es), e).calls[p].k, Step(Run(es), e).calls[p].since)
  {
    var s, c := Run(es), Step(Run(es), e).calls[p];
    AnswerIsHot(s, e, p);
    if c.since == s.clock && c.k in s.st.hot {
      IsHotNow(es, c.k, c.since);
    }
    WasHotStays(es, e, c.k, c.since);
  }

  /** Warm returns nil only if the key was in hot when the call looked, or at some moment since
      the promotion it waited for was started. */
  lemma WarmNilWasHot(es: seq<Event>, p: Pid)
    requires p in Run(es).calls && Run(es).calls[p].Returned? && Run(es).calls[p].answer == IsHot
    ensures WasHot(es, Run(es).calls[p].k, Run(es).calls[p].since)
  {
    ClaimsHold(es);
  }
}
