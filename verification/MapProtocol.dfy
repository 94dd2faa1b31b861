/** The folder-map cache as a protocol: concurrent calls of `_folder_map`, a lock that
    coalesces misses, a generation counter and a time to live.

    Between two suspension points a call runs alone, so a step here is at most one such
    stretch; several are split further, which only adds interleavings. `P` is whatever an
    enumeration returns. */
module MapProtocol {
  import opened Outcomes

  type CallId = nat

  /** Which line of `_folder_map` returned, with the generation the call had captured. */
  datatype Source = FirstCheck | SecondCheck(captured: nat) | Own(captured: nat)

  datatype Phase<P> =
    | Entered
    | Waiting(captured: nat)                                       // wants the lock
    | Holding(captured: nat)                                       // has it, compares generations
    | Starting(captured: nat)                                      // has it, will enumerate
    | Enumerating(captured: nat, started: real, startedAt: nat)    // has it, suspended in Drive
    | Returned(found: P, source: Source, clock: real, at: nat)
    | Failed

  datatype Call<P> = Call(refresh: bool, begunAt: nat, begunClock: real, phase: Phase<P>)

  /** One enumeration that completed: who ran it, what it found, when by the clock it
      started, and when in the order of steps it started and finished. */
  datatype Enumeration<P> = Enumeration(owner: CallId, found: P, started: real, startedAt: nat, finishedAt: nat)

  /** The scope's fields, the calls in flight, and, as history, the completed enumerations.
      `now` numbers the steps. */
  datatype State<P> = State(
    now: nat,
    clock: real,
    folderPaths: Option<P>,
    expiry: real,
    generation: nat,
    lock: Option<CallId>,
    calls: map<CallId, Call<P>>,
    completed: seq<Enumeration<P>>)

  datatype Step<P> =
    | Tick(elapsed: real)
    | Other                                // anything else in the world
    | Begin(id: CallId, refresh: bool)
    | Check(id: CallId)                    // the check before the lock
    | Acquire(id: CallId)
    | Compare(id: CallId)                  // the check under the lock
    | Start(id: CallId)                    // reads the clock, then asks Drive
    | Finish(id: CallId, found: P)
    | Fail(id: CallId)                     // Drive fails, or the call is cancelled

  ghost predicate Init<P>(s: State<P>) {
    && s.folderPaths.None? && s.generation == 0 && s.lock.None?
    && s.calls == map[] && s.completed == [] && s.now == 0
  }

  /** `_cached_folder_map() is not None`. */
  predicate Usable<P>(s: State<P>) {
    s.folderPaths.Some? && s.clock < s.expiry
  }

  predicate Enabled<P>(s: State<P>, step: Step<P>) {
    match step
    case Tick(elapsed) => elapsed >= 0.0
    case Other => true
    case Begin(id, _) => id !in s.calls
    case Check(id) => id in s.calls && s.calls[id].phase.Entered?
    case Acquire(id) => id in s.calls && s.calls[id].phase.Waiting? && s.lock.None?
    case Compare(id) => id in s.calls && s.calls[id].phase.Holding?
    case Start(id) => id in s.calls && s.calls[id].phase.Starting?
    case Finish(id, _) => id in s.calls && s.calls[id].phase.Enumerating?
    case Fail(id) => id in s.calls && (s.calls[id].phase.Waiting? || s.calls[id].phase.Enumerating?)
  }

  function Move<P>(s: State<P>, id: CallId, phase: Phase<P>): State<P>
    requires id in s.calls
  {
    s.(calls := s.calls[id := s.calls[id].(phase := phase)], now := s.now + 1)
  }

  function Apply<P>(ttl: real, s: State<P>, step: Step<P>): State<P>
    requires Enabled(s, step)
  {
    match step
    case Tick(elapsed) => s.(clock := s.clock + elapsed, now := s.now + 1)
    case Other => s.(now := s.now + 1)
    case Begin(id, refresh) => s.(calls := s.calls[id := Call(refresh, s.now, s.clock, Entered)], now := s.now + 1)
    case Check(id) =>
      if !s.calls[id].refresh && Usable(s)
      then Move(s, id, Returned(s.folderPaths.value, FirstCheck, s.clock, s.now))
      else Move(s, id, Waiting(s.generation))
    case Acquire(id) => Move(s, id, Holding(s.calls[id].phase.captured)).(lock := Some(id))
    case Compare(id) =>
      var captured := s.calls[id].phase.captured;
      if s.generation != captured && Usable(s)
      then Move(s, id, Returned(s.folderPaths.value, SecondCheck(captured), s.clock, s.now)).(lock := None)
      else Move(s, id, Starting(captured))
    case Start(id) => Move(s, id, Enumerating(s.calls[id].phase.captured, s.clock, s.now))
    case Finish(id, found) =>
      var p := s.calls[id].phase;
      var stored := if ttl > 0.0 then s.(folderPaths := Some(found), expiry := p.started + ttl) else s;
      Move(stored, id, Returned(found, Own(p.captured), s.clock, s.now)).(
        lock := None,
        generation := s.generation + 1,
        completed := s.completed + [Enumeration(id, found, p.started, p.startedAt, s.now)])
    case Fail(id) =>
      Move(s, id, Failed).(lock := if s.calls[id].phase.Enumerating? then None else s.lock)
  }

  // ---- What every reachable state satisfies.

  predicate InLock<P>(phase: Phase<P>) {
    phase.Holding? || phase.Starting? || phase.Enumerating?
  }

  /** The lock is held by exactly the call that is between acquiring and releasing it. */
  ghost predicate LockHeld<P>(s: State<P>) {
    && (s.lock.Some? ==> s.lock.value in s.calls)
    && forall id :: id in s.calls ==> (InLock(s.calls[id].phase) <==> s.lock == Some(id))
  }

  /** The stored map, its expiry and the generation belong to the latest completed
      enumeration; with a zero time to live nothing is stored. */
  ghost predicate StoredIsLatest<P>(ttl: real, s: State<P>) {
    && s.generation == |s.completed|
    && if ttl > 0.0 && s.completed != [] then
         var last := s.completed[|s.completed| - 1];
         s.folderPaths == Some(last.found) && s.expiry == last.started + ttl
       else s.folderPaths.None?
  }

  /** Completed enumerations follow one another: none starts before the last one ended. */
  ghost predicate InSequence<P>(s: State<P>) {
    && (forall i :: 0 <= i < |s.completed| ==>
          s.completed[i].startedAt < s.completed[i].finishedAt < s.now && s.completed[i].started <= s.clock)
    && (forall i, j :: 0 <= i < j < |s.completed| ==> s.completed[i].finishedAt < s.completed[j].startedAt)
  }

  /** What justifies a returned map: it is enumeration `i`, the latest one completed when
      the call returned, and it was fresh, or the call's own. */
  ghost predicate Justifies<P>(
    ttl: real, completed: seq<Enumeration<P>>, id: CallId, call: Call<P>, i: nat)
    requires call.phase.Returned?
  {
    var r := call.phase;
    && i < |completed|
    && completed[i].found == r.found
    && completed[i].finishedAt <= r.at
    && (forall j :: i < j < |completed| ==> r.at < completed[j].finishedAt)
    && match r.source
       case FirstCheck =>
         && !call.refresh && ttl > 0.0
         && r.clock < completed[i].started + ttl
       case SecondCheck(captured) =>
         && ttl > 0.0 && captured <= i
         && r.clock < completed[i].started + ttl
         && call.begunAt < completed[i].finishedAt
       case Own(captured) =>
         && captured <= i
         && completed[i].owner == id
         && call.begunAt < completed[i].startedAt
  }

  /** Every enumeration from the `captured`-th on finished after the call began. */
  ghost predicate CapturedSince<P>(s: State<P>, call: Call<P>, captured: nat) {
    && captured <= s.generation
    && forall j :: captured <= j < |s.completed| ==> call.begunAt < s.completed[j].finishedAt
  }

  /** Nothing newer than the captured generation is usable. */
  ghost predicate NothingNewer<P>(s: State<P>, captured: nat) {
    s.generation != captured ==> !Usable(s)
  }

  ghost predicate CallInv<P>(ttl: real, s: State<P>, id: CallId, call: Call<P>) {
    && call.begunAt < s.now && call.begunClock <= s.clock
    && match call.phase
       case Entered => true
       case Waiting(captured) => CapturedSince(s, call, captured)
       case Holding(captured) => CapturedSince(s, call, captured)
       case Starting(captured) => CapturedSince(s, call, captured) && NothingNewer(s, captured)
       case Enumerating(captured, started, startedAt) =>
         && CapturedSince(s, call, captured) && NothingNewer(s, captured)
         && call.begunAt < startedAt < s.now && started <= s.clock
         && forall j :: 0 <= j < |s.completed| ==> s.completed[j].finishedAt < startedAt
       case Returned(_, _, clock, at) =>
         && call.begunAt < at < s.now && call.begunClock <= clock <= s.clock
         && exists i :: Justifies(ttl, s.completed, id, call, i)
       case Failed => true
  }

  ghost predicate Inv<P>(ttl: real, s: State<P>) {
    && LockHeld(s)
    && StoredIsLatest(ttl, s)
    && InSequence(s)
    && forall id :: id in s.calls ==> CallInv(ttl, s, id, s.calls[id])
  }

  /** A call that does not move keeps its invariant while the world goes on, whether or not
      another call completes an enumeration. */
  lemma CallInvStays<P>(ttl: real, s: State<P>, s': State<P>, id: CallId, call: Call<P>)
    requires CallInv(ttl, s, id, call)
    requires s.now < s'.now && s.clock <= s'.clock
    requires
      || (s'.completed == s.completed && s'.generation == s.generation
          && s'.folderPaths == s.folderPaths && s'.expiry == s.expiry)
      || (!InLock(call.phase) && s'.generation == s.generation + 1 && |s'.completed| == |s.completed| + 1
          && s.completed <= s'.completed && s'.completed[|s.completed|].finishedAt == s.now)
    ensures CallInv(ttl, s', id, call)
  {
    if call.phase.Returned? {
      var i :| Justifies(ttl, s.completed, id, call, i);
      assert Justifies(ttl, s'.completed, id, call, i);
    }
  }

  lemma OthersStay<P>(ttl: real, s: State<P>, s': State<P>, id: CallId)
    requires Inv(ttl, s)
    requires s.now < s'.now && s.clock <= s'.clock
    requires
      || (s'.completed == s.completed && s'.generation == s.generation
          && s'.folderPaths == s.folderPaths && s'.expiry == s.expiry)
      || (s.lock == Some(id) && s'.generation == s.generation + 1 && |s'.completed| == |s.completed| + 1
          && s.completed <= s'.completed && s'.completed[|s.completed|].finishedAt == s.now)
    ensures forall other :: other in s.calls && other != id ==> CallInv(ttl, s', other, s.calls[other])
  {
    forall other | other in s.calls && other != id
      ensures CallInv(ttl, s', other, s.calls[other])
    {
      CallInvStays(ttl, s, s', other, s.calls[other]);
    }
  }

  /** A usable stored map is the latest enumeration and still within its time to live. */
  lemma StoredJustifies<P>(ttl: real, s: State<P>, id: CallId, call: Call<P>)
    requires Inv(ttl, s) && Usable(s)
    requires call.phase.Returned? && call.phase.found == s.folderPaths.value
    requires call.phase.clock == s.clock && call.phase.at == s.now
    requires match call.phase.source
             case FirstCheck => !call.refresh
             case SecondCheck(captured) => CapturedSince(s, call, captured) && s.generation != captured
             case Own(_) => false
    ensures Justifies(ttl, s.completed, id, call, |s.completed| - 1)
  {
  }

  lemma CheckKeepsInv<P>(ttl: real, s: State<P>, id: CallId)
    requires Inv(ttl, s) && id in s.calls && s.calls[id].phase.Entered?
    ensures Inv(ttl, Apply(ttl, s, Check(id)))
  {
    var s' := Apply(ttl, s, Check(id));
    OthersStay(ttl, s, s', id);
    if s'.calls[id].phase.Returned? {
      StoredJustifies(ttl, s, id, s'.calls[id]);
    }
  }

  lemma CompareKeepsInv<P>(ttl: real, s: State<P>, id: CallId)
    requires Inv(ttl, s) && id in s.calls && s.calls[id].phase.Holding?
    ensures Inv(ttl, Apply(ttl, s, Compare(id)))
  {
    var s' := Apply(ttl, s, Compare(id));
    OthersStay(ttl, s, s', id);
    if s'.calls[id].phase.Returned? {
      StoredJustifies(ttl, s, id, s'.calls[id]);
    }
  }

  lemma FinishKeepsInv<P>(ttl: real, s: State<P>, step: Step<P>)
    requires Inv(ttl, s) && Enabled(s, step) && step.Finish?
    ensures Inv(ttl, Apply(ttl, s, step))
  {
    var id := step.id;
    var s' := Apply(ttl, s, step);
    OthersStay(ttl, s, s', id);
    assert Justifies(ttl, s'.completed, id, s'.calls[id], |s.completed|);
  }

  lemma WorldKeepsInv<P>(ttl: real, s: State<P>, step: Step<P>)
    requires Inv(ttl, s) && Enabled(s, step) && (step.Tick? || step.Other?)
    ensures Inv(ttl, Apply(ttl, s, step))
  {
    forall id | id in s.calls
      ensures CallInv(ttl, Apply(ttl, s, step), id, s.calls[id])
    {
      CallInvStays(ttl, s, Apply(ttl, s, step), id, s.calls[id]);
    }
  }

  lemma BeginKeepsInv<P>(ttl: real, s: State<P>, id: CallId, refresh: bool)
    requires Inv(ttl, s) && id !in s.calls
    ensures Inv(ttl, Apply(ttl, s, Begin(id, refresh)))
  {
    OthersStay(ttl, s, Apply(ttl, s, Begin(id, refresh)), id);
  }

  lemma LockKeepsInv<P>(ttl: real, s: State<P>, step: Step<P>)
    requires Inv(ttl, s) && Enabled(s, step) && (step.Acquire? || step.Start? || step.Fail?)
    ensures Inv(ttl, Apply(ttl, s, step))
  {
    OthersStay(ttl, s, Apply(ttl, s, step), step.id);
  }

  lemma StepKeepsInv<P>(ttl: real, s: State<P>, step: Step<P>)
    requires Inv(ttl, s) && Enabled(s, step)
    ensures Inv(ttl, Apply(ttl, s, step))
  {
    match step
    case Tick(_) => WorldKeepsInv(ttl, s, step);
    case Other => WorldKeepsInv(ttl, s, step);
    case Begin(id, refresh) => BeginKeepsInv(ttl, s, id, refresh);
    case Check(id) => CheckKeepsInv(ttl, s, id);
    case Compare(id) => CompareKeepsInv(ttl, s, id);
    case Finish(_, _) => FinishKeepsInv(ttl, s, step);
    case _ => LockKeepsInv(ttl, s, step);
  }

  /** What no step undoes: time, history, what a call was asked and what it returned. */
  ghost predicate Grows<P>(s: State<P>, s': State<P>) {
    && s'.now == s.now + 1 && s.clock <= s'.clock && s.completed <= s'.completed
    && forall id :: id in s.calls ==>
         && id in s'.calls
         && s'.calls[id].refresh == s.calls[id].refresh
         && s'.calls[id].begunAt == s.calls[id].begunAt
         && s'.calls[id].begunClock == s.calls[id].begunClock
         && (s.calls[id].phase.Returned? ==> s'.calls[id] == s.calls[id])
  }

  lemma StepGrows<P>(ttl: real, s: State<P>, step: Step<P>)
    requires Enabled(s, step)
    ensures Grows(s, Apply(ttl, s, step))
  {
  }

  predicate IsEnumerating<P>(s: State<P>, id: CallId) {
    id in s.calls && s.calls[id].phase.Enumerating?
  }

  lemma EnumeratingBefore<P>(ttl: real, s: State<P>, step: Step<P>, id: CallId)
    requires Enabled(s, step) && IsEnumerating(Apply(ttl, s, step), id) && step != Start(id)
    ensures IsEnumerating(s, id) && Apply(ttl, s, step).calls[id] == s.calls[id]
  {
  }

  lemma OnlyFinishCompletes<P>(ttl: real, s: State<P>, step: Step<P>)
    requires Enabled(s, step)
    ensures |Apply(ttl, s, step).completed| == |s.completed| + if step.Finish? then 1 else 0
  {
  }

  // ---- Runs.

  /** Any interleaving: each state but the first comes from the one before by a step. */
  ghost predicate IsRun<P(!new)>(ttl: real, run: seq<State<P>>) {
    && run != [] && Init(run[0])
    && forall i :: 0 <= i < |run| - 1 ==> Follows(ttl, run[i], run[i + 1])
  }

  ghost predicate Follows<P(!new)>(ttl: real, s: State<P>, s': State<P>) {
    exists step: Step<P> :: Enabled(s, step) && s' == Apply(ttl, s, step)
  }

  lemma {:induction false} RunKeepsInv<P(!new)>(ttl: real, run: seq<State<P>>, i: nat)
    requires IsRun(ttl, run) && i < |run|
    ensures Inv(ttl, run[i])
  {
    if i > 0 {
      RunKeepsInv(ttl, run, i - 1);
      var step := LastStep(ttl, run, i);
      StepKeepsInv(ttl, run[i - 1], step);
    }
  }

  /** Enumerations never overlap: at most one is under way, and it started after every
      completed one had finished. */
  lemma EnumerationsNeverOverlap<P(!new)>(ttl: real, run: seq<State<P>>, i: nat)
    requires IsRun(ttl, run) && i < |run|
    ensures InSequence(run[i])
    ensures forall c, d :: IsEnumerating(run[i], c) && IsEnumerating(run[i], d) ==> c == d
    ensures forall c, j :: IsEnumerating(run[i], c) && 0 <= j < |run[i].completed| ==>
                             run[i].completed[j].finishedAt < run[i].calls[c].phase.startedAt
  {
    RunKeepsInv(ttl, run, i);
  }

  /** The fields always belong to the latest completed enumeration. */
  lemma FieldsAreLatest<P(!new)>(ttl: real, run: seq<State<P>>, i: nat)
    requires IsRun(ttl, run) && i < |run|
    ensures StoredIsLatest(ttl, run[i])
  {
    RunKeepsInv(ttl, run, i);
  }

  /** Whatever a call returned was the latest enumeration at that moment, and it was within
      its time to live or enumerated inside the call; a call that went past the first check
      never returns the generation it captured or an older one, nor anything that finished
      before it began; and a zero time to live never reuses a map. */
  lemma ReturnedMapsAreJustified<P(!new)>(ttl: real, run: seq<State<P>>, i: nat, id: CallId)
    returns (g: nat)
    requires IsRun(ttl, run) && i < |run|
    requires id in run[i].calls && run[i].calls[id].phase.Returned?
    ensures var call := run[i].calls[id];
            && Justifies(ttl, run[i].completed, id, call, g)
            && (call.refresh || !call.phase.source.FirstCheck? ==>
                  !call.phase.source.FirstCheck?
                  && call.phase.source.captured <= g
                  && call.begunAt < run[i].completed[g].finishedAt)
            && (ttl <= 0.0 ==> call.phase.source.Own?)
            && (call.phase.source.Own? || call.phase.clock < run[i].completed[g].started + ttl)
  {
    RunKeepsInv(ttl, run, i);
    assert CallInv(ttl, run[i], id, run[i].calls[id]);
    g :| Justifies(ttl, run[i].completed, id, run[i].calls[id], g);
  }

  /** Misses coalesce: an enumeration under way means that no map newer than the one its
      call rejected is usable. */
  lemma EnumeratesOnlyWhenNeeded<P(!new)>(ttl: real, run: seq<State<P>>, i: nat, id: CallId)
    requires IsRun(ttl, run) && i < |run|
    requires id in run[i].calls && run[i].calls[id].phase.Enumerating?
    ensures run[i].generation == run[i].calls[id].phase.captured || !Usable(run[i])
  {
    RunKeepsInv(ttl, run, i);
    assert CallInv(ttl, run[i], id, run[i].calls[id]);
  }

  // ---- Looking back along a run.

  /** Steps are numbered by their place in the run. */
  lemma {:induction false} NowIsIndex<P(!new)>(ttl: real, run: seq<State<P>>, i: nat)
    requires IsRun(ttl, run) && i < |run|
    ensures run[i].now == i
  {
    if i > 0 {
      NowIsIndex(ttl, run, i - 1);
      var step := LastStep(ttl, run, i);
      StepGrows(ttl, run[i - 1], step);
    }
  }

  lemma LastStep<P(!new)>(ttl: real, run: seq<State<P>>, i: nat) returns (step: Step<P>)
    requires IsRun(ttl, run) && 0 < i < |run|
    ensures Enabled(run[i - 1], step) && run[i] == Apply(ttl, run[i - 1], step)
  {
    assert Follows(ttl, run[i - 1], run[i - 1 + 1]);
    step :| Enabled(run[i - 1], step) && run[i] == Apply(ttl, run[i - 1], step);
  }

  /** A map was stored, and the clock below its expiry, at every step since the call began. */
  ghost predicate WarmSince<P>(run: seq<State<P>>, from: nat, i: nat) {
    forall t :: from <= t < i && t < |run| ==> run[t].folderPaths.Some? && run[t].clock < run[t].expiry
  }

  /** A call that is not a refresh and finds the window open all along takes no lock and asks
      Drive nothing, whatever other calls do: it has entered, or it has answered. */
  lemma {:induction false} WarmCallsNeverWait<P(!new)>(ttl: real, run: seq<State<P>>, i: nat, id: CallId)
    requires IsRun(ttl, run) && i < |run|
    requires id in run[i].calls && !run[i].calls[id].refresh && WarmSince(run, run[i].calls[id].begunAt, i)
    ensures var phase := run[i].calls[id].phase;
            phase.Entered? || (phase.Returned? && phase.source.FirstCheck?)
  {
    if i > 0 {
      var step := LastStep(ttl, run, i);
      if id in run[i - 1].calls {
        StepGrows(ttl, run[i - 1], step);
        BegunBefore(ttl, run, i - 1, id);
        WarmCallsNeverWait(ttl, run, i - 1, id);
      }
    }
  }

  lemma BegunBefore<P(!new)>(ttl: real, run: seq<State<P>>, i: nat, id: CallId)
    requires IsRun(ttl, run) && i < |run| && id in run[i].calls
    ensures run[i].calls[id].begunAt < i
  {
    RunKeepsInv(ttl, run, i);
    NowIsIndex(ttl, run, i);
    assert CallInv(ttl, run[i], id, run[i].calls[id]);
  }

  /** A call under way in an enumeration that began at step `from`. */
  predicate IsEnumeratingSince<P>(s: State<P>, id: CallId, from: nat) {
    IsEnumerating(s, id) && s.calls[id].phase.startedAt == from
  }

  /** An enumeration is under way at every step after its start. */
  lemma {:induction false} EnumeratingSince<P(!new)>(ttl: real, run: seq<State<P>>, i: nat, id: CallId, from: nat, t: nat)
    requires IsRun(ttl, run) && i < |run| && IsEnumeratingSince(run[i], id, from)
    requires from < t <= i
    ensures IsEnumeratingSince(run[t], id, from)
  {
    if t < i {
      var step := LastStep(ttl, run, i);
      NowIsIndex(ttl, run, i - 1);
      if step != Start(id) {
        EnumeratingBefore(ttl, run[i - 1], step, id);
        EnumeratingSince(ttl, run, i - 1, id, from, t);
      }
    }
  }

  /** A completed enumeration was under way at every step from its start to its end. */
  lemma {:induction false} CompletedWasEnumerating<P(!new)>(ttl: real, run: seq<State<P>>, i: nat, g: nat, t: nat)
    requires IsRun(ttl, run) && i < |run| && g < |run[i].completed|
    requires run[i].completed[g].startedAt < t <= run[i].completed[g].finishedAt
    ensures t < i && IsEnumeratingSince(run[t], run[i].completed[g].owner, run[i].completed[g].startedAt)
  {
    if i > 0 {
      var step := LastStep(ttl, run, i);
      NowIsIndex(ttl, run, i - 1);
      StepGrows(ttl, run[i - 1], step);
      if g < |run[i - 1].completed| {
        CompletedWasEnumerating(ttl, run, i - 1, g, t);
      } else {
        OnlyFinishCompletes(ttl, run[i - 1], step);
        EnumeratingSince(ttl, run, i - 1, step.id, run[i].completed[g].startedAt, t);
      }
    }
  }

  lemma {:induction false} HistoryGrows<P(!new)>(ttl: real, run: seq<State<P>>, t: nat, i: nat)
    requires IsRun(ttl, run) && t <= i < |run|
    ensures run[t].completed <= run[i].completed
  {
    if t < i {
      var step := LastStep(ttl, run, i);
      StepGrows(ttl, run[i - 1], step);
      HistoryGrows(ttl, run, t, i - 1);
    }
  }

  /** An enumeration is in the history at exactly the steps after its end. */
  lemma {:induction false} CompletedAfter<P(!new)>(ttl: real, run: seq<State<P>>, i: nat, g: nat, t: nat)
    requires IsRun(ttl, run) && t <= i < |run| && g < |run[i].completed|
    ensures g < |run[t].completed| <==> run[i].completed[g].finishedAt < t
  {
    HistoryGrows(ttl, run, t, i);
    NowIsIndex(ttl, run, t);
    RunKeepsInv(ttl, run, t);
    if t < i {
      var step := LastStep(ttl, run, i);
      NowIsIndex(ttl, run, i - 1);
      OnlyFinishCompletes(ttl, run[i - 1], step);
      StepGrows(ttl, run[i - 1], step);
      if g < |run[i - 1].completed| {
        CompletedAfter(ttl, run, i - 1, g, t);
      }
    }
  }

  /** Past the first check, a call returns a map whose enumeration had started before the
      call did if and only if that very enumeration was under way when the call began. So a
      caller who finds none under way gets nothing older than the call. */
  lemma OlderThanTheCallExactly<P(!new)>(ttl: real, run: seq<State<P>>, i: nat, id: CallId, g: nat)
    requires IsRun(ttl, run) && i < |run|
    requires id in run[i].calls && run[i].calls[id].phase.Returned? && !run[i].calls[id].phase.source.FirstCheck?
    requires Justifies(ttl, run[i].completed, id, run[i].calls[id], g)
    ensures var begun, from := run[i].calls[id].begunAt, run[i].completed[g].startedAt;
            && begun < i
            && (from < begun <==> exists c :: IsEnumeratingSince(run[begun], c, from))
  {
    var begun, e := run[i].calls[id].begunAt, run[i].completed[g];
    RunKeepsInv(ttl, run, i);
    assert CallInv(ttl, run[i], id, run[i].calls[id]);
    NowIsIndex(ttl, run, i);
    if e.startedAt < begun {
      assert begun <= e.finishedAt;
      CompletedWasEnumerating(ttl, run, i, g, begun);
    }
    forall c | IsEnumeratingSince(run[begun], c, e.startedAt)
      ensures e.startedAt < begun
    {
      RunKeepsInv(ttl, run, begun);
      NowIsIndex(ttl, run, begun);
      assert CallInv(ttl, run[begun], c, run[begun].calls[c]);
    }
  }

  /** That a forced refresh coalesces has a price: the map it returns may come from an
      enumeration that had started before the refresh was asked for. */
  lemma RefreshMayPredateTheCall<P(!new)>(found: P, ttl: real) returns (run: seq<State<P>>)
    requires ttl > 0.0
    ensures IsRun(ttl, run)
    ensures var s := run[|run| - 1];
            && 1 in s.calls && s.calls[1].refresh && s.calls[1].phase.Returned?
            && |s.completed| == 1 && s.completed[0].startedAt < s.calls[1].begunAt
  {
    var s: State<P>;
    run, s := FirstEnumerates(ttl);
    run, s := Extend(ttl, run, s, Begin(1, true));
    run, s := Extend(ttl, run, s, Check(1));
    run, s := Extend(ttl, run, s, Finish(0, found));
    run, s := Extend(ttl, run, s, Acquire(1));
    run, s := Extend(ttl, run, s, Compare(1));
  }

  lemma FirstEnumerates<P(!new)>(ttl: real) returns (run: seq<State<P>>, s: State<P>)
    ensures IsRun(ttl, run) && run[|run| - 1] == s
    ensures s == State(5, 0.0, None, 0.0, 0, Some(0), map[0 := Call(false, 0, 0.0, Enumerating(0, 0.0, 4))], [])
  {
    s := State(0, 0.0, None, 0.0, 0, None, map[], []);
    run := [s];
    run, s := Extend(ttl, run, s, Begin(0, false));
    run, s := Extend(ttl, run, s, Check(0));
    run, s := Extend(ttl, run, s, Acquire(0));
    run, s := Extend(ttl, run, s, Compare(0));
    run, s := Extend(ttl, run, s, Start(0));
  }

  lemma Extend<P(!new)>(ttl: real, run: seq<State<P>>, s: State<P>, step: Step<P>)
    returns (run': seq<State<P>>, s': State<P>)
    requires IsRun(ttl, run) && run[|run| - 1] == s && Enabled(s, step)
    ensures IsRun(ttl, run') && run'[|run'| - 1] == s' && s' == Apply(ttl, s, step)
  {
    s' := Apply(ttl, s, step);
    run' := run + [s'];
    assert Follows(ttl, s, s');
  }
}
