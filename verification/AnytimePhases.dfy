/**
 * Handler threads and planner lines in any interleaving (hybrid_planner/anytime.py and console.py).
 * Every step is what one thread does under one lock.
 */
module AnytimePhases {
  import opened AnytimeRegistry

  type FutureId = nat

  /** Where a handler stands; Waiting has submitted its future, Deciding has a status before the last check. */
  datatype Place =
    | Accepting
    | Working
    | Submitting(submitted: FutureId)
    | Waiting(awaited: FutureId)
    | Deciding(decided: string)
    | Finishing(status: string)
    | Done

  datatype Handler = Handler(runMatches: bool, iteration: Iteration, place: Place)

  /** The planner thread between lines, or between the two halves of a phase end. */
  datatype Planner = Reading | Ending(iteration: Iteration)

  datatype State = State(
    registry: Registry<FutureId>,
    rows: Rows,
    handlers: map<RequestId, Handler>,
    planner: Planner,
    created: set<FutureId>,
    cancelRequested: set<FutureId>,
    started: set<Iteration>,
    closing: set<Iteration>,
    ended: set<Iteration>
  )

  ghost predicate Initial(s: State) {
    s == State(Registry(None, false, map[]), map[], map[], Reading, {}, {}, {}, {}, {})
  }

  datatype Step =
    | Receive(id: RequestId, runMatches: bool, iteration: Iteration)
    | Accept(id: RequestId)
    | Check(id: RequestId)
    | Submit(id: RequestId, future: FutureId)
    | Register(id: RequestId)
    | Collect(id: RequestId)
    | Cancelled(id: RequestId)
    | Fail(id: RequestId)
    | Produce(id: RequestId, status: string)
    | LastCheck(id: RequestId)
    | Finish(id: RequestId)
    | PhaseStart(iteration: Iteration)
    | PhaseEnd(iteration: Iteration)
    | MarkStale
    | Discard(id: RequestId)

  /** Steps that can be taken: request ids and iterations are not reused.  A phase may end whose start line never came. */
  ghost predicate Enabled(s: State, step: Step) {
    match step
    case Receive(id, _, _) => id !in s.handlers
    case Accept(id) => id in s.handlers && s.handlers[id].place.Accepting?
    case Check(id) => id in s.handlers && s.handlers[id].place.Working?
    case Submit(id, f) => id in s.handlers && s.handlers[id].place.Working? && f !in s.created
    case Register(id) => id in s.handlers && s.handlers[id].place.Submitting?
    case Collect(id) => id in s.handlers && s.handlers[id].place.Waiting?
    case Cancelled(id) => id in s.handlers && s.handlers[id].place.Waiting?
    case Fail(id) => id in s.handlers && (s.handlers[id].place.Working? || s.handlers[id].place.Waiting?)
    case Produce(id, _) => id in s.handlers && s.handlers[id].place.Working?
    case LastCheck(id) => id in s.handlers && s.handlers[id].place.Deciding?
    case Finish(id) => id in s.handlers && s.handlers[id].place.Finishing?
    case PhaseStart(i) => s.planner.Reading? && i !in s.started && i !in s.closing
    case PhaseEnd(i) => s.planner.Reading? && i !in s.closing
    case MarkStale => s.planner.Ending?
    case Discard(_) => s.planner.Reading?
  }

  function At(s: State, id: RequestId, place: Place): State
    requires id in s.handlers
  {
    s.(handlers := s.handlers[id := s.handlers[id].(place := place)])
  }

  const STALE := "stale_iteration"

  ghost function Next(s: State, step: Step): State
    requires Enabled(s, step)
  {
    match step
    case Receive(id, run, i) =>
      s.(rows := AfterReceived(s.rows, id, i), handlers := s.handlers[id := Handler(run, i, Accepting)])
    case Accept(id) =>
      var h := s.handlers[id];
      var r := s.registry.Adopt(h.runMatches, h.iteration);
      At(s, id, if r.IsActive(h.runMatches, h.iteration) then Working else Finishing(STALE)).(registry := r)
    case Check(id) =>
      var h := s.handlers[id];
      if s.registry.IsActive(h.runMatches, h.iteration) then s else At(s, id, Finishing(STALE))
    case Submit(id, f) =>
      At(s, id, Submitting(f)).(created := s.created + {f})
    case Register(id) =>
      var h := s.handlers[id];
      var f := h.place.submitted;
      if s.registry.IsActive(h.runMatches, h.iteration) then
        At(s, id, Waiting(f)).(registry := s.registry.Register(h.runMatches, h.iteration, id, f))
      else
        At(s, id, Finishing(STALE)).(cancelRequested := s.cancelRequested + {f})
    case Collect(id) =>
      At(s, id, Working).(registry := s.registry.Unregister(id))
    case Cancelled(id) =>
      At(s, id, Finishing(STALE)).(registry := s.registry.Unregister(id))
    case Fail(id) =>
      var r := if s.handlers[id].place.Waiting? then s.registry.Unregister(id) else s.registry;
      At(s, id, Deciding("internal_error")).(registry := r)
    case Produce(id, status) =>
      At(s, id, Deciding(status))
    case LastCheck(id) =>
      var h := s.handlers[id];
      At(s, id, Finishing(if s.registry.IsActive(h.runMatches, h.iteration) then h.place.decided else STALE))
    case Finish(id) =>
      At(s, id, Done).(rows := AfterFinished(s.rows, id, s.handlers[id].place.status))
    case PhaseStart(i) =>
      s.(registry := s.registry.Start(i), started := s.started + {i})
    case PhaseEnd(i) =>
      s.(registry := s.registry.End(i), planner := Ending(i), closing := s.closing + {i},
         cancelRequested := s.cancelRequested + set id | id in s.registry.futures && s.registry.futures[id].iteration == i :: s.registry.futures[id].future)
    case MarkStale =>
      s.(rows := AfterMarked(s.rows, s.planner.iteration), planner := Reading, ended := s.ended + {s.planner.iteration})
    case Discard(id) =>
      s.(rows := AfterDiscarded(s.rows, id))
  }

  // ---------- Runs ----------

  ghost predicate IsRun(states: seq<State>, steps: seq<Step>) {
    && |states| == |steps| + 1 && Initial(states[0])
    && forall k :: 0 <= k < |steps| ==> Enabled(states[k], steps[k]) && states[k + 1] == Next(states[k], steps[k])
  }

  // ---------- What every step keeps ----------

  ghost predicate PhasesInv(s: State) {
    && s.ended <= s.closing
    && (s.started != {} <==> s.registry.lifecycleSeen)
    && (s.registry.lifecycleSeen && s.registry.active.Some? ==> s.registry.active.value !in s.closing)
    && (s.planner.Ending? ==> s.planner.iteration in s.closing)
    && (forall i :: i in s.closing && i !in s.ended ==> s.planner == Ending(i))
  }

  /** A registered future belongs to its handler, which waits for it; one that is not registered any more was asked to cancel. */
  ghost predicate FuturesInv(s: State) {
    && (forall id :: id in s.registry.futures ==>
          id in s.handlers && s.handlers[id].place == Waiting(s.registry.futures[id].future)
          && s.handlers[id].iteration == s.registry.futures[id].iteration)
    && (forall id :: id in s.handlers && s.handlers[id].place.Waiting? ==>
          id in s.registry.futures || s.handlers[id].place.awaited in s.cancelRequested)
  }

  /** Until its handler has finished, a row is neither final nor of another iteration. */
  ghost predicate RowsInv(s: State) {
    && (forall id :: id in s.handlers ==> id in s.rows && s.rows[id].iteration == Some(s.handlers[id].iteration))
    && (forall id :: id in s.handlers && !s.handlers[id].place.Done? ==> !IsFinal(s.rows[id]))
    && (forall id :: id in s.rows && id !in s.handlers ==> s.rows[id].iteration.None? && !IsFinal(s.rows[id]))
  }

  ghost predicate Inv(s: State) {
    PhasesInv(s) && FuturesInv(s) && RowsInv(s)
  }

  lemma {:induction false} InvInitial(s: State)
    requires Initial(s)
    ensures Inv(s)
  {
  }

  lemma {:induction false} PhasesStep(s: State, step: Step)
    requires Inv(s) && Enabled(s, step)
    ensures PhasesInv(Next(s, step))
  {
  }

  lemma {:induction false} FuturesStep(s: State, step: Step)
    requires Inv(s) && Enabled(s, step)
    ensures FuturesInv(Next(s, step))
  {
  }

  lemma {:induction false} RowsStep(s: State, step: Step)
    requires Inv(s) && Enabled(s, step)
    ensures RowsInv(Next(s, step))
  {
    hide FuturesInv;
    if WritesRows(step) {
      hide PhasesInv;
    } else if step.PhaseStart? || step.PhaseEnd? {
      var s' := Next(s, step);
      assert s'.handlers == s.handlers && s'.rows == s.rows;
    } else {
      HandlerMoves(s, step);
      hide RowsInv, Moved;
      MovedKeepsRows(s, Next(s, step), step.id);
    }
  }

  predicate WritesRows(step: Step) {
    step.MarkStale? || step.Finish? || step.Receive? || step.Discard?
  }

  predicate OfOneHandler(step: Step) {
    !WritesRows(step) && !step.PhaseStart? && !step.PhaseEnd?
  }

  /** Only where one handler stands differs. */
  ghost predicate Moved(s: State, s': State, id: RequestId) {
    && s'.rows == s.rows && s'.ended == s.ended && id in s.handlers && id in s'.handlers
    && s'.handlers == s.handlers[id := s.handlers[id].(place := s'.handlers[id].place)]
    && s'.handlers[id].place != Done && s.handlers[id].place != Done
  }

  lemma {:induction false} HandlerMoves(s: State, step: Step)
    requires Enabled(s, step) && OfOneHandler(step)
    ensures Moved(s, Next(s, step), step.id)
  {
    assert s.handlers == s.handlers[step.id := s.handlers[step.id]];
  }

  lemma {:induction false} MovedKeepsRows(s: State, s': State, id: RequestId)
    requires RowsInv(s) && Moved(s, s', id)
    ensures RowsInv(s')
  {
    hide IsFinal, IsFrozen;
  }

  lemma {:induction false} InvStep(s: State, step: Step)
    requires Inv(s) && Enabled(s, step)
    ensures Inv(Next(s, step))
  {
    PhasesStep(s, step);
    FuturesStep(s, step);
    RowsStep(s, step);
  }

  lemma {:induction false} InvAlways(states: seq<State>, steps: seq<Step>, k: nat)
    requires IsRun(states, steps) && k < |states|
    ensures Inv(states[k])
  {
    if k == 0 {
      InvInitial(states[0]);
    } else {
      InvAlways(states, steps, k - 1);
      InvStep(states[k - 1], steps[k - 1]);
    }
  }

  // ---------- After the end of a phase ----------

  /**
    The end of the phase was seen, and the registry does not take the phase up again: a phase start was seen at some
    time, or an earlier iteration that has ended was taken up in its place.
   */
  predicate Shut(s: State, i: Iteration) {
    && i in s.closing && s.registry.active != Some(i)
    && (s.registry.lifecycleSeen || (s.registry.active.Some? && s.registry.active.value in s.closing))
  }

  lemma {:induction false} ShutStays(s: State, step: Step, i: Iteration)
    requires Shut(s, i) && Enabled(s, step)
    ensures Shut(Next(s, step), i)
  {
  }

  /** A phase start that was seen at any time before shuts every phase that ends. */
  lemma {:induction false} StartShuts(states: seq<State>, steps: seq<Step>, k: nat, i: Iteration)
    requires IsRun(states, steps) && k < |states| && i in states[k].closing && states[k].started != {}
    ensures Shut(states[k], i)
  {
    InvAlways(states, steps, k);
  }

  // ---------- Futures ----------

  ghost predicate NoFutureOf(s: State, i: Iteration) {
    forall id :: id in s.registry.futures ==> s.registry.futures[id].iteration != i
  }

  lemma {:induction false} NoFutureStep(s: State, step: Step, i: Iteration)
    requires Shut(s, i) && NoFutureOf(s, i) && Enabled(s, step)
    ensures NoFutureOf(Next(s, step), i)
  {
  }

  // ---------- Rows ----------

  predicate IsCompleting(h: Handler) {
    h.place.Finishing? && h.place.status != STALE
  }

  /** Handlers of the phase that still want to record a completion find their row frozen. */
  ghost predicate RowsSettled(s: State, i: Iteration) {
    forall id :: id in s.handlers && s.handlers[id].iteration == i && IsCompleting(s.handlers[id]) ==> id in s.rows && IsFrozen(s.rows[id])
  }

  ghost predicate Over(s: State, i: Iteration) {
    Shut(s, i) && RowsSettled(s, i)
  }

  lemma {:induction false} OverStep(s: State, step: Step, i: Iteration)
    requires Inv(s) && Over(s, i) && Enabled(s, step)
    ensures Over(Next(s, step), i)
  {
    ShutStays(s, step, i);
    if OfOneHandler(step) {
      HandlerMoves(s, step);
    }
  }

  lemma {:induction false} MarkingSettles(s: State)
    requires Inv(s) && s.planner.Ending?
    ensures RowsSettled(Next(s, MarkStale), s.planner.iteration)
    ensures Shut(Next(s, MarkStale), s.planner.iteration) <==> Shut(s, s.planner.iteration)
  {
  }

  /** A row of the iteration that is usable now was usable before, and the same. */
  ghost predicate NoNewUsable(s: State, s': State, i: Iteration) {
    forall id :: id in s'.rows && s'.rows[id].iteration == Some(i) && IsUsable(s'.rows[id]) ==> id in s.rows && s.rows[id] == s'.rows[id]
  }

  lemma {:induction false} OverAddsNone(s: State, step: Step, i: Iteration)
    requires Inv(s) && Over(s, i) && Enabled(s, step)
    ensures NoNewUsable(s, Next(s, step), i)
  {
  }

  /** Steps one after the other, from any state. */
  ghost predicate IsPath(s: State, states: seq<State>, steps: seq<Step>) {
    && |states| == |steps| + 1 && states[0] == s
    && forall k :: 0 <= k < |steps| ==> Enabled(states[k], steps[k]) && states[k + 1] == Next(states[k], steps[k])
  }

  lemma {:induction false} OverForGood(s: State, states: seq<State>, steps: seq<Step>, k: nat, i: Iteration)
    requires Inv(s) && Over(s, i) && IsPath(s, states, steps) && k < |states|
    ensures Inv(states[k]) && Over(states[k], i) && NoNewUsable(s, states[k], i)
  {
    hide Inv, Over;
    if k > 0 {
      OverForGood(s, states, steps, k - 1, i);
      InvStep(states[k - 1], steps[k - 1]);
      OverStep(states[k - 1], steps[k - 1], i);
      OverAddsNone(states[k - 1], steps[k - 1], i);
    }
  }

  /** Some continuation makes a row of the iteration usable that was not. */
  ghost predicate CompletesLate(s: State, i: Iteration) {
    exists states, steps :: IsPath(s, states, steps) && !NoNewUsable(s, states[|steps|], i)
  }

  /**
    In every run, once the end of a phase is fully processed: no row of it newly becomes usable in any continuation
    exactly when the phase is shut.
   */
  lemma {:induction false} NoLateCompletion(states: seq<State>, steps: seq<Step>, e: nat, i: Iteration)
    requires IsRun(states, steps) && e < |steps| && steps[e] == MarkStale && states[e].planner == Ending(i)
    ensures CompletesLate(states[e + 1], i) <==> !Shut(states[e + 1], i)
  {
    InvAlways(states, steps, e);
    InvAlways(states, steps, e + 1);
    MarkingSettles(states[e]);
    var s := states[e + 1];
    if Shut(s, i) {
      forall states', steps' | IsPath(s, states', steps') ensures NoNewUsable(s, states'[|steps'|], i) {
        OverForGood(s, states', steps', |steps'|, i);
      }
    } else {
      LateCompletion(s, i);
    }
  }

  // ---------- The failing run ----------

  /** At the registry: an iteration that was just ended is taken up by the next request exactly when no phase start was seen. */
  lemma {:induction false} EndWithoutStart<F>(r: Registry<F>, i: Iteration)
    ensures r.End(i).Adopt(true, i).IsActive(true, i) <==> !r.lifecycleSeen && (r.active.None? || r.active == Some(i))
  {
  }

  lemma {:induction false} FreshId(ids: set<RequestId>) returns (id: RequestId)
    ensures id !in ids && forall other :: other in ids ==> |other| < |id|
    decreases |ids|
  {
    if ids == {} {
      id := "";
    } else {
      var one :| one in ids;
      var rest := FreshId(ids - {one});
      id := if |one| < |rest| then rest else one + "x";
    }
  }

  /** The registry may be active for the iteration now or with the next request for it. */
  predicate MayAdopt(s: State, i: Iteration) {
    s.registry.active == Some(i) || (s.registry.active.None? && !s.registry.lifecycleSeen)
  }

  /** The handler of a request for the iteration stands at a place, and its row says no more than that. */
  ghost predicate Handling(s: State, id: RequestId, i: Iteration, place: Place) {
    && id in s.handlers && s.handlers[id] == Handler(true, i, place)
    && id in s.rows && s.rows[id] == Row(Some(i), Some("received"))
  }

  lemma {:induction false} ReceivedAndAccepted(s: State, id: RequestId, i: Iteration)
    requires id !in s.handlers && MayAdopt(s, i)
    ensures var s1 := Next(s, Receive(id, true, i));
      Enabled(s1, Accept(id)) && Handling(Next(s1, Accept(id)), id, i, Working) && Next(s1, Accept(id)).registry.active == Some(i)
  {
  }

  lemma {:induction false} ProducedAndChecked(s: State, id: RequestId, i: Iteration)
    requires Handling(s, id, i, Working) && s.registry.active == Some(i)
    ensures Enabled(s, Produce(id, "ok"))
    ensures var s1 := Next(s, Produce(id, "ok"));
      Enabled(s1, LastCheck(id)) && Handling(Next(s1, LastCheck(id)), id, i, Finishing("ok"))
  {
  }

  lemma {:induction false} Recorded(s: State, id: RequestId, i: Iteration)
    requires Handling(s, id, i, Finishing("ok"))
    ensures Enabled(s, Finish(id))
    ensures var s1 := Next(s, Finish(id)); id in s1.rows && s1.rows[id] == Row(Some(i), Some("ok"))
  {
  }

  /** A request for the ended iteration is received, accepted, answered, checked and recorded as usable. */
  lemma {:induction false} LateRequest(s: State, i: Iteration) returns (states: seq<State>, steps: seq<Step>)
    requires Inv(s) && MayAdopt(s, i)
    ensures IsPath(s, states, steps) && !NoNewUsable(s, states[|steps|], i)
  {
    var id := FreshId(s.handlers.Keys);
    assert id in s.rows ==> s.rows[id].iteration.None?;
    assert Enabled(s, Receive(id, true, i));
    ReceivedAndAccepted(s, id, i);
    hide Enabled, Next, Inv, MayAdopt, Handling;
    var s1 := Next(s, Receive(id, true, i));
    var s2 := Next(s1, Accept(id));
    ProducedAndChecked(s2, id, i);
    var s3 := Next(s2, Produce(id, "ok"));
    var s4 := Next(s3, LastCheck(id));
    Recorded(s4, id, i);
    var s5 := Next(s4, Finish(id));
    steps := [Receive(id, true, i), Accept(id), Produce(id, "ok"), LastCheck(id), Finish(id)];
    states := [s, s1, s2, s3, s4, s5];
    assert s5.rows[id] == Row(Some(i), Some("ok")) && states[|steps|] == s5;
  }

  lemma {:induction false} PathCons(s: State, step: Step, states: seq<State>, steps: seq<Step>)
    requires Enabled(s, step) && IsPath(Next(s, step), states, steps)
    ensures IsPath(s, [s] + states, [step] + steps)
  {
    hide Enabled, Next;
  }

  lemma {:induction false} MarkingKeepsUsable(s: State)
    requires s.planner.Ending?
    ensures var s' := Next(s, MarkStale);
      forall id :: id in s.rows && IsUsable(s.rows[id]) ==> id in s'.rows && s'.rows[id] == s.rows[id]
  {
  }

  lemma {:induction false} LateCompletion(s: State, i: Iteration)
    requires Inv(s) && s.planner.Reading? && i in s.closing && !Shut(s, i)
    ensures CompletesLate(s, i)
  {
    if MayAdopt(s, i) {
      var states, steps := LateRequest(s, i);
    } else {
      var j := s.registry.active.value;
      var s1 := Next(s, PhaseEnd(j));
      var s2 := Next(s1, MarkStale);
      InvStep(s, PhaseEnd(j));
      InvStep(s1, MarkStale);
      var states, steps := LateRequest(s2, i);
      PathCons(s1, MarkStale, states, steps);
      PathCons(s, PhaseEnd(j), [s1] + states, [MarkStale] + steps);
      MarkingKeepsUsable(s1);
      hide Inv, IsPath, IsUsable;
      var longer, more := [s, s1] + states, [PhaseEnd(j), MarkStale] + steps;
      assert longer == [s] + ([s1] + states) && more == [PhaseEnd(j)] + ([MarkStale] + steps);
      assert longer[|more|] == states[|steps|];
      assert !NoNewUsable(s, longer[|more|], i);
    }
  }

  // ---------- No future left ----------

  /** From the end of a phase on, no future of it is registered and all that are waited for were asked to cancel. */
  ghost predicate AllCancelled(s: State, i: Iteration) {
    && NoFutureOf(s, i)
    && forall id :: id in s.handlers && s.handlers[id].iteration == i && s.handlers[id].place.Waiting? ==>
         s.handlers[id].place.awaited in s.cancelRequested
  }

  lemma {:induction false} NoFutureForGood(s: State, states: seq<State>, steps: seq<Step>, k: nat, i: Iteration)
    requires Inv(s) && Shut(s, i) && NoFutureOf(s, i) && IsPath(s, states, steps) && k < |states|
    ensures Inv(states[k]) && Shut(states[k], i) && AllCancelled(states[k], i)
  {
    if k > 0 {
      NoFutureForGood(s, states, steps, k - 1, i);
      hide Shut, NoFutureOf;
      InvStep(states[k - 1], steps[k - 1]);
      ShutStays(states[k - 1], steps[k - 1], i);
      NoFutureStep(states[k - 1], steps[k - 1], i);
    }
  }

  /** Some continuation has a future of the iteration that is registered or waited for without being asked to cancel. */
  ghost predicate FutureComesBack(s: State, i: Iteration) {
    exists states, steps :: IsPath(s, states, steps) && !AllCancelled(states[|steps|], i)
  }

  /** In every run, from the end of a phase on, no future of it is left in any continuation exactly when the phase is shut. */
  lemma {:induction false} NoFutureLeft(states: seq<State>, steps: seq<Step>, e: nat, i: Iteration)
    requires IsRun(states, steps) && e < |steps| && steps[e] == PhaseEnd(i)
    ensures FutureComesBack(states[e + 1], i) <==> !Shut(states[e + 1], i)
  {
    InvAlways(states, steps, e);
    InvAlways(states, steps, e + 1);
    var s := states[e + 1];
    assert s == Next(states[e], PhaseEnd(i)) && NoFutureOf(s, i) && s.planner == Ending(i);
    if Shut(s, i) {
      forall states', steps' | IsPath(s, states', steps') ensures AllCancelled(states'[|steps'|], i) {
        NoFutureForGood(s, states', steps', |steps'|, i);
      }
    } else {
      FutureReturns(s, i);
    }
  }

  lemma {:induction false} Submitted(s: State, id: RequestId, i: Iteration, f: FutureId)
    requires Handling(s, id, i, Working) && s.registry.active == Some(i) && f !in s.created
    ensures Enabled(s, Submit(id, f))
    ensures var s1 := Next(s, Submit(id, f));
      Enabled(s1, Register(id)) && !NoFutureOf(Next(s1, Register(id)), i)
  {
    var s2 := Next(Next(s, Submit(id, f)), Register(id));
    assert id in s2.registry.futures && s2.registry.futures[id].iteration == i;
  }

  lemma {:induction false} FreshFuture(created: set<FutureId>) returns (f: FutureId)
    ensures f !in created && forall other :: other in created ==> other < f
    decreases |created|
  {
    if created == {} {
      f := 0;
    } else {
      var one :| one in created;
      var rest := FreshFuture(created - {one});
      assert forall other :: other in created ==> other == one || other in created - {one};
      f := if one < rest then rest else one + 1;
    }
  }

  /** A request for the ended iteration is accepted, and its future registered. */
  lemma {:induction false} LateFuture(s: State, i: Iteration) returns (states: seq<State>, steps: seq<Step>)
    requires MayAdopt(s, i)
    ensures IsPath(s, states, steps) && !AllCancelled(states[|steps|], i)
  {
    var id := FreshId(s.handlers.Keys);
    assert Enabled(s, Receive(id, true, i));
    ReceivedAndAccepted(s, id, i);
    hide Enabled, Next, MayAdopt, Handling, NoFutureOf;
    var s1 := Next(s, Receive(id, true, i));
    var s2 := Next(s1, Accept(id));
    var f := FreshFuture(s2.created);
    Submitted(s2, id, i, f);
    var s3 := Next(s2, Submit(id, f));
    var s4 := Next(s3, Register(id));
    steps := [Receive(id, true, i), Accept(id), Submit(id, f), Register(id)];
    states := [s, s1, s2, s3, s4];
    assert states[|steps|] == s4;
  }

  lemma {:induction false} FutureReturns(s: State, i: Iteration)
    requires Inv(s) && s.planner == Ending(i) && s.registry.active != Some(i) && !Shut(s, i)
    ensures FutureComesBack(s, i)
  {
    if s.registry.active.None? {
      var states, steps := LateFuture(s, i);
    } else {
      var j := s.registry.active.value;
      var s1 := Next(s, MarkStale);
      var s2 := Next(s1, PhaseEnd(j));
      var states, steps := LateFuture(s2, i);
      PathCons(s1, PhaseEnd(j), states, steps);
      PathCons(s, MarkStale, [s1] + states, [PhaseEnd(j)] + steps);
      hide Inv, IsPath, AllCancelled;
      var longer, more := [s] + ([s1] + states), [MarkStale] + ([PhaseEnd(j)] + steps);
      assert longer[|more|] == states[|steps|];
    }
  }
}
