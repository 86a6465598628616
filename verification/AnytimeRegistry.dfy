/** Which phase may still use LLM responses, and what was recorded of the requests (hybrid_planner/anytime.py). */
module AnytimeRegistry {

  datatype Option<T> = None | Some(value: T)

  type RequestId = string

  type Iteration = int

  // ---------- The registry as a value ----------

  datatype Registered<F> = Registered(iteration: Iteration, future: F)

  datatype Registry<F> = Registry(active: Option<Iteration>, lifecycleSeen: bool, futures: map<RequestId, Registered<F>>) {

    function Start(i: Iteration): Registry<F> {
      this.(active := Some(i), lifecycleSeen := true)
    }

    /** A direct search without phases makes the first iteration it sees the active one. */
    function Adopt(runMatches: bool, i: Iteration): Registry<F> {
      if runMatches && active.None? && !lifecycleSeen then this.(active := Some(i)) else this
    }

    predicate IsActive(runMatches: bool, i: Iteration) {
      runMatches && active == Some(i)
    }

    function Register(runMatches: bool, i: Iteration, id: RequestId, f: F): Registry<F> {
      if IsActive(runMatches, i) then this.(futures := futures[id := Registered(i, f)]) else this
    }

    function Unregister(id: RequestId): Registry<F> {
      this.(futures := futures - {id})
    }

    /** Ends a phase: it is no longer active and keeps no future. */
    function End(i: Iteration): Registry<F> {
      Registry(if active == Some(i) then None else active, lifecycleSeen,
               map id | id in futures && futures[id].iteration != i :: futures[id])
    }
  }

  // ---------- The recorded requests as values ----------

  datatype Row = Row(iteration: Option<Iteration>, status: Option<string>)

  const EMPTY_ROW := Row(None, None)

  type Rows = map<RequestId, Row>

  function RowOf(rows: Rows, id: RequestId): Row {
    if id in rows then rows[id] else EMPTY_ROW
  }

  /** A late handler never turns a stale row back into a completion. */
  predicate IsFrozen(row: Row) {
    row.status == Some("stale_iteration") || row.status == Some("discarded_phase_end")
  }

  predicate IsFinal(row: Row) {
    row.status.Some? && row.status.value in {"ok", "partial", "mock", "prompt_error", "llm_error", "internal_error"}
  }

  predicate IsUsable(row: Row) {
    row.status.Some? && row.status.value in {"ok", "partial", "mock"}
  }

  function AfterReceived(rows: Rows, id: RequestId, i: Iteration): Rows {
    rows[id := Row(Some(i), Some("received"))]
  }

  function AfterFinished(rows: Rows, id: RequestId, status: string): Rows {
    var row := RowOf(rows, id);
    rows[id := if IsFrozen(row) then row else row.(status := Some(status))]
  }

  function MarkedRow(row: Row, i: Iteration): Row {
    if row.iteration == Some(i) && !IsFinal(row) then row.(status := Some("stale_iteration")) else row
  }

  function AfterMarked(rows: Rows, i: Iteration): Rows {
    map id | id in rows :: MarkedRow(rows[id], i)
  }

  /** The end of phase i as a relation of the recorded requests before and after, status by status. */
  ghost predicate StaleAfterPhase(before: Rows, after: Rows, i: Iteration) {
    && after.Keys == before.Keys
    && (forall id :: id in before && before[id].iteration != Some(i) ==> after[id] == before[id])
    && (forall id :: id in before && before[id].iteration == Some(i) ==>
          match before[id].status
          case Some("ok") | Some("partial") | Some("mock") => after[id] == before[id]
          case Some("prompt_error") | Some("llm_error") | Some("internal_error") => after[id] == before[id]
          case _ => after[id] == Row(Some(i), Some("stale_iteration")))
  }

  /** The planner reports that it discarded a response at the end of a phase. */
  function AfterDiscarded(rows: Rows, id: RequestId): Rows {
    var row := RowOf(rows, id);
    rows[id := if row.status == Some("stale_iteration") then row else row.(status := Some("discarded_phase_end"))]
  }

  /** No entry but that of id differs. */
  ghost predicate OnlyAt<K(!new), V>(before: map<K, V>, after: map<K, V>, id: K) {
    && (forall k :: k != id ==> (k in after <==> k in before))
    && (forall k :: k != id && k in after && k in before ==> after[k] == before[k])
  }

  // ---------- The classes ----------

  class Future {
    var cancelRequested: bool

    /** Whether the request comes in time is up to the thread that runs the future. */
    method Cancel() returns (accepted: bool)
      modifies this
      ensures cancelRequested
    {
      cancelRequested := true;
      accepted := *;
    }
  }

  class ActiveIterationRegistry {
    const runId: string
    var activeIteration: Option<Iteration>
    var lifecycleSeen: bool
    var futures: map<RequestId, Registered<Future>>

    ghost function View(): Registry<Future>
      reads this
    {
      Registry(activeIteration, lifecycleSeen, futures)
    }

    constructor (runId: string)
      ensures this.runId == runId && View() == Registry(None, false, map[])
    {
      this.runId := runId;
      activeIteration, lifecycleSeen, futures := None, false, map[];
    }

    /** From now on exactly this iteration is active, and no request makes another one active. */
    method StartIteration(iteration: Iteration)
      modifies this
      ensures View() == old(View()).Start(iteration) && futures == old(futures)
      ensures forall i :: View().IsActive(true, i) <==> i == iteration
      ensures forall i, j :: View().End(i).Adopt(true, j) == View().End(i)
    {
      lifecycleSeen := true;
      activeIteration := Some(iteration);
    }

    method AcceptRequest(run: string, iteration: Iteration) returns (accepted: bool)
      modifies this
      ensures View() == old(View()).Adopt(run == runId, iteration)
      ensures accepted == View().IsActive(run == runId, iteration)
    {
      if run != runId {
        return false;
      }
      if activeIteration.None? && !lifecycleSeen {
        activeIteration := Some(iteration);
      }
      return activeIteration == Some(iteration);
    }

    method IsActive(run: string, iteration: Iteration) returns (active: bool)
      ensures active == View().IsActive(run == runId, iteration)
    {
      return run == runId && activeIteration == Some(iteration);
    }

    method RegisterFuture(run: string, iteration: Iteration, id: RequestId, future: Future) returns (registered: bool)
      modifies this
      ensures View() == old(View()).Register(run == runId, iteration, id, future)
      ensures registered <==> run == runId && old(activeIteration) == Some(iteration)
      ensures if registered then id in futures && futures[id] == Registered(iteration, future) else futures == old(futures)
      ensures OnlyAt(old(futures), futures, id) && activeIteration == old(activeIteration) && lifecycleSeen == old(lifecycleSeen)
    {
      if run != runId || activeIteration != Some(iteration) {
        return false;
      }
      futures := futures[id := Registered(iteration, future)];
      return true;
    }

    method UnregisterFuture(id: RequestId)
      modifies this
      ensures View() == old(View()).Unregister(id)
      ensures id !in futures && OnlyAt(old(futures), futures, id)
      ensures activeIteration == old(activeIteration) && lifecycleSeen == old(lifecycleSeen)
    {
      futures := futures - {id};
    }

    /** Every future of the phase is asked to cancel and forgotten; the answers are returned by request. */
    method EndIteration(iteration: Iteration) returns (cancelled: map<RequestId, bool>)
      modifies this, set id | id in futures :: futures[id].future
      ensures View() == old(View()).End(iteration)
      ensures cancelled.Keys == set id | id in old(futures) && old(futures)[id].iteration == iteration
      ensures forall id :: id in cancelled ==> old(futures)[id].future.cancelRequested
    {
      if activeIteration == Some(iteration) {
        activeIteration := None;
      }
      cancelled := map[];
      var rest := futures.Keys;
      ghost var all := futures;
      StartEnding(all, iteration);
      hide PartlyEnded;
      while rest != {}
        invariant activeIteration == old(View()).End(iteration).active && lifecycleSeen == old(lifecycleSeen)
        invariant PartlyEnded(all, futures, cancelled.Keys, rest, iteration)
        invariant forall id :: id in cancelled ==> all[id].future.cancelRequested
        decreases rest
      {
        var id :| id in rest;
        EndOne(all, futures, cancelled.Keys, rest, iteration, id);
        rest := rest - {id};
        if futures[id].iteration == iteration {
          var accepted := futures[id].future.Cancel();
          assert cancelled[id := accepted].Keys == cancelled.Keys + {id};
          cancelled := cancelled[id := accepted];
          futures := futures - {id};
        }
      }
      DoneEnding(all, futures, cancelled.Keys, iteration);
    }
  }

  /** All but the rest of the futures have been gone through. */
  ghost predicate PartlyEnded<F>(all: map<RequestId, Registered<F>>, futures: map<RequestId, Registered<F>>, cancelled: set<RequestId>,
                                 rest: set<RequestId>, i: Iteration) {
    && (forall id :: id in rest ==> id in all) && (forall id :: id in cancelled ==> id in all)
    && (forall id :: id in futures <==> id in all && (id in rest || all[id].iteration != i))
    && (forall id :: id in futures ==> futures[id] == all[id])
    && (forall id :: id in cancelled <==> id in all && id !in rest && all[id].iteration == i)
  }

  lemma {:induction false} EndOne<F>(all: map<RequestId, Registered<F>>, futures: map<RequestId, Registered<F>>, cancelled: set<RequestId>,
                                     rest: set<RequestId>, i: Iteration, id: RequestId)
    requires PartlyEnded(all, futures, cancelled, rest, i) && id in rest
    ensures id in all && id in futures && futures[id] == all[id] && id !in cancelled
    ensures all[id].iteration != i ==> PartlyEnded(all, futures, cancelled, rest - {id}, i)
    ensures all[id].iteration == i ==> PartlyEnded(all, futures - {id}, cancelled + {id}, rest - {id}, i)
  {
  }

  lemma {:induction false} StartEnding<F>(all: map<RequestId, Registered<F>>, i: Iteration)
    ensures PartlyEnded(all, all, {}, all.Keys, i)
  {
  }

  lemma {:induction false} DoneEnding<F>(all: map<RequestId, Registered<F>>, futures: map<RequestId, Registered<F>>,
                                         cancelled: set<RequestId>, i: Iteration)
    requires PartlyEnded(all, futures, cancelled, {}, i)
    ensures futures == map id | id in all && all[id].iteration != i :: all[id]
    ensures cancelled == set id | id in all && all[id].iteration == i
  {
  }

  class AnytimeRunRecorder {
    const registry: ActiveIterationRegistry
    var requests: Rows
    var activePhaseIteration: Option<Iteration>
    var lastPhaseIteration: Option<Iteration>

    constructor (registry: ActiveIterationRegistry)
      ensures this.registry == registry && requests == map[] && activePhaseIteration.None? && lastPhaseIteration.None?
    {
      this.registry := registry;
      requests, activePhaseIteration, lastPhaseIteration := map[], None, None;
    }

    method RequestReceived(id: RequestId, iteration: Iteration)
      modifies this`requests
      ensures requests == AfterReceived(old(requests), id, iteration)
      ensures id in requests && requests[id].iteration == Some(iteration) && !IsFinal(requests[id]) && !IsFrozen(requests[id])
      ensures OnlyAt(old(requests), requests, id)
    {
      var row := RowOf(requests, id);
      requests := requests[id := row.(iteration := Some(iteration), status := Some("received"))];
    }

    method RequestFinished(id: RequestId, status: string)
      modifies this`requests
      ensures requests == AfterFinished(old(requests), id, status)
      ensures id in old(requests) && IsFrozen(old(requests)[id]) ==> requests == old(requests)
      ensures id in requests && OnlyAt(old(requests), requests, id)
      ensures !(id in old(requests) && IsFrozen(old(requests)[id])) ==> requests[id].status == Some(status)
      ensures id in old(requests) ==> requests[id].iteration == old(requests)[id].iteration
    {
      var row := RowOf(requests, id);
      var kept := Some(status);
      if row.status.Some? && row.status.value in {"stale_iteration", "discarded_phase_end"} {
        kept := row.status;
      }
      requests := requests[id := row.(status := kept)];
    }

    /** Requests of the phase that have not come to an end get stale. */
    method MarkIterationStale(iteration: Iteration)
      modifies this`requests
      ensures requests == AfterMarked(old(requests), iteration)
      ensures StaleAfterPhase(old(requests), requests, iteration)
    {
      ghost var before := requests;
      var rest := requests.Keys;
      while rest != {}
        invariant rest <= before.Keys && requests.Keys == before.Keys
        invariant forall id :: id in before ==> requests[id] == if id in rest then before[id] else MarkedRow(before[id], iteration)
        decreases rest
      {
        var id :| id in rest;
        rest := rest - {id};
        var row := requests[id];
        if row.iteration == Some(iteration) && !IsFinal(row) {
          requests := requests[id := row.(status := Some("stale_iteration"))];
        }
      }
    }

    method PhaseStart(iteration: Iteration)
      modifies this, registry
      ensures registry.View() == old(registry.View()).Start(iteration) && requests == old(requests)
      ensures activePhaseIteration == Some(iteration) && lastPhaseIteration == old(lastPhaseIteration)
    {
      registry.StartIteration(iteration);
      activePhaseIteration := Some(iteration);
    }

    /** The registry ends the phase first; the rows are marked in a second step. */
    method PhaseEnd(iteration: Iteration)
      modifies this, registry, set id | id in registry.futures :: registry.futures[id].future
      ensures registry.View() == old(registry.View()).End(iteration) && requests == AfterMarked(old(requests), iteration)
      ensures StaleAfterPhase(old(requests), requests, iteration)
      ensures forall id :: id in old(registry.futures) && old(registry.futures)[id].iteration == iteration ==>
        old(registry.futures)[id].future.cancelRequested
      ensures activePhaseIteration.None? && lastPhaseIteration == Some(iteration)
    {
      var cancellations := registry.EndIteration(iteration);
      MarkIterationStale(iteration);
      activePhaseIteration := None;
      lastPhaseIteration := Some(iteration);
    }

    method ResponseDiscarded(id: RequestId)
      modifies this`requests
      ensures requests == AfterDiscarded(old(requests), id)
      ensures id in requests && IsFrozen(requests[id]) && OnlyAt(old(requests), requests, id)
      ensures id in old(requests) && old(requests)[id].status == Some("stale_iteration") ==> requests == old(requests)
      ensures id in old(requests) ==> requests[id].iteration == old(requests)[id].iteration
    {
      var row := RowOf(requests, id);
      if row.status != Some("stale_iteration") {
        row := row.(status := Some("discarded_phase_end"));
      }
      requests := requests[id := row];
    }
  }
}
