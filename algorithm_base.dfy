/**
  `AlgorithmBase<TGraph>` (src/lib/algorithms/algorithm-base.ts) and the
  `AlgorithmServices` it owns (src/lib/algorithms/services/algorithm-services.ts):
  the computation-state machine every algorithm shares, and the service
  cache through which an algorithm finds its `CancelManager`. The two classes
  refer to each other, so they share one module. `ComputationState`
  (src/lib/algorithms/computation-state.ts) is a plain enumeration.

  Subclasses extend the base by composition: an algorithm holds an
  `AlgorithmBase` and runs its own `initialize` and `internalCompute`
  between `BeginComputation` and `EndComputation`, as `compute` does.
 */
module Algorithms {
  import opened Wrappers
  import opened InjectionTokens
  import CancelManagers

  type CancelManager = CancelManagers.CancelManager

  datatype ComputationState = NotRunning | Running | PendingAbortion | Finished | Aborted

  /** The notifications of `started`, `aborted`, `finished` and `stateChanged`. */
  datatype AlgorithmEvent = OnStarted | OnAborted | OnFinished | OnStateChanged

  // ------------------------------------------------------ the state machine

  /** The effect of one state transition: the new state, what it fires, and
      whether it throws. */
  datatype Transition = Transition(state: ComputationState, fired: seq<AlgorithmEvent>, result: Result<()>)

  /** `beginComputation` (lines 106-111): from any state the run starts,
      firing `started` then `stateChanged`. */
  function BeginStep(st: ComputationState): (t: Transition)
    ensures t.state == Running && t.fired == [OnStarted, OnStateChanged] && t.result.Success?
  {
    Transition(Running, [OnStarted, OnStateChanged], Success(()))
  }

  /** `endComputation` (lines 112-125): only a running or pending run ends,
      and it ends as `Aborted`; any other state throws before firing. */
  function EndStep(st: ComputationState): (t: Transition)
    ensures t.result.Success? <==> st == Running || st == PendingAbortion
    ensures t.result.Success? ==> t.state == Aborted && t.fired == [OnAborted, OnStateChanged]
    ensures t.result.Failure? ==> t.state == st && t.fired == [] && t.result.error == InvalidOperation
  {
    if st == Running || st == PendingAbortion then
      Transition(Aborted, [OnAborted, OnStateChanged], Success(()))
    else
      Transition(st, [], Failure(InvalidOperation))
  }

  /** `abort` (lines 55-66): acts only on a running computation, and never
      throws. */
  function AbortStep(st: ComputationState): (t: Transition)
    ensures st == Running ==> t.state == Aborted && t.fired == [OnStateChanged]
    ensures st != Running ==> t.state == st && t.fired == []
    ensures t.result.Success?
  {
    if st == Running then Transition(Aborted, [OnStateChanged], Success(()))
    else Transition(st, [], Success(()))
  }

  /** The public operations on the state machine. A `Run` is a `compute` whose
      `internalCompute` returns normally; `AbortingRun` is one during which
      `abort` is called; `FailingRun` is one whose `internalCompute` throws,
      so that `endComputation` is skipped. */
  datatype Operation = AbortCall | Run | AbortingRun | FailingRun(error: Exception)

  /** `compute` and `abort` as transitions (lines 55-77). No operation fires
      `finished` or enters `Finished`; the only exceptions are the one
      `internalCompute` throws and `endComputation`'s. */
  function Apply(st: ComputationState, op: Operation): (t: Transition)
    ensures OnFinished !in t.fired
    ensures st != Finished ==> t.state != Finished
    ensures op.FailingRun? ==> t.result == Failure(op.error)
    ensures t.result.Failure? && !op.FailingRun? ==> t.result.error == InvalidOperation
  {
    match op
    case AbortCall => AbortStep(st)
    case Run =>
      var b := BeginStep(st);
      var e := EndStep(b.state);
      Transition(e.state, b.fired + e.fired, e.result)
    case AbortingRun =>
      var b := BeginStep(st);
      var a := AbortStep(b.state);
      var e := EndStep(a.state);
      Transition(e.state, b.fired + a.fired + e.fired, e.result)
    case FailingRun(error) =>
      var b := BeginStep(st);
      Transition(b.state, b.fired, Failure(error))
  }

  /** The states and notifications after a sequence of operations. */
  function Replay(st: ComputationState, ops: seq<Operation>): (t: Transition)
    decreases |ops|
  {
    if ops == [] then Transition(st, [], Success(()))
    else
      var first := Apply(st, ops[0]);
      var rest := Replay(first.state, ops[1..]);
      Transition(rest.state, first.fired + rest.fired, rest.result)
  }

  /** A normal `compute` ends in `Aborted`, firing `started`, `stateChanged`,
      `aborted`, `stateChanged`, and never `finished`. */
  lemma NormalRunEndsAborted(st: ComputationState)
    ensures Apply(st, Run) == Transition(Aborted, [OnStarted, OnStateChanged, OnAborted, OnStateChanged], Success(()))
  {
  }

  /** `abort` during a run makes `compute` throw `InvalidOperationException`
      at the end, after `stateChanged` has fired once for the abort. */
  lemma AbortDuringRunThrows(st: ComputationState)
    ensures Apply(st, AbortingRun) == Transition(Aborted, [OnStarted, OnStateChanged, OnStateChanged], Failure(InvalidOperation))
  {
  }

  /** A `compute` whose `internalCompute` throws rethrows that error and
      stays `Running`, having fired only `started` and `stateChanged`. */
  lemma FailingRunStaysRunning(st: ComputationState, error: Exception)
    ensures Apply(st, FailingRun(error)) == Transition(Running, [OnStarted, OnStateChanged], Failure(error))
  {
  }

  /** `abort` fires `stateChanged` exactly when the computation is running,
      and otherwise leaves the state alone. */
  lemma AbortOnlyWhileRunning(st: ComputationState)
    ensures AbortStep(st).fired != [] <==> st == Running
    ensures st != Running ==> AbortStep(st).state == st
  {
  }

  /** No sequence of operations from a state other than `Finished` ever
      reaches `Finished` or fires `finished`. */
  lemma {:induction false} NeverFinished(st: ComputationState, ops: seq<Operation>)
    requires st != Finished
    ensures Replay(st, ops).state != Finished
    ensures OnFinished !in Replay(st, ops).fired
    decreases |ops|
  {
    if ops != [] {
      NeverFinished(Apply(st, ops[0]).state, ops[1..]);
    }
  }

  // ------------------------------------------------------ the service cache

  /** What `tryGetService` answers and leaves in the entry of its token. */
  datatype Served = Served(entry: Option<CancelManager>, service: Option<CancelManager>)

  /** A token's entry holds a service: `this._servicesMap.get(t)` is truthy. */
  predicate Cached(found: Option<Option<CancelManager>>) {
    found.Some? && found.value.Some?
  }

  /** `tryGetService` (lines 88-104) on the entry found for the token (`None`
      for no entry, `Some(None)` for a nulled one), given what `create()`
      would return: a cached service is handed out and its entry nulled;
      otherwise the created value is stored and returned. */
  function Serve(found: Option<Option<CancelManager>>, created: Option<CancelManager>): (s: Served)
    ensures Cached(found) ==> s.entry == None && s.service == found.value
    ensures !Cached(found) ==> s.entry == created && s.service == created
  {
    if Cached(found) then Served(None, found.value) else Served(created, created)
  }

  /** Requests for a token with a factory alternate: the first creates and
      caches a service, the second hands that service out and nulls the
      entry, the third creates again. */
  lemma ServeAlternates(c1: CancelManager, c3: CancelManager)
    ensures var first := Serve(None, Some(c1));
      var second := Serve(Some(first.entry), Some(c3));
      var third := Serve(Some(second.entry), Some(c3));
      && first == Served(Some(c1), Some(c1))
      && second == Served(None, Some(c1))
      && third == Served(Some(c3), Some(c3))
  {
  }

  /** A request answers a service exactly when one is cached or created. */
  lemma ServeSucceeds(found: Option<Option<CancelManager>>, created: Option<CancelManager>)
    ensures Serve(found, created).service.Some? <==> Cached(found) || created.Some?
  {
  }

  class AlgorithmServices {
    /** The component asked for services; `None` stands for the algorithm
        that owns these services, which is its own host when the
        constructor got none (algorithm-base.ts, lines 23-29). */
    const host: Option<AlgorithmBase>
    /** `_cancelManager`, set on first use. */
    var cancelManager: Option<CancelManager>

    constructor (host: Option<AlgorithmBase>)
      ensures this.host == host && cancelManager == None
    {
      this.host := host;
      cancelManager := None;
    }
  }

  class AlgorithmBase {
    const services: AlgorithmServices
    var state: ComputationState
    /** `_servicesMap`; created on first use, which the empty map stands for. */
    var servicesMap: map<InjectionToken, Option<CancelManager>>
    /** Everything the four subjects have emitted, oldest first. */
    ghost var events: seq<AlgorithmEvent>

    /** `new AlgorithmBase(visitedGraph, host?)`; the graph is held by each
        algorithm itself. */
    constructor (host: Option<AlgorithmBase>)
      ensures fresh(services) && services.host == host && services.cancelManager == None
      ensures state == NotRunning && servicesMap == map[] && events == []
    {
      services := new AlgorithmServices(host);
      state := NotRunning;
      servicesMap := map[];
      events := [];
    }

    /** The component `services` asks for a `CancelManager`. */
    function Host(): (h: AlgorithmBase)
      ensures services.host.None? ==> h == this
      ensures services.host.Some? ==> h == services.host.value
    {
      if services.host.Some? then services.host.value else this
    }

    /** The cache entry of a token, as `Map.get` finds it. */
    function Entry(t: InjectionToken): Option<Option<CancelManager>>
      reads this
    {
      if t in servicesMap then Some(servicesMap[t]) else None
    }

    method TryGetService(t: InjectionToken) returns (r: Option<CancelManager>)
      modifies this
      ensures var s := Serve(old(Entry(t)), r);
        servicesMap == old(servicesMap)[t := s.entry] && r == s.service
      ensures !Cached(old(Entry(t))) ==> (r.None? <==> t.factory.NoFactory?) && (r.Some? ==> fresh(r.value))
      ensures state == old(state) && events == old(events)
    {
      var found := if t in servicesMap then servicesMap[t] else None;
      if found.None? {
        r := t.Create();
        servicesMap := servicesMap[t := r];
      } else {
        r := found;
        servicesMap := servicesMap[t := None];
      }
    }

    /** `getService` (lines 79-85) throws `service not found` exactly when
        `tryGetService` answers nothing. */
    method GetService(t: InjectionToken) returns (r: Result<CancelManager>)
      modifies this
      ensures var s := Serve(old(Entry(t)), if r.Success? then Some(r.value) else None);
        servicesMap == old(servicesMap)[t := s.entry]
        && (r.Success? <==> s.service.Some?) && (r.Success? ==> r.value == s.service.value)
        && (r.Failure? ==> r.error == ServiceNotFound)
      ensures !Cached(old(Entry(t))) ==> (r.Failure? <==> t.factory.NoFactory?) && (r.Success? ==> fresh(r.value))
      ensures state == old(state) && events == old(events)
    {
      var found := TryGetService(t);
      if found.None? {
        return Failure(ServiceNotFound);
      }
      return Success(found.value);
    }

    /** What reading `services.cancelManager` leaves behind: the memo is set.
        A memo already set is kept and the host's cache is untouched.
        Otherwise the memo and the host's `CANCEL_MANAGER` entry are what
        `Serve` gives for the entry found, and the manager is a new one
        unless that entry held one. */
    twostate predicate CancelManagerServed()
      reads this, services, Host()
    {
      && services.cancelManager.Some?
      && (old(services.cancelManager).Some? ==>
            services.cancelManager == old(services.cancelManager) && Host().servicesMap == old(Host().servicesMap))
      && (old(services.cancelManager).None? ==>
            && var s := Serve(old(Host().Entry(CancelManagerToken)), services.cancelManager);
            && Host().servicesMap == old(Host().servicesMap)[CancelManagerToken := s.entry]
            && s.service == services.cancelManager
            && (!Cached(old(Host().Entry(CancelManagerToken))) ==> fresh(services.cancelManager.value)))
    }

    /** `services.cancelManager` (algorithm-services.ts, lines 13-18): the
        cached manager, or on first use the host's `getService(CANCEL_MANAGER)`,
        which cannot throw because that token has a factory. */
    method CancelManager() returns (m: CancelManager)
      modifies services, Host()
      ensures old(services.cancelManager).Some? ==> unchanged(services, Host())
      ensures CancelManagerServed() && services.cancelManager == Some(m)
      ensures Host().state == old(Host().state) && Host().events == old(Host().events)
    {
      if services.cancelManager.None? {
        var h := Host();
        var r := h.GetService(CancelManagerToken);
        services.cancelManager := Some(r.value);
      }
      m := services.cancelManager.value;
    }

    /** `abort` (lines 55-66): only a running computation reads its cancel
        manager; otherwise nothing changes. */
    method Abort()
      modifies this, services, Host()
      ensures var t := AbortStep(old(state)); state == t.state && events == old(events) + t.fired
      ensures old(state) == Running ==> CancelManagerServed()
      ensures old(state) != Running ==> unchanged(this, services, Host())
      ensures Host() != this ==> servicesMap == old(servicesMap)
      ensures Host() != this ==> Host().state == old(Host().state) && Host().events == old(Host().events)
    {
      var raise := false;
      if state == Running {
        state := Aborted;
        var m := CancelManager();
        m.Cancel();
        raise := true;
      }
      if raise {
        events := events + [OnStateChanged];
      }
    }

    /** `beginComputation` (lines 106-111). */
    method BeginComputation()
      modifies this, services, Host()
      ensures var t := BeginStep(old(state)); state == t.state && events == old(events) + t.fired
      ensures CancelManagerServed()
      ensures Host() != this ==> servicesMap == old(servicesMap)
      ensures Host() != this ==> Host().state == old(Host().state) && Host().events == old(Host().events)
    {
      state := Running;
      var m := CancelManager();
      m.ResetCancel();
      events := events + [OnStarted];
      events := events + [OnStateChanged];
    }

    /** `endComputation` (lines 112-125): the throwing branch changes
        nothing; the other reads the cancel manager. */
    method EndComputation() returns (r: Result<()>)
      modifies this, services, Host()
      ensures var t := EndStep(old(state)); state == t.state && events == old(events) + t.fired && r == t.result
      ensures r.Success? ==> CancelManagerServed()
      ensures r.Failure? ==> unchanged(this, services, Host())
      ensures Host() != this ==> servicesMap == old(servicesMap)
      ensures Host() != this ==> Host().state == old(Host().state) && Host().events == old(Host().events)
    {
      if state == Running || state == PendingAbortion {
        state := Aborted;
        events := events + [OnAborted];
      } else {
        return Failure(InvalidOperation);
      }
      var m := CancelManager();
      m.ResetCancel();
      events := events + [OnStateChanged];
      return Success(());
    }

    /** `compute` with the base class's empty `initialize`, `internalCompute`
        and `clean`: `beginComputation` sets the memo, and `endComputation`
        finds it set and leaves the cache alone. */
    method Compute() returns (r: Result<()>)
      modifies this, services, Host()
      ensures var t := Apply(old(state), Run); state == t.state && events == old(events) + t.fired && r == t.result
      ensures CancelManagerServed()
      ensures Host() != this ==> servicesMap == old(servicesMap)
      ensures Host() != this ==> Host().state == old(Host().state) && Host().events == old(Host().events)
    {
      BeginComputation();
      r := EndComputation();
    }
  }
}
