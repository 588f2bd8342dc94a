/** The headless client engine: one state, one reducer, effects as values. */
module Engines {
  import opened Domain
  import opened Wire
  import opened Catalogs
  import opened Ledgers
  import ReplaySpec

  datatype Config = Config(chain: ChainKey, optimization: OptimizationSession)

  /** The asset pair to optimize for, without a chain: the session's chain is stamped on. */
  datatype Route = Route(source: Address, output: Address)

  datatype Provenance = Provenance(blockHash: nat, confirmations: nat)

  datatype AwaitReason = Bootstrapping | NoRoute

  /** An optimizer step's scalar summary, opaque to the engine. */
  datatype StepResult = StepResult(inputAmount: real, outputAmount: real, profitAmount: real, iterationsCompleted: nat)

  datatype Work =
    | Awaiting(reason: AwaitReason)
    | Optimizing(latest: Provenance, lastStep: Option<StepResult>, plan: Option<ReplaySpec.Plan>)

  datatype Session = NoCatalog | Ready(catalog: Catalog, work: Work)

  datatype OptimizeStage = Init | Run

  datatype EffectError =
    | Fetch(what: FetchKind, message: string)
    | Adapter(error: WireAdapterError)
    | BadProvenance(field: string, value: string)
    | Optimize(stage: OptimizeStage, message: string)

  datatype Event =
    | MetaFetched(id: FetchId, meta: PoolsMetaResponse)
    | SliceFetched(id: FetchId, slice: SliceResponse)
    | HealthFetched(id: FetchId, health: HealthResponse)
    | FetchFailed(id: FetchId, kind: FetchKind, message: string)
    | OptimizerStepped(result: StepResult, plan: Option<ReplaySpec.Plan>)
    | EffectFailed(error: EffectError)
    | Tick
    | SetRoute(route: Route)

  datatype Effect =
    | FetchMeta(id: FetchId)
    | FetchHealth(id: FetchId)
    | FetchSlice(id: FetchId, request: SliceRequest)
    | PushReserves(reserves: seq<PoolReserves>, session: OptimizationSession)

  /** The engine's whole state as a value. */
  datatype Engine = Engine(
    config: Config, health: Option<HealthResponse>, lastError: Option<EffectError>,
    session: Session, pending: Ledger)

  function Started(config: Config): Engine {
    Engine(config, None, None, NoCatalog, EMPTY)
  }

  predicate IsProductive(outside: Outside, reserves: seq<PoolReserves>, session: OptimizationSession) {
    reserves != [] && outside.reachesRoute(reserves, session)
  }

  function ParseProvenance(outside: Outside, slice: SliceResponse): Result<Provenance, EffectError> {
    match outside.hashOf(slice.blockHash)
    case Some(hash) => Ok(Provenance(hash, slice.confirmations))
    case None => Err(BadProvenance("block_hash", slice.blockHash))
  }

  function OnTick(e: Engine): (Engine, seq<Effect>) {
    var (checked, health) := Ensure(Advance(e.pending), Health);
    var first := if health.Some? then [FetchHealth(health.value)] else [];
    match e.session
    case NoCatalog =>
      var (pending, meta) := Ensure(checked, Meta);
      (e.(pending := pending), first + if meta.Some? then [FetchMeta(meta.value)] else [])
    case Ready(catalog, _) =>
      var (pending, slice) := Ensure(checked, Slice);
      (e.(pending := pending), first + if slice.Some? then [FetchSlice(slice.value, catalog.request)] else [])
  }

  function OnMeta(outside: Outside, e: Engine, meta: PoolsMetaResponse): (Engine, seq<Effect>) {
    var catalog := Parsed(outside, meta, e.config.chain);
    var work := if e.session.Ready? then e.session.work else Awaiting(Bootstrapping);
    var (pending, slice) := Ensure(e.pending, Slice);
    (e.(session := Ready(catalog, work), pending := pending),
     if slice.Some? then [FetchSlice(slice.value, catalog.request)] else [])
  }

  function OnSlice(outside: Outside, e: Engine, slice: SliceResponse): (Engine, seq<Effect>) {
    match e.session
    case NoCatalog => (e, [])
    case Ready(catalog, work) =>
      match Projected(outside, catalog, slice)
      case Err(error) => (e.(lastError := Some(Adapter(error))), [])
      case Ok(reserves) =>
        match ParseProvenance(outside, slice)
        case Err(error) => (e.(lastError := Some(error)), [])
        case Ok(provenance) =>
          if !IsProductive(outside, reserves, e.config.optimization) then
            (e.(session := Ready(catalog, if work.Awaiting? then Awaiting(NoRoute) else work)), [])
          else
            var optimizing := if work.Awaiting? then Optimizing(provenance, None, None) else work.(latest := provenance);
            (e.(session := Ready(catalog, optimizing), lastError := None),
             [PushReserves(reserves, e.config.optimization)])
  }

  function OnStep(e: Engine, result: StepResult, plan: Option<ReplaySpec.Plan>): Engine {
    if e.session.Ready? && e.session.work.Optimizing?
    then e.(session := e.session.(work := e.session.work.(lastStep := Some(result), plan := plan)))
    else e
  }

  function OnSetRoute(e: Engine, route: Route): Engine {
    var source, output := TokenAddress(route.source, e.config.chain), TokenAddress(route.output, e.config.chain);
    var held := e.config.optimization;
    if held.sourceAsset == source && held.outputAsset == output then e else
      e.(config := e.config.(optimization := held.(sourceAsset := source, outputAsset := output)),
         session := if e.session.Ready? then e.session.(work := Awaiting(Bootstrapping)) else NoCatalog)
  }

  function Transition(outside: Outside, e: Engine, event: Event): (Engine, seq<Effect>) {
    match event
    case Tick => OnTick(e)
    case MetaFetched(id, meta) =>
      var (pending, accepted) := Accept(e.pending, Meta, id);
      if accepted then OnMeta(outside, e.(pending := pending), meta) else (e, [])
    case SliceFetched(id, slice) =>
      var (pending, accepted) := Accept(e.pending, Slice, id);
      if accepted then OnSlice(outside, e.(pending := pending), slice) else (e, [])
    case HealthFetched(id, health) =>
      var (pending, accepted) := Accept(e.pending, Health, id);
      if accepted then (e.(pending := pending, health := Some(health)), []) else (e, [])
    case FetchFailed(id, kind, message) =>
      var (pending, accepted) := Accept(e.pending, kind, id);
      if accepted then (e.(pending := pending, lastError := Some(Fetch(kind, message))), []) else (e, [])
    case OptimizerStepped(result, plan) => (OnStep(e, result, plan), [])
    case EffectFailed(error) => (e.(lastError := Some(error)), [])
    case SetRoute(route) => (OnSetRoute(e, route), [])
  }

  // ---- The state the program mutates ----

  class AppState {
    var config: Config
    var health: Option<HealthResponse>
    var lastError: Option<EffectError>
    var session: Session
    const pending: PendingFetches

    constructor (config: Config)
      ensures View() == Started(config) && fresh(pending)
    {
      this.config := config;
      health, lastError := None, None;
      session := NoCatalog;
      pending := new PendingFetches();
    }

    ghost function View(): Engine
      reads this, pending
    {
      Engine(config, health, lastError, session, pending.View())
    }

    /** Folds one event into the state; every event leaves a valid state and a list of effects. */
    method Reduce(outside: Outside, event: Event) returns (effects: seq<Effect>)
      modifies this, pending
      ensures (View(), effects) == Transition(outside, old(View()), event)
    {
      effects := [];
      match event {
        case Tick =>
          effects := Poll();
        case MetaFetched(id, meta) =>
          var accepted := pending.AcceptResponse(Meta, id);
          if accepted {
            effects := InstallCatalog(outside, meta);
          }
        case SliceFetched(id, slice) =>
          var accepted := pending.AcceptResponse(Slice, id);
          if accepted {
            effects := ApplySlice(outside, slice);
          }
        case HealthFetched(id, response) =>
          var accepted := pending.AcceptResponse(Health, id);
          if accepted {
            health := Some(response);
          }
        case FetchFailed(id, kind, message) =>
          var accepted := pending.AcceptResponse(kind, id);
          if accepted {
            lastError := Some(Fetch(kind, message));
          }
        case OptimizerStepped(result, plan) =>
          RecordStep(result, plan);
        case EffectFailed(error) =>
          lastError := Some(error);
        case SetRoute(route) =>
          Retarget(route);
      }
    }

    method Poll() returns (effects: seq<Effect>)
      modifies pending
      ensures (View(), effects) == OnTick(old(View()))
    {
      pending.AdvanceClock();
      var health := pending.EnsureInFlight(Health);
      effects := if health.Some? then [FetchHealth(health.value)] else [];
      match session {
        case NoCatalog =>
          var meta := pending.EnsureInFlight(Meta);
          effects := effects + if meta.Some? then [FetchMeta(meta.value)] else [];
        case Ready(catalog, _) =>
          var slice := pending.EnsureInFlight(Slice);
          effects := effects + if slice.Some? then [FetchSlice(slice.value, catalog.request)] else [];
      }
    }

    method InstallCatalog(outside: Outside, meta: PoolsMetaResponse) returns (effects: seq<Effect>)
      modifies this`session, pending
      ensures (View(), effects) == OnMeta(outside, old(View()), meta)
    {
      var catalog := Parse(outside, meta, config.chain);
      match session {
        case Ready(_, work) => session := Ready(catalog, work);
        case NoCatalog => session := Ready(catalog, Awaiting(Bootstrapping));
      }
      var slice := pending.EnsureInFlight(Slice);
      effects := if slice.Some? then [FetchSlice(slice.value, catalog.request)] else [];
    }

    method ApplySlice(outside: Outside, slice: SliceResponse) returns (effects: seq<Effect>)
      modifies this`session, this`lastError
      ensures (View(), effects) == OnSlice(outside, old(View()), slice)
    {
      effects := [];
      if session.NoCatalog? {
        return;
      }
      var projected := Project(outside, session.catalog, slice);
      if projected.Err? {
        lastError := Some(Adapter(projected.error));
        return;
      }
      var reserves := projected.value;
      var provenance := ParseProvenance(outside, slice);
      if provenance.Err? {
        lastError := Some(provenance.error);
        return;
      }
      if !IsProductive(outside, reserves, config.optimization) {
        if session.work.Awaiting? {
          session := session.(work := Awaiting(NoRoute));
        }
        return;
      }
      match session.work {
        case Awaiting(_) =>
          session := session.(work := Optimizing(provenance.value, None, None));
        case Optimizing(_, lastStep, plan) =>
          session := session.(work := Optimizing(provenance.value, lastStep, plan));
      }
      lastError := None;
      effects := [PushReserves(reserves, config.optimization)];
    }

    method RecordStep(result: StepResult, plan: Option<ReplaySpec.Plan>)
      modifies this`session
      ensures View() == OnStep(old(View()), result, plan)
    {
      if session.Ready? && session.work.Optimizing? {
        session := session.(work := session.work.(lastStep := Some(result), plan := plan));
      }
    }

    method Retarget(route: Route)
      modifies this`config, this`session
      ensures View() == OnSetRoute(old(View()), route)
    {
      var source, output := TokenAddress(route.source, config.chain), TokenAddress(route.output, config.chain);
      if config.optimization.sourceAsset == source && config.optimization.outputAsset == output {
        return;
      }
      config := config.(optimization := config.optimization.(sourceAsset := source, outputAsset := output));
      if session.Ready? {
        session := session.(work := Awaiting(Bootstrapping));
      }
    }
  }

  // ---- What every reachable state keeps ----

  /** The slice slot is empty until a catalog is held and the meta slot is empty from then on; the
      ledger is consistent; and one chain is stamped on the route and the catalog. */
  predicate Sound(e: Engine) {
    && e.pending.Valid()
    && (e.session.NoCatalog? ==> e.pending.slice.None?)
    && (e.session.Ready? ==> e.pending.meta.None? && e.session.catalog.chain == e.config.chain)
    && e.config.optimization.sourceAsset.chain == e.config.chain
    && e.config.optimization.outputAsset.chain == e.config.chain
  }

  function KindOf(effect: Effect): FetchKind
    requires !effect.PushReserves?
  {
    match effect
    case FetchMeta(_) => Meta
    case FetchHealth(_) => Health
    case FetchSlice(_, _) => Slice
  }

  /** A fetch is on record under its own, newly minted id, and asks for exactly the held catalog's
      pools; a push carries productive reserves for the route now in force. */
  predicate Honest(outside: Outside, before: Engine, after: Engine, effect: Effect) {
    match effect
    case PushReserves(reserves, session) =>
      session == after.config.optimization && reserves != [] && outside.reachesRoute(reserves, session)
    case FetchMeta(id) => before.pending.nextId <= id && after.pending.meta == Some(Slot(id, after.pending.now))
    case FetchHealth(id) => before.pending.nextId <= id && after.pending.health == Some(Slot(id, after.pending.now))
    case FetchSlice(id, request) =>
      && before.pending.nextId <= id && after.pending.slice == Some(Slot(id, after.pending.now))
      && after.session.Ready? && request == after.session.catalog.request
  }

  predicate OneFetchPerKind(effects: seq<Effect>) {
    forall i, j | 0 <= i < j < |effects| && !effects[i].PushReserves? && !effects[j].PushReserves? ::
      KindOf(effects[i]) != KindOf(effects[j])
  }

  predicate KeepsCatalog(before: Engine, after: Engine) {
    before.session.Ready? ==> after.session.Ready? && after.session.catalog == before.session.catalog
  }

  lemma StartedIsSound(config: Config)
    requires config.optimization.sourceAsset.chain == config.chain
    requires config.optimization.outputAsset.chain == config.chain
    ensures Sound(Started(config))
  {
  }

  lemma CatalogKeepsChain(outside: Outside, meta: PoolsMetaResponse, chain: ChainKey)
    ensures Parsed(outside, meta, chain).chain == chain
  {
    CatalogAccountsForEveryEntry(outside, meta, chain, |meta.pools|);
  }

  lemma TickIsSound(outside: Outside, e: Engine)
    requires Sound(e)
    ensures
      var (after, effects) := OnTick(e);
      && Sound(after) && KeepsCatalog(e, after) && OneFetchPerKind(effects)
      && (forall effect <- effects :: Honest(outside, e, after, effect))
      && after.pending.IsFresh(Health)
      && (after.pending.IsFresh(Meta) <==> after.session.NoCatalog?)
      && (after.pending.IsFresh(Slice) <==> after.session.Ready?)
  {
  }

  /** A tick asks again for exactly what is wanted and not freshly outstanding, and otherwise only
      moves the clock. */
  lemma TickAsksForWhatIsMissing(e: Engine)
    ensures
      var (after, effects) := OnTick(e);
      var aged, wanted := Advance(e.pending), if e.session.Ready? then Slice else Meta;
      && after == e.(pending := after.pending) && after.pending.now == e.pending.now + 1
      && ((exists effect <- effects :: KindOf(effect) == Health) <==> !aged.IsFresh(Health))
      && ((exists effect <- effects :: KindOf(effect) == wanted) <==> !aged.IsFresh(wanted))
      && (forall effect <- effects :: !effect.PushReserves? && KindOf(effect) in {Health, wanted})
      && (effects == [] ==> after.pending == aged)
  {
    var (after, effects) := OnTick(e);
    var aged, wanted := Advance(e.pending), if e.session.Ready? then Slice else Meta;
    if !aged.IsFresh(Health) {
      assert effects[0] == FetchHealth(aged.nextId);
      assert effects[0] in effects;
    }
    if !aged.IsFresh(wanted) {
      var last := effects[|effects| - 1];
      assert last in effects && !last.PushReserves? && KindOf(last) == wanted;
    }
  }

  lemma MetaIsSound(outside: Outside, e: Engine, id: FetchId, meta: PoolsMetaResponse)
    requires Sound(e) && Accept(e.pending, Meta, id).1
    ensures
      var (after, effects) := Transition(outside, e, MetaFetched(id, meta));
      && Sound(after) && e.session.NoCatalog?
      && after.session == Ready(Parsed(outside, meta, e.config.chain), Awaiting(Bootstrapping))
      && effects == [FetchSlice(e.pending.nextId, after.session.catalog.request)]
      && Honest(outside, e, after, effects[0])
  {
    CatalogKeepsChain(outside, meta, e.config.chain);
  }

  lemma SliceIsSound(outside: Outside, e: Engine, id: FetchId, slice: SliceResponse)
    requires Sound(e) && Accept(e.pending, Slice, id).1
    ensures
      var (after, effects) := Transition(outside, e, SliceFetched(id, slice));
      && Sound(after) && e.session.Ready? && KeepsCatalog(e, after)
      && |effects| <= 1 && forall effect <- effects :: effect.PushReserves? && Honest(outside, e, after, effect)
  {
  }

  /** An applied slice drives the optimizer exactly when it projects, its hash parses and it covers the
      route in force; then faults are cleared and results of the same route carry over. Anything else
      leaves a running optimizer as it was: a fault is recorded, an uncovered route only noted while
      still waiting. */
  lemma SliceDrivesOrKeeps(outside: Outside, e: Engine, id: FetchId, slice: SliceResponse)
    requires Sound(e) && Accept(e.pending, Slice, id).1
    ensures
      var (after, effects) := Transition(outside, e, SliceFetched(id, slice));
      var before := e.session.work;
      var projected, hash := Projected(outside, e.session.catalog, slice), outside.hashOf(slice.blockHash);
      var readable := projected.Ok? && hash.Some?;
      && after.config == e.config && after.health == e.health
      && (effects != [] <==> readable && IsProductive(outside, projected.value, e.config.optimization))
      && (effects != [] ==>
            && effects == [PushReserves(projected.value, e.config.optimization)] && after.lastError.None?
            && after.session.work.Optimizing?
            && after.session.work.latest == Provenance(hash.value, slice.confirmations)
            && (before.Optimizing? ==> after.session.work.lastStep == before.lastStep && after.session.work.plan == before.plan)
            && (before.Awaiting? ==> after.session.work.lastStep.None? && after.session.work.plan.None?))
      && (effects == [] ==>
            && (before.Optimizing? ==> after.session == e.session)
            && (after.lastError != e.lastError ==> !readable)
            && (readable ==> after.session.work.Optimizing? || after.session.work == Awaiting(NoRoute))
            && (!readable ==> after.session == e.session && after.lastError.Some?))
  {
  }

  /** From every sound state every event leads to a sound one that keeps any catalog already held,
      and emits at most one fetch of each kind, every effect honest. */
  lemma TransitionIsSound(outside: Outside, e: Engine, event: Event)
    requires Sound(e)
    ensures
      var (after, effects) := Transition(outside, e, event);
      && Sound(after) && KeepsCatalog(e, after) && OneFetchPerKind(effects)
      && forall effect <- effects :: Honest(outside, e, after, effect)
  {
    match event {
      case Tick => TickIsSound(outside, e);
      case MetaFetched(id, meta) =>
        if Accept(e.pending, Meta, id).1 {
          MetaIsSound(outside, e, id, meta);
        }
      case SliceFetched(id, slice) =>
        if Accept(e.pending, Slice, id).1 {
          SliceIsSound(outside, e, id, slice);
        }
      case _ =>
    }
  }

  // ---- Whole runs ----

  function RunEvents(outside: Outside, e: Engine, events: seq<Event>): Engine
    decreases |events|
  {
    if events == [] then e else RunEvents(outside, Transition(outside, e, events[0]).0, events[1..])
  }

  /** The catalog installations of a run. */
  function Installs(outside: Outside, e: Engine, events: seq<Event>): nat
    decreases |events|
  {
    if events == [] then 0 else
      (if events[0].MetaFetched? && Accept(e.pending, Meta, events[0].id).1 then 1 else 0)
      + Installs(outside, Transition(outside, e, events[0]).0, events[1..])
  }

  /** Over any run from a sound state, whatever responses arrive in whatever order, the catalog is
      installed at most once, never while one is held, and is never replaced. */
  lemma {:induction false} CatalogIsInstalledOnce(outside: Outside, e: Engine, events: seq<Event>)
    requires Sound(e)
    ensures Sound(RunEvents(outside, e, events)) && KeepsCatalog(e, RunEvents(outside, e, events))
    ensures Installs(outside, e, events) == if e.session.NoCatalog? && RunEvents(outside, e, events).session.Ready? then 1 else 0
    decreases |events|
  {
    if events != [] {
      var event := events[0];
      TransitionIsSound(outside, e, event);
      if event.MetaFetched? && Accept(e.pending, Meta, event.id).1 {
        MetaIsSound(outside, e, event.id, event.meta);
      }
      CatalogIsInstalledOnce(outside, Transition(outside, e, event).0, events[1..]);
    }
  }

  /** What one event does to the ledger, as ledger operations. */
  function LedgerOps(e: Engine, event: Event): seq<Op> {
    match event
    case Tick => [AdvanceOp, EnsureOp(Health), EnsureOp(if e.session.Ready? then Slice else Meta)]
    case MetaFetched(id, _) =>
      [AcceptOp(Meta, id)] + if Accept(e.pending, Meta, id).1 then [EnsureOp(Slice)] else []
    case SliceFetched(id, _) => [AcceptOp(Slice, id)]
    case HealthFetched(id, _) => [AcceptOp(Health, id)]
    case FetchFailed(id, kind, _) => [AcceptOp(kind, id)]
    case _ => []
  }

  lemma TransitionDrivesLedger(outside: Outside, e: Engine, event: Event)
    ensures Transition(outside, e, event).0.pending == Ledgers.Run(e.pending, LedgerOps(e, event))
  {
    if event.Tick? {
      RunOfThree(e.pending, AdvanceOp, EnsureOp(Health), EnsureOp(if e.session.Ready? then Slice else Meta));
    } else if event.MetaFetched? && Accept(e.pending, Meta, event.id).1 {
      RunOfTwo(e.pending, AcceptOp(Meta, event.id), EnsureOp(Slice));
    }
  }

  lemma RunOfTwo(l: Ledger, first: Op, second: Op)
    ensures Ledgers.Run(l, [first] + [second]) == Apply(Apply(l, first), second)
  {
    assert ([first] + [second])[1..] == [second];
    assert [second][1..] == [];
    var between := Apply(l, first);
    assert Ledgers.Run(l, [first] + [second]) == Ledgers.Run(between, [second]);
    assert Ledgers.Run(between, [second]) == Ledgers.Run(Apply(between, second), []);
  }

  lemma RunOfThree(l: Ledger, first: Op, second: Op, third: Op)
    ensures Ledgers.Run(l, [first, second, third]) == Apply(Apply(Apply(l, first), second), third)
  {
    assert [first, second, third][1..] == [second] + [third];
    RunOfTwo(Apply(l, first), second, third);
  }

  /** The ids of the slice responses a run applies, in order. */
  function AppliedSlices(outside: Outside, e: Engine, events: seq<Event>): seq<FetchId>
    decreases |events|
  {
    if events == [] then [] else
      (if AppliesSlice(e, events[0]) then [events[0].id] else [])
      + AppliedSlices(outside, Transition(outside, e, events[0]).0, events[1..])
  }

  lemma {:induction false} StepsNarrow(l: Ledger, ops: seq<Op>, a: Acceptance)
    requires l.Valid() && NotYetAccepted(Ledgers.Run(l, ops), a)
    ensures NotYetAccepted(l, a)
    ensures ops != [] && Accepts(l, ops[0]) && ops[0].kind == a.kind ==> ops[0].id < a.id
    decreases |ops|
  {
    if ops != [] {
      ApplyKeepsValid(l, ops[0]);
      StepsNarrow(Apply(l, ops[0]), ops[1..], a);
      StepNarrows(l, ops[0], a);
    }
  }

  predicate AppliesSlice(e: Engine, event: Event) {
    event.SliceFetched? && Accept(e.pending, Slice, event.id).1
  }

  /** What may still be applied after an event could be before it, and is newer than what it applied. */
  lemma EventNarrows(outside: Outside, e: Engine, event: Event, id: FetchId)
    requires Sound(e) && NotYetAccepted(Transition(outside, e, event).0.pending, Acceptance(Slice, id))
    ensures NotYetAccepted(e.pending, Acceptance(Slice, id))
    ensures AppliesSlice(e, event) ==> event.id < id
  {
    TransitionDrivesLedger(outside, e, event);
    StepsNarrow(e.pending, LedgerOps(e, event), Acceptance(Slice, id));
    assert event.SliceFetched? ==> LedgerOps(e, event)[0] == AcceptOp(Slice, event.id);
  }

  lemma {:induction false} AppliedWereOutstanding(outside: Outside, e: Engine, events: seq<Event>)
    requires Sound(e)
    ensures forall id <- AppliedSlices(outside, e, events) :: NotYetAccepted(e.pending, Acceptance(Slice, id))
    ensures Increasing(AppliedSlices(outside, e, events))
    decreases |events|
  {
    if events != [] {
      var event := events[0];
      var after := Transition(outside, e, event).0;
      TransitionIsSound(outside, e, event);
      AppliedWereOutstanding(outside, after, events[1..]);
      var rest := AppliedSlices(outside, after, events[1..]);
      assert AppliedSlices(outside, e, events) == if AppliesSlice(e, event) then [event.id] + rest else rest;
      forall j | 0 <= j < |rest|
        ensures NotYetAccepted(e.pending, Acceptance(Slice, rest[j])) && (AppliesSlice(e, event) ==> event.id < rest[j])
      {
        assert rest[j] in rest;
        EventNarrows(outside, e, event, rest[j]);
      }
    }
  }

  /** Over any run of the engine, each slice applied was requested later than every slice applied
      before it: a superseded response never overwrites newer reserves. */
  lemma AppliedSlicesGetNewer(outside: Outside, config: Config, events: seq<Event>)
    requires Sound(Started(config))
    ensures Increasing(AppliedSlices(outside, Started(config), events))
  {
    AppliedWereOutstanding(outside, Started(config), events);
  }

  // ---- Retargeting ----

  /** Setting the route in force changes nothing; any other route discards the work for the old one
      and nothing else, so no result of the old route is on display until a step arrives again. */
  lemma RetargetDiscardsOnlyWork(e: Engine, route: Route)
    requires Sound(e)
    ensures
      var after := OnSetRoute(e, route);
      var asked := (TokenAddress(route.source, e.config.chain), TokenAddress(route.output, e.config.chain));
      && (after.config.optimization.sourceAsset, after.config.optimization.outputAsset) == asked
      && after.pending == e.pending && after.lastError == e.lastError && after.health == e.health
      && KeepsCatalog(e, after) && Sound(after)
      && if asked == (e.config.optimization.sourceAsset, e.config.optimization.outputAsset) then after == e
         else after.session.Ready? ==> after.session.work == Awaiting(Bootstrapping)
  {
  }

  // ---- When a step is recorded ----

  predicate IsOptimizing(e: Engine) {
    e.session.Ready? && e.session.work.Optimizing?
  }

  /** The event applies a slice that projects, has a readable hash and covers the route in force. */
  predicate DrivesOptimizer(outside: Outside, e: Engine, event: Event) {
    && event.SliceFetched? && Accept(e.pending, Slice, event.id).1 && e.session.Ready?
    && outside.hashOf(event.slice.blockHash).Some?
    && var projected := Projected(outside, e.session.catalog, event.slice);
       projected.Ok? && IsProductive(outside, projected.value, e.config.optimization)
  }

  /** The event sets another route than the one in force. */
  predicate Retargets(e: Engine, event: Event) {
    event.SetRoute? &&
    (TokenAddress(event.route.source, e.config.chain), TokenAddress(event.route.output, e.config.chain))
    != (e.config.optimization.sourceAsset, e.config.optimization.outputAsset)
  }

  /** The state a run has reached when its k-th event arrives. */
  function Reached(outside: Outside, e: Engine, events: seq<Event>, k: nat): Engine
    requires k <= |events|
  {
    RunEvents(outside, e, events[..k])
  }

  /** Which events of a run apply a productive slice. */
  function Drives(outside: Outside, e: Engine, events: seq<Event>): (r: seq<bool>)
    ensures |r| == |events|
  {
    seq(|events|, k requires 0 <= k < |events| => DrivesOptimizer(outside, Reached(outside, e, events, k), events[k]))
  }

  /** Which events of a run change the route. */
  function RouteChanges(outside: Outside, e: Engine, events: seq<Event>): (r: seq<bool>)
    ensures |r| == |events|
  {
    seq(|events|, k requires 0 <= k < |events| => Retargets(Reached(outside, e, events, k), events[k]))
  }

  predicate NoneFrom(flags: seq<bool>, n: nat) {
    forall k | n <= k < |flags| :: !flags[k]
  }

  ghost predicate SetSince(sets: seq<bool>, clears: seq<bool>)
    requires |sets| == |clears|
  {
    exists k :: 0 <= k < |sets| && sets[k] && NoneFrom(clears, k + 1)
  }

  /** The run never changes the route. */
  predicate KeepsItsRoute(outside: Outside, e: Engine, events: seq<Event>) {
    NoneFrom(RouteChanges(outside, e, events), 0)
  }

  /** A productive slice was applied in the run, and the route has not changed since. */
  ghost predicate DrivenSinceRetarget(outside: Outside, e: Engine, events: seq<Event>) {
    SetSince(Drives(outside, e, events), RouteChanges(outside, e, events))
  }

  lemma SetSinceOneMore(sets: seq<bool>, clears: seq<bool>)
    requires |sets| == |clears| > 0
    ensures
      var last := |sets| - 1;
      && (NoneFrom(clears, 0) <==> NoneFrom(clears[..last], 0) && !clears[last])
      && (SetSince(sets, clears) <==> sets[last] || (SetSince(sets[..last], clears[..last]) && !clears[last]))
  {
    var last := |sets| - 1;
    if sets[last] {
      assert NoneFrom(clears, last + 1);
    } else if SetSince(sets, clears) {
      var k :| 0 <= k < |sets| && sets[k] && NoneFrom(clears, k + 1);
      assert sets[..last][k] && NoneFrom(clears[..last], k + 1);
    }
  }

  lemma FlagsOfPrefix(outside: Outside, e: Engine, events: seq<Event>)
    requires events != []
    ensures
      var (last, before) := (|events| - 1, events[..|events| - 1]);
      && Drives(outside, e, events)[..last] == Drives(outside, e, before)
      && RouteChanges(outside, e, events)[..last] == RouteChanges(outside, e, before)
      && Drives(outside, e, events)[last] == DrivesOptimizer(outside, RunEvents(outside, e, before), events[last])
      && RouteChanges(outside, e, events)[last] == Retargets(RunEvents(outside, e, before), events[last])
  {
    var before := events[..|events| - 1];
    forall k | 0 <= k < |before|
      ensures Drives(outside, e, events)[k] == Drives(outside, e, before)[k]
      ensures RouteChanges(outside, e, events)[k] == RouteChanges(outside, e, before)[k]
    {
      assert before[..k] == events[..k];
    }
  }

  lemma {:induction false} RunLast(outside: Outside, e: Engine, events: seq<Event>)
    requires events != []
    ensures var last := |events| - 1;
            RunEvents(outside, e, events) == Transition(outside, RunEvents(outside, e, events[..last]), events[last]).0
    decreases |events|
  {
    var last := |events| - 1;
    if last > 0 {
      assert events[1..][..last - 1] == events[..last][1..];
      RunLast(outside, Transition(outside, e, events[0]).0, events[1..]);
    } else {
      assert events == [events[0]] && events[1..] == [];
    }
  }

  /** One event starts the optimizer, stops it by changing the route, or leaves it going or idle. */
  lemma EventSwitchesWork(outside: Outside, e: Engine, event: Event)
    requires Sound(e)
    ensures IsOptimizing(Transition(outside, e, event).0) <==>
            DrivesOptimizer(outside, e, event) || (IsOptimizing(e) && !Retargets(e, event))
  {
    match event {
      case MetaFetched(id, meta) =>
        if Accept(e.pending, Meta, id).1 {
          MetaIsSound(outside, e, id, meta);
        }
      case SliceFetched(id, slice) =>
        if Accept(e.pending, Slice, id).1 {
          SliceDrivesOrKeeps(outside, e, id, slice);
        }
      case SetRoute(route) => RetargetDiscardsOnlyWork(e, route);
      case _ =>
    }
  }

  lemma LastEventSwitchesWork(outside: Outside, e: Engine, events: seq<Event>)
    requires Sound(e) && events != []
    ensures
      var last := |events| - 1;
      IsOptimizing(RunEvents(outside, e, events)) <==>
      Drives(outside, e, events)[last]
      || (IsOptimizing(RunEvents(outside, e, events[..last])) && !RouteChanges(outside, e, events)[last])
  {
    var last := |events| - 1;
    CatalogIsInstalledOnce(outside, e, events[..last]);
    RunLast(outside, e, events);
    EventSwitchesWork(outside, RunEvents(outside, e, events[..last]), events[last]);
    FlagsOfPrefix(outside, e, events);
  }

  /** Over every run from a sound state the engine is optimizing exactly when a productive slice has
      been applied since the route last changed, or it was optimizing to begin with and the route never
      changed. */
  lemma {:induction false} OptimizingExactlySinceASlice(outside: Outside, e: Engine, events: seq<Event>)
    requires Sound(e)
    ensures IsOptimizing(RunEvents(outside, e, events)) <==>
            DrivenSinceRetarget(outside, e, events) || (IsOptimizing(e) && KeepsItsRoute(outside, e, events))
    decreases |events|
  {
    if events != [] {
      OptimizingExactlySinceASlice(outside, e, events[..|events| - 1]);
      LastEventSwitchesWork(outside, e, events);
      FlagsOfPrefix(outside, e, events);
      SetSinceOneMore(Drives(outside, e, events), RouteChanges(outside, e, events));
    }
  }

  /** A step delivered at the end of a run is recorded, displacing the one before, exactly when a
      productive slice has been applied since the route last changed; otherwise it changes nothing. */
  lemma StepIsRecordedExactlySinceASlice(outside: Outside, config: Config, events: seq<Event>,
                                         result: StepResult, plan: Option<ReplaySpec.Plan>)
    requires Sound(Started(config))
    ensures
      var e := RunEvents(outside, Started(config), events);
      var after := Transition(outside, e, OptimizerStepped(result, plan)).0;
      if DrivenSinceRetarget(outside, Started(config), events)
      then IsOptimizing(e) && after == e.(session := e.session.(work := e.session.work.(lastStep := Some(result), plan := plan)))
      else after == e
  {
    OptimizingExactlySinceASlice(outside, Started(config), events);
  }

  // ---- What the engine shows ----

  /** What an event does to the health on display: an accepted report replaces it. */
  function HealthOf(e: Engine, event: Event): Option<Option<HealthResponse>> {
    if event.HealthFetched? && e.pending.health.Some? && e.pending.health.value.id == event.id
    then Some(Some(event.health)) else None
  }

  /** What an event does to the error on display: nothing, or a new one, or none any more. */
  function NoticeOf(outside: Outside, e: Engine, event: Event): Option<Option<EffectError>> {
    match event
    case FetchFailed(id, kind, message) =>
      if e.pending.SlotOf(kind).Some? && e.pending.SlotOf(kind).value.id == id then Some(Some(Fetch(kind, message))) else None
    case EffectFailed(error) => Some(Some(error))
    case SliceFetched(id, slice) =>
      if e.session.NoCatalog? || !Accept(e.pending, Slice, id).1 then None
      else if DrivesOptimizer(outside, e, event) then Some(None)
      else
        var projected := Projected(outside, e.session.catalog, slice);
        if projected.Err? then Some(Some(Adapter(projected.error)))
        else if outside.hashOf(slice.blockHash).None? then Some(Some(BadProvenance("block_hash", slice.blockHash)))
        else None
    case _ => None
  }

  lemma EventShows(outside: Outside, e: Engine, event: Event)
    ensures
      var after := Transition(outside, e, event).0;
      && after.health == (if HealthOf(e, event).Some? then HealthOf(e, event).value else e.health)
      && after.lastError == (if NoticeOf(outside, e, event).Some? then NoticeOf(outside, e, event).value else e.lastError)
  {
  }

  /** The accepted reports of a run, by event. */
  function HealthReports(outside: Outside, e: Engine, events: seq<Event>): (r: seq<Option<Option<HealthResponse>>>)
    ensures |r| == |events|
  {
    seq(|events|, k requires 0 <= k < |events| => HealthOf(Reached(outside, e, events, k), events[k]))
  }

  /** What its events do to the error on display. */
  function Notices(outside: Outside, e: Engine, events: seq<Event>): (r: seq<Option<Option<EffectError>>>)
    ensures |r| == |events|
  {
    seq(|events|, k requires 0 <= k < |events| => NoticeOf(outside, Reached(outside, e, events, k), events[k]))
  }

  /** `shown` is the last mark made, or what was there to begin with if none was. */
  predicate IsLastMark<T(==)>(marks: seq<Option<T>>, before: T, shown: T) {
    && ((forall k | 0 <= k < |marks| :: marks[k].None?) ==> shown == before)
    && forall k | 0 <= k < |marks| && marks[k].Some? && (forall j | k < j < |marks| :: marks[j].None?) ::
         shown == marks[k].value
  }

  lemma OneMoreMark<T>(marks: seq<Option<T>>, mark: Option<T>, before: T, shown: T)
    requires IsLastMark(marks, before, shown)
    ensures IsLastMark(marks + [mark], before, if mark.Some? then mark.value else shown)
  {
    var longer, last := marks + [mark], |marks|;
    assert longer[last] == mark && forall k | 0 <= k < last :: longer[k] == marks[k];
    forall k | 0 <= k < |longer| && longer[k].Some? && (forall j | k < j < |longer| :: longer[j].None?)
      ensures longer[k].value == if mark.Some? then mark.value else shown
    {
      if k < last {
        assert longer[last].None?;
        assert forall j | k < j < last :: longer[j] == marks[j];
      }
    }
    if forall k | 0 <= k < |longer| :: longer[k].None? {
      assert forall k | 0 <= k < last :: marks[k] == longer[k];
    }
  }

  lemma MarksOfPrefix(outside: Outside, e: Engine, events: seq<Event>)
    requires events != []
    ensures
      var (before, last) := (events[..|events| - 1], events[|events| - 1]);
      && HealthReports(outside, e, events) == HealthReports(outside, e, before) + [HealthOf(RunEvents(outside, e, before), last)]
      && Notices(outside, e, events) == Notices(outside, e, before) + [NoticeOf(outside, RunEvents(outside, e, before), last)]
  {
    var before := events[..|events| - 1];
    forall k | 0 <= k < |before|
      ensures HealthReports(outside, e, events)[k] == HealthReports(outside, e, before)[k]
      ensures Notices(outside, e, events)[k] == Notices(outside, e, before)[k]
    {
      assert before[..k] == events[..k];
    }
  }

  /** The health and the error on display are the last the run brought: the health of the last accepted
      report; and of errors the last noticed, be it an awaited fetch that failed, a failed effect or a slice
      that does not project or whose hash does not parse, unless a slice has driven the optimizer since. */
  lemma {:induction false} DisplayIsTheLatest(outside: Outside, e: Engine, events: seq<Event>)
    ensures IsLastMark(HealthReports(outside, e, events), e.health, RunEvents(outside, e, events).health)
    ensures IsLastMark(Notices(outside, e, events), e.lastError, RunEvents(outside, e, events).lastError)
    decreases |events|
  {
    if events != [] {
      var last := |events| - 1;
      var before := events[..last];
      var reached := RunEvents(outside, e, before);
      DisplayIsTheLatest(outside, e, before);
      RunLast(outside, e, events);
      EventShows(outside, reached, events[last]);
      MarksOfPrefix(outside, e, events);
      OneMoreMark(Notices(outside, e, before), NoticeOf(outside, reached, events[last]), e.lastError, reached.lastError);
      OneMoreMark(HealthReports(outside, e, before), HealthOf(reached, events[last]), e.health, reached.health);
    }
  }
}
