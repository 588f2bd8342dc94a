/** Engine, mailbox and optimizer worker together, under every interleaving of their steps. */
module ClientSystems {
  import opened Domain
  import opened Wire
  import opened Engines
  import opened Optimizers
  import Catalogs
  import Ledgers
  import LatestSlots

  /** Pushes are executed on a thread pool, so those emitted but not yet sent wait in an outbox that
      any of them may leave next. */
  datatype System = System(
    engine: Engine, outbox: seq<Snapshot>, cell: LatestSlots.Cell<Snapshot>, worker: Worker, delivered: nat)

  /** Steps come from the worker alone; everything else may reach the engine from outside. */
  type OuterEvent = event: Event | !event.OptimizerStepped? witness Tick

  /** The worker's events reach the engine in the order it sent them, `delivered` of them so far. */
  datatype Move =
    | Handle(event: OuterEvent)
    | Deliver
    | ExecutePush(index: nat)
    | WorkerTurn
    | DropSender

  function Start(config: Config): System {
    System(Started(config), [], LatestSlots.Fresh(), IDLE, 0)
  }

  function Pushes(effects: seq<Effect>): seq<Snapshot> {
    if effects == [] then [] else
      (if effects[0].PushReserves? then [Snapshot(effects[0].reserves, effects[0].session)] else []) + Pushes(effects[1..])
  }

  function OfferOf(cell: LatestSlots.Cell<Snapshot>): Offer {
    match LatestSlots.Offered(cell)
    case Took(snapshot) => Fresh(snapshot)
    case Empty => Nothing
    case WasClosed => Gone
  }

  /** The worker's next turn: a waiting worker takes or goes back to sleep, a grinding one looks without
      blocking, a retargeted one needs no offer, and one that stopped has dropped its receiver. */
  function TurnWorker(outside: Outside, around: Surroundings, s: System): System {
    match s.worker.phase
    case Waiting =>
      s.(worker := Turn(outside, around, s.worker, OfferOf(s.cell)), cell := LatestSlots.Next(s.cell, LatestSlots.Take))
    case Grinding(_) =>
      s.(worker := Turn(outside, around, s.worker, OfferOf(s.cell)), cell := LatestSlots.Next(s.cell, LatestSlots.TryTake))
    case Retargeted(_) => s.(worker := Turn(outside, around, s.worker, Nothing))
    case Stopped => s.(cell := LatestSlots.Next(s.cell, LatestSlots.Close))
  }

  function Fold(outside: Outside, s: System, event: Event): System {
    var (engine, effects) := Transition(outside, s.engine, event);
    s.(engine := engine, outbox := s.outbox + Pushes(effects))
  }

  function MoveOn(outside: Outside, around: Surroundings, s: System, move: Move): System {
    match move
    case Handle(event) => Fold(outside, s, event)
    case Deliver =>
      if s.delivered < |s.worker.events|
      then Fold(outside, s, s.worker.events[s.delivered].event).(delivered := s.delivered + 1)
      else s
    case ExecutePush(i) =>
      if i < |s.outbox| then
        s.(outbox := s.outbox[..i] + s.outbox[i + 1..], cell := LatestSlots.Next(s.cell, LatestSlots.Send(s.outbox[i])))
      else s
    case WorkerTurn => TurnWorker(outside, around, s)
    case DropSender => s.(cell := LatestSlots.Next(s.cell, LatestSlots.Close))
  }

  function RunMoves(outside: Outside, around: Surroundings, s: System, moves: seq<Move>): System
    decreases |moves|
  {
    if moves == [] then s else RunMoves(outside, around, MoveOn(outside, around, s, moves[0]), moves[1..])
  }

  // ---- The invariant ----

  /** A snapshot that passed the engine's gate for the very session it carries. */
  predicate Gated(outside: Outside, snapshot: Snapshot) {
    snapshot.reserves != [] && outside.reachesRoute(snapshot.reserves, snapshot.session)
  }

  predicate CallGated(outside: Outside, call: Call) {
    match call
    case InitCall(reserves, session) => reserves != [] && outside.reachesRoute(reserves, session)
    case NewReservesCall(reserves, session) => reserves != [] && outside.reachesRoute(reserves, session)
    case ContinueCall(_) => true
  }

  /** The session of the last initialisation among the calls. */
  function LastInit(calls: seq<Call>): Option<OptimizationSession> {
    if calls == [] then None
    else if calls[|calls| - 1].InitCall? then Some(calls[|calls| - 1].session)
    else LastInit(calls[..|calls| - 1])
  }

  /** Every call that is not an initialisation names the session initialised last before it. */
  predicate InSession(calls: seq<Call>) {
    forall k | 0 <= k < |calls| && !calls[k].InitCall? :: LastInit(calls[..k]) == Some(calls[k].session)
  }

  ghost predicate WorkerSound(outside: Outside, w: Worker) {
    && (forall call <- w.calls :: CallGated(outside, call))
    && InSession(w.calls)
    && (forall a <- w.events :: a.event.OptimizerStepped? || a.event.EffectFailed?)
    && w.skipped == 0
    && (w.phase.Grinding? ==> LastInit(w.calls) == Some(w.phase.session))
    && (w.phase.Retargeted? ==> Gated(outside, w.phase.snapshot))
  }

  function Sends(cell: LatestSlots.Cell<Snapshot>): seq<Snapshot>
    requires LatestSlots.Coherent(cell)
  {
    seq(|cell.taken|, k requires 0 <= k < |cell.taken| => cell.sent[cell.taken[k]])
  }

  ghost predicate SystemSound(outside: Outside, s: System) {
    && Sound(s.engine)
    && LatestSlots.Coherent(s.cell)
    && (s.cell.receiver.Asleep? ==> s.worker.phase.Waiting?)
    && (forall snapshot <- s.outbox :: Gated(outside, snapshot))
    && (forall snapshot <- s.cell.sent :: Gated(outside, snapshot))
    && WorkerSound(outside, s.worker)
    && s.worker.taken == Sends(s.cell)
    && s.delivered <= |s.worker.events|
  }

  lemma {:induction false} PushesAreGated(outside: Outside, before: Engine, after: Engine, effects: seq<Effect>)
    requires forall effect <- effects :: Honest(outside, before, after, effect)
    ensures forall snapshot <- Pushes(effects) :: Gated(outside, snapshot)
  {
    if effects != [] {
      assert Honest(outside, before, after, effects[0]);
      PushesAreGated(outside, before, after, effects[1..]);
    }
  }

  lemma OneMoreCall(outside: Outside, calls: seq<Call>, call: Call)
    requires forall c <- calls :: CallGated(outside, c)
    requires InSession(calls) && CallGated(outside, call)
    requires call.InitCall? || LastInit(calls) == Some(call.session)
    ensures forall c <- calls + [call] :: CallGated(outside, c)
    ensures InSession(calls + [call])
    ensures LastInit(calls + [call]) == Some(call.session)
  {
    var longer := calls + [call];
    assert longer[..|calls|] == calls;
    forall k | 0 <= k < |longer| && !longer[k].InitCall?
      ensures LastInit(longer[..k]) == Some(longer[k].session)
    {
      if k < |calls| {
        assert longer[..k] == calls[..k];
      }
    }
  }

  lemma InitialiseIsSound(outside: Outside, around: Surroundings, w: Worker, snapshot: Snapshot)
    requires WorkerSound(outside, w.(phase := Waiting)) && Gated(outside, snapshot)
    ensures WorkerSound(outside, Initialise(around, w, snapshot))
    ensures Initialise(around, w, snapshot).taken == w.taken
  {
    OneMoreCall(outside, w.calls, InitCall(snapshot.reserves, snapshot.session));
  }

  lemma GrindIsSound(outside: Outside, around: Surroundings, w: Worker, call: Call)
    requires WorkerSound(outside, w) && w.phase.Grinding?
    requires CallGated(outside, call) && !call.InitCall? && call.session == w.phase.session
    ensures WorkerSound(outside, Grind(around, w, call))
    ensures Grind(around, w, call).taken == w.taken
  {
    OneMoreCall(outside, w.calls, call);
  }

  /** A worker offered only gated snapshots never skips one, and makes only gated calls. */
  lemma TurnIsSound(outside: Outside, around: Surroundings, w: Worker, offer: Offer)
    requires WorkerSound(outside, w) && (offer.Fresh? ==> Gated(outside, offer.snapshot))
    ensures WorkerSound(outside, Turn(outside, around, w, offer))
    ensures Turn(outside, around, w, offer).taken
            == if offer.Fresh? && (w.phase.Waiting? || w.phase.Grinding?) then w.taken + [offer.snapshot] else w.taken
  {
    match w.phase {
      case Retargeted(snapshot) =>
        InitialiseIsSound(outside, around, w, snapshot);
      case Waiting =>
        if offer.Fresh? {
          InitialiseIsSound(outside, around, w.(taken := w.taken + [offer.snapshot]), offer.snapshot);
        }
      case Grinding(session) =>
        if offer.Nothing? {
          GrindIsSound(outside, around, w, ContinueCall(session));
        } else if offer.Fresh? && offer.snapshot.session == session {
          GrindIsSound(outside, around, w.(taken := w.taken + [offer.snapshot]),
                       NewReservesCall(offer.snapshot.reserves, session));
        }
      case Stopped =>
    }
  }

  lemma TakingMovesSends(cell: LatestSlots.Cell<Snapshot>, step: LatestSlots.Step<Snapshot>)
    requires LatestSlots.Coherent(cell)
    ensures
      var after := LatestSlots.Next(cell, step);
      && LatestSlots.Coherent(after)
      && Sends(after) == if after.taken == cell.taken then Sends(cell)
                         else Sends(cell) + [cell.sent[|cell.sent| - 1]]
  {
    LatestSlots.StepIsCoherent(cell, step);
  }

  lemma OfferIsGated(outside: Outside, s: System)
    requires SystemSound(outside, s) && OfferOf(s.cell).Fresh?
    ensures Gated(outside, OfferOf(s.cell).snapshot)
    ensures OfferOf(s.cell).snapshot == s.cell.sent[|s.cell.sent| - 1]
  {
    assert s.cell.sent[|s.cell.sent| - 1] in s.cell.sent;
  }

  /** Either take, when awake, moves exactly what is offered, and only the blocking one may fall asleep,
      over an empty cell. */
  lemma TakeMovesTheOffer(cell: LatestSlots.Cell<Snapshot>, step: LatestSlots.Step<Snapshot>)
    requires LatestSlots.Coherent(cell) && (step.Take? || (step.TryTake? && cell.receiver.Awake?))
    ensures
      var (after, offer) := (LatestSlots.Next(cell, step), OfferOf(cell));
      && LatestSlots.Coherent(after) && after.sent == cell.sent
      && Sends(after) == (if offer.Fresh? then Sends(cell) + [offer.snapshot] else Sends(cell))
      && (after.receiver.Asleep? ==> step.Take? && offer.Nothing?)
  {
    LatestSlots.StepIsCoherent(cell, step);
    TakingMovesSends(cell, step);
  }

  /** Taking what is offered, by either take, keeps the worker's history that of the mailbox. */
  lemma TakeTurnIsSound(outside: Outside, around: Surroundings, s: System, step: LatestSlots.Step<Snapshot>)
    requires SystemSound(outside, s)
    requires (s.worker.phase.Waiting? && step.Take?) || (s.worker.phase.Grinding? && step.TryTake?)
    ensures SystemSound(outside, s.(worker := Turn(outside, around, s.worker, OfferOf(s.cell)),
                                    cell := LatestSlots.Next(s.cell, step)))
  {
    var offer := OfferOf(s.cell);
    if offer.Fresh? {
      OfferIsGated(outside, s);
    }
    TakeMovesTheOffer(s.cell, step);
    TurnIsSound(outside, around, s.worker, offer);
  }

  lemma ClosingIsSound(outside: Outside, s: System)
    requires SystemSound(outside, s)
    ensures SystemSound(outside, s.(cell := LatestSlots.Next(s.cell, LatestSlots.Close)))
  {
    TakingMovesSends(s.cell, LatestSlots.Close);
  }

  lemma RetargetTurnIsSound(outside: Outside, around: Surroundings, s: System)
    requires SystemSound(outside, s) && s.worker.phase.Retargeted?
    ensures SystemSound(outside, s.(worker := Turn(outside, around, s.worker, Nothing)))
  {
    TurnIsSound(outside, around, s.worker, Nothing);
  }

  lemma WorkerTurnIsSound(outside: Outside, around: Surroundings, s: System)
    requires SystemSound(outside, s)
    ensures SystemSound(outside, TurnWorker(outside, around, s))
  {
    match s.worker.phase {
      case Waiting =>
        TakeTurnIsSound(outside, around, s, LatestSlots.Take);
      case Grinding(_) =>
        TakeTurnIsSound(outside, around, s, LatestSlots.TryTake);
      case Retargeted(_) =>
        RetargetTurnIsSound(outside, around, s);
      case Stopped =>
        ClosingIsSound(outside, s);
    }
  }

  lemma FoldIsSound(outside: Outside, s: System, event: Event)
    requires SystemSound(outside, s)
    ensures SystemSound(outside, Fold(outside, s, event))
  {
    TransitionIsSound(outside, s.engine, event);
    var (engine, effects) := Transition(outside, s.engine, event);
    PushesAreGated(outside, s.engine, engine, effects);
  }

  lemma PushIsSound(outside: Outside, s: System, i: nat)
    requires SystemSound(outside, s) && i < |s.outbox|
    ensures SystemSound(outside, s.(outbox := s.outbox[..i] + s.outbox[i + 1..],
                                    cell := LatestSlots.Next(s.cell, LatestSlots.Send(s.outbox[i]))))
  {
    assert s.outbox[i] in s.outbox;
    TakingMovesSends(s.cell, LatestSlots.Send(s.outbox[i]));
  }

  lemma MoveIsSound(outside: Outside, around: Surroundings, s: System, move: Move)
    requires SystemSound(outside, s)
    ensures SystemSound(outside, MoveOn(outside, around, s, move))
  {
    match move {
      case Handle(event) => FoldIsSound(outside, s, event);
      case Deliver =>
        if s.delivered < |s.worker.events| {
          FoldIsSound(outside, s, s.worker.events[s.delivered].event);
        }
      case ExecutePush(i) =>
        if i < |s.outbox| {
          PushIsSound(outside, s, i);
        }
      case WorkerTurn => WorkerTurnIsSound(outside, around, s);
      case DropSender => ClosingIsSound(outside, s);
    }
  }

  lemma {:induction false} RunIsSound(outside: Outside, around: Surroundings, s: System, moves: seq<Move>)
    requires SystemSound(outside, s)
    ensures SystemSound(outside, RunMoves(outside, around, s, moves))
    decreases |moves|
  {
    if moves != [] {
      MoveIsSound(outside, around, s, moves[0]);
      RunIsSound(outside, around, MoveOn(outside, around, s, moves[0]), moves[1..]);
    }
  }

  /** In every run of the whole client, however its threads interleave and whatever the server, the
      runner and the user do: every initialisation and every fresh step uses reserves the engine
      admitted for exactly the session they are given to, that session is the one initialised last, no
      snapshot is ever skipped as unreachable, and the worker takes pushed snapshots in the order they
      were sent, none twice. */
  lemma WorkerOnlyGrindsAdmittedReserves(outside: Outside, around: Surroundings, config: Config, moves: seq<Move>)
    requires Sound(Started(config))
    ensures
      var s := RunMoves(outside, around, Start(config), moves);
      && (forall call <- s.worker.calls :: CallGated(outside, call))
      && InSession(s.worker.calls)
      && s.worker.skipped == 0
      && |s.worker.taken| == |s.cell.taken|
      && (forall k | 0 <= k < |s.cell.taken| :: 0 <= s.cell.taken[k] < |s.cell.sent| && s.worker.taken[k] == s.cell.sent[s.cell.taken[k]])
      && (forall j, k | 0 <= j < k < |s.cell.taken| :: s.cell.taken[j] < s.cell.taken[k])
  {
    RunIsSound(outside, around, Start(config), moves);
  }

  // ---- What the runner is given, and what it is heard of ----

  /** The snapshots whose reserves the runner was given, by initialising or stepping, in order. */
  function Given(calls: seq<Call>): seq<Snapshot> {
    if calls == [] then [] else
      var last := calls[|calls| - 1];
      Given(calls[..|calls| - 1]) + if last.ContinueCall? then [] else [Snapshot(last.reserves, last.session)]
  }

  lemma OneMoreGiven(calls: seq<Call>, call: Call)
    ensures Given(calls + [call]) == Given(calls) + if call.ContinueCall? then [] else [Snapshot(call.reserves, call.session)]
  {
    assert (calls + [call])[..|calls|] == calls;
  }

  /** Everything taken was given to the runner, but a snapshot held to retarget with. */
  predicate GivesWhatItTakes(w: Worker) {
    w.taken == Given(w.calls) + if w.phase.Retargeted? then [w.phase.snapshot] else []
  }

  lemma InitialiseGives(around: Surroundings, w: Worker, snapshot: Snapshot)
    requires w.taken == Given(w.calls) + [snapshot]
    ensures GivesWhatItTakes(Initialise(around, w, snapshot))
  {
    OneMoreGiven(w.calls, InitCall(snapshot.reserves, snapshot.session));
  }

  lemma GrindGives(around: Surroundings, w: Worker, call: Call)
    requires w.phase.Grinding? && !call.InitCall?
    requires w.taken == Given(w.calls) + if call.ContinueCall? then [] else [Snapshot(call.reserves, call.session)]
    ensures GivesWhatItTakes(Grind(around, w, call))
  {
    OneMoreGiven(w.calls, call);
  }

  lemma TurnGivesWhatItTakes(outside: Outside, around: Surroundings, w: Worker, offer: Offer)
    requires WorkerSound(outside, w) && (offer.Fresh? ==> Gated(outside, offer.snapshot)) && GivesWhatItTakes(w)
    ensures GivesWhatItTakes(Turn(outside, around, w, offer))
  {
    match w.phase {
      case Retargeted(snapshot) => InitialiseGives(around, w, snapshot);
      case Waiting =>
        if offer.Fresh? {
          InitialiseGives(around, w.(taken := w.taken + [offer.snapshot]), offer.snapshot);
        }
      case Grinding(session) =>
        if offer.Nothing? {
          GrindGives(around, w, ContinueCall(session));
        } else if offer.Fresh? && offer.snapshot.session == session {
          GrindGives(around, w.(taken := w.taken + [offer.snapshot]), NewReservesCall(offer.snapshot.reserves, session));
        }
      case Stopped =>
    }
  }

  /** How a call comes out: heard of or passed over in silence, and fatal or not. */
  datatype Verdict = Verdict(heard: Option<Announcement>, fatal: bool)

  function VerdictOn(around: Surroundings, n: nat, call: Call): Verdict {
    if call.InitCall? then
      match around.init(n, call)
      case Ok(stepped) => Verdict(Some(Announcement(OptimizerStepped(stepped.result, stepped.plan), call.session)), false)
      case Err(InitStep(OutputAssetNotFound)) => Verdict(None, false)
      case Err(InitStep(SourceAssetNotFound)) => Verdict(None, false)
      case Err(error) =>
        Verdict(Some(Announcement(EffectFailed(Optimize(OptimizeStage.Init, around.initMessage(error))), call.session)), true)
    else
      match around.run(n, call)
      case Ok(stepped) => Verdict(Some(Announcement(OptimizerStepped(stepped.result, stepped.plan), call.session)), false)
      case Err(error) =>
        Verdict(Some(Announcement(EffectFailed(Optimize(OptimizeStage.Run, around.stepMessage(error))), call.session)), true)
  }

  /** What the calls of a run are heard to have done. */
  function Heard(around: Surroundings, calls: seq<Call>): seq<Announcement> {
    if calls == [] then [] else
      var last := |calls| - 1;
      var verdict := VerdictOn(around, last, calls[last]);
      Heard(around, calls[..last]) + if verdict.heard.Some? then [verdict.heard.value] else []
  }

  ghost predicate AlwaysListening(around: Surroundings) {
    forall n :: around.listening(n)
  }

  predicate FatalAt(around: Surroundings, calls: seq<Call>, k: nat)
    requires k < |calls|
  {
    VerdictOn(around, k, calls[k]).fatal
  }

  /** All calls are heard of, none follows a fatal one, and a fatal one is the end. */
  ghost predicate HeardOf(around: Surroundings, w: Worker) {
    && w.events == Heard(around, w.calls)
    && (forall k | 0 <= k < |w.calls| - 1 :: !FatalAt(around, w.calls, k))
    && (w.calls != [] && FatalAt(around, w.calls, |w.calls| - 1) ==> w.phase.Stopped?)
  }

  lemma OneMoreHeard(around: Surroundings, calls: seq<Call>, call: Call)
    requires forall k | 0 <= k < |calls| :: !FatalAt(around, calls, k)
    ensures var verdict := VerdictOn(around, |calls|, call);
            Heard(around, calls + [call]) == Heard(around, calls) + if verdict.heard.Some? then [verdict.heard.value] else []
    ensures forall k | 0 <= k < |calls| :: !FatalAt(around, calls + [call], k)
  {
    assert (calls + [call])[..|calls|] == calls;
    forall k | 0 <= k < |calls| ensures !FatalAt(around, calls + [call], k) {
      assert (calls + [call])[k] == calls[k] && !FatalAt(around, calls, k);
    }
  }

  /** What one call does to a worker everyone listens to. */
  predicate Calls(around: Surroundings, w: Worker, after: Worker, call: Call) {
    var verdict := VerdictOn(around, |w.calls|, call);
    && after.calls == w.calls + [call]
    && after.events == w.events + (if verdict.heard.Some? then [verdict.heard.value] else [])
    && (verdict.fatal ==> after.phase.Stopped?)
  }

  lemma InitialiseCalls(around: Surroundings, w: Worker, snapshot: Snapshot)
    requires AlwaysListening(around)
    ensures Calls(around, w, Initialise(around, w, snapshot), InitCall(snapshot.reserves, snapshot.session))
  {
  }

  lemma GrindCalls(around: Surroundings, w: Worker, call: Call)
    requires AlwaysListening(around) && !call.InitCall?
    ensures Calls(around, w, Grind(around, w, call), call)
  {
  }

  lemma CallsAreHeardOf(around: Surroundings, w: Worker, after: Worker, call: Call)
    requires HeardOf(around, w) && !w.phase.Stopped? && Calls(around, w, after, call)
    ensures HeardOf(around, after)
  {
    OneMoreHeard(around, w.calls, call);
  }

  /** A turn makes one call or none, and if none announces nothing. */
  lemma TurnCalls(outside: Outside, around: Surroundings, w: Worker, offer: Offer) returns (call: Option<Call>)
    requires AlwaysListening(around)
    ensures var after := Turn(outside, around, w, offer);
            if call.Some? then !w.phase.Stopped? && Calls(around, w, after, call.value)
            else after.calls == w.calls && after.events == w.events && (w.phase.Stopped? ==> after.phase.Stopped?)
  {
    call := None;
    match w.phase {
      case Retargeted(snapshot) =>
        InitialiseCalls(around, w, snapshot);
        call := Some(InitCall(snapshot.reserves, snapshot.session));
      case Waiting =>
        if offer.Fresh? {
          InitialiseCalls(around, w.(taken := w.taken + [offer.snapshot]), offer.snapshot);
          call := Some(InitCall(offer.snapshot.reserves, offer.snapshot.session));
        }
      case Grinding(session) => call := GrindTurnCalls(outside, around, w, offer, session);
      case Stopped =>
    }
  }

  lemma GrindTurnCalls(outside: Outside, around: Surroundings, w: Worker, offer: Offer, session: OptimizationSession)
    returns (call: Option<Call>)
    requires AlwaysListening(around) && w.phase == Grinding(session)
    ensures var after := Turn(outside, around, w, offer);
            if call.Some? then Calls(around, w, after, call.value) else after.calls == w.calls && after.events == w.events
  {
    call := None;
    if offer.Nothing? {
      GrindCalls(around, w, ContinueCall(session));
      call := Some(ContinueCall(session));
    } else if offer.Fresh? && offer.snapshot.session == session {
      var took := w.(taken := w.taken + [offer.snapshot]);
      if outside.reachesRoute(offer.snapshot.reserves, session) {
        GrindCalls(around, took, NewReservesCall(offer.snapshot.reserves, session));
        call := Some(NewReservesCall(offer.snapshot.reserves, session));
      } else {
        GrindCalls(around, took.(skipped := took.skipped + 1), ContinueCall(session));
        call := Some(ContinueCall(session));
      }
    }
  }

  lemma TurnIsHeardOf(outside: Outside, around: Surroundings, w: Worker, offer: Offer)
    requires AlwaysListening(around) && HeardOf(around, w)
    ensures HeardOf(around, Turn(outside, around, w, offer))
  {
    var call := TurnCalls(outside, around, w, offer);
    if call.Some? {
      CallsAreHeardOf(around, w, Turn(outside, around, w, offer), call.value);
    }
  }

  /** The worker stops when the mailbox is gone or a call was fatal. */
  ghost predicate StopsForAReason(around: Surroundings, s: System) {
    s.worker.phase.Stopped? ==>
      || (s.cell.closed && s.cell.latest.None?)
      || (s.worker.calls != [] && FatalAt(around, s.worker.calls, |s.worker.calls| - 1))
  }

  lemma TurnStopsForAReason(outside: Outside, around: Surroundings, s: System)
    requires AlwaysListening(around) && SystemSound(outside, s) && StopsForAReason(around, s)
    ensures StopsForAReason(around, TurnWorker(outside, around, s))
  {
  }

  /** What the worker does with what it takes, as an invariant of the whole client. */
  ghost predicate WorkerFaithful(around: Surroundings, s: System) {
    && GivesWhatItTakes(s.worker)
    && (AlwaysListening(around) ==> HeardOf(around, s.worker) && StopsForAReason(around, s))
  }

  lemma WorkerTurnIsFaithful(outside: Outside, around: Surroundings, s: System)
    requires SystemSound(outside, s) && WorkerFaithful(around, s)
    ensures WorkerFaithful(around, TurnWorker(outside, around, s))
  {
    var offer := if s.worker.phase.Retargeted? then Nothing else OfferOf(s.cell);
    if offer.Fresh? {
      OfferIsGated(outside, s);
    }
    TurnGivesWhatItTakes(outside, around, s.worker, offer);
    if AlwaysListening(around) {
      TurnIsHeardOf(outside, around, s.worker, offer);
      TurnStopsForAReason(outside, around, s);
    }
  }

  lemma MoveIsFaithful(outside: Outside, around: Surroundings, s: System, move: Move)
    requires SystemSound(outside, s) && WorkerFaithful(around, s)
    ensures WorkerFaithful(around, MoveOn(outside, around, s, move))
  {
    if move.WorkerTurn? {
      WorkerTurnIsFaithful(outside, around, s);
    }
  }

  lemma {:induction false} RunIsFaithful(outside: Outside, around: Surroundings, s: System, moves: seq<Move>)
    requires SystemSound(outside, s) && WorkerFaithful(around, s)
    ensures WorkerFaithful(around, RunMoves(outside, around, s, moves))
    decreases |moves|
  {
    if moves != [] {
      MoveIsFaithful(outside, around, s, moves[0]);
      MoveIsSound(outside, around, s, moves[0]);
      RunIsFaithful(outside, around, MoveOn(outside, around, s, moves[0]), moves[1..]);
    }
  }

  /** In every run of the whole client each snapshot the worker takes is given to the runner, once and in
      that order, save the one it may be holding to retarget with; so while it is grinding, the reserves the
      runner was given last are those of the snapshot taken last. */
  lemma EverySnapshotTakenIsGiven(outside: Outside, around: Surroundings, config: Config, moves: seq<Move>)
    requires Sound(Started(config))
    ensures
      var w := RunMoves(outside, around, Start(config), moves).worker;
      && w.taken == Given(w.calls) + (if w.phase.Retargeted? then [w.phase.snapshot] else [])
      && (w.phase.Grinding? ==>
            && Given(w.calls) != [] && w.taken != []
            && Given(w.calls)[|Given(w.calls)| - 1] == w.taken[|w.taken| - 1])
  {
    RunIsSound(outside, around, Start(config), moves);
    RunIsFaithful(outside, around, Start(config), moves);
    GrindingOnTheLatest(outside, RunMoves(outside, around, Start(config), moves).worker);
  }

  lemma GrindingOnTheLatest(outside: Outside, w: Worker)
    requires WorkerSound(outside, w) && GivesWhatItTakes(w)
    ensures w.phase.Grinding? ==>
      && Given(w.calls) != [] && w.taken != []
      && Given(w.calls)[|Given(w.calls)| - 1] == w.taken[|w.taken| - 1]
  {
    if w.phase.Grinding? {
      InitialisedIsGiven(w.calls);
    }
  }

  lemma {:induction false} InitialisedIsGiven(calls: seq<Call>)
    requires LastInit(calls).Some?
    ensures Given(calls) != []
  {
    if !calls[|calls| - 1].InitCall? {
      InitialisedIsGiven(calls[..|calls| - 1]);
    }
  }

  /** As long as the engine listens: it hears of every call in order, of a step by its result under the
      session stepped, of a failure by stage and message, and of nothing where a snapshot did not cover its
      route yet. A fatal failure is the last call, and the worker stops for that or a closed, empty mailbox
      alone. */
  lemma EveryCallIsHeardOf(outside: Outside, around: Surroundings, config: Config, moves: seq<Move>)
    requires Sound(Started(config)) && AlwaysListening(around)
    ensures
      var s := RunMoves(outside, around, Start(config), moves);
      && s.worker.events == Heard(around, s.worker.calls)
      && (forall k | 0 <= k < |s.worker.calls| - 1 :: !FatalAt(around, s.worker.calls, k))
      && (s.worker.phase.Stopped? <== s.worker.calls != [] && FatalAt(around, s.worker.calls, |s.worker.calls| - 1))
      && StopsForAReason(around, s)
  {
    RunIsFaithful(outside, around, Start(config), moves);
  }

  // ---- Which pushes are the freshest ----

  /** What a move has the engine push. */
  function PushedBy(outside: Outside, s: System, move: Move): seq<Snapshot> {
    if Folds(s, move).Some? then Pushes(Transition(outside, s.engine, Folds(s, move).value).1) else []
  }

  /** All that a run has the engine push, in that order. */
  function Emitted(outside: Outside, around: Surroundings, s: System, moves: seq<Move>): seq<Snapshot>
    decreases |moves|
  {
    if moves == [] then [] else
      PushedBy(outside, s, moves[0]) + Emitted(outside, around, MoveOn(outside, around, s, moves[0]), moves[1..])
  }

  /** Pushes are executed in the order they were emitted. */
  predicate InOrder(moves: seq<Move>) {
    forall k | 0 <= k < |moves| && moves[k].ExecutePush? :: moves[k].index == 0
  }

  /** What was sent is what was emitted first, and while the mailbox is open the outbox holds the rest. */
  ghost predicate SentInOrder(s: System, emitted: seq<Snapshot>) {
    s.cell.sent <= emitted && (!s.cell.closed ==> emitted == s.cell.sent + s.outbox)
  }

  lemma FirstMovesOver(sent: seq<Snapshot>, outbox: seq<Snapshot>)
    requires outbox != []
    ensures outbox[..0] + outbox[1..] == outbox[1..]
    ensures sent + [outbox[0]] + outbox[1..] == sent + outbox
    ensures sent + [outbox[0]] <= sent + outbox
  {
    assert outbox == [outbox[0]] + outbox[1..];
  }

  lemma FirstPushSendsInOrder(outside: Outside, around: Surroundings, s: System, emitted: seq<Snapshot>)
    requires SentInOrder(s, emitted)
    ensures SentInOrder(MoveOn(outside, around, s, ExecutePush(0)), emitted)
  {
    if s.outbox != [] {
      FirstMovesOver(s.cell.sent, s.outbox);
    }
  }

  lemma FoldSendsInOrder(outside: Outside, s: System, event: Event, emitted: seq<Snapshot>)
    requires SentInOrder(s, emitted)
    ensures SentInOrder(Fold(outside, s, event), emitted + Pushes(Transition(outside, s.engine, event).1))
  {
    var pushed := Pushes(Transition(outside, s.engine, event).1);
    assert s.cell.sent + (s.outbox + pushed) == (s.cell.sent + s.outbox) + pushed;
  }

  lemma MoveSendsInOrder(outside: Outside, around: Surroundings, s: System, move: Move, emitted: seq<Snapshot>)
    requires SentInOrder(s, emitted) && (move.ExecutePush? ==> move.index == 0)
    ensures SentInOrder(MoveOn(outside, around, s, move), emitted + PushedBy(outside, s, move))
  {
    if Folds(s, move).Some? {
      FoldSendsInOrder(outside, s, Folds(s, move).value, emitted);
    } else {
      assert emitted + [] == emitted;
      if move.ExecutePush? {
        FirstPushSendsInOrder(outside, around, s, emitted);
      }
    }
  }

  lemma RegroupPushes(first: seq<Snapshot>, second: seq<Snapshot>, third: seq<Snapshot>)
    ensures first + (second + third) == first + second + third
  {
  }

  lemma EmittedGoesOn(outside: Outside, around: Surroundings, s: System, moves: seq<Move>, emitted: seq<Snapshot>)
    requires moves != []
    ensures emitted + Emitted(outside, around, s, moves)
            == emitted + PushedBy(outside, s, moves[0]) + Emitted(outside, around, MoveOn(outside, around, s, moves[0]), moves[1..])
  {
    RegroupPushes(emitted, PushedBy(outside, s, moves[0]), Emitted(outside, around, MoveOn(outside, around, s, moves[0]), moves[1..]));
  }

  lemma {:induction false} RunSendsInOrder(outside: Outside, around: Surroundings, s: System, moves: seq<Move>, emitted: seq<Snapshot>)
    requires SentInOrder(s, emitted) && InOrder(moves)
    ensures SentInOrder(RunMoves(outside, around, s, moves), emitted + Emitted(outside, around, s, moves))
    decreases |moves|
  {
    if moves == [] {
      assert emitted + [] == emitted;
    } else {
      MoveSendsInOrder(outside, around, s, moves[0], emitted);
      EmittedGoesOn(outside, around, s, moves, emitted);
      RunSendsInOrder(outside, around, MoveOn(outside, around, s, moves[0]), moves[1..], emitted + PushedBy(outside, s, moves[0]));
    }
  }

  /** The snapshots taken were emitted in the order they were taken. */
  ghost predicate TakenInOrder(s: System, emitted: seq<Snapshot>) {
    && |s.worker.taken| == |s.cell.taken|
    && (forall k | 0 <= k < |s.cell.taken| :: 0 <= s.cell.taken[k] < |emitted| && s.worker.taken[k] == emitted[s.cell.taken[k]])
    && (forall j, k | 0 <= j < k < |s.cell.taken| :: s.cell.taken[j] < s.cell.taken[k])
  }

  /** What is offered is the newest sent, emitted after everything taken, and with no push outstanding the
      newest of all. */
  ghost predicate OffersTheFreshest(s: System, emitted: seq<Snapshot>) {
    OfferOf(s.cell).Fresh? ==>
      && 0 < |s.cell.sent| <= |emitted| && OfferOf(s.cell).snapshot == emitted[|s.cell.sent| - 1]
      && (forall k | 0 <= k < |s.cell.taken| :: s.cell.taken[k] < |s.cell.sent| - 1)
      && (s.outbox == [] && !s.cell.closed ==> |s.cell.sent| == |emitted|)
  }

  lemma SentInOrderTakesInOrder(outside: Outside, s: System, emitted: seq<Snapshot>)
    requires SystemSound(outside, s) && SentInOrder(s, emitted)
    ensures TakenInOrder(s, emitted)
  {
  }

  lemma SentInOrderOffersTheFreshest(outside: Outside, s: System, emitted: seq<Snapshot>)
    requires SystemSound(outside, s) && SentInOrder(s, emitted)
    ensures OffersTheFreshest(s, emitted)
  {
    if OfferOf(s.cell).Fresh? {
      OfferIsGated(outside, s);
      forall k | 0 <= k < |s.cell.taken| ensures s.cell.taken[k] < |s.cell.sent| - 1 {
        assert s.cell.taken[k] <= LatestSlots.LastTaken(s.cell);
      }
    }
  }

  /** As long as pushes are executed in the order they were emitted, the worker takes them in that order,
      and is always offered the newest sent, newer than anything it took. */
  lemma InOrderTheWorkerGetsTheFreshest(outside: Outside, around: Surroundings, config: Config, moves: seq<Move>)
    requires Sound(Started(config)) && InOrder(moves)
    ensures
      var (s, emitted) := (RunMoves(outside, around, Start(config), moves), Emitted(outside, around, Start(config), moves));
      TakenInOrder(s, emitted) && OffersTheFreshest(s, emitted)
  {
    var (s, emitted) := (RunMoves(outside, around, Start(config), moves), Emitted(outside, around, Start(config), moves));
    RunIsSound(outside, around, Start(config), moves);
    RunSendsInOrder(outside, around, Start(config), moves, []);
    assert [] + emitted == emitted;
    SentInOrderTakesInOrder(outside, s, emitted);
    SentInOrderOffersTheFreshest(outside, s, emitted);
  }

  /** Out of order it gets a stale one: of two pushes outstanding, the later executed first, the mailbox is
      left offering the earlier. */
  lemma OutOfOrderTheWorkerGetsAStaleOne(outside: Outside, around: Surroundings, s: System)
    requires !s.cell.closed && |s.outbox| == 2
    ensures
      var after := RunMoves(outside, around, s, [ExecutePush(1), ExecutePush(0)]);
      && after.outbox == [] && OfferOf(after.cell) == Fresh(s.outbox[0])
      && after.cell.sent == s.cell.sent + [s.outbox[1]] + [s.outbox[0]]
  {
    RunOfTwo(outside, around, s, ExecutePush(1), ExecutePush(0));
  }

  // ---- Which route a recorded step belongs to ----

  /** The event a move folds into the engine, if any. */
  function Folds(s: System, move: Move): Option<Event> {
    match move
    case Handle(event) => Some(event)
    case Deliver => if s.delivered < |s.worker.events| then Some(s.worker.events[s.delivered].event) else None
    case _ => None
  }

  /** All the events a run folds into the engine, the worker's among them. */
  function Folded(outside: Outside, around: Surroundings, s: System, moves: seq<Move>): seq<Event>
    decreases |moves|
  {
    if moves == [] then [] else
      (if Folds(s, moves[0]).Some? then [Folds(s, moves[0]).value] else [])
      + Folded(outside, around, MoveOn(outside, around, s, moves[0]), moves[1..])
  }

  lemma {:induction false} EngineFoldsItsEvents(outside: Outside, around: Surroundings, s: System, moves: seq<Move>)
    ensures RunMoves(outside, around, s, moves).engine == RunEvents(outside, s.engine, Folded(outside, around, s, moves))
    decreases |moves|
  {
    if moves != [] {
      var after := MoveOn(outside, around, s, moves[0]);
      var rest := Folded(outside, around, after, moves[1..]);
      EngineFoldsItsEvents(outside, around, after, moves[1..]);
      if Folds(s, moves[0]).Some? {
        var event := Folds(s, moves[0]).value;
        assert ([event] + rest)[1..] == rest;
        assert RunEvents(outside, s.engine, [event] + rest) == RunEvents(outside, Transition(outside, s.engine, event).0, rest);
      } else {
        assert [] + rest == rest;
      }
    }
  }

  /** The worker's next event to be folded is a step. */
  predicate StepIsNext(s: System) {
    s.delivered < |s.worker.events| && s.worker.events[s.delivered].event.OptimizerStepped?
  }

  /** The engine is optimizing, so that it records a step, and the step next to arrive was computed for
      another route than the one in force. */
  predicate MisrecordsNext(s: System)
    requires StepIsNext(s)
  {
    IsOptimizing(s.engine) && s.worker.events[s.delivered].session != s.engine.config.optimization
  }

  /** In every run of the whole client the step delivered next is recorded as the route's in force
      exactly when a productive slice has been applied since the route last changed, whichever session
      computed it; so it is recorded under the wrong route exactly when besides that session's route is
      not the one in force. */
  lemma StepIsMisrecordedExactly(outside: Outside, around: Surroundings, config: Config, moves: seq<Move>)
    requires Sound(Started(config)) && StepIsNext(RunMoves(outside, around, Start(config), moves))
    ensures
      var s := RunMoves(outside, around, Start(config), moves);
      var (step, after) := (s.worker.events[s.delivered], MoveOn(outside, around, s, Deliver).engine);
      var driven := DrivenSinceRetarget(outside, Started(config), Folded(outside, around, Start(config), moves));
      && (driven ==> IsOptimizing(s.engine) && after == s.engine.(session := s.engine.session.(
                       work := s.engine.session.work.(lastStep := Some(step.event.result), plan := step.event.plan))))
      && (!driven ==> after == s.engine)
      && (MisrecordsNext(s) <==> driven && step.session != s.engine.config.optimization)
  {
    EngineFoldsItsEvents(outside, around, Start(config), moves);
    var s := RunMoves(outside, around, Start(config), moves);
    var event := s.worker.events[s.delivered].event;
    StepIsRecordedExactlySinceASlice(outside, config, Folded(outside, around, Start(config), moves), event.result, event.plan);
    OptimizingExactlySinceASlice(outside, Started(config), Folded(outside, around, Start(config), moves));
  }

  /** A step of another session than the given one is still to be delivered. */
  predicate StepStrays(s: System, session: OptimizationSession) {
    exists k :: s.delivered <= k < |s.worker.events| &&
      s.worker.events[k].event.OptimizerStepped? && s.worker.events[k].session != session
  }

  /** The worker, left to itself, will step another session: one it holds, or is grinding and does not
      find the mailbox gone or retargeting it. */
  predicate WorkerStrays(s: System, session: OptimizationSession) {
    || (s.worker.phase.Retargeted? && s.worker.phase.snapshot.session != session)
    || (s.worker.phase.Grinding? && s.worker.phase.session != session &&
        if s.cell.latest.Some? then s.cell.latest.value.session == s.worker.phase.session else !s.cell.closed)
  }

  /** A snapshot of another session can still reach the worker. */
  predicate SnapshotStrays(s: System, session: OptimizationSession) {
    || (s.cell.latest.Some? && s.cell.latest.value.session != session)
    || (!s.cell.closed && exists k :: 0 <= k < |s.outbox| && s.outbox[k].session != session)
  }

  predicate StraysFrom(s: System, session: OptimizationSession) {
    StepStrays(s, session) || (!s.worker.phase.Stopped? && (WorkerStrays(s, session) || SnapshotStrays(s, session)))
  }

  /** Something of another route than the one in force is under way and can come to a step. */
  predicate Strays(s: System) {
    StraysFrom(s, s.engine.config.optimization)
  }

  lemma {:induction false} PushesAreForTheRoute(outside: Outside, before: Engine, after: Engine, effects: seq<Effect>)
    requires forall effect <- effects :: Honest(outside, before, after, effect)
    ensures forall k | 0 <= k < |Pushes(effects)| :: Pushes(effects)[k].session == after.config.optimization
  {
    if effects != [] {
      assert Honest(outside, before, after, effects[0]);
      PushesAreForTheRoute(outside, before, after, effects[1..]);
    }
  }

  /** Only a change of route touches the session in force. */
  lemma RouteChangesOnlyByRetarget(outside: Outside, e: Engine, event: Event)
    requires !Retargets(e, event)
    ensures Transition(outside, e, event).0.config == e.config
  {
  }

  lemma FoldLetsNothingStray(outside: Outside, s: System, event: Event)
    requires SystemSound(outside, s) && !Strays(s) && !Retargets(s.engine, event)
    ensures !Strays(Fold(outside, s, event))
    ensures Fold(outside, s, event).engine.config == s.engine.config
  {
    TransitionIsSound(outside, s.engine, event);
    var (engine, effects) := Transition(outside, s.engine, event);
    PushesAreForTheRoute(outside, s.engine, engine, effects);
    RouteChangesOnlyByRetarget(outside, s.engine, event);
  }

  lemma PushLetsNothingStray(s: System, i: nat, session: OptimizationSession)
    requires !StraysFrom(s, session) && i < |s.outbox|
    ensures !StraysFrom(s.(outbox := s.outbox[..i] + s.outbox[i + 1..],
                           cell := LatestSlots.Next(s.cell, LatestSlots.Send(s.outbox[i]))), session)
  {
  }

  /** The worker's turn steps only the session it is grinding or takes up. */
  lemma TurnLetsNothingStray(outside: Outside, around: Surroundings, s: System, session: OptimizationSession)
    requires SystemSound(outside, s) && !StraysFrom(s, session)
    ensures !StraysFrom(TurnWorker(outside, around, s), session)
  {
  }

  lemma MoveLetsNothingStray(outside: Outside, around: Surroundings, s: System, move: Move)
    requires SystemSound(outside, s) && !Strays(s)
    requires Folds(s, move).Some? ==> !Retargets(s.engine, Folds(s, move).value)
    ensures !Strays(MoveOn(outside, around, s, move))
    ensures MoveOn(outside, around, s, move).engine.config == s.engine.config
  {
    match move {
      case Handle(event) => FoldLetsNothingStray(outside, s, event);
      case Deliver =>
        if s.delivered < |s.worker.events| {
          FoldLetsNothingStray(outside, s, s.worker.events[s.delivered].event);
        }
      case ExecutePush(i) =>
        if i < |s.outbox| {
          PushLetsNothingStray(s, i, s.engine.config.optimization);
        }
      case WorkerTurn => TurnLetsNothingStray(outside, around, s, s.engine.config.optimization);
      case DropSender =>
    }
  }

  /** No move of the run changes the route in force. */
  ghost predicate KeepsRoute(outside: Outside, around: Surroundings, s: System, moves: seq<Move>)
    decreases |moves|
  {
    moves != [] ==>
      && (Folds(s, moves[0]).Some? ==> !Retargets(s.engine, Folds(s, moves[0]).value))
      && KeepsRoute(outside, around, MoveOn(outside, around, s, moves[0]), moves[1..])
  }

  /** From any reachable moment at which nothing of another route is astray, and for as long as the route
      is not changed, every step belongs to the route in force: a wrong one needs a change of route to
      overtake something of the old route. */
  lemma {:induction false} SettledStepsBelong(outside: Outside, around: Surroundings, s: System, moves: seq<Move>)
    requires SystemSound(outside, s) && !Strays(s) && KeepsRoute(outside, around, s, moves)
    ensures
      var after := RunMoves(outside, around, s, moves);
      && !Strays(after) && after.engine.config == s.engine.config
      && (StepIsNext(after) ==> !MisrecordsNext(after))
    decreases |moves|
  {
    if moves != [] {
      MoveIsSound(outside, around, s, moves[0]);
      MoveLetsNothingStray(outside, around, s, moves[0]);
      SettledStepsBelong(outside, around, MoveOn(outside, around, s, moves[0]), moves[1..]);
    }
  }

  /** A client starts with nothing astray, so until its first change of route no step is misrecorded. */
  lemma FirstRouteStepsBelong(outside: Outside, around: Surroundings, config: Config, moves: seq<Move>)
    requires Sound(Started(config)) && KeepsRoute(outside, around, Start(config), moves)
    ensures var s := RunMoves(outside, around, Start(config), moves);
            s.engine.config == config && (StepIsNext(s) ==> !MisrecordsNext(s))
  {
    SettledStepsBelong(outside, around, Start(config), moves);
  }

  // ---- What is astray does get recorded ----

  /** The runner always steps and the engine always listens. */
  ghost predicate NeverFails(around: Surroundings) {
    && (forall n, call :: around.init(n, call).Ok?)
    && (forall n, call :: around.run(n, call).Ok?)
    && (forall n :: around.listening(n))
  }

  /** The moves lead, the route unchanged, to a step about to be misrecorded. */
  ghost predicate LeadsAstray(outside: Outside, around: Surroundings, s: System, moves: seq<Move>) {
    && KeepsRoute(outside, around, s, moves)
    && StepIsNext(RunMoves(outside, around, s, moves)) && MisrecordsNext(RunMoves(outside, around, s, moves))
  }

  lemma OneMoveFirst(outside: Outside, around: Surroundings, s: System, move: Move, rest: seq<Move>)
    requires Folds(s, move).Some? ==> !Retargets(s.engine, Folds(s, move).value)
    requires LeadsAstray(outside, around, MoveOn(outside, around, s, move), rest)
    ensures LeadsAstray(outside, around, s, [move] + rest)
  {
    assert ([move] + rest)[1..] == rest;
  }

  /** A stray step is misrecorded once the events before it are delivered. */
  lemma {:induction false} StrayStepLeads(outside: Outside, around: Surroundings, s: System, k: nat) returns (moves: seq<Move>)
    requires SystemSound(outside, s) && IsOptimizing(s.engine)
    requires s.delivered <= k < |s.worker.events| && s.worker.events[k].event.OptimizerStepped?
    requires s.worker.events[k].session != s.engine.config.optimization
    ensures LeadsAstray(outside, around, s, moves)
    decreases k - s.delivered
  {
    if k == s.delivered {
      moves := [];
    } else {
      var event := s.worker.events[s.delivered].event;
      assert s.worker.events[s.delivered] in s.worker.events;
      MoveIsSound(outside, around, s, Deliver);
      EventSwitchesWork(outside, s.engine, event);
      RouteChangesOnlyByRetarget(outside, s.engine, event);
      var rest := StrayStepLeads(outside, around, MoveOn(outside, around, s, Deliver), k);
      OneMoveFirst(outside, around, s, Deliver, rest);
      moves := [Deliver] + rest;
    }
  }

  /** A turn that announces a step of another session leads to its being misrecorded. */
  lemma StrayTurnLeads(outside: Outside, around: Surroundings, s: System) returns (moves: seq<Move>)
    requires SystemSound(outside, s) && IsOptimizing(s.engine)
    requires
      var events := TurnWorker(outside, around, s).worker.events;
      && |events| == |s.worker.events| + 1 && events[|events| - 1].event.OptimizerStepped?
      && events[|events| - 1].session != s.engine.config.optimization
    ensures LeadsAstray(outside, around, s, moves)
  {
    MoveIsSound(outside, around, s, WorkerTurn);
    var rest := StrayStepLeads(outside, around, MoveOn(outside, around, s, WorkerTurn), |s.worker.events|);
    OneMoveFirst(outside, around, s, WorkerTurn, rest);
    moves := [WorkerTurn] + rest;
  }

  lemma StrayWorkerLeads(outside: Outside, around: Surroundings, s: System) returns (moves: seq<Move>)
    requires SystemSound(outside, s) && IsOptimizing(s.engine) && NeverFails(around)
    requires WorkerStrays(s, s.engine.config.optimization)
    ensures LeadsAstray(outside, around, s, moves)
  {
    moves := StrayTurnLeads(outside, around, s);
  }

  lemma StraySnapshotLeads(outside: Outside, around: Surroundings, s: System) returns (moves: seq<Move>)
    requires SystemSound(outside, s) && IsOptimizing(s.engine) && NeverFails(around)
    requires !s.worker.phase.Stopped? && s.cell.latest.Some? && s.cell.latest.value.session != s.engine.config.optimization
    ensures LeadsAstray(outside, around, s, moves)
    decreases if s.worker.phase.Retargeted? then 1 else 0
  {
    if WorkerStrays(s, s.engine.config.optimization) {
      moves := StrayWorkerLeads(outside, around, s);
    } else if s.worker.phase.Waiting? {
      moves := StrayTurnLeads(outside, around, s);
    } else {
      var after := MoveOn(outside, around, s, WorkerTurn);
      MoveIsSound(outside, around, s, WorkerTurn);
      var rest: seq<Move>;
      if s.worker.phase.Grinding? {
        rest := StrayWorkerLeads(outside, around, after);
      } else {
        rest := StraySnapshotLeads(outside, around, after);
      }
      OneMoveFirst(outside, around, s, WorkerTurn, rest);
      moves := [WorkerTurn] + rest;
    }
  }

  lemma StrayPushLeads(outside: Outside, around: Surroundings, s: System, i: nat) returns (moves: seq<Move>)
    requires SystemSound(outside, s) && IsOptimizing(s.engine) && NeverFails(around)
    requires !s.worker.phase.Stopped? && !s.cell.closed
    requires i < |s.outbox| && s.outbox[i].session != s.engine.config.optimization
    ensures LeadsAstray(outside, around, s, moves)
  {
    MoveIsSound(outside, around, s, ExecutePush(i));
    var rest := StraySnapshotLeads(outside, around, MoveOn(outside, around, s, ExecutePush(i)));
    OneMoveFirst(outside, around, s, ExecutePush(i), rest);
    moves := [ExecutePush(i)] + rest;
  }

  lemma StraysLead(outside: Outside, around: Surroundings, s: System) returns (moves: seq<Move>)
    requires SystemSound(outside, s) && IsOptimizing(s.engine) && NeverFails(around)
    requires Strays(s)
    ensures LeadsAstray(outside, around, s, moves)
  {
    var session := s.engine.config.optimization;
    if StepStrays(s, session) {
      var k :| s.delivered <= k < |s.worker.events| &&
        s.worker.events[k].event.OptimizerStepped? && s.worker.events[k].session != session;
      moves := StrayStepLeads(outside, around, s, k);
    } else if WorkerStrays(s, session) {
      moves := StrayWorkerLeads(outside, around, s);
    } else if s.cell.latest.Some? && s.cell.latest.value.session != session {
      moves := StraySnapshotLeads(outside, around, s);
    } else {
      var i :| 0 <= i < |s.outbox| && s.outbox[i].session != session;
      moves := StrayPushLeads(outside, around, s, i);
    }
  }

  /** Exactly, with a runner and a listener that never fail: while the engine is optimizing, the client can
      come to misrecord a step without a further change of route if and only if something of another route
      is astray. */
  lemma MisrecordsExactlyWhatStrays(outside: Outside, around: Surroundings, s: System)
    requires SystemSound(outside, s) && IsOptimizing(s.engine) && NeverFails(around)
    ensures Strays(s) <==> exists moves :: LeadsAstray(outside, around, s, moves)
  {
    if Strays(s) {
      var moves := StraysLead(outside, around, s);
    }
    forall moves | LeadsAstray(outside, around, s, moves) ensures Strays(s) {
      if !Strays(s) {
        SettledStepsBelong(outside, around, s, moves);
      }
    }
  }

  /** The runner is initialised exactly when the session changes. */
  predicate InitialisesOnChange(calls: seq<Call>) {
    forall k | 0 <= k < |calls| :: calls[k].InitCall? <==> LastInit(calls[..k]) != Some(calls[k].session)
  }

  ghost predicate SwitchesOnChange(w: Worker) {
    && InitialisesOnChange(w.calls)
    && (w.phase.Waiting? ==> w.calls == [])
    && (w.phase.Retargeted? ==> LastInit(w.calls) != Some(w.phase.snapshot.session))
  }

  lemma OneMoreSwitch(calls: seq<Call>, call: Call)
    requires InitialisesOnChange(calls) && (call.InitCall? <==> LastInit(calls) != Some(call.session))
    ensures InitialisesOnChange(calls + [call])
  {
    var longer := calls + [call];
    assert longer[..|calls|] == calls;
    forall k | 0 <= k < |longer| ensures longer[k].InitCall? <==> LastInit(longer[..k]) != Some(longer[k].session) {
      if k < |calls| {
        assert longer[..k] == calls[..k];
      }
    }
  }

  lemma TurnSwitchesOnChange(outside: Outside, around: Surroundings, w: Worker, offer: Offer)
    requires NeverFails(around) && WorkerSound(outside, w) && SwitchesOnChange(w)
    ensures SwitchesOnChange(Turn(outside, around, w, offer))
  {
    match w.phase {
      case Retargeted(snapshot) => OneMoreSwitch(w.calls, InitCall(snapshot.reserves, snapshot.session));
      case Waiting =>
        if offer.Fresh? {
          OneMoreSwitch(w.calls, InitCall(offer.snapshot.reserves, offer.snapshot.session));
        }
      case Grinding(session) =>
        OneMoreSwitch(w.calls, ContinueCall(session));
        if offer.Fresh? {
          OneMoreSwitch(w.calls, NewReservesCall(offer.snapshot.reserves, session));
        }
      case Stopped =>
    }
  }

  lemma MoveSwitchesOnChange(outside: Outside, around: Surroundings, s: System, move: Move)
    requires NeverFails(around) && SystemSound(outside, s) && SwitchesOnChange(s.worker)
    ensures SwitchesOnChange(MoveOn(outside, around, s, move).worker)
  {
    TurnSwitchesOnChange(outside, around, s.worker, if s.worker.phase.Retargeted? then Nothing else OfferOf(s.cell));
  }

  lemma {:induction false} RunSwitchesOnChange(outside: Outside, around: Surroundings, s: System, moves: seq<Move>)
    requires NeverFails(around) && SystemSound(outside, s) && SwitchesOnChange(s.worker)
    ensures SwitchesOnChange(RunMoves(outside, around, s, moves).worker)
    decreases |moves|
  {
    if moves != [] {
      MoveSwitchesOnChange(outside, around, s, moves[0]);
      MoveIsSound(outside, around, s, moves[0]);
      RunSwitchesOnChange(outside, around, MoveOn(outside, around, s, moves[0]), moves[1..]);
    }
  }

  /** With a runner and a listener that never fail the worker initialises for a session exactly when it is
      not the one it initialised last: first of all, and at every retarget. */
  lemma InitialisesExactlyOnRetarget(outside: Outside, around: Surroundings, config: Config, moves: seq<Move>)
    requires Sound(Started(config)) && NeverFails(around)
    ensures InitialisesOnChange(RunMoves(outside, around, Start(config), moves).worker.calls)
  {
    RunSwitchesOnChange(outside, around, Start(config), moves);
  }

  // ---- A run that misrecords a step ----

  /** The route is changed while the worker's first step is on its way, and a slice drives the new route
      before that step arrives. */
  function Overtaken(meta: PoolsMetaResponse, slice: SliceResponse, route: Route): seq<Move> {
    [Handle(Tick), Handle(MetaFetched(1, meta)), Handle(SliceFetched(2, slice)), ExecutePush(0), WorkerTurn,
     Handle(SetRoute(route)), Handle(Tick), Handle(SliceFetched(3, slice))]
  }

  lemma FirstTickAsks(outside: Outside, config: Config)
    ensures
      var (ticked, effects) := Transition(outside, Started(config), Tick);
      && ticked == Started(config).(pending := Ledgers.Ledger(2, 1, Some(Ledgers.Slot(1, 1)), None, Some(Ledgers.Slot(0, 1))))
      && effects == [FetchHealth(0)] + [FetchMeta(1)] && Pushes(effects) == []
  {
    assert ([FetchHealth(0)] + [FetchMeta(1)])[1..] == [FetchMeta(1)];
    assert [FetchMeta(1)][1..] == [] && Pushes([]) == [];
    assert Pushes([FetchMeta(1)]) == [];
  }

  lemma CatalogAsksForSlice(outside: Outside, e: Engine, meta: PoolsMetaResponse)
    requires e.pending == Ledgers.Ledger(2, 1, Some(Ledgers.Slot(1, 1)), None, Some(Ledgers.Slot(0, 1)))
    requires e.session.NoCatalog?
    ensures
      var held := Catalogs.Parsed(outside, meta, e.config.chain);
      var (installed, effects) := Transition(outside, e, MetaFetched(1, meta));
      && installed == e.(session := Ready(held, Awaiting(Bootstrapping)),
                         pending := Ledgers.Ledger(3, 1, None, Some(Ledgers.Slot(2, 1)), Some(Ledgers.Slot(0, 1))))
      && effects == [FetchSlice(2, held.request)] && Pushes(effects) == []
  {
    var held := Catalogs.Parsed(outside, meta, e.config.chain);
    assert [FetchSlice(2, held.request)][1..] == [] && Pushes([]) == [];
  }

  lemma FirstSliceIsPushed(outside: Outside, config: Config, meta: PoolsMetaResponse, slice: SliceResponse)
    returns (e: Engine)
    requires Catalogs.Projected(outside, Catalogs.Parsed(outside, meta, config.chain), slice).Ok?
    requires outside.hashOf(slice.blockHash).Some?
    requires var reserves := Catalogs.Projected(outside, Catalogs.Parsed(outside, meta, config.chain), slice).value;
             IsProductive(outside, reserves, config.optimization)
    ensures
      var ticked, held := Transition(outside, Started(config), Tick).0, Catalogs.Parsed(outside, meta, config.chain);
      var installed := Transition(outside, ticked, MetaFetched(1, meta)).0;
      && (e, [PushReserves(Catalogs.Projected(outside, held, slice).value, config.optimization)])
         == Transition(outside, installed, SliceFetched(2, slice))
      && Pushes(Transition(outside, Started(config), Tick).1) == []
      && Pushes(Transition(outside, ticked, MetaFetched(1, meta)).1) == []
      && e.config == config && e.session.Ready? && e.session.catalog == held && IsOptimizing(e)
      && e.pending == Ledgers.Ledger(3, 1, None, None, Some(Ledgers.Slot(0, 1)))
  {
    FirstTickAsks(outside, config);
    var ticked := Transition(outside, Started(config), Tick).0;
    CatalogAsksForSlice(outside, ticked, meta);
    e := Transition(outside, Transition(outside, ticked, MetaFetched(1, meta)).0, SliceFetched(2, slice)).0;
  }

  /** One more slice drives the new route. */
  lemma NextSliceDrives(outside: Outside, e: Engine, slice: SliceResponse, route: Route)
    returns (driven: Engine)
    requires e.session.Ready? && IsOptimizing(e) && e.pending == Ledgers.Ledger(3, 1, None, None, Some(Ledgers.Slot(0, 1)))
    requires Retargets(e, SetRoute(route))
    requires Catalogs.Projected(outside, e.session.catalog, slice).Ok? && outside.hashOf(slice.blockHash).Some?
    requires IsProductive(outside, Catalogs.Projected(outside, e.session.catalog, slice).value, OnSetRoute(e, route).config.optimization)
    ensures
      var retargeted := Transition(outside, e, SetRoute(route)).0;
      var ticked := Transition(outside, retargeted, Tick).0;
      && driven == Transition(outside, ticked, SliceFetched(3, slice)).0
      && IsOptimizing(driven) && driven.config == retargeted.config
      && driven.config.optimization != e.config.optimization
  {
    var retargeted := Transition(outside, e, SetRoute(route)).0;
    var ticked := Transition(outside, retargeted, Tick).0;
    assert ticked.pending == Ledgers.Ledger(4, 2, None, Some(Ledgers.Slot(3, 2)), Some(Ledgers.Slot(0, 1)));
    driven := Transition(outside, ticked, SliceFetched(3, slice)).0;
  }

  lemma {:induction false} RunSplits(outside: Outside, around: Surroundings, s: System, first: seq<Move>, second: seq<Move>)
    ensures RunMoves(outside, around, s, first + second) == RunMoves(outside, around, RunMoves(outside, around, s, first), second)
    decreases |first|
  {
    if first == [] {
      assert first + second == second;
    } else {
      assert (first + second)[1..] == first[1..] + second;
      RunSplits(outside, around, MoveOn(outside, around, s, first[0]), first[1..], second);
    }
  }

  lemma RunOfTwo(outside: Outside, around: Surroundings, s: System, first: Move, second: Move)
    ensures RunMoves(outside, around, s, [first, second]) == MoveOn(outside, around, MoveOn(outside, around, s, first), second)
  {
    var one := MoveOn(outside, around, s, first);
    var two := MoveOn(outside, around, one, second);
    assert [first, second][1..] == [second] && [second][1..] == [];
    assert RunMoves(outside, around, two, []) == two;
    assert RunMoves(outside, around, one, [second]) == two;
  }

  lemma RunOfThree(outside: Outside, around: Surroundings, s: System, first: OuterEvent, second: OuterEvent, third: OuterEvent)
    ensures RunMoves(outside, around, s, [Handle(first), Handle(second), Handle(third)])
            == FoldThree(outside, s, first, second, third)
  {
    var one := MoveOn(outside, around, s, Handle(first));
    assert [Handle(first), Handle(second), Handle(third)][1..] == [Handle(second), Handle(third)];
    RunOfTwo(outside, around, one, Handle(second), Handle(third));
  }

  /** A pushed snapshot is taken and initialised from, and the step it gives waits to be delivered. */
  lemma WorkerInitialises(outside: Outside, around: Surroundings, s: System, snapshot: Snapshot)
    requires s.outbox == [snapshot] && s.cell == LatestSlots.Fresh() && s.worker == IDLE && s.delivered == 0
    requires around.init(0, InitCall(snapshot.reserves, snapshot.session)).Ok? && around.listening(0)
    ensures
      var after := MoveOn(outside, around, MoveOn(outside, around, s, ExecutePush(0)), WorkerTurn);
      && after.engine == s.engine && after.delivered == 0
      && StepIsNext(after) && after.worker.events[0].session == snapshot.session
  {
  }

  /** Three events of which only the last has anything to push. */
  function FoldThree(outside: Outside, s: System, first: Event, second: Event, third: Event): System {
    Fold(outside, Fold(outside, Fold(outside, s, first), second), third)
  }

  lemma ThreeEvents(outside: Outside, s: System, first: Event, second: Event, third: Event)
    ensures
      var (one, firstEffects) := Transition(outside, s.engine, first);
      var (two, secondEffects) := Transition(outside, one, second);
      var (three, thirdEffects) := Transition(outside, two, third);
      FoldThree(outside, s, first, second, third) == s.(engine := three,
        outbox := s.outbox + Pushes(firstEffects) + Pushes(secondEffects) + Pushes(thirdEffects))
  {
  }

  /** Whenever the catalog, the slice and both routes go together, such a run ends with the old route's
      step next to arrive and about to be recorded as the new route's. */
  lemma OvertakenStepIsMisrecorded(outside: Outside, around: Surroundings, config: Config, meta: PoolsMetaResponse,
                                   slice: SliceResponse, route: Route)
    requires Retargets(Started(config), SetRoute(route)) && outside.hashOf(slice.blockHash).Some?
    requires Catalogs.Projected(outside, Catalogs.Parsed(outside, meta, config.chain), slice).Ok?
    requires var reserves := Catalogs.Projected(outside, Catalogs.Parsed(outside, meta, config.chain), slice).value;
             && IsProductive(outside, reserves, config.optimization)
             && IsProductive(outside, reserves, OnSetRoute(Started(config), route).config.optimization)
             && around.init(0, InitCall(reserves, config.optimization)).Ok? && around.listening(0)
    ensures var s := RunMoves(outside, around, Start(config), Overtaken(meta, slice, route));
            StepIsNext(s) && MisrecordsNext(s)
  {
    var snapshot := Snapshot(Catalogs.Projected(outside, Catalogs.Parsed(outside, meta, config.chain), slice).value,
                             config.optimization);
    var s0 := Start(config);
    var e := FirstSliceIsPushed(outside, config, meta, slice);
    var s3 := FoldThree(outside, s0, Tick, MetaFetched(1, meta), SliceFetched(2, slice));
    ThreeEvents(outside, s0, Tick, MetaFetched(1, meta), SliceFetched(2, slice));
    assert s3 == s0.(engine := e, outbox := [snapshot]) by {
      assert Pushes([PushReserves(snapshot.reserves, snapshot.session)]) == [snapshot];
    }
    WorkerInitialises(outside, around, s3, snapshot);
    var s5 := MoveOn(outside, around, MoveOn(outside, around, s3, ExecutePush(0)), WorkerTurn);
    var driven := NextSliceDrives(outside, e, slice, route);
    var s8 := FoldThree(outside, s5, SetRoute(route), Tick, SliceFetched(3, slice));
    ThreeEvents(outside, s5, SetRoute(route), Tick, SliceFetched(3, slice));
    OvertakenRuns(outside, around, s0, meta, slice, route);
  }

  lemma OvertakenRuns(outside: Outside, around: Surroundings, s0: System, meta: PoolsMetaResponse, slice: SliceResponse, route: Route)
    ensures
      var s3 := FoldThree(outside, s0, Tick, MetaFetched(1, meta), SliceFetched(2, slice));
      var s5 := MoveOn(outside, around, MoveOn(outside, around, s3, ExecutePush(0)), WorkerTurn);
      RunMoves(outside, around, s0, Overtaken(meta, slice, route))
      == FoldThree(outside, s5, SetRoute(route), Tick, SliceFetched(3, slice))
  {
    var admit := [Handle(Tick), Handle(MetaFetched(1, meta)), Handle(SliceFetched(2, slice))];
    var grind := [ExecutePush(0), WorkerTurn];
    var overtake := [Handle(SetRoute(route)), Handle(Tick), Handle(SliceFetched(3, slice))];
    assert Overtaken(meta, slice, route) == admit + (grind + overtake);
    RunSplits(outside, around, s0, admit, grind + overtake);
    RunOfThree(outside, around, s0, Tick, MetaFetched(1, meta), SliceFetched(2, slice));
    var s3 := RunMoves(outside, around, s0, admit);
    RunSplits(outside, around, s3, grind, overtake);
    RunOfTwo(outside, around, s3, ExecutePush(0), WorkerTurn);
    RunOfThree(outside, around, RunMoves(outside, around, s3, grind), SetRoute(route), Tick, SliceFetched(3, slice));
  }

  /** A client in which everything parses, covers every route and steps. */
  const OBLIGING := Outside(
    _ => Some(Address(0)), _ => Some(0), _ => Some(0), _ => Some(0),
    (_, _, _, _, _, _, _) => Ok(ReserveValues(1.0, 1.0, 1.0, 1.0, 1.0)), (_, _) => true)

  const STEPPING := Surroundings(
    (_, _) => Ok(Stepped(StepResult(1.0, 1.0, 0.0, 1), None)), (_, _) => Ok(Stepped(StepResult(1.0, 1.0, 0.0, 1), None)),
    _ => "", _ => "", _ => true)

  const ONE_POOL := PoolsMetaResponse([PoolMetaEntry(V3Query(""), "", "", 3000, 60)], [TokenMetaEntry("", 18)])

  const ONE_SLICE := SliceResponse("", 1, [PoolSlice(V3Query(""), Complete(WirePoolState("", 0, "")))])

  lemma OnePoolProjects(chain: ChainKey)
    ensures var catalog := Catalogs.Parsed(OBLIGING, ONE_POOL, chain);
            && Catalogs.Projected(OBLIGING, catalog, ONE_SLICE).Ok?
            && Catalogs.Projected(OBLIGING, catalog, ONE_SLICE).value != []
  {
    var catalog := Catalogs.Parsed(OBLIGING, ONE_POOL, chain);
    var pool := PoolRef(UniswapV3(Address(0)), chain);
    assert Catalogs.DecimalsOf(OBLIGING, ONE_POOL.tokens, Address(0)) == Some(18);
    assert Catalogs.Resolve(OBLIGING, ONE_POOL, chain, 0) == Catalogs.Catalog(chain, map[], SliceRequest([]), []);
    assert pool in catalog.pools && catalog.chain == chain;
    var entry := ONE_SLICE.pools[0];
    assert Catalogs.Contributes(OBLIGING, catalog, entry);
    assert ONE_SLICE.pools[..0] == [] && ONE_SLICE.pools[|ONE_SLICE.pools| - 1] == entry;
    assert Catalogs.Collect(OBLIGING, catalog, []) == Ok([]);
    assert |Catalogs.Collect(OBLIGING, catalog, ONE_SLICE.pools).value| == 1;
    Catalogs.SortIsStable(Catalogs.Collect(OBLIGING, catalog, ONE_SLICE.pools).value);
  }

  /** Such a client does misrecord a step, whatever its first route and its second. */
  lemma StepsAreMisrecorded(config: Config, route: Route)
    requires Retargets(Started(config), SetRoute(route))
    ensures var s := RunMoves(OBLIGING, STEPPING, Start(config), Overtaken(ONE_POOL, ONE_SLICE, route));
            StepIsNext(s) && MisrecordsNext(s)
  {
    OnePoolProjects(config.chain);
    OvertakenStepIsMisrecorded(OBLIGING, STEPPING, config, ONE_POOL, ONE_SLICE, route);
  }
}
