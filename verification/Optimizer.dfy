/** The self-clocked optimizer worker: it owns a runner and feeds it whatever the mailbox offers. */
module Optimizers {
  import opened Domain
  import opened Wire
  import Engines
  import ReplaySpec

  /** What crosses the mailbox: reserves and the route they were admitted for. */
  datatype Snapshot = Snapshot(reserves: seq<PoolReserves>, session: OptimizationSession)

  datatype StepError =
    | EmptyReserves
    | DuplicateReserveKey
    | InvalidInputAmount
    | OutputAssetNotFound
    | SourceAssetNotFound
    | ModelInit(message: string)

  datatype InitError = BackendUnavailable | InitStep(error: StepError)

  datatype Stepped = Stepped(result: Engines.StepResult, plan: Option<ReplaySpec.Plan>)

  /** One call into the runner. */
  datatype Call =
    | InitCall(reserves: seq<PoolReserves>, session: OptimizationSession)
    | NewReservesCall(reserves: seq<PoolReserves>, session: OptimizationSession)
    | ContinueCall(session: OptimizationSession)

  /** The runner and the event sink, which the worker does not own: how the n-th call comes out, what
      an error says, and whether the n-th event still finds a listener. */
  datatype Surroundings = Surroundings(
    init: (nat, Call) -> Result<Stepped, InitError>,
    run: (nat, Call) -> Result<Stepped, StepError>,
    initMessage: InitError -> string,
    stepMessage: StepError -> string,
    listening: nat -> bool)

  /** A snapshot that does not cover its route yet, rather than something wrong. */
  predicate IsRouteGap(error: StepError) {
    error.OutputAssetNotFound? || error.SourceAssetNotFound?
  }

  /** Waiting for a snapshot to initialise from, holding one that announced another route, or grinding
      a session. */
  datatype Phase = Waiting | Retargeted(snapshot: Snapshot) | Grinding(session: OptimizationSession) | Stopped

  /** An event the worker sent, on record with the session of the call behind it, which the event itself
      does not carry. */
  datatype Announcement = Announcement(event: Engines.Event, session: OptimizationSession)

  /** The worker with its history: the runner calls it made, what it announced, the snapshots it took
      and how many of them it skipped as unreachable. */
  datatype Worker = Worker(
    phase: Phase, calls: seq<Call>, events: seq<Announcement>, taken: seq<Snapshot>, skipped: nat)

  const IDLE := Worker(Waiting, [], [], [], 0)

  /** What the mailbox offers a take. */
  datatype Offer = Fresh(snapshot: Snapshot) | Nothing | Gone

  function Announce(around: Surroundings, w: Worker, announcement: Announcement, next: Phase): Worker {
    if around.listening(|w.events|) then w.(events := w.events + [announcement], phase := next) else w.(phase := Stopped)
  }

  function Progress(stepped: Stepped, session: OptimizationSession): Announcement {
    Announcement(Engines.OptimizerStepped(stepped.result, stepped.plan), session)
  }

  function Failure(stage: Engines.OptimizeStage, message: string, session: OptimizationSession): Announcement {
    Announcement(Engines.EffectFailed(Engines.Optimize(stage, message)), session)
  }

  /** One attempt to initialise a session. */
  function Initialise(around: Surroundings, w: Worker, snapshot: Snapshot): Worker {
    var call := InitCall(snapshot.reserves, snapshot.session);
    var called := w.(calls := w.calls + [call]);
    match around.init(|w.calls|, call)
    case Ok(stepped) =>
      Announce(around, called, Progress(stepped, snapshot.session), Grinding(snapshot.session))
    case Err(error) =>
      if error.InitStep? && IsRouteGap(error.error) then called.(phase := Waiting)
      else Announce(around, called, Failure(Engines.OptimizeStage.Init, around.initMessage(error), snapshot.session), Stopped)
  }

  /** One runner step of the session being ground. */
  function Grind(around: Surroundings, w: Worker, call: Call): Worker {
    var called := w.(calls := w.calls + [call]);
    match around.run(|w.calls|, call)
    case Ok(stepped) => Announce(around, called, Progress(stepped, call.session), w.phase)
    case Err(error) =>
      Announce(around, called, Failure(Engines.OptimizeStage.Run, around.stepMessage(error), call.session), Stopped)
  }

  /** One turn of the worker's loops. A retargeted worker needs no offer. */
  function Turn(outside: Outside, around: Surroundings, w: Worker, offer: Offer): Worker {
    match w.phase
    case Stopped => w
    case Retargeted(snapshot) => Initialise(around, w, snapshot)
    case Waiting =>
      (match offer
       case Nothing => w
       case Gone => w.(phase := Stopped)
       case Fresh(snapshot) => Initialise(around, w.(taken := w.taken + [snapshot]), snapshot))
    case Grinding(session) =>
      match offer
      case Nothing => Grind(around, w, ContinueCall(session))
      case Gone => w.(phase := Stopped)
      case Fresh(snapshot) =>
        var took := w.(taken := w.taken + [snapshot]);
        if snapshot.session != session then took.(phase := Retargeted(snapshot))
        else if outside.reachesRoute(snapshot.reserves, session)
        then Grind(around, took, NewReservesCall(snapshot.reserves, session))
        else Grind(around, took.(skipped := took.skipped + 1), ContinueCall(session))
  }

  /** The worker against a script of offers, the mailbox gone when it ends. */
  function Worked(outside: Outside, around: Surroundings, w: Worker, offers: seq<Offer>): Worker
    decreases |offers|, if w.phase.Retargeted? then 1 else 0
  {
    if w.phase.Stopped? then w
    else if w.phase.Retargeted? then
      InitialiseSettles(around, w, w.phase.snapshot);
      Worked(outside, around, Turn(outside, around, w, Nothing), offers)
    else if offers == [] then Turn(outside, around, w, Gone)
    else Worked(outside, around, Turn(outside, around, w, offers[0]), offers[1..])
  }

  lemma InitialiseSettles(around: Surroundings, w: Worker, snapshot: Snapshot)
    ensures !Initialise(around, w, snapshot).phase.Retargeted?
  {
  }

  lemma InitialiseIgnoresPhase(around: Surroundings, w: Worker, phase: Phase, snapshot: Snapshot)
    ensures Initialise(around, w.(phase := phase), snapshot) == Initialise(around, w, snapshot)
  {
  }

  // ---- The two nested loops ----

  class OptimizerWorker {
    const outside: Outside
    const around: Surroundings
    /** What the mailbox has yet to offer. */
    var offers: seq<Offer>
    var calls: seq<Call>
    var events: seq<Announcement>
    var taken: seq<Snapshot>
    var skipped: nat

    constructor (outside: Outside, around: Surroundings, offers: seq<Offer>)
      ensures this.outside == outside && this.around == around
      ensures View(Waiting) == IDLE && this.offers == offers
    {
      this.outside, this.around, this.offers := outside, around, offers;
      calls, events, taken, skipped := [], [], [], 0;
    }

    ghost function View(phase: Phase): Worker
      reads this
    {
      Worker(phase, calls, events, taken, skipped)
    }

    /** How the run ends if it stands at `phase` now. */
    ghost function Ends(phase: Phase): Worker
      reads this
    {
      Worked(outside, around, View(phase), offers)
    }

    /** Sends one event, reporting whether anyone listens. */
    method SendEvent(announcement: Announcement) returns (sent: bool)
      modifies this`events
      ensures sent == around.listening(|old(events)|)
      ensures events == if sent then old(events) + [announcement] else old(events)
    {
      sent := around.listening(|events|);
      if sent {
        events := events + [announcement];
      }
    }

    /** The next snapshot of a blocking take, or none once the mailbox is gone. */
    method WaitTake() returns (r: Option<Snapshot>)
      modifies this`offers, this`taken
      ensures |offers| <= |old(offers)|
      ensures match r
              case None => View(Stopped) == old(Ends(Waiting))
              case Some(snapshot) =>
                && |offers| < |old(offers)|
                && Worked(outside, around, Initialise(around, View(Waiting), snapshot), offers) == old(Ends(Waiting))
    {
      while offers != []
        invariant taken == old(taken) && |offers| <= |old(offers)|
        invariant Ends(Waiting) == old(Ends(Waiting))
        decreases |offers|
      {
        var offer := offers[0];
        offers := offers[1..];
        match offer {
          case Fresh(snapshot) =>
            taken := taken + [snapshot];
            return Some(snapshot);
          case Gone =>
            assert Worked(outside, around, View(Stopped), offers) == View(Stopped);
            return None;
          case Nothing =>
        }
      }
      return None;
    }

    /** The init loop: skips snapshots that do not cover their route yet, and yields the session that
        initialised, or nothing once the run is over. */
    method InitialiseSession(handed: Option<Snapshot>) returns (session: Option<OptimizationSession>)
      modifies this
      ensures handed.None? && session.Some? ==> |offers| < |old(offers)|
      ensures |offers| <= |old(offers)|
      ensures match session
              case None => View(Stopped) == old(Ends(if handed.Some? then Retargeted(handed.value) else Waiting))
              case Some(running) => Ends(Grinding(running)) == old(Ends(if handed.Some? then Retargeted(handed.value) else Waiting))
    {
      var retargeted := handed;
      ghost var whole := Ends(if handed.Some? then Retargeted(handed.value) else Waiting);
      while true
        invariant |offers| <= |old(offers)| && (handed.None? ==> retargeted.None?)
        invariant Ends(if retargeted.Some? then Retargeted(retargeted.value) else Waiting) == whole
        decreases |offers|, if retargeted.Some? then 1 else 0
      {
        var snapshot: Snapshot;
        if retargeted.Some? {
          snapshot := retargeted.value;
          InitialiseIgnoresPhase(around, View(Waiting), Retargeted(snapshot), snapshot);
          retargeted := None;
        } else {
          var waited := WaitTake();
          if waited.None? {
            return None;
          }
          snapshot := waited.value;
        }
        assert Worked(outside, around, Initialise(around, View(Waiting), snapshot), offers) == whole;

        var call := InitCall(snapshot.reserves, snapshot.session);
        var outcome := around.init(|calls|, call);
        calls := calls + [call];
        match outcome {
          case Ok(stepped) =>
            var sent := SendEvent(Progress(stepped, snapshot.session));
            return if sent then Some(snapshot.session) else None;
          case Err(error) =>
            if !(error.InitStep? && IsRouteGap(error.error)) {
              var _ := SendEvent(Failure(Engines.OptimizeStage.Init, around.initMessage(error), snapshot.session));
              return None;
            }
        }
      }
    }

    /** The grind loop: fresh reserves of the same route are stepped, an empty mailbox continues, and a
        snapshot for another route ends the session and is handed back. */
    method GrindSession(session: OptimizationSession) returns (retargeted: Option<Snapshot>)
      modifies this
      ensures |offers| <= |old(offers)| && (retargeted.Some? ==> |offers| < |old(offers)|)
      ensures match retargeted
              case None => View(Stopped) == old(Ends(Grinding(session)))
              case Some(snapshot) => Ends(Retargeted(snapshot)) == old(Ends(Grinding(session)))
    {
      while offers != []
        invariant |offers| <= |old(offers)|
        invariant Ends(Grinding(session)) == old(Ends(Grinding(session)))
        decreases |offers|
      {
        var offer := offers[0];
        offers := offers[1..];
        var call := ContinueCall(session);
        match offer {
          case Gone =>
            assert Worked(outside, around, View(Stopped), offers) == View(Stopped);
            return None;
          case Nothing =>
          case Fresh(snapshot) =>
            taken := taken + [snapshot];
            if snapshot.session != session {
              return Some(snapshot);
            }
            if outside.reachesRoute(snapshot.reserves, session) {
              call := NewReservesCall(snapshot.reserves, session);
            } else {
              skipped := skipped + 1;
            }
        }
        var outcome := around.run(|calls|, call);
        calls := calls + [call];
        match outcome {
          case Ok(stepped) =>
            var sent := SendEvent(Progress(stepped, session));
            if !sent {
              assert Worked(outside, around, View(Stopped), offers) == View(Stopped);
              return None;
            }
          case Err(error) =>
            var _ := SendEvent(Failure(Engines.OptimizeStage.Run, around.stepMessage(error), session));
            assert Worked(outside, around, View(Stopped), offers) == View(Stopped);
            return None;
        }
      }
      return None;
    }

    /** Runs until the mailbox or the event sink closes or the runner fails. */
    method RunWorker()
      requires View(Waiting) == IDLE
      modifies this
      ensures View(Stopped) == Worked(outside, around, IDLE, old(offers))
    {
      var retargeted: Option<Snapshot> := None;
      while true
        invariant Ends(if retargeted.Some? then Retargeted(retargeted.value) else Waiting)
                  == Worked(outside, around, IDLE, old(offers))
        decreases |offers|, if retargeted.Some? then 1 else 0
      {
        var session := InitialiseSession(retargeted);
        if session.None? {
          return;
        }
        retargeted := GrindSession(session.value);
        if retargeted.None? {
          return;
        }
      }
    }
  }
}
