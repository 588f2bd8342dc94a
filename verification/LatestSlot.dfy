/** A coalescing single-cell mailbox between one sending side and one receiver. */
module LatestSlots {
  import opened Domain

  datatype Closed = Closed

  // ---- The mailbox as atomic steps under its lock, over every interleaving ----

  /** Where the receiving thread is: between takes, or asleep in one, perhaps already notified. */
  datatype Receiver = Awake | Asleep(notified: bool)

  /** The cell, with the history the theorems are about: every accepted send, and for every take the
      position of the send it returned. */
  datatype Cell<T> = Cell(latest: Option<T>, closed: bool, receiver: Receiver, sent: seq<T>, taken: seq<int>)

  function Fresh<T>(): Cell<T> {
    Cell(None, false, Awake, [], [])
  }

  /** One critical section. `Take` is a pass of the blocking take's loop, entered on the call and
      again after every wake-up, notified or spurious. */
  datatype Step<T> = Send(value: T) | Take | TryTake | Close

  datatype TakeOutcome<T> = Took(value: T) | Empty | WasClosed

  function Woken(receiver: Receiver): Receiver {
    if receiver.Asleep? then Asleep(true) else Awake
  }

  function Offered<T>(cell: Cell<T>): TakeOutcome<T> {
    if cell.latest.Some? then Took(cell.latest.value) else if cell.closed then WasClosed else Empty
  }

  function Next<T>(cell: Cell<T>, step: Step<T>): Cell<T> {
    match step
    case Send(value) =>
      if cell.closed then cell
      else cell.(latest := Some(value), receiver := Woken(cell.receiver), sent := cell.sent + [value])
    case Close => cell.(closed := true, receiver := Woken(cell.receiver))
    case Take =>
      (match Offered(cell)
       case Took(_) => cell.(latest := None, receiver := Awake, taken := cell.taken + [|cell.sent| - 1])
       case WasClosed => cell.(receiver := Awake)
       case Empty => cell.(receiver := Asleep(false)))
    case TryTake =>
      if cell.receiver.Awake? && cell.latest.Some? then cell.(latest := None, taken := cell.taken + [|cell.sent| - 1])
      else cell
  }

  function Run<T>(cell: Cell<T>, steps: seq<Step<T>>): Cell<T>
    decreases |steps|
  {
    if steps == [] then cell else Run(Next(cell, steps[0]), steps[1..])
  }

  function LastTaken<T>(cell: Cell<T>): int {
    if cell.taken == [] then -1 else cell.taken[|cell.taken| - 1]
  }

  /** The cell holds the newest send exactly while it is untaken; takes name sends in sending order;
      and a receiver asleep without a notification faces an empty open cell. */
  ghost predicate Coherent<T>(cell: Cell<T>) {
    && (forall k | 0 <= k < |cell.taken| :: 0 <= cell.taken[k] < |cell.sent|)
    && (forall j, k | 0 <= j < k < |cell.taken| :: cell.taken[j] < cell.taken[k])
    && (cell.latest.Some? <==> LastTaken(cell) < |cell.sent| - 1)
    && (cell.latest.Some? ==> cell.latest.value == cell.sent[|cell.sent| - 1])
    && (cell.receiver == Asleep(false) ==> cell.latest.None? && !cell.closed)
  }

  lemma TakingIsCoherent<T>(cell: Cell<T>)
    requires Coherent(cell) && cell.latest.Some?
    ensures |cell.sent| > 0 && |cell.sent| - 1 !in cell.taken
    ensures Coherent(cell.(latest := None, receiver := Awake, taken := cell.taken + [|cell.sent| - 1]))
  {
    assert forall k | 0 <= k < |cell.taken| :: cell.taken[k] <= LastTaken(cell);
  }

  lemma SendingIsCoherent<T>(cell: Cell<T>, value: T)
    requires Coherent(cell) && !cell.closed
    ensures Coherent(Next(cell, Step.Send(value)))
  {
    assert forall k | 0 <= k < |cell.taken| :: cell.taken[k] < |cell.sent|;
  }

  /** Every step keeps the cell coherent; nothing sent or taken is ever forgotten or changed; a take
      returns the newest send and only if no take returned it before. */
  lemma StepIsCoherent<T>(cell: Cell<T>, step: Step<T>)
    requires Coherent(cell)
    ensures
      var after := Next(cell, step);
      && Coherent(after)
      && cell.sent <= after.sent && cell.taken <= after.taken
      && (cell.closed ==> after.closed && after.sent == cell.sent)
      && (after.taken != cell.taken ==>
            && Offered(cell) == Took(cell.sent[|cell.sent| - 1])
            && after.taken == cell.taken + [|cell.sent| - 1] && |cell.sent| - 1 !in cell.taken)
  {
    match step {
      case Send(value) =>
        if !cell.closed {
          SendingIsCoherent(cell, value);
        }
      case Take =>
        if cell.latest.Some? {
          TakingIsCoherent(cell);
        }
      case TryTake =>
        if cell.latest.Some? {
          TakingIsCoherent(cell);
        }
      case Close =>
    }
  }

  /** Over all interleavings of sends, takes, sleeps, wake-ups and closes, the taken values are sends
      in sending order, none twice, and no wake-up is lost. */
  lemma {:induction false} RunIsCoherent<T>(cell: Cell<T>, steps: seq<Step<T>>)
    requires Coherent(cell)
    ensures Coherent(Run(cell, steps))
    ensures cell.sent <= Run(cell, steps).sent && cell.taken <= Run(cell, steps).taken
    decreases |steps|
  {
    if steps != [] {
      StepIsCoherent(cell, steps[0]);
      RunIsCoherent(Next(cell, steps[0]), steps[1..]);
    }
  }

  /** The value pending when the cell closes is still delivered, once; from then on, whatever is done,
      every take finds the cell closed and no send is accepted. */
  lemma {:induction false} PendingSurvivesClose<T>(cell: Cell<T>, steps: seq<Step<T>>)
    requires Coherent(cell) && cell.closed
    ensures
      var after := Run(cell, steps);
      && after.closed && after.sent == cell.sent
      && (cell.latest.None? ==> after.latest.None? && after.taken == cell.taken && Offered(after) == WasClosed)
      && (cell.latest.Some? ==>
            || (after.latest == cell.latest && after.taken == cell.taken && Offered(after) == Took(cell.latest.value))
            || (after.latest.None? && after.taken == cell.taken + [|cell.sent| - 1] && Offered(after) == WasClosed))
    decreases |steps|
  {
    if steps != [] {
      StepIsCoherent(cell, steps[0]);
      PendingSurvivesClose(Next(cell, steps[0]), steps[1..]);
    }
  }

  // ---- The shared object ----

  /** What the sending side may do while the receiver sleeps. */
  datatype Other<T> = Sends(value: T) | Closes

  class LatestSlot<T> {
    var latest: Option<T>
    var closed: bool

    constructor ()
      ensures latest == None && !closed
    {
      latest := None;
      closed := false;
    }

    /** Whether the fields are those of a cell of the machine above. */
    ghost predicate Shows(cell: Cell<T>)
      reads this
    {
      latest == cell.latest && closed == cell.closed
    }

    method Send(value: T, ghost cell: Cell<T>) returns (r: Result<(), Closed>)
      requires Shows(cell)
      modifies this`latest
      ensures r.Err? <==> closed
      ensures Shows(Next(cell, Step.Send(value)))
    {
      if closed {
        return Err(Closed.Closed);
      }
      latest := Some(value);
      return Ok(());
    }

    method TryTake(ghost cell: Cell<T>) returns (r: Result<Option<T>, Closed>)
      requires Shows(cell) && cell.receiver.Awake?
      modifies this`latest
      ensures Shows(Next(cell, Step.TryTake))
      ensures r == match Offered(cell)
                   case Took(value) => Ok(Some(value))
                   case Empty => Ok(None)
                   case WasClosed => Err(Closed.Closed)
    {
      if latest.Some? {
        r := Ok(latest);
        latest := None;
      } else if closed {
        r := Err(Closed.Closed);
      } else {
        r := Ok(None);
      }
    }

    method CloseSlot(ghost cell: Cell<T>)
      requires Shows(cell)
      modifies this`closed
      ensures Shows(Next(cell, Step.Close))
    {
      closed := true;
    }

    /** Blocks until a value is present or the cell closes. `others[k]` is what the sending side does
        during the k-th sleep; when it does nothing more the take is still asleep, and yields `None`. */
    method WaitTake(others: seq<seq<Other<T>>>) returns (r: Option<Result<T, Closed>>)
      modifies this
      ensures (latest, closed, r) == Awaited(old(latest), old(closed), others)
    {
      var k := 0;
      while true
        invariant k <= |others|
        invariant Awaited(latest, closed, others[k..]) == Awaited(old(latest), old(closed), others)
        decreases |others| - k
      {
        if latest.Some? {
          r := Some(Ok(latest.value));
          latest := None;
          return;
        }
        if closed {
          return Some(Err(Closed.Closed));
        }
        if k == |others| {
          return None;
        }
        assert others[k..][1..] == others[k + 1..];
        Sleep(others[k]);
        k := k + 1;
      }
    }

    method Sleep(meanwhile: seq<Other<T>>)
      modifies this
      ensures (latest, closed) == Meanwhile(old(latest), old(closed), meanwhile)
    {
      for i := 0 to |meanwhile|
        invariant Meanwhile(latest, closed, meanwhile[i..]) == Meanwhile(old(latest), old(closed), meanwhile)
      {
        assert meanwhile[i..][1..] == meanwhile[i + 1..];
        match meanwhile[i] {
          case Sends(value) =>
            if !closed {
              latest := Some(value);
            }
          case Closes =>
            closed := true;
        }
      }
    }
  }

  function Meanwhile<T>(latest: Option<T>, closed: bool, others: seq<Other<T>>): (Option<T>, bool)
    decreases |others|
  {
    if others == [] then (latest, closed) else
    match others[0]
    case Sends(value) => Meanwhile(if closed then latest else Some(value), closed, others[1..])
    case Closes => Meanwhile(latest, true, others[1..])
  }

  function Awaited<T>(latest: Option<T>, closed: bool, others: seq<seq<Other<T>>>)
    : (Option<T>, bool, Option<Result<T, Closed>>)
    decreases |others|
  {
    if latest.Some? then (None, closed, Some(Ok(latest.value)))
    else if closed then (None, true, Some(Err(Closed.Closed)))
    else if others == [] then (None, false, None)
    else
      var (sent, shut) := Meanwhile(latest, closed, others[0]);
      Awaited(sent, shut, others[1..])
  }

  /** The blocking take as machine steps: a pass of its loop, then everything the sending side did in
      the sleep, then the next pass. */
  function StepsOf<T>(others: seq<Other<T>>): seq<Step<T>> {
    seq(|others|, i requires 0 <= i < |others| =>
      match others[i] case Sends(value) => Step.Send(value) case Closes => Step.Close)
  }

  lemma {:induction false} MeanwhileRuns<T>(cell: Cell<T>, others: seq<Other<T>>)
    ensures var after := Run(cell, StepsOf(others));
            (after.latest, after.closed) == Meanwhile(cell.latest, cell.closed, others)
    decreases |others|
  {
    if others != [] {
      assert StepsOf(others)[1..] == StepsOf(others[1..]);
      MeanwhileRuns(Next(cell, StepsOf(others)[0]), others[1..]);
    }
  }

  /** The machine run of a blocking take. */
  function TakeSteps<T>(cell: Cell<T>, others: seq<seq<Other<T>>>): seq<Step<T>>
    decreases |others|
  {
    if Offered(cell) != Empty || others == [] then [Step.Take] else
      var asleep := Next(cell, Step.Take);
      [Step.Take] + StepsOf(others[0]) + TakeSteps(Run(asleep, StepsOf(others[0])), others[1..])
  }

  lemma {:induction false} RunSplits<T>(cell: Cell<T>, first: seq<Step<T>>, second: seq<Step<T>>)
    ensures Run(cell, first + second) == Run(Run(cell, first), second)
    decreases |first|
  {
    if first == [] {
      assert first + second == second;
    } else {
      assert (first + second)[1..] == first[1..] + second;
      RunSplits(Next(cell, first[0]), first[1..], second);
    }
  }

  /** The blocking take is such a run: it ends awake with the newest untaken send or with the cell
      found closed, or asleep with nothing to take. */
  lemma {:induction false} WaitTakeIsARun<T>(cell: Cell<T>, others: seq<seq<Other<T>>>)
    requires Coherent(cell)
    ensures
      var after := Run(cell, TakeSteps(cell, others));
      var (latest, closed, r) := Awaited(cell.latest, cell.closed, others);
      && after.latest == latest && after.closed == closed && Coherent(after)
      && (r.None? ==> after.receiver == Asleep(false) && after.taken == cell.taken)
      && (r.Some? ==> after.receiver == Awake)
      && (r.Some? && r.value.Ok? ==>
            && after.taken == cell.taken + [|after.sent| - 1] && after.sent[|after.sent| - 1] == r.value.value)
      && (r.Some? && r.value.Err? ==> after.closed && after.taken == cell.taken && LastTaken(after) == |after.sent| - 1)
    decreases |others|
  {
    StepIsCoherent(cell, Step.Take);
    assert [Step<T>.Take][1..] == [];
    if Offered(cell) == Empty && others != [] {
      var asleep := Next(cell, Step.Take);
      var steps := StepsOf(others[0]);
      var woken := Run(asleep, steps);
      MeanwhileRuns(asleep, others[0]);
      RunIsCoherent(asleep, steps);
      OthersTakeNothing(asleep, others[0]);
      WaitTakeIsARun(woken, others[1..]);
      TakeStepsSplit(cell, others);
    }
  }

  lemma TakeStepsSplit<T>(cell: Cell<T>, others: seq<seq<Other<T>>>)
    requires Offered(cell) == Empty && others != []
    ensures var woken := Run(Next(cell, Step.Take), StepsOf(others[0]));
            Run(cell, TakeSteps(cell, others)) == Run(woken, TakeSteps(woken, others[1..]))
  {
    var asleep := Next(cell, Step.Take);
    var steps := StepsOf(others[0]);
    var rest := TakeSteps(Run(asleep, steps), others[1..]);
    assert [Step<T>.Take] + steps + rest == [Step.Take] + (steps + rest);
    assert [Step<T>.Take][1..] == [];
    RunSplits(cell, [Step.Take], steps + rest);
    RunSplits(asleep, steps, rest);
  }

  lemma {:induction false} OthersTakeNothing<T>(cell: Cell<T>, others: seq<Other<T>>)
    ensures Run(cell, StepsOf(others)).taken == cell.taken
    decreases |others|
  {
    if others != [] {
      assert StepsOf(others)[1..] == StepsOf(others[1..]);
      OthersTakeNothing(Next(cell, StepsOf(others)[0]), others[1..]);
    }
  }
}
