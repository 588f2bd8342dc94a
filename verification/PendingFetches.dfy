/** The fetch-request ledger: at most one request of each kind in flight, correlated by id. */
module Ledgers {
  import opened Domain

  datatype FetchKind = Meta | Health | Slice

  type FetchId = nat

  /** Ticks a request may be outstanding before it is issued again. */
  const FETCH_TTL_TICKS: nat := 10

  datatype Slot = Slot(id: FetchId, dispatchedAt: nat)

  /** The ledger's value. */
  datatype Ledger = Ledger(nextId: FetchId, now: nat, meta: Option<Slot>, slice: Option<Slot>, health: Option<Slot>)
  {
    function SlotOf(kind: FetchKind): Option<Slot> {
      match kind
      case Meta => meta
      case Health => health
      case Slice => slice
    }

    function WithSlot(kind: FetchKind, slot: Option<Slot>): Ledger {
      match kind
      case Meta => this.(meta := slot)
      case Health => this.(health := slot)
      case Slice => this.(slice := slot)
    }

    predicate IsFresh(kind: FetchKind) {
      SlotOf(kind).Some? && now - SlotOf(kind).value.dispatchedAt < FETCH_TTL_TICKS
    }

    predicate Minted(slot: Option<Slot>) {
      slot.Some? ==> slot.value.id < nextId && slot.value.dispatchedAt <= now
    }

    /** Every recorded request was minted and dispatched already, and no id is recorded twice. */
    predicate Valid() {
      && Minted(meta) && Minted(slice) && Minted(health)
      && Differ(meta, slice) && Differ(meta, health) && Differ(slice, health)
    }
  }

  predicate Differ(a: Option<Slot>, b: Option<Slot>) {
    a.Some? && b.Some? ==> a.value.id != b.value.id
  }

  const EMPTY := Ledger(0, 0, None, None, None)

  function Advance(l: Ledger): Ledger {
    l.(now := l.now + 1)
  }

  function Ensure(l: Ledger, kind: FetchKind): (Ledger, Option<FetchId>) {
    if l.IsFresh(kind) then (l, None)
    else (l.(nextId := l.nextId + 1).WithSlot(kind, Some(Slot(l.nextId, l.now))), Some(l.nextId))
  }

  function Accept(l: Ledger, kind: FetchKind, id: FetchId): (Ledger, bool) {
    if l.SlotOf(kind).Some? && l.SlotOf(kind).value.id == id then (l.WithSlot(kind, None), true) else (l, false)
  }

  class PendingFetches {
    var nextId: FetchId
    var now: nat
    var meta: Option<Slot>
    var slice: Option<Slot>
    var health: Option<Slot>

    constructor ()
      ensures View() == EMPTY
    {
      nextId, now := 0, 0;
      meta, slice, health := None, None, None;
    }

    ghost function View(): Ledger
      reads this
    {
      Ledger(nextId, now, meta, slice, health)
    }

    /** One tick of the clock. */
    method AdvanceClock()
      modifies this`now
      ensures View() == Advance(old(View()))
    {
      now := now + 1;
    }

    /** Issues a request of `kind` unless a fresh one is already outstanding. */
    method EnsureInFlight(kind: FetchKind) returns (issued: Option<FetchId>)
      modifies this
      ensures (View(), issued) == Ensure(old(View()), kind)
    {
      var outstanding := IsFresh(kind);
      if outstanding {
        return None;
      }
      var id := nextId;
      nextId := nextId + 1;
      SetSlot(kind, Some(Slot(id, now)));
      return Some(id);
    }

    /** Takes the slot of `kind` if it still holds exactly `id`. */
    method AcceptResponse(kind: FetchKind, id: FetchId) returns (accepted: bool)
      modifies this
      ensures (View(), accepted) == Accept(old(View()), kind, id)
    {
      var slot := SlotOf(kind);
      accepted := slot.Some? && slot.value.id == id;
      if accepted {
        SetSlot(kind, None);
      }
    }

    method IsFresh(kind: FetchKind) returns (r: bool)
      ensures r == View().IsFresh(kind)
    {
      var slot := SlotOf(kind);
      r := slot.Some? && now - slot.value.dispatchedAt < FETCH_TTL_TICKS;
    }

    method SlotOf(kind: FetchKind) returns (slot: Option<Slot>)
      ensures slot == View().SlotOf(kind)
    {
      match kind {
        case Meta => slot := meta;
        case Health => slot := health;
        case Slice => slot := slice;
      }
    }

    method SetSlot(kind: FetchKind, slot: Option<Slot>)
      modifies this
      ensures View() == old(View()).WithSlot(kind, slot)
    {
      match kind {
        case Meta => meta := slot;
        case Health => health := slot;
        case Slice => slice := slot;
      }
    }
  }

  // ---- Runs ----

  datatype Op = EnsureOp(kind: FetchKind) | AcceptOp(kind: FetchKind, id: FetchId) | AdvanceOp

  function Apply(l: Ledger, op: Op): Ledger {
    match op
    case EnsureOp(kind) => Ensure(l, kind).0
    case AcceptOp(kind, id) => Accept(l, kind, id).0
    case AdvanceOp => Advance(l)
  }

  function Run(l: Ledger, ops: seq<Op>): Ledger
    decreases |ops|
  {
    if ops == [] then l else Run(Apply(l, ops[0]), ops[1..])
  }

  lemma ApplyKeepsValid(l: Ledger, op: Op)
    requires l.Valid()
    ensures Apply(l, op).Valid()
  {
  }

  /** The ids issued over a run, of one kind. */
  function Issued(l: Ledger, ops: seq<Op>, kind: FetchKind): seq<FetchId>
    decreases |ops|
  {
    if ops == [] then [] else
      (if ops[0] == EnsureOp(kind) && !l.IsFresh(kind) then [l.nextId] else []) + Issued(Apply(l, ops[0]), ops[1..], kind)
  }

  predicate Accepts(l: Ledger, op: Op) {
    op.AcceptOp? && Accept(l, op.kind, op.id).1
  }

  datatype Acceptance = Acceptance(kind: FetchKind, id: FetchId)

  /** Every acceptance of a run, in order. */
  function Accepted(l: Ledger, ops: seq<Op>): seq<Acceptance>
    decreases |ops|
  {
    if ops == [] then [] else
      (if Accepts(l, ops[0]) then [Acceptance(ops[0].kind, ops[0].id)] else []) + Accepted(Apply(l, ops[0]), ops[1..])
  }

  lemma AcceptedSplits(l: Ledger, ops: seq<Op>)
    requires ops != []
    ensures var rest := Accepted(Apply(l, ops[0]), ops[1..]);
            Accepted(l, ops) == if Accepts(l, ops[0]) then [Acceptance(ops[0].kind, ops[0].id)] + rest else rest
  {
  }

  predicate NotYetAccepted(l: Ledger, a: Acceptance) {
    l.nextId <= a.id || (l.SlotOf(a.kind).Some? && l.SlotOf(a.kind).value.id == a.id)
  }

  /** What may still be accepted after a step could be accepted before it, and is neither the id the
      step accepted nor, for the same kind, an older one. */
  lemma StepNarrows(l: Ledger, op: Op, a: Acceptance)
    requires l.Valid() && NotYetAccepted(Apply(l, op), a)
    ensures NotYetAccepted(l, a)
    ensures Accepts(l, op) ==> a.id != op.id && (a.kind == op.kind ==> op.id < a.id)
  {
  }

  lemma {:induction false} AcceptedWereOutstanding(l: Ledger, ops: seq<Op>)
    requires l.Valid()
    ensures forall a <- Accepted(l, ops) :: NotYetAccepted(l, a)
    decreases |ops|
  {
    if ops != [] {
      var after := Apply(l, ops[0]);
      ApplyKeepsValid(l, ops[0]);
      AcceptedWereOutstanding(after, ops[1..]);
      AcceptedSplits(l, ops);
      forall a | a in Accepted(after, ops[1..]) ensures NotYetAccepted(l, a) {
        StepNarrows(l, ops[0], a);
      }
    }
  }

  predicate NoRepeats(accepted: seq<Acceptance>) {
    forall i, j | 0 <= i < j < |accepted| :: accepted[i].id != accepted[j].id
  }

  /** No id is ever accepted twice, by the same kind or by another. */
  lemma {:induction false} NoIdAcceptedTwice(l: Ledger, ops: seq<Op>)
    requires l.Valid()
    ensures NoRepeats(Accepted(l, ops))
    decreases |ops|
  {
    if ops != [] {
      var after := Apply(l, ops[0]);
      var rest := Accepted(after, ops[1..]);
      ApplyKeepsValid(l, ops[0]);
      NoIdAcceptedTwice(after, ops[1..]);
      AcceptedWereOutstanding(after, ops[1..]);
      AcceptedSplits(l, ops);
      forall j | 0 <= j < |rest| && Accepts(l, ops[0]) ensures rest[j].id != ops[0].id {
        StepNarrows(l, ops[0], rest[j]);
      }
    }
  }

  predicate NewerEachTime(accepted: seq<Acceptance>) {
    forall i, j | 0 <= i < j < |accepted| && accepted[i].kind == accepted[j].kind :: accepted[i].id < accepted[j].id
  }

  /** Of one kind, each acceptance answers a request issued later than any answered before: a
      superseded response can never be applied after its successor. */
  lemma {:induction false} AcceptedIdsIncrease(l: Ledger, ops: seq<Op>)
    requires l.Valid()
    ensures NewerEachTime(Accepted(l, ops))
    decreases |ops|
  {
    if ops != [] {
      var after := Apply(l, ops[0]);
      var rest := Accepted(after, ops[1..]);
      ApplyKeepsValid(l, ops[0]);
      AcceptedIdsIncrease(after, ops[1..]);
      AcceptedWereOutstanding(after, ops[1..]);
      AcceptedSplits(l, ops);
      forall j | 0 <= j < |rest| && Accepts(l, ops[0]) && rest[j].kind == ops[0].kind ensures ops[0].id < rest[j].id {
        StepNarrows(l, ops[0], rest[j]);
      }
    }
  }

  predicate Increasing(ids: seq<FetchId>) {
    forall i, j | 0 <= i < j < |ids| :: ids[i] < ids[j]
  }

  lemma ApplyMints(l: Ledger, op: Op)
    ensures Apply(l, op).nextId == l.nextId + if op.EnsureOp? && !l.IsFresh(op.kind) then 1 else 0
  {
  }

  /** Ids are minted in increasing order, so accepting increasing ids is accepting newer requests. */
  lemma {:induction false} IssuedIdsIncrease(l: Ledger, ops: seq<Op>, kind: FetchKind)
    ensures forall id <- Issued(l, ops, kind) :: l.nextId <= id
    ensures Increasing(Issued(l, ops, kind))
    decreases |ops|
  {
    if ops != [] {
      var rest := Issued(Apply(l, ops[0]), ops[1..], kind);
      IssuedIdsIncrease(Apply(l, ops[0]), ops[1..], kind);
      ApplyMints(l, ops[0]);
      if ops[0] == EnsureOp(kind) && !l.IsFresh(kind) {
        assert Issued(l, ops, kind) == [l.nextId] + rest;
        assert forall j | 0 <= j < |rest| :: rest[j] in rest;
      } else {
        assert Issued(l, ops, kind) == rest;
      }
    }
  }

  /** Only what was issued is accepted: an acceptance answers an id issued earlier for its kind. */
  lemma {:induction false} AcceptedWereIssued(l: Ledger, ops: seq<Op>, a: Acceptance)
    requires a in Accepted(l, ops)
    ensures a.id in Issued(l, ops, a.kind) || (l.SlotOf(a.kind).Some? && l.SlotOf(a.kind).value.id == a.id)
    decreases |ops|
  {
    if !Accepts(l, ops[0]) || a != Acceptance(ops[0].kind, ops[0].id) {
      AcceptedWereIssued(Apply(l, ops[0]), ops[1..], a);
    }
  }

  // ---- The retry clock ----

  function Advances(ops: seq<Op>): nat {
    if ops == [] then 0 else (if ops[0] == AdvanceOp then 1 else 0) + Advances(ops[1..])
  }

  ghost predicate AcceptsNone(l: Ledger, ops: seq<Op>, kind: FetchKind) {
    forall a <- Accepted(l, ops) :: a.kind != kind
  }

  /** A step that does not accept a kind's request leaves one outstanding, no older than before. */
  lemma StepLeavesOutstanding(l: Ledger, op: Op, kind: FetchKind)
    requires l.Valid() && l.SlotOf(kind).Some?
    requires !(Accepts(l, op) && op.kind == kind)
    ensures var after := Apply(l, op);
            && after.Valid() && after.now == l.now + (if op.AdvanceOp? then 1 else 0)
            && after.SlotOf(kind).Some?
            && l.SlotOf(kind).value.dispatchedAt <= after.SlotOf(kind).value.dispatchedAt
            && ((op == EnsureOp(kind) && !l.IsFresh(kind)) || after.SlotOf(kind) == l.SlotOf(kind))
  {
    ApplyKeepsValid(l, op);
    match op {
      case AdvanceOp =>
      case EnsureOp(other) =>
        assert l.SlotOf(kind).value.dispatchedAt <= l.now;
        assert other != kind ==> Apply(l, op).SlotOf(kind) == l.SlotOf(kind);
      case AcceptOp(other, _) =>
        assert other != kind ==> Apply(l, op).SlotOf(kind) == l.SlotOf(kind);
    }
  }

  lemma {:induction false} OutstandingUntilAccepted(l: Ledger, ops: seq<Op>, kind: FetchKind)
    requires l.Valid() && l.SlotOf(kind).Some? && AcceptsNone(l, ops, kind)
    ensures Run(l, ops).Valid() && Run(l, ops).now == l.now + Advances(ops)
    ensures Run(l, ops).SlotOf(kind).Some?
    ensures l.SlotOf(kind).value.dispatchedAt <= Run(l, ops).SlotOf(kind).value.dispatchedAt
    ensures Issued(l, ops, kind) == [] ==> Run(l, ops).SlotOf(kind) == l.SlotOf(kind)
    decreases |ops|
  {
    if ops != [] {
      AcceptedSplits(l, ops);
      assert Accepts(l, ops[0]) ==> Accepted(l, ops)[0] in Accepted(l, ops);
      StepLeavesOutstanding(l, ops[0], kind);
      OutstandingUntilAccepted(Apply(l, ops[0]), ops[1..], kind);
    }
  }

  /** After a request of a kind is issued, and until one is accepted, the next is issued no sooner
      than the TTL; and with none issued in between, exactly when the TTL has elapsed. */
  lemma RetriesExactlyAtTheTtl(l: Ledger, ops: seq<Op>, kind: FetchKind)
    requires l.Valid() && Ensure(l, kind).1.Some?
    requires AcceptsNone(Ensure(l, kind).0, ops, kind)
    ensures
      var issued := Ensure(l, kind).0;
      var again := Ensure(Run(issued, ops), kind).1;
      && (again.Some? ==> 10 <= Advances(ops) && Ensure(l, kind).1.value < again.value)
      && (Issued(issued, ops, kind) == [] ==> (again.Some? <==> 10 <= Advances(ops)))
  {
    ApplyKeepsValid(l, EnsureOp(kind));
    var issued := Ensure(l, kind).0;
    OutstandingUntilAccepted(issued, ops, kind);
    NextIdNeverFalls(issued, ops);
  }

  lemma {:induction false} NextIdNeverFalls(l: Ledger, ops: seq<Op>)
    ensures l.nextId <= Run(l, ops).nextId
    decreases |ops|
  {
    if ops != [] {
      NextIdNeverFalls(Apply(l, ops[0]), ops[1..]);
    }
  }

  // ---- Kinds do not interfere ----

  /** What the server's side of a kind can do: be asked, or answer the n-th request ever issued for the
      kind, be it the outstanding one, one superseded since, one answered before, or, to no effect, one
      not issued yet. */
  datatype NamedOp = Request(kind: FetchKind) | Respond(kind: FetchKind, nth: nat) | Tick

  /** A ledger with the ids it issued for each kind, in order. */
  datatype Client = Client(ledger: Ledger, meta: seq<FetchId>, slice: seq<FetchId>, health: seq<FetchId>)
  {
    function IdsOf(kind: FetchKind): seq<FetchId> {
      match kind
      case Meta => meta
      case Health => health
      case Slice => slice
    }

    function Issuing(kind: FetchKind, id: FetchId): Client {
      match kind
      case Meta => this.(meta := meta + [id])
      case Health => this.(health := health + [id])
      case Slice => this.(slice := slice + [id])
    }
  }

  const NEW_CLIENT := Client(EMPTY, [], [], [])

  datatype Observation = WasIssued(yes: bool) | WasAccepted(yes: bool)

  /** The ledger operation a named one is, if it is any. */
  function Operation(c: Client, op: NamedOp): Option<Op> {
    match op
    case Request(kind) => Some(EnsureOp(kind))
    case Respond(kind, nth) => if nth < |c.IdsOf(kind)| then Some(AcceptOp(kind, c.IdsOf(kind)[nth])) else None
    case Tick => Some(AdvanceOp)
  }

  function Serve(c: Client, op: NamedOp): Client {
    var operation := Operation(c, op);
    var ledger := if operation.Some? then Apply(c.ledger, operation.value) else c.ledger;
    var client := c.(ledger := ledger);
    if op.Request? && !c.ledger.IsFresh(op.kind) then client.Issuing(op.kind, c.ledger.nextId) else client
  }

  function Observed(c: Client, op: NamedOp): Observation
    requires !op.Tick?
  {
    match op
    case Request(kind) => WasIssued(Ensure(c.ledger, kind).1.Some?)
    case Respond(_, _) => WasAccepted(Operation(c, op).Some? && Accepts(c.ledger, Operation(c, op).value))
  }

  /** What a run does for one kind, ids left out. */
  function Observations(c: Client, ops: seq<NamedOp>, focus: FetchKind): seq<Observation>
    decreases |ops|
  {
    if ops == [] then [] else
      (if !ops[0].Tick? && ops[0].kind == focus then [Observed(c, ops[0])] else [])
      + Observations(Serve(c, ops[0]), ops[1..], focus)
  }

  /** The run with every other kind's traffic deleted; only the clock survives. */
  function Alone(ops: seq<NamedOp>, focus: FetchKind): seq<NamedOp> {
    if ops == [] then [] else
      (if ops[0].Tick? || ops[0].kind == focus then [ops[0]] else []) + Alone(ops[1..], focus)
  }

  /** The ids issued for a kind increase, were minted, and end in the outstanding one, if any is. */
  predicate InOrder(c: Client, focus: FetchKind) {
    var ids, slot := c.IdsOf(focus), c.ledger.SlotOf(focus);
    && Increasing(ids)
    && (forall k | 0 <= k < |ids| :: ids[k] < c.ledger.nextId)
    && (slot.Some? ==> ids != [] && slot.value.id == ids[|ids| - 1])
  }

  /** Two clients a kind cannot tell apart: the same clock, as many requests issued, and its slot as old
      in both. */
  predicate Alike(c: Client, d: Client, focus: FetchKind) {
    && InOrder(c, focus) && InOrder(d, focus)
    && c.ledger.now == d.ledger.now
    && |c.IdsOf(focus)| == |d.IdsOf(focus)|
    && (c.ledger.SlotOf(focus).Some? <==> d.ledger.SlotOf(focus).Some?)
    && (c.ledger.SlotOf(focus).Some? ==> c.ledger.SlotOf(focus).value.dispatchedAt == d.ledger.SlotOf(focus).value.dispatchedAt)
  }

  /** An answer is accepted exactly when it names the request issued last and that one is outstanding. */
  lemma OnlyTheLastIsAccepted(c: Client, focus: FetchKind, nth: nat)
    requires InOrder(c, focus)
    ensures Observed(c, Respond(focus, nth)).yes <==> c.ledger.SlotOf(focus).Some? && nth == |c.IdsOf(focus)| - 1
  {
  }

  lemma RequestKeepsOrder(c: Client, kind: FetchKind, focus: FetchKind)
    requires InOrder(c, focus)
    ensures InOrder(Serve(c, Request(kind)), focus)
  {
    var after := Serve(c, Request(kind));
    if kind != focus {
      assert after.IdsOf(focus) == c.IdsOf(focus) && after.ledger.SlotOf(focus) == c.ledger.SlotOf(focus);
    } else if !c.ledger.IsFresh(kind) {
      assert after.IdsOf(focus) == c.IdsOf(focus) + [c.ledger.nextId];
      assert after.ledger.SlotOf(focus) == Some(Slot(c.ledger.nextId, c.ledger.now));
    }
  }

  lemma RespondKeepsOrder(c: Client, kind: FetchKind, nth: nat, focus: FetchKind)
    requires InOrder(c, focus)
    ensures InOrder(Serve(c, Respond(kind, nth)), focus)
  {
    var after := Serve(c, Respond(kind, nth));
    assert after.IdsOf(focus) == c.IdsOf(focus) && after.ledger.nextId == c.ledger.nextId;
    assert after.ledger.SlotOf(focus).None? || after.ledger.SlotOf(focus) == c.ledger.SlotOf(focus);
  }

  lemma ServeKeepsOrder(c: Client, op: NamedOp, focus: FetchKind)
    requires InOrder(c, focus)
    ensures InOrder(Serve(c, op), focus)
  {
    match op {
      case Request(kind) => RequestKeepsOrder(c, kind, focus);
      case Respond(kind, nth) => RespondKeepsOrder(c, kind, nth, focus);
      case Tick =>
        assert Serve(c, op).IdsOf(focus) == c.IdsOf(focus);
    }
  }

  lemma ServedAlike(c: Client, d: Client, op: NamedOp, focus: FetchKind)
    requires Alike(c, d, focus) && (op.Tick? || op.kind == focus)
    ensures Alike(Serve(c, op), Serve(d, op), focus)
    ensures !op.Tick? ==> Observed(c, op) == Observed(d, op)
  {
    ServeKeepsOrder(c, op, focus);
    ServeKeepsOrder(d, op, focus);
    if op.Respond? {
      OnlyTheLastIsAccepted(c, focus, op.nth);
      OnlyTheLastIsAccepted(d, focus, op.nth);
    }
  }

  lemma OtherKindsPass(c: Client, d: Client, op: NamedOp, focus: FetchKind)
    requires Alike(c, d, focus) && !op.Tick? && op.kind != focus
    ensures Alike(Serve(c, op), d, focus)
  {
    ServeKeepsOrder(c, op, focus);
  }

  lemma {:induction false} KindsRunAlone(c: Client, d: Client, ops: seq<NamedOp>, focus: FetchKind)
    requires Alike(c, d, focus)
    ensures Observations(c, ops, focus) == Observations(d, Alone(ops, focus), focus)
    decreases |ops|
  {
    if ops != [] {
      var alone := Alone(ops[1..], focus);
      if ops[0].Tick? || ops[0].kind == focus {
        assert Alone(ops, focus) == [ops[0]] + alone;
        assert ([ops[0]] + alone)[1..] == alone;
        ServedAlike(c, d, ops[0], focus);
        KindsRunAlone(Serve(c, ops[0]), Serve(d, ops[0]), ops[1..], focus);
      } else {
        assert Alone(ops, focus) == alone;
        OtherKindsPass(c, d, ops[0], focus);
        KindsRunAlone(Serve(c, ops[0]), d, ops[1..], focus);
      }
    }
  }

  /** Deleting every other kind's requests and responses, timely, superseded or repeated, leaves the
      issue and accept outcomes of a kind unchanged. */
  lemma KindsDoNotInterfere(ops: seq<NamedOp>, focus: FetchKind)
    ensures Observations(NEW_CLIENT, ops, focus) == Observations(NEW_CLIENT, Alone(ops, focus), focus)
  {
    KindsRunAlone(NEW_CLIENT, NEW_CLIENT, ops, focus);
  }

  function ServeAll(c: Client, ops: seq<NamedOp>): Client
    decreases |ops|
  {
    if ops == [] then c else ServeAll(Serve(c, ops[0]), ops[1..])
  }

  lemma {:induction false} ServeAllKeepsOrder(c: Client, ops: seq<NamedOp>, focus: FetchKind)
    requires InOrder(c, focus)
    ensures InOrder(ServeAll(c, ops), focus)
    decreases |ops|
  {
    if ops != [] {
      ServeKeepsOrder(c, ops[0], focus);
      ServeAllKeepsOrder(Serve(c, ops[0]), ops[1..], focus);
    }
  }

  /** After any run an answer is accepted if and only if it names the latest request of its kind and
      that is still outstanding: superseded and repeated answers are dropped. */
  lemma OnlyTheLatestAnswerIsAccepted(ops: seq<NamedOp>, kind: FetchKind, nth: nat)
    ensures
      var c := ServeAll(NEW_CLIENT, ops);
      Observed(c, Respond(kind, nth)).yes <==> c.ledger.SlotOf(kind).Some? && nth == |c.IdsOf(kind)| - 1
  {
    ServeAllKeepsOrder(NEW_CLIENT, ops, kind);
    OnlyTheLastIsAccepted(ServeAll(NEW_CLIENT, ops), kind, nth);
  }

  /** Only ids never issued for their own kind tell the kinds apart: id 0 is another kind's in company,
      and misses, but the kind's own alone, and hits. */
  lemma ForgedIdsTellKindsApart()
    ensures Accepted(EMPTY, [EnsureOp(Meta), EnsureOp(Slice), AcceptOp(Slice, 0)]) == []
    ensures Accepted(EMPTY, [EnsureOp(Slice), AcceptOp(Slice, 0)]) == [Acceptance(Slice, 0)]
  {
    var company := [EnsureOp(Meta), EnsureOp(Slice), AcceptOp(Slice, 0)];
    assert company[1..] == [EnsureOp(Slice), AcceptOp(Slice, 0)];
    assert company[1..][1..] == [AcceptOp(Slice, 0)];
    assert [AcceptOp(Slice, 0)][1..] == [];
    assert company[1..][0] == EnsureOp(Slice);
    var both := Apply(Apply(EMPTY, EnsureOp(Meta)), EnsureOp(Slice));
    assert Accepted(both, [AcceptOp(Slice, 0)]) == [];
    assert Accepted(Apply(EMPTY, EnsureOp(Meta)), company[1..]) == [] + Accepted(both, [AcceptOp(Slice, 0)]);
    var alone := Apply(EMPTY, EnsureOp(Slice));
    assert Accepted(alone, [AcceptOp(Slice, 0)]) == [Acceptance(Slice, 0)];
  }
}
