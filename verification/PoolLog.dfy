/** Folding a pool's ordered log events into its post-run state. */
module PoolLogs {
  import opened Domain
  import opened Wire

  /** Absolute snapshots, and liquidity deltas that count only while the tick is in their range. */
  datatype PoolLogEvent =
    | Initialize(sqrtPriceX96: nat, tick: int)
    | Swap(sqrtPriceX96: nat, tick: int, liquidity: U128)
    | Mint(tickLower: int, tickUpper: int, amount: U128)
    | Burn(tickLower: int, tickUpper: int, amount: U128)

  function CheckedAdd(a: U128, b: U128): Option<U128> {
    if a + b <= U128_MAX then Some(a + b) else None
  }

  function CheckedSub(a: U128, b: U128): Option<U128> {
    if b <= a then Some(a - b) else None
  }

  function ApplyLiquidityDelta(current: PoolState, tickLower: int, tickUpper: int, delta: U128 -> Option<U128>): Option<PoolState> {
    if tickLower <= current.tick < tickUpper then
      match delta(current.liquidity)
      case Some(liquidity) => Some(current.(liquidity := liquidity))
      case None => None
    else Some(current)
  }

  // ---- The closed form ----

  predicate IsAbsolute(event: PoolLogEvent) {
    event.Initialize? || event.Swap?
  }

  function SnapshotOf(event: PoolLogEvent): PoolState
    requires IsAbsolute(event)
  {
    PoolState(event.sqrtPriceX96, event.tick, if event.Swap? then event.liquidity else 0)
  }

  /** What a delta adds at a tick. */
  function Change(event: PoolLogEvent, tick: int): int {
    if IsAbsolute(event) || !(event.tickLower <= tick < event.tickUpper) then 0
    else if event.Mint? then event.amount else 0 - event.amount
  }

  /** The last absolute event's snapshot, or the base when there is none. */
  function Anchor(base: Option<PoolState>, events: seq<PoolLogEvent>): Option<PoolState> {
    if events == [] then base
    else if IsAbsolute(events[|events| - 1]) then Some(SnapshotOf(events[|events| - 1]))
    else Anchor(base, events[..|events| - 1])
  }

  /** The unbounded running liquidity. */
  function Running(base: Option<PoolState>, events: seq<PoolLogEvent>): int
    requires Anchor(base, events).Some?
  {
    if events == [] then base.value.liquidity
    else
      var last := events[|events| - 1];
      if IsAbsolute(last) then SnapshotOf(last).liquidity
      else Running(base, events[..|events| - 1]) + Change(last, Anchor(base, events).value.tick)
  }

  predicate InRange(base: Option<PoolState>, events: seq<PoolLogEvent>) {
    Anchor(base, events).Some? ==> 0 <= Running(base, events) <= U128_MAX
  }

  /** No running liquidity of the run leaves a 128-bit word, in any segment. */
  ghost predicate StaysInRange(base: Option<PoolState>, events: seq<PoolLogEvent>) {
    forall n | 0 <= n <= |events| :: InRange(base, events[..n])
  }

  ghost function Derived(base: Option<PoolState>, events: seq<PoolLogEvent>): Option<PoolState> {
    if Anchor(base, events).Some? && StaysInRange(base, events) then
      assert events[..|events|] == events;
      assert InRange(base, events[..|events|]);
      Some(Anchor(base, events).value.(liquidity := Running(base, events)))
    else None
  }

  /** The delta of an event, as a checked operation on the running liquidity. */
  function Delta(event: PoolLogEvent): U128 -> Option<U128>
    requires !IsAbsolute(event)
  {
    if event.Mint? then l => CheckedAdd(l, event.amount) else l => CheckedSub(l, event.amount)
  }

  /** The fold's step agrees with the closed form. */
  lemma FoldStep(base: Option<PoolState>, events: seq<PoolLogEvent>, event: PoolLogEvent)
    requires StaysInRange(base, events)
    ensures
      var running, after := Derived(base, events), Derived(base, events + [event]);
      && (IsAbsolute(event) ==> after == Some(SnapshotOf(event)) && StaysInRange(base, events + [event]))
      && (!IsAbsolute(event) && running.None? ==> after == None && StaysInRange(base, events + [event]))
      && (!IsAbsolute(event) && running.Some? ==>
            && after == ApplyLiquidityDelta(running.value, event.tickLower, event.tickUpper, Delta(event))
            && (after.Some? <==> StaysInRange(base, events + [event])))
  {
    OneMoreEvent(base, events, event);
  }

  /** The fold is defined exactly when the run is seeded, by the base or an absolute event, and no
      running liquidity overflows, and then it is the closed form. */
  method DerivePoolState(base: Option<PoolState>, ordered: seq<PoolLogEvent>) returns (r: Option<PoolState>)
    ensures r == Derived(base, ordered)
  {
    var running := base;
    for i := 0 to |ordered|
      invariant StaysInRange(base, ordered[..i])
      invariant running == Derived(base, ordered[..i])
    {
      var event := ordered[i];
      assert ordered[..i + 1] == ordered[..i] + [event];
      FoldStep(base, ordered[..i], event);
      if event.Swap? {
        running := Some(PoolState(event.sqrtPriceX96, event.tick, event.liquidity));
      } else if event.Initialize? {
        running := Some(PoolState(event.sqrtPriceX96, event.tick, 0));
      } else if running.Some? {
        running := ApplyLiquidityDelta(running.value, event.tickLower, event.tickUpper, Delta(event));
        if running.None? {
          OverflowPersists(base, ordered, i + 1);
          return None;
        }
      }
    }
    assert ordered[..|ordered|] == ordered;
    return running;
  }

  /** How one more event moves anchor, running liquidity and range. */
  lemma OneMoreEvent(base: Option<PoolState>, events: seq<PoolLogEvent>, event: PoolLogEvent)
    ensures
      var longer := events + [event];
      && Anchor(base, longer) == (if IsAbsolute(event) then Some(SnapshotOf(event)) else Anchor(base, events))
      && (Anchor(base, longer).Some? ==>
            Running(base, longer) == if IsAbsolute(event) then SnapshotOf(event).liquidity
                                     else Running(base, events) + Change(event, Anchor(base, events).value.tick))
      && (StaysInRange(base, longer) <==> StaysInRange(base, events) && InRange(base, longer))
  {
    var longer := events + [event];
    assert longer[..|events|] == events;
    RangeExtends(base, longer);
  }

  lemma RangeExtends(base: Option<PoolState>, events: seq<PoolLogEvent>)
    requires events != []
    ensures StaysInRange(base, events) <==> StaysInRange(base, events[..|events| - 1]) && InRange(base, events)
  {
    var before := events[..|events| - 1];
    assert events[..|events|] == events;
    assert forall n | 0 <= n < |events| :: events[..n] == before[..n];
  }

  lemma OverflowPersists(base: Option<PoolState>, events: seq<PoolLogEvent>, n: nat)
    requires n <= |events| && !StaysInRange(base, events[..n])
    ensures !StaysInRange(base, events)
  {
    var k :| 0 <= k <= n && !InRange(base, events[..n][..k]);
    assert events[..n][..k] == events[..k];
  }

  // ---- What the closed form says ----

  function MintsAt(events: seq<PoolLogEvent>, tick: int): nat {
    if events == [] then 0 else
      var last := events[|events| - 1];
      MintsAt(events[..|events| - 1], tick) + if last.Mint? && last.tickLower <= tick < last.tickUpper then last.amount else 0
  }

  function BurnsAt(events: seq<PoolLogEvent>, tick: int): nat {
    if events == [] then 0 else
      var last := events[|events| - 1];
      BurnsAt(events[..|events| - 1], tick) + if last.Burn? && last.tickLower <= tick < last.tickUpper then last.amount else 0
  }

  predicate OnlyDeltas(events: seq<PoolLogEvent>) {
    forall event <- events :: !IsAbsolute(event)
  }

  /** After an anchor, the running liquidity is the anchor's plus in-range mints minus in-range burns. */
  lemma {:induction false} RunningSinceAnchor(base: Option<PoolState>, events: seq<PoolLogEvent>, deltas: seq<PoolLogEvent>)
    requires OnlyDeltas(deltas)
    ensures Anchor(base, events + deltas) == Anchor(base, events)
    ensures Anchor(base, events).Some? ==>
      var tick := Anchor(base, events).value.tick;
      Running(base, events + deltas) == Running(base, events) + MintsAt(deltas, tick) - BurnsAt(deltas, tick)
  {
    if deltas == [] {
      assert events + deltas == events;
    } else {
      var last := |deltas| - 1;
      assert deltas[last] in deltas;
      RunningSinceAnchor(base, events, deltas[..last]);
      OneMoreEvent(base, events + deltas[..last], deltas[last]);
      assert events + deltas == events + deltas[..last] + [deltas[last]];
    }
  }

  /** Every running liquidity of a stretch of deltas, started from the given one, fits 128 bits. */
  ghost predicate FitsThroughout(liquidity: int, deltas: seq<PoolLogEvent>, tick: int) {
    forall n | 0 <= n <= |deltas| ::
      0 <= liquidity + MintsAt(deltas[..n], tick) - BurnsAt(deltas[..n], tick) <= U128_MAX
  }

  lemma {:induction false} StretchInRange(base: Option<PoolState>, events: seq<PoolLogEvent>, deltas: seq<PoolLogEvent>)
    requires OnlyDeltas(deltas) && Derived(base, events).Some?
    ensures StaysInRange(base, events + deltas) <==>
            FitsThroughout(Derived(base, events).value.liquidity, deltas, Derived(base, events).value.tick)
    decreases |deltas|
  {
    var state := Derived(base, events).value;
    if deltas == [] {
      assert events + deltas == events;
      assert deltas[..0] == [];
    } else {
      var last := |deltas| - 1;
      StretchInRange(base, events, deltas[..last]);
      RunningSinceAnchor(base, events, deltas);
      RangeExtends(base, events + deltas);
      assert (events + deltas)[..|events + deltas| - 1] == events + deltas[..last];
      assert deltas[..|deltas|] == deltas;
      assert forall n | 0 <= n <= last :: deltas[..last][..n] == deltas[..n];
    }
  }

  /** From a known state a stretch of mints and burns derives exactly when no running liquidity leaves 128
      bits, and then only the liquidity moves, by the in-range mints less the in-range burns; from no state
      it derives nothing. */
  lemma DeltasDeriveExactly(base: Option<PoolState>, deltas: seq<PoolLogEvent>)
    requires OnlyDeltas(deltas)
    ensures base.None? ==> Derived(base, deltas).None?
    ensures base.Some? ==>
      var state := base.value;
      && (Derived(base, deltas).Some? <==> FitsThroughout(state.liquidity, deltas, state.tick))
      && (Derived(base, deltas).Some? ==>
            && Derived(base, deltas).value.sqrtPriceX96 == state.sqrtPriceX96 && Derived(base, deltas).value.tick == state.tick
            && Derived(base, deltas).value.liquidity == state.liquidity + MintsAt(deltas, state.tick) - BurnsAt(deltas, state.tick))
  {
    RunningSinceAnchor(base, [], deltas);
    assert [] + deltas == deltas;
    if base.Some? {
      assert StaysInRange(base, []) by {
        var none: seq<PoolLogEvent> := [];
        assert forall n | 0 <= n <= 0 :: none[..n] == none;
      }
      assert Derived(base, []) == base;
      StretchInRange(base, [], deltas);
    }
  }

  /** A run that ends in an absolute event and deltas derives exactly when what came before it stayed in
      range and so does what comes after, and then to that event's own price and tick, with the liquidity a
      swap states, or none for an initialisation, plus the in-range mints less the in-range burns after it. */
  lemma DerivesFromLastAbsolute(base: Option<PoolState>, events: seq<PoolLogEvent>, absolute: PoolLogEvent, deltas: seq<PoolLogEvent>)
    requires IsAbsolute(absolute) && OnlyDeltas(deltas)
    ensures
      var r := Derived(base, events + [absolute] + deltas);
      var stated := if absolute.Swap? then absolute.liquidity else 0;
      && (r.Some? <==> StaysInRange(base, events) && FitsThroughout(stated, deltas, absolute.tick))
      && (r.Some? ==>
            && r.value.sqrtPriceX96 == absolute.sqrtPriceX96 && r.value.tick == absolute.tick
            && r.value.liquidity == stated + MintsAt(deltas, absolute.tick) - BurnsAt(deltas, absolute.tick))
  {
    OneMoreEvent(base, events, absolute);
    RunningSinceAnchor(base, events + [absolute], deltas);
    if StaysInRange(base, events) {
      StretchInRange(base, events + [absolute], deltas);
    } else {
      var whole := events + [absolute] + deltas;
      assert whole[..|events|] == events;
      OverflowPersists(base, whole, |events|);
    }
  }

  lemma {:induction false} UnseededAnchor(deltas: seq<PoolLogEvent>, events: seq<PoolLogEvent>)
    requires OnlyDeltas(deltas)
    ensures Anchor(None, deltas + events) == Anchor(None, events)
    ensures Anchor(None, events).Some? ==> Running(None, deltas + events) == Running(None, events)
  {
    if events == [] {
      RunningSinceAnchor(None, [], deltas);
      assert [] + deltas == deltas + [];
    } else {
      var last := |events| - 1;
      UnseededAnchor(deltas, events[..last]);
      OneMoreEvent(None, deltas + events[..last], events[last]);
      OneMoreEvent(None, events[..last], events[last]);
      assert deltas + events == deltas + events[..last] + [events[last]];
      assert events == events[..last] + [events[last]];
    }
  }

  lemma {:induction false} UnseededRange(deltas: seq<PoolLogEvent>, events: seq<PoolLogEvent>)
    requires OnlyDeltas(deltas)
    ensures StaysInRange(None, deltas + events) <==> StaysInRange(None, events)
  {
    if events == [] {
      assert deltas + events == deltas;
      forall n | 0 <= n <= |deltas| ensures InRange(None, deltas[..n]) {
        RunningSinceAnchor(None, [], deltas[..n]);
        assert [] + deltas[..n] == deltas[..n];
      }
    } else {
      var last := |events| - 1;
      UnseededRange(deltas, events[..last]);
      UnseededAnchor(deltas, events);
      RangeExtends(None, events);
      RangeExtends(None, deltas + events);
      assert (deltas + events)[..|deltas + events| - 1] == deltas + events[..last];
    }
  }

  /** With no base, whatever deltas come before the first absolute event are irrelevant. */
  lemma UnseededDeltasAreIrrelevant(deltas: seq<PoolLogEvent>, events: seq<PoolLogEvent>)
    requires OnlyDeltas(deltas)
    ensures Derived(None, deltas + events) == Derived(None, events)
  {
    UnseededAnchor(deltas, events);
    UnseededRange(deltas, events);
  }

  lemma {:induction false} ResumedAnchor(base: Option<PoolState>, first: seq<PoolLogEvent>, second: seq<PoolLogEvent>)
    requires Derived(base, first).Some?
    ensures var middle := Derived(base, first);
            && Anchor(base, first + second).Some? && Anchor(middle, second).Some?
            && Running(base, first + second) == Running(middle, second)
            && Anchor(base, first + second).value.(liquidity := 0) == Anchor(middle, second).value.(liquidity := 0)
  {
    if second == [] {
      assert first + second == first;
    } else {
      var last := |second| - 1;
      var middle := Derived(base, first);
      ResumedAnchor(base, first, second[..last]);
      OneMoreEvent(base, first + second[..last], second[last]);
      OneMoreEvent(middle, second[..last], second[last]);
      assert first + second == first + second[..last] + [second[last]];
      assert second == second[..last] + [second[last]];
    }
  }

  lemma {:induction false} ResumedRange(base: Option<PoolState>, first: seq<PoolLogEvent>, second: seq<PoolLogEvent>)
    requires Derived(base, first).Some?
    ensures StaysInRange(base, first + second) <==> StaysInRange(Derived(base, first), second)
  {
    var middle := Derived(base, first);
    if second == [] {
      assert first + second == first;
    } else {
      var last := |second| - 1;
      ResumedRange(base, first, second[..last]);
      ResumedAnchor(base, first, second);
      RangeExtends(base, first + second);
      RangeExtends(middle, second);
      assert (first + second)[..|first + second| - 1] == first + second[..last];
    }
  }

  /** Folding in two pieces is folding at once: the state after the first run is all the second needs. */
  lemma FoldsInPieces(base: Option<PoolState>, first: seq<PoolLogEvent>, second: seq<PoolLogEvent>)
    requires Derived(base, first).Some?
    ensures Derived(base, first + second) == Derived(Derived(base, first), second)
  {
    ResumedAnchor(base, first, second);
    ResumedRange(base, first, second);
  }
}
