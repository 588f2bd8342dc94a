/** Merging token candidates from several sources, and flagging trusted listings. */
module Vetting {
  import opened Domain

  datatype TokenCandidate = TokenCandidate(
    token: TokenAddress, symbol: Option<string>, decimals: Option<nat>,
    tvlUsd: Option<real>, volumeUsd: Option<real>, trustedListing: bool)

  function Or<T>(first: Option<T>, second: Option<T>): Option<T> {
    if first.Some? then first else second
  }

  /** One candidate absorbing another of the same token: what it lacks, and any trust. */
  function Absorb(existing: TokenCandidate, candidate: TokenCandidate): TokenCandidate {
    TokenCandidate(
      existing.token, Or(existing.symbol, candidate.symbol), Or(existing.decimals, candidate.decimals),
      Or(existing.tvlUsd, candidate.tvlUsd), Or(existing.volumeUsd, candidate.volumeUsd),
      existing.trustedListing || candidate.trustedListing)
  }

  // ---- The specification: one entry per token, read off the whole input ----

  /** The tokens of a list, each at its first occurrence. */
  function Tokens(candidates: seq<TokenCandidate>): (r: seq<TokenAddress>)
    ensures forall t :: t in r <==> exists c <- candidates :: c.token == t
    ensures forall i, j | 0 <= i < j < |r| :: r[i] != r[j]
  {
    if candidates == [] then [] else
      var before, last := Tokens(candidates[..|candidates| - 1]), candidates[|candidates| - 1];
      assert candidates == candidates[..|candidates| - 1] + [last];
      if last.token in before then before else before + [last.token]
  }

  /** The first value present, in input order, among the candidates for a token. */
  function FirstPresent<T>(candidates: seq<TokenCandidate>, token: TokenAddress, field: TokenCandidate -> Option<T>): Option<T> {
    if candidates == [] then None else
      Or(FirstPresent(candidates[..|candidates| - 1], token, field),
         if candidates[|candidates| - 1].token == token then field(candidates[|candidates| - 1]) else None)
  }

  predicate AnyTrusted(candidates: seq<TokenCandidate>, token: TokenAddress) {
    exists c <- candidates :: c.token == token && c.trustedListing
  }

  /** What the merged entry of a token must be. */
  function Combined(candidates: seq<TokenCandidate>, token: TokenAddress): TokenCandidate {
    TokenCandidate(
      token,
      FirstPresent(candidates, token, (c: TokenCandidate) => c.symbol),
      FirstPresent(candidates, token, (c: TokenCandidate) => c.decimals),
      FirstPresent(candidates, token, (c: TokenCandidate) => c.tvlUsd),
      FirstPresent(candidates, token, (c: TokenCandidate) => c.volumeUsd),
      AnyTrusted(candidates, token))
  }

  function Merged(candidates: seq<TokenCandidate>): (r: seq<TokenCandidate>)
    ensures |r| == |Tokens(candidates)|
    ensures forall i | 0 <= i < |r| :: r[i] == Combined(candidates, Tokens(candidates)[i])
  {
    var tokens := Tokens(candidates);
    seq(|tokens|, i requires 0 <= i < |tokens| => Combined(candidates, tokens[i]))
  }

  lemma CombinedAbsorbs(candidates: seq<TokenCandidate>, candidate: TokenCandidate, token: TokenAddress)
    ensures Combined(candidates + [candidate], token)
            == if candidate.token == token then Absorb(Combined(candidates, token), candidate)
               else Combined(candidates, token)
  {
    var longer := candidates + [candidate];
    assert longer[..|candidates|] == candidates;
    assert AnyTrusted(longer, token) <==> AnyTrusted(candidates, token) || (candidate.token == token && candidate.trustedListing) by {
      assert candidate in longer;
      assert forall c <- candidates :: c in longer;
    }
  }

  lemma {:induction false} AbsentCombines(candidates: seq<TokenCandidate>, token: TokenAddress)
    requires forall c <- candidates :: c.token != token
    ensures Combined(candidates, token) == TokenCandidate(token, None, None, None, None, false)
  {
    if candidates != [] {
      AbsentCombines(candidates[..|candidates| - 1], token);
    }
  }

  /** A token met for the first time is taken over as it is. */
  lemma NewTokenCombines(candidates: seq<TokenCandidate>, candidate: TokenCandidate)
    requires candidate.token !in Tokens(candidates)
    ensures Combined(candidates + [candidate], candidate.token) == candidate
  {
    CombinedAbsorbs(candidates, candidate, candidate.token);
    AbsentCombines(candidates, candidate.token);
  }

  lemma TokensGrow(candidates: seq<TokenCandidate>, candidate: TokenCandidate)
    ensures Tokens(candidates + [candidate])
            == if candidate.token in Tokens(candidates) then Tokens(candidates) else Tokens(candidates) + [candidate.token]
  {
    assert (candidates + [candidate])[..|candidates|] == candidates;
  }

  /** The index map and the vector agree: the map sends each token to its entry's position. */
  predicate Agree(indexes: map<TokenAddress, nat>, merged: seq<TokenCandidate>) {
    && (forall t <- indexes :: indexes[t] < |merged| && merged[indexes[t]].token == t)
    && (forall i | 0 <= i < |merged| :: merged[i].token in indexes && indexes[merged[i].token] == i)
  }

  method FillIn(held: TokenCandidate, candidate: TokenCandidate) returns (existing: TokenCandidate)
    ensures existing == Absorb(held, candidate)
  {
    existing := held.(trustedListing := held.trustedListing || candidate.trustedListing);
    if existing.symbol.None? {
      existing := existing.(symbol := candidate.symbol);
    }
    if existing.decimals.None? {
      existing := existing.(decimals := candidate.decimals);
    }
    if existing.tvlUsd.None? {
      existing := existing.(tvlUsd := candidate.tvlUsd);
    }
    if existing.volumeUsd.None? {
      existing := existing.(volumeUsd := candidate.volumeUsd);
    }
  }

  method MergeCandidates(candidates: seq<TokenCandidate>) returns (merged: seq<TokenCandidate>)
    ensures merged == Merged(candidates)
  {
    merged := [];
    var indexes: map<TokenAddress, nat> := map[];
    for i := 0 to |candidates|
      invariant Agree(indexes, merged)
      invariant merged == Merged(candidates[..i])
    {
      var candidate := candidates[i];
      ghost var before := candidates[..i];
      assert candidates[..i + 1] == before + [candidate];
      MergedGrows(before, candidate);
      if candidate.token in indexes {
        var index := indexes[candidate.token];
        var existing := FillIn(merged[index], candidate);
        merged := merged[index := existing];
      } else {
        indexes := indexes[candidate.token := |merged|];
        merged := merged + [candidate];
      }
    }
    assert candidates[..|candidates|] == candidates;
  }

  lemma MergedGrowsAt(candidates: seq<TokenCandidate>, candidate: TokenCandidate, i: nat)
    requires i < |Merged(candidates)|
    ensures
      var merged, after := Merged(candidates), Merged(candidates + [candidate]);
      i < |after| && after[i] == if merged[i].token == candidate.token then Absorb(merged[i], candidate) else merged[i]
  {
    TokensGrow(candidates, candidate);
    CombinedAbsorbs(candidates, candidate, Tokens(candidates)[i]);
  }

  lemma MergedGrowsKnown(candidates: seq<TokenCandidate>, candidate: TokenCandidate, k: nat)
    requires k < |Merged(candidates)| && Merged(candidates)[k].token == candidate.token
    ensures Merged(candidates + [candidate]) == Merged(candidates)[k := Absorb(Merged(candidates)[k], candidate)]
  {
    TokensGrow(candidates, candidate);
    var tokens, merged, after := Tokens(candidates), Merged(candidates), Merged(candidates + [candidate]);
    assert candidate.token == tokens[k];
    assert |after| == |merged|;
    MergedGrowsAt(candidates, candidate, k);
    forall i | 0 <= i < |merged| && i != k ensures after[i] == merged[i] {
      MergedGrowsAt(candidates, candidate, i);
      assert merged[i].token == tokens[i] != tokens[k];
    }
  }

  lemma MergedGrowsNew(candidates: seq<TokenCandidate>, candidate: TokenCandidate)
    requires forall i | 0 <= i < |Merged(candidates)| :: Merged(candidates)[i].token != candidate.token
    ensures Merged(candidates + [candidate]) == Merged(candidates) + [candidate]
  {
    TokensGrow(candidates, candidate);
    var tokens, merged, after := Tokens(candidates), Merged(candidates), Merged(candidates + [candidate]);
    assert forall i | 0 <= i < |merged| :: merged[i].token == tokens[i];
    forall i | 0 <= i < |merged| ensures after[i] == merged[i] {
      MergedGrowsAt(candidates, candidate, i);
    }
    NewTokenCombines(candidates, candidate);
  }

  /** How one more candidate changes the merge: it is absorbed where its token stands, or appended. */
  lemma MergedGrows(candidates: seq<TokenCandidate>, candidate: TokenCandidate)
    ensures
      var merged, after := Merged(candidates), Merged(candidates + [candidate]);
      && (forall i | 0 <= i < |merged| && merged[i].token == candidate.token :: after == merged[i := Absorb(merged[i], candidate)])
      && ((forall i | 0 <= i < |merged| :: merged[i].token != candidate.token) ==> after == merged + [candidate])
  {
    var merged := Merged(candidates);
    if forall i | 0 <= i < |merged| :: merged[i].token != candidate.token {
      MergedGrowsNew(candidates, candidate);
    }
    forall i | 0 <= i < |merged| && merged[i].token == candidate.token
      ensures Merged(candidates + [candidate]) == merged[i := Absorb(merged[i], candidate)]
    {
      MergedGrowsKnown(candidates, candidate, i);
    }
  }

  // ---- The merge by positions in the input ----

  /** Candidate `i` is the first of its token to have the field. */
  predicate FirstWith<T>(candidates: seq<TokenCandidate>, token: TokenAddress, field: TokenCandidate -> Option<T>, i: nat) {
    && i < |candidates| && candidates[i].token == token && field(candidates[i]).Some?
    && forall j | 0 <= j < i && candidates[j].token == token :: field(candidates[j]).None?
  }

  lemma {:induction false} FirstPresentIsFirst<T>(candidates: seq<TokenCandidate>, token: TokenAddress, field: TokenCandidate -> Option<T>)
    ensures FirstPresent(candidates, token, field).None? ==>
      forall j | 0 <= j < |candidates| && candidates[j].token == token :: field(candidates[j]).None?
    ensures FirstPresent(candidates, token, field).Some? ==>
      exists i: nat :: FirstWith(candidates, token, field, i) && field(candidates[i]) == FirstPresent(candidates, token, field)
  {
    if candidates != [] {
      var last := |candidates| - 1;
      var before := candidates[..last];
      FirstPresentIsFirst(before, token, field);
      if FirstPresent(before, token, field).Some? {
        var i: nat :| FirstWith(before, token, field, i) && field(before[i]) == FirstPresent(before, token, field);
        assert forall j | 0 <= j < last :: candidates[j] == before[j];
        assert FirstWith(candidates, token, field, i);
      } else {
        assert forall j | 0 <= j < last :: candidates[j] == before[j];
        if FirstPresent(candidates, token, field).Some? {
          assert FirstWith(candidates, token, field, last);
        }
      }
    }
  }

  /** A value is what the merge has for a field exactly when the first candidate of the token to have the
      field at all has that value. */
  lemma FirstPresentExactly<T>(candidates: seq<TokenCandidate>, token: TokenAddress, field: TokenCandidate -> Option<T>, v: T)
    ensures FirstPresent(candidates, token, field) == Some(v) <==>
            exists i: nat :: FirstWith(candidates, token, field, i) && field(candidates[i]) == Some(v)
  {
    FirstPresentIsFirst(candidates, token, field);
    forall i: nat, j: nat | FirstWith(candidates, token, field, i) && FirstWith(candidates, token, field, j) ensures i == j {
      assert i < j || j < i || i == j;
    }
  }

  /** Every field of a merged entry, read off the input by position: the value of the first candidate of
      the token that has any, and trust if any candidate of the token has it. */
  lemma MergedFieldsAreTheFirst(candidates: seq<TokenCandidate>, k: nat, symbol: string, decimals: nat, tvlUsd: real, volumeUsd: real)
    requires k < |Merged(candidates)|
    ensures
      var entry := Merged(candidates)[k];
      && (entry.symbol == Some(symbol) <==> exists i: nat ::
            FirstWith(candidates, entry.token, (c: TokenCandidate) => c.symbol, i) && candidates[i].symbol == Some(symbol))
      && (entry.decimals == Some(decimals) <==> exists i: nat ::
            FirstWith(candidates, entry.token, (c: TokenCandidate) => c.decimals, i) && candidates[i].decimals == Some(decimals))
      && (entry.tvlUsd == Some(tvlUsd) <==> exists i: nat ::
            FirstWith(candidates, entry.token, (c: TokenCandidate) => c.tvlUsd, i) && candidates[i].tvlUsd == Some(tvlUsd))
      && (entry.volumeUsd == Some(volumeUsd) <==> exists i: nat ::
            FirstWith(candidates, entry.token, (c: TokenCandidate) => c.volumeUsd, i) && candidates[i].volumeUsd == Some(volumeUsd))
      && (entry.trustedListing <==> exists c <- candidates :: c.token == entry.token && c.trustedListing)
  {
    var token := Tokens(candidates)[k];
    FirstPresentExactly(candidates, token, (c: TokenCandidate) => c.symbol, symbol);
    FirstPresentExactly(candidates, token, (c: TokenCandidate) => c.decimals, decimals);
    FirstPresentExactly(candidates, token, (c: TokenCandidate) => c.tvlUsd, tvlUsd);
    FirstPresentExactly(candidates, token, (c: TokenCandidate) => c.volumeUsd, volumeUsd);
  }

  /** Candidate `i` is the first of its token. */
  predicate FirstOf(candidates: seq<TokenCandidate>, token: TokenAddress, i: nat) {
    && i < |candidates| && candidates[i].token == token
    && forall j | 0 <= j < i :: candidates[j].token != token
  }

  lemma {:induction false} TokensAreOrdered(candidates: seq<TokenCandidate>, j: nat, k: nat, a: nat, b: nat)
    requires j < k < |Tokens(candidates)|
    requires FirstOf(candidates, Tokens(candidates)[j], a) && FirstOf(candidates, Tokens(candidates)[k], b)
    ensures a < b
  {
    var last := |candidates| - 1;
    var before := candidates[..last];
    assert candidates == before + [candidates[last]];
    assert forall i | 0 <= i < last :: before[i] == candidates[i];
    if k < |Tokens(before)| {
      var c :| c in before && c.token == Tokens(before)[k];
      var d :| d in before && d.token == Tokens(before)[j];
      assert a < last && b < last;
      TokensAreOrdered(before, j, k, a, b);
    } else {
      assert Tokens(candidates)[k] == candidates[last].token && candidates[last].token !in Tokens(before);
      assert b == last;
      var d :| d in before && d.token == Tokens(before)[j];
    }
  }

  /** The merged entries stand in the order their tokens first occur. */
  lemma MergedInFirstOccurrenceOrder(candidates: seq<TokenCandidate>, j: nat, k: nat, a: nat, b: nat)
    requires j < |Merged(candidates)| && k < |Merged(candidates)|
    requires FirstOf(candidates, Merged(candidates)[j].token, a) && FirstOf(candidates, Merged(candidates)[k].token, b)
    ensures j < k <==> a < b
  {
    if j < k {
      TokensAreOrdered(candidates, j, k, a, b);
    } else if k < j {
      TokensAreOrdered(candidates, k, j, b, a);
    }
  }

  // ---- Merging in pieces ----

  /** Merging twice is merging once. */
  lemma {:induction false} MergeIsIdempotent(candidates: seq<TokenCandidate>, n: nat)
    requires n <= |Merged(candidates)|
    ensures Merged(Merged(candidates)[..n]) == Merged(candidates)[..n]
  {
    var merged := Merged(candidates);
    if n > 0 {
      MergeIsIdempotent(candidates, n - 1);
      assert merged[..n] == merged[..n - 1] + [merged[n - 1]];
      assert forall i | 0 <= i < n - 1 :: merged[i].token == Tokens(candidates)[i];
      MergedGrows(merged[..n - 1], merged[n - 1]);
    }
  }

  /** Merging a merged list with more candidates is merging everything at once. */
  lemma {:induction false} MergeInPieces(first: seq<TokenCandidate>, second: seq<TokenCandidate>)
    ensures Merged(Merged(first) + second) == Merged(first + second)
  {
    if second == [] {
      MergeIsIdempotent(first, |Merged(first)|);
      assert Merged(first)[..|Merged(first)|] == Merged(first);
      assert Merged(first) + second == Merged(first) && first + second == first;
    } else {
      var before, last := second[..|second| - 1], second[|second| - 1];
      MergeInPieces(first, before);
      assert first + second == first + before + [last];
      assert Merged(first) + second == Merged(first) + before + [last];
      MergedGrows(first + before, last);
      MergedGrows(Merged(first) + before, last);
      var merged := Merged(first + before);
      if i :| 0 <= i < |merged| && merged[i].token == last.token {
        assert Merged(first + second) == merged[i := Absorb(merged[i], last)];
      }
    }
  }

  // ---- Trusted listings ----

  function Mark(candidate: TokenCandidate, trusted: set<TokenAddress>): TokenCandidate {
    candidate.(trustedListing := candidate.trustedListing || candidate.token in trusted)
  }

  function Marked(candidates: seq<TokenCandidate>, trusted: set<TokenAddress>): (r: seq<TokenCandidate>)
    ensures |r| == |candidates|
  {
    seq(|candidates|, i requires 0 <= i < |candidates| => Mark(candidates[i], trusted))
  }

  /** Flags, in place, every candidate a trusted list names, and touches nothing else. */
  method MarkTrustedListings(candidates: array<TokenCandidate>, trusted: set<TokenAddress>)
    modifies candidates
    ensures candidates[..] == Marked(old(candidates[..]), trusted)
    ensures forall i | 0 <= i < candidates.Length ::
      && candidates[i].(trustedListing := false) == old(candidates[i]).(trustedListing := false)
      && (candidates[i].trustedListing <==> old(candidates[i].trustedListing) || old(candidates[i].token) in trusted)
  {
    for i := 0 to candidates.Length
      invariant forall k | 0 <= k < i :: candidates[k] == Mark(old(candidates[k]), trusted)
      invariant forall k | i <= k < candidates.Length :: candidates[k] == old(candidates[k])
    {
      if candidates[i].token in trusted {
        candidates[i] := candidates[i].(trustedListing := true);
      }
    }
    assert forall i | 0 <= i < candidates.Length :: candidates[i] == Mark(old(candidates[i]), trusted);
  }

  lemma MarkDistributes(existing: TokenCandidate, candidate: TokenCandidate, trusted: set<TokenAddress>)
    requires existing.token == candidate.token
    ensures Mark(Absorb(existing, candidate), trusted) == Absorb(Mark(existing, trusted), Mark(candidate, trusted))
  {
  }

  /** Marking before merging, as the program does, is marking after. */
  lemma {:induction false} MarkingCommutesWithMerging(candidates: seq<TokenCandidate>, trusted: set<TokenAddress>)
    ensures Merged(Marked(candidates, trusted)) == Marked(Merged(candidates), trusted)
  {
    if candidates != [] {
      var before, last := candidates[..|candidates| - 1], candidates[|candidates| - 1];
      MarkingCommutesWithMerging(before, trusted);
      assert candidates == before + [last];
      assert Marked(candidates, trusted) == Marked(before, trusted) + [Mark(last, trusted)];
      MergedGrows(before, last);
      MergedGrows(Marked(before, trusted), Mark(last, trusted));
      MarkOneMore(Merged(before), last, trusted);
      if i :| 0 <= i < |Merged(before)| && Merged(before)[i].token == last.token {
        assert Merged(Marked(before, trusted))[i].token == last.token;
      } else {
        assert forall i | 0 <= i < |Merged(before)| :: Merged(Marked(before, trusted))[i].token == Merged(before)[i].token;
      }
    }
  }

  lemma MarkOneMore(merged: seq<TokenCandidate>, last: TokenCandidate, trusted: set<TokenAddress>)
    ensures forall i | 0 <= i < |merged| && merged[i].token == last.token ::
      Marked(merged[i := Absorb(merged[i], last)], trusted)
      == Marked(merged, trusted)[i := Absorb(Marked(merged, trusted)[i], Mark(last, trusted))]
    ensures Marked(merged + [last], trusted) == Marked(merged, trusted) + [Mark(last, trusted)]
  {
    forall i | 0 <= i < |merged| && merged[i].token == last.token
      ensures Marked(merged[i := Absorb(merged[i], last)], trusted)
              == Marked(merged, trusted)[i := Absorb(Marked(merged, trusted)[i], Mark(last, trusted))]
    {
      MarkDistributes(merged[i], last, trusted);
    }
  }
}
