/**
 When a token is in the store, and when redeeming it yields: both directions,
 over every history of store calls.
 */
module ExtensionHistory {
  import opened Options
  import opened ExtensionStore

  // ---------- What takes a token out ----------

  /** A new confirmation of the same owner and kind. */
  predicate Replaces(op: Op, e: TokenEntry) {
    && e.purpose == Confirmation
    && ((op.IssueOp? && op.purpose == Confirmation && op.owner == e.owner && op.payload.kind == e.payload.kind)
        || (op.IssueBoundOp? && op.op.owner == e.owner && op.payload.kind == e.payload.kind))
  }

  /** The call is carried out and takes the token out: expired, consumed, cancelled by itself or with others, or replaced. */
  predicate Removes(op: Op, out: Out, now: nat, t: string, e: TokenEntry) {
    && Rejection(op).None?
    && (|| now >= e.expiresAt
        || (op.RedeemOp? && op.consume && op.token == t && out.Yielded?)
        || (op.CancelTokenOp? && op.token == t && op.purpose == e.purpose && op.owner == e.owner)
        || (op.CancelOwnerOp? && op.owner == e.owner)
        || (op.CancelSelectionsOp? && !out.Failed? && op.op.owner == e.owner && e.purpose == Selection && op.kind == e.payload.kind)
        || (out.Issued? && Replaces(op, e)))
  }

  predicate SameToken(a: map<string, TokenEntry>, b: map<string, TokenEntry>, t: string) {
    t in a && t in b && a[t] == b[t]
  }

  /** The token is there afterwards, as it was, exactly if `gone` does not hold; a token issued by the call itself is another one. */
  predicate Fate(s: State, s': State, out: Out, t: string, gone: bool) {
    if gone then t !in s'.tokens || (out.Issued? && out.token == t) else SameToken(s.tokens, s'.tokens, t)
  }

  lemma {:induction false} StoreFate(lim: Limits, s: State, token: string, entry: TokenEntry, t: string)
    requires t in s.tokens && token !in s.tokens
    ensures var (s', out), e := IssueUnder(lim, s, token, entry), s.tokens[t];
            var replaced := entry.purpose == Confirmation == e.purpose && entry.owner == e.owner && entry.payload.kind == e.payload.kind;
            Fate(s, s', out, t, out.Issued? && replaced)
  {
  }

  lemma {:induction false} UnusedFate(lim: Limits, s: State, token: string, entry: TokenEntry, t: string)
    requires t !in s.tokens
    ensures var (s', out) := IssueUnder(lim, s, token, entry);
            t !in s'.tokens || (out.Issued? && out.token == t)
  {
  }

  /** An issue either fails after pruning, or stores under an unused token. */
  lemma {:induction false} IssueIs(lim: Limits, s: State, purpose: Purpose, owner: Owner, payload: Payload, bound: Option<nat>, supply: seq<string>, now: nat)
    returns (token: string)
    ensures var r, p := Issue(lim, s, purpose, owner, payload, bound, supply, now), Pruned(s, now);
            || (r.0 == p && !r.1.Issued?)
            || (token !in p.tokens && r == IssueUnder(lim, p, token, StoredEntry(lim, purpose, owner, payload, bound, now)))
  {
    var p := Pruned(s, now);
    var found := NewToken(p.tokens, supply, TOKEN_ATTEMPTS);
    NewTokenIsUnused(p.tokens, supply, TOKEN_ATTEMPTS);
    token := if found.Some? then found.value else "";
    var r := Issue(lim, s, purpose, owner, payload, bound, supply, now);
    if (bound.Some? && !Current(p, Operation(owner, bound.value))) || PayloadBytes(payload) > lim.maxPayload || found.None? {
      assert r.0 == p;
    } else {
      assert r == IssueUnder(lim, p, token, StoredEntry(lim, purpose, owner, payload, bound, now));
    }
  }

  lemma {:induction false} PrunedToken(s: State, now: nat, t: string)
    requires t in s.tokens
    ensures if now < s.tokens[t].expiresAt then SameToken(s.tokens, Pruned(s, now).tokens, t) else t !in Pruned(s, now).tokens
  {
  }

  lemma {:induction false} IssueFate(lim: Limits, s: State, purpose: Purpose, owner: Owner, payload: Payload, bound: Option<nat>, supply: seq<string>, now: nat, t: string)
    requires t in s.tokens
    ensures var (s', out), e := Issue(lim, s, purpose, owner, payload, bound, supply, now), s.tokens[t];
            var replaced := purpose == Confirmation == e.purpose && owner == e.owner && payload.kind == e.payload.kind;
            Fate(s, s', out, t, now >= e.expiresAt || (out.Issued? && replaced))
  {
    var token := IssueIs(lim, s, purpose, owner, payload, bound, supply, now);
    var p, entry := Pruned(s, now), StoredEntry(lim, purpose, owner, payload, bound, now);
    PrunedToken(s, now, t);
    if token !in p.tokens {
      if t in p.tokens {
        StoreFate(lim, p, token, entry, t);
      } else {
        UnusedFate(lim, p, token, entry, t);
      }
    }
  }

  lemma {:induction false} SelectionFate(lim: Limits, s: State, op: Operation, payload: Payload, supply: seq<string>, now: nat, t: string)
    requires t in s.tokens
    ensures var (s', out), e := IssueSelectionForOperation(lim, s, op, payload, supply, now), s.tokens[t];
            Fate(s, s', out, t, now >= e.expiresAt)
  {
    NewTokenIsUnused(Pruned(s, now).tokens, supply, TOKEN_ATTEMPTS);
  }

  lemma {:induction false} IssuesFate(lim: Limits, s: State, op: Op, now: nat, t: string)
    requires IsIssue(op) && Rejection(op).None? && t in s.tokens
    ensures var (s', out) := Perform(lim, s, op, now);
            Fate(s, s', out, t, Removes(op, out, now, t, s.tokens[t]))
  {
    match op
    case IssueOp(purpose, owner, payload, supply) => IssueFate(lim, s, purpose, owner, payload, None, supply, now, t);
    case IssueBoundOp(o, payload, supply) => IssueFate(lim, s, Confirmation, o.owner, payload, Some(o.generation), supply, now, t);
    case IssueSelectionBoundOp(o, payload, supply) => SelectionFate(lim, s, o, payload, supply, now, t);
  }

  lemma {:induction false} TakingFate(s: State, token: string, purpose: Purpose, owner: Owner, kind: string, consume: bool, now: nat, t: string)
    requires t in s.tokens
    ensures var (s', out) := Redeem(s, token, purpose, owner, kind, consume, now);
            Fate(s, s', out, t, now >= s.tokens[t].expiresAt || (consume && token == t && out.Yielded?))
    ensures var (s', out) := CancelToken(s, token, purpose, owner, now);
            Fate(s, s', out, t, now >= s.tokens[t].expiresAt || (token == t && purpose == s.tokens[t].purpose && owner == s.tokens[t].owner))
  {
  }

  lemma {:induction false} SweepFate(lim: Limits, s: State, owner: Owner, op: Operation, kind: string, now: nat, t: string)
    requires t in s.tokens
    ensures var (s', out) := CancelOwner(lim, s, owner, now);
            Fate(s, s', out, t, now >= s.tokens[t].expiresAt || owner == s.tokens[t].owner)
    ensures var (s', out), e := CancelSelections(s, op, kind, now), s.tokens[t];
            Fate(s, s', out, t, now >= e.expiresAt || (!out.Failed? && op.owner == e.owner && e.purpose == Selection && kind == e.payload.kind))
  {
  }

  /** The calls that only let tokens expire. */
  lemma {:induction false} InputFate(lim: Limits, s: State, owner: Owner, kind: string, payload: Payload, bound: Option<nat>, now: nat, t: string)
    requires t in s.tokens
    ensures var (s', out) := BeginInput(lim, s, owner, kind, payload, bound, now); Fate(s, s', out, t, now >= s.tokens[t].expiresAt)
    ensures var (s', out) := ConsumeInput(lim, s, owner, kind, now); Fate(s, s', out, t, now >= s.tokens[t].expiresAt)
    ensures var (s', out) := CancelInput(lim, s, owner, now); Fate(s, s', out, t, now >= s.tokens[t].expiresAt)
    ensures var (s', out) := PeekInput(s, owner, now); Fate(s, s', out, t, now >= s.tokens[t].expiresAt)
  {
  }

  lemma {:induction false} OperationFate(lim: Limits, s: State, owner: Owner, op: Operation, now: nat, t: string)
    requires t in s.tokens
    ensures var (s', out) := BeginOperation(lim, s, owner, now); Fate(s, s', out, t, now >= s.tokens[t].expiresAt)
    ensures var (s', out) := ClaimInput(lim, s, owner, now); Fate(s, s', out, t, now >= s.tokens[t].expiresAt)
    ensures var (s', out) := FinishOperation(s, op, now); Fate(s, s', out, t, now >= s.tokens[t].expiresAt)
    ensures var (s', out) := OperationCurrent(s, op, now); Fate(s, s', out, t, now >= s.tokens[t].expiresAt)
  {
  }

  /** A call whose business is tokens: one of them, or many. */
  predicate TakesTokens(op: Op) {
    op.RedeemOp? || op.CancelTokenOp? || op.CancelOwnerOp? || op.CancelSelectionsOp?
  }

  lemma {:induction false} TakersFate(lim: Limits, s: State, op: Op, now: nat, t: string)
    requires TakesTokens(op) && Rejection(op).None? && t in s.tokens
    ensures var (s', out) := Perform(lim, s, op, now);
            Fate(s, s', out, t, Removes(op, out, now, t, s.tokens[t]))
  {
    match op
    case CancelOwnerOp(owner) => SweepFate(lim, s, owner, Operation(owner, 0), "", now, t);
    case CancelSelectionsOp(o, kind) => SweepFate(lim, s, o.owner, o, kind, now, t);
    case RedeemOp(token, purpose, owner, kind, consume) => TakingFate(s, token, purpose, owner, kind, consume, now, t);
    case CancelTokenOp(token, purpose, owner) => TakingFate(s, token, purpose, owner, "", false, now, t);
  }

  lemma {:induction false} OthersFate(lim: Limits, s: State, op: Op, now: nat, t: string)
    requires !IsIssue(op) && !TakesTokens(op) && t in s.tokens
    ensures var (s', out) := Perform(lim, s, op, now);
            Fate(s, s', out, t, now >= s.tokens[t].expiresAt) && !out.Issued?
  {
    match op
    case BeginInputOp(owner, kind, payload) => InputFate(lim, s, owner, kind, payload, None, now, t);
    case BeginInputBoundOp(o, kind, payload) => InputFate(lim, s, o.owner, kind, payload, Some(o.generation), now, t);
    case ConsumeInputOp(owner, kind) => InputFate(lim, s, owner, kind, s.tokens[t].payload, None, now, t);
    case CancelInputOp(owner) => InputFate(lim, s, owner, "", s.tokens[t].payload, None, now, t);
    case InputOp(owner) => InputFate(lim, s, owner, "", s.tokens[t].payload, None, now, t);
    case BeginOp(owner) => OperationFate(lim, s, owner, Operation(owner, 0), now, t);
    case ClaimOp(owner) => OperationFate(lim, s, owner, Operation(owner, 0), now, t);
    case FinishOp(o) => OperationFate(lim, s, o.owner, o, now, t);
    case CurrentOp(o) => OperationFate(lim, s, o.owner, o, now, t);
  }

  /** A store call leaves a token as it is, or takes it out, exactly as its kind of call says. */
  lemma {:induction false} StepDecidesToken(lim: Limits, s: State, op: Op, now: nat, t: string)
    requires t in s.tokens
    ensures var (s', out) := Step(lim, s, op, now);
            Fate(s, s', out, t, Removes(op, out, now, t, s.tokens[t]))
  {
    if Rejection(op).None? {
      if IsIssue(op) {
        IssuesFate(lim, s, op, now, t);
      } else if TakesTokens(op) {
        TakersFate(lim, s, op, now, t);
      } else {
        OthersFate(lim, s, op, now, t);
      }
    }
  }

  // ---------- Over histories ----------

  /** Event `i` issued the token, and nothing since has taken it out. */
  ghost predicate Survives(lim: Limits, h: History, i: nat, j: nat, t: string)
    requires j <= |h.events| == |h.outs|
  {
    && i < j && IssuesAt(h, i, t)
    && forall n :: i < n < j ==> !Removes(h.events[n].op, h.outs[n], h.events[n].now, t, IssuedEntry(lim, h.events[i].op, h.events[i].now))
  }

  lemma {:induction false} IssuedIsThere(lim: Limits, h: History, i: nat, t: string)
    requires IsHistory(lim, h) && i < |h.events| && IssuesAt(h, i, t)
    ensures t in h.states[i + 1].tokens && h.states[i + 1].tokens[t] == IssuedEntry(lim, h.events[i].op, h.events[i].now)
  {
    assert (h.states[i + 1], h.outs[i]) == Step(lim, h.states[i], h.events[i].op, h.events[i].now);
    StepMovesTokens(lim, h.states[i], h.events[i].op, h.events[i].now);
  }

  lemma {:induction false} SurvivorIsThere(lim: Limits, h: History, i: nat, j: nat, t: string)
    requires IsHistory(lim, h) && j <= |h.events| && Survives(lim, h, i, j, t)
    ensures t in h.states[j].tokens && h.states[j].tokens[t] == IssuedEntry(lim, h.events[i].op, h.events[i].now)
    decreases j
  {
    if j == i + 1 {
      IssuedIsThere(lim, h, i, t);
    } else {
      var n := j - 1;
      SurvivorIsThere(lim, h, i, n, t);
      assert (h.states[j], h.outs[n]) == Step(lim, h.states[n], h.events[n].op, h.events[n].now);
      StepDecidesToken(lim, h.states[n], h.events[n].op, h.events[n].now, t);
    }
  }

  lemma {:induction false} WhatIsThereStayed(lim: Limits, s: State, ev: Event, s': State, out: Out, t: string)
    requires (s', out) == Step(lim, s, ev.op, ev.now) && t in s'.tokens
    requires !(out.Issued? && out.token == t)
    ensures t in s.tokens && !Removes(ev.op, out, ev.now, t, s.tokens[t])
  {
    StepMovesTokens(lim, s, ev.op, ev.now);
    StepDecidesToken(lim, s, ev.op, ev.now, t);
  }

  lemma {:induction false} OnlyIssuesIssue(lim: Limits, s: State, ev: Event, s': State, out: Out)
    requires (s', out) == Step(lim, s, ev.op, ev.now) && out.Issued?
    ensures IsIssue(ev.op)
  {
    StepMovesTokens(lim, s, ev.op, ev.now);
  }

  lemma {:induction false} SurvivesOn(lim: Limits, h: History, i: nat, n: nat, t: string)
    requires n < |h.events| == |h.outs| && Survives(lim, h, i, n, t)
    requires !Removes(h.events[n].op, h.outs[n], h.events[n].now, t, IssuedEntry(lim, h.events[i].op, h.events[i].now))
    ensures Survives(lim, h, i, n + 1, t)
  {
  }

  lemma {:induction false} WhatIsThereSurvived(lim: Limits, h: History, j: nat, t: string) returns (i: nat)
    requires IsHistory(lim, h) && j <= |h.events| && t in h.states[j].tokens
    ensures Survives(lim, h, i, j, t)
    decreases j
  {
    var n := j - 1;
    var s, ev, s', out := h.states[n], h.events[n], h.states[j], h.outs[n];
    assert (s', out) == Step(lim, s, ev.op, ev.now);
    if out.Issued? && out.token == t {
      OnlyIssuesIssue(lim, s, ev, s', out);
      i := n;
    } else {
      WhatIsThereStayed(lim, s, ev, s', out, t);
      i := WhatIsThereSurvived(lim, h, n, t);
      SurvivorIsThere(lim, h, i, n, t);
      SurvivesOn(lim, h, i, n, t);
    }
  }

  /** A token is in the store exactly if some call issued it and nothing since has taken it out; it is then as it was issued. */
  lemma {:induction false} TokenIsThereIff(lim: Limits, h: History, j: nat, t: string)
    requires IsHistory(lim, h) && j <= |h.events|
    ensures t in h.states[j].tokens <==> exists i: nat :: Survives(lim, h, i, j, t)
    ensures forall i: nat :: Survives(lim, h, i, j, t) ==>
              t in h.states[j].tokens && h.states[j].tokens[t] == IssuedEntry(lim, h.events[i].op, h.events[i].now)
  {
    forall i: nat | Survives(lim, h, i, j, t)
      ensures t in h.states[j].tokens && h.states[j].tokens[t] == IssuedEntry(lim, h.events[i].op, h.events[i].now)
    {
      SurvivorIsThere(lim, h, i, j, t);
    }
    if t in h.states[j].tokens {
      var i := WhatIsThereSurvived(lim, h, j, t);
    }
  }

  // ---------- Redeeming ----------

  /** The generation is the owner's, and its entry has not expired. */
  predicate HoldsGeneration(s: State, o: Operation, now: nat) {
    o.owner in s.gens && s.gens[o.owner].value == o.generation && now < s.gens[o.owner].expiresAt
  }

  /**
   Event `i` issued what this redemption asks for: same token, purpose, owner and
   kind, not taken out since, not expired now, and a confirmation bound to an
   operation needs that operation's generation to be the owner's still.
   */
  ghost predicate Good(lim: Limits, h: History, i: nat, j: nat)
    requires j < |h.events| == |h.outs| && |h.states| == |h.events| + 1 && h.events[j].op.RedeemOp?
  {
    var op, now := h.events[j].op, h.events[j].now;
    Survives(lim, h, i, j, op.token) &&
    var e := IssuedEntry(lim, h.events[i].op, h.events[i].now);
    && e.purpose == op.purpose && e.owner == op.owner && e.payload.kind == op.kind && now < e.expiresAt
    && (h.events[i].op.IssueBoundOp? ==> HoldsGeneration(h.states[j], h.events[i].op.op, now))
  }

  lemma {:induction false} RedeemDecides(s: State, token: string, purpose: Purpose, owner: Owner, kind: string, consume: bool, now: nat)
    ensures var (s', out) := Redeem(s, token, purpose, owner, kind, consume, now);
            && (out.Yielded? <==>
                  && token in s.tokens && s.tokens[token].purpose == purpose && s.tokens[token].owner == owner
                  && s.tokens[token].payload.kind == kind && now < s.tokens[token].expiresAt
                  && (purpose == Confirmation && s.tokens[token].generation != 0 ==> HoldsGeneration(s, Operation(owner, s.tokens[token].generation), now)))
            && (out.Yielded? ==> out.payload == s.tokens[token].payload && (token in s'.tokens <==> !consume))
            && (!out.Yielded? ==> out.Missing?)
  {
  }

  lemma {:induction false} IssuedGeneration(lim: Limits, h: History, i: nat, t: string)
    requires IsHistory(lim, h) && i < |h.events| && IssuesAt(h, i, t)
    ensures IssuedEntry(lim, h.events[i].op, h.events[i].now).generation != 0 <==> h.events[i].op.IssueBoundOp?
    ensures h.events[i].op.IssueBoundOp? ==>
              var e := IssuedEntry(lim, h.events[i].op, h.events[i].now);
              e.purpose == Confirmation && h.events[i].op.op == Operation(e.owner, e.generation)
  {
    if h.events[i].op.IssueBoundOp? {
      IssuedOperationsAreReal(lim, h, i);
    }
  }

  lemma {:induction false} GoodYields(lim: Limits, h: History, i: nat, j: nat)
    requires IsHistory(lim, h) && j < |h.events| && h.events[j].op.RedeemOp? && Rejection(h.events[j].op).None? && Good(lim, h, i, j)
    ensures h.outs[j] == Yielded(IssuedEntry(lim, h.events[i].op, h.events[i].now).payload)
    ensures h.events[j].op.token in h.states[j + 1].tokens <==> !h.events[j].op.consume
  {
    var op, now := h.events[j].op, h.events[j].now;
    assert (h.states[j + 1], h.outs[j]) == Step(lim, h.states[j], op, now);
    SurvivorIsThere(lim, h, i, j, op.token);
    IssuedGeneration(lim, h, i, op.token);
    RedeemDecides(h.states[j], op.token, op.purpose, op.owner, op.kind, op.consume, now);
  }

  lemma {:induction false} YieldedIsGood(lim: Limits, h: History, j: nat) returns (i: nat)
    requires IsHistory(lim, h) && j < |h.events| && h.events[j].op.RedeemOp? && h.outs[j].Yielded?
    ensures Good(lim, h, i, j)
  {
    var op, now := h.events[j].op, h.events[j].now;
    assert (h.states[j + 1], h.outs[j]) == Step(lim, h.states[j], op, now);
    RedeemDecides(h.states[j], op.token, op.purpose, op.owner, op.kind, op.consume, now);
    i := WhatIsThereSurvived(lim, h, j, op.token);
    SurvivorIsThere(lim, h, i, j, op.token);
    IssuedGeneration(lim, h, i, op.token);
  }

  /**
   Over every history, an admissible redemption of a confirmation or selection
   yields exactly if some call issued it to that owner, for that kind, and
   nothing since has consumed, cancelled, replaced or expired it, and, if it was
   bound, its generation is the owner's unexpired current one. It then yields
   what was issued, and the token is gone afterwards exactly if it was consumed.
   */
  lemma {:induction false} RedemptionYieldsIff(lim: Limits, h: History, j: nat)
    requires IsHistory(lim, h) && j < |h.events| && h.events[j].op.RedeemOp? && Rejection(h.events[j].op).None?
    ensures h.outs[j].Yielded? <==> exists i: nat :: Good(lim, h, i, j)
    ensures forall i: nat :: Good(lim, h, i, j) ==>
              && h.outs[j] == Yielded(IssuedEntry(lim, h.events[i].op, h.events[i].now).payload)
              && (h.events[j].op.token in h.states[j + 1].tokens <==> !h.events[j].op.consume)
    ensures !h.outs[j].Yielded? ==> h.outs[j].Missing?
  {
    forall i: nat | Good(lim, h, i, j)
      ensures h.outs[j] == Yielded(IssuedEntry(lim, h.events[i].op, h.events[i].now).payload)
      ensures h.events[j].op.token in h.states[j + 1].tokens <==> !h.events[j].op.consume
    {
      GoodYields(lim, h, i, j);
    }
    var op, now := h.events[j].op, h.events[j].now;
    assert (h.states[j + 1], h.outs[j]) == Step(lim, h.states[j], op, now);
    RedeemDecides(h.states[j], op.token, op.purpose, op.owner, op.kind, op.consume, now);
    if h.outs[j].Yielded? {
      var i := YieldedIsGood(lim, h, j);
    }
  }

  // ---------- Keeping a generation ----------

  predicate SameGeneration(s: State, s': State, owner: Owner) {
    owner in s.gens && owner in s'.gens && s'.gens[owner].value == s.gens[owner].value && s'.gens[owner].expiresAt == s.gens[owner].expiresAt
  }

  lemma {:induction false} ExpiryKeepsGeneration(s: State, s': State, now: nat, owner: Owner)
    requires GensOnlyExpire(s, s', now) && owner in s.gens && now < s.gens[owner].expiresAt
    ensures SameGeneration(s, s', owner)
  {
  }

  lemma {:induction false} AdvancersKeepOthers(lim: Limits, s: State, op: Op, now: nat, owner: Owner)
    requires op.ConsumeInputOp? || op.CancelInputOp? || op.CancelOwnerOp? || op.BeginOp? || op.ClaimOp? || op.FinishOp?
    requires owner in s.gens && now < s.gens[owner].expiresAt && Rejection(op).None? && !Supersedes(s, op, now, owner)
    ensures SameGeneration(s, Perform(lim, s, op, now).0, owner)
  {
  }

  lemma {:induction false} StepKeepsGeneration(lim: Limits, s: State, op: Op, now: nat, owner: Owner)
    requires owner in s.gens && now < s.gens[owner].expiresAt && !Supersedes(s, op, now, owner)
    ensures SameGeneration(s, Step(lim, s, op, now).0, owner)
  {
    if Rejection(op).None? {
      var s' := Perform(lim, s, op, now).0;
      if op.IssueOp? || op.IssueBoundOp? || op.IssueSelectionBoundOp? || op.BeginInputOp? || op.BeginInputBoundOp? {
        IssuingMovesGens(lim, s, op, now);
        ExpiryKeepsGeneration(s, s', now, owner);
      } else if op.RedeemOp? || op.CancelTokenOp? || op.InputOp? || op.CurrentOp? || op.CancelSelectionsOp? {
        TokenMethodsMoveGens(lim, s, op, now);
        ExpiryKeepsGeneration(s, s', now, owner);
      } else {
        AdvancersKeepOthers(lim, s, op, now, owner);
      }
    }
  }

  /** A begin that gave out a generation makes it the owner's, for the selection lifetime. */
  lemma {:induction false} BegunHolds(lim: Limits, h: History, b: nat)
    requires IsHistory(lim, h) && b < |h.events| && h.events[b].op.BeginOp? && h.outs[b].Generation?
    ensures var owner, s' := h.events[b].op.owner, h.states[b + 1];
            owner in s'.gens && s'.gens[owner].value == h.outs[b].generation && s'.gens[owner].expiresAt == h.events[b].now + lim.selectionTTL
  {
    assert (h.states[b + 1], h.outs[b]) == Step(lim, h.states[b], h.events[b].op, h.events[b].now);
  }

  /**
   A begun operation stays its owner's current one while its lifetime runs and
   no superseding call of that owner comes, whatever else happens.
   */
  lemma {:induction false} BegunStaysCurrent(lim: Limits, h: History, b: nat, j: nat)
    requires IsHistory(lim, h) && b < j <= |h.events| && h.events[b].op.BeginOp? && h.outs[b].Generation?
    requires forall n :: b < n < j ==> !SupersedesAt(h, n, h.events[b].op.owner) && h.events[n].now < h.events[b].now + lim.selectionTTL
    ensures forall now: nat :: now < h.events[b].now + lim.selectionTTL ==> HoldsGeneration(h.states[j], Operation(h.events[b].op.owner, h.outs[b].generation), now)
    ensures h.events[b].op.owner in h.states[j].gens && h.states[j].gens[h.events[b].op.owner].expiresAt == h.events[b].now + lim.selectionTTL
    decreases j
  {
    if j == b + 1 {
      BegunHolds(lim, h, b);
    } else {
      var n := j - 1;
      BegunStaysCurrent(lim, h, b, n);
      assert HoldsGeneration(h.states[n], Operation(h.events[b].op.owner, h.outs[b].generation), h.events[n].now);
      assert (h.states[j], h.outs[n]) == Step(lim, h.states[n], h.events[n].op, h.events[n].now);
      StepKeepsGeneration(lim, h.states[n], h.events[n].op, h.events[n].now, h.events[b].op.owner);
    }
  }

  /**
   So a confirmation issued under a begun operation yields its payload to its
   owner as long as nothing took it out, nothing superseded the operation, and
   neither lifetime is over.
   */
  lemma {:induction false} BoundConfirmationYields(lim: Limits, h: History, b: nat, i: nat, j: nat)
    requires IsHistory(lim, h) && b < i < j < |h.events| && h.events[b].op.BeginOp? && h.outs[b].Generation?
    requires h.events[i].op.IssueBoundOp? && h.events[i].op.op == Operation(h.events[b].op.owner, h.outs[b].generation)
    requires h.events[j].op.RedeemOp? && h.events[j].op.purpose == Confirmation && Rejection(h.events[j].op).None?
    requires h.events[j].op.owner == h.events[b].op.owner && h.events[j].op.kind == h.events[i].op.payload.kind
    requires Survives(lim, h, i, j, h.events[j].op.token)
    requires h.events[j].now < h.events[i].now + lim.confirmationTTL
    requires forall n :: b < n < j ==> !SupersedesAt(h, n, h.events[b].op.owner)
    requires forall n :: b < n <= j ==> h.events[n].now < h.events[b].now + lim.selectionTTL
    ensures h.outs[j] == Yielded(h.events[i].op.payload)
    ensures h.events[j].op.token in h.states[j + 1].tokens <==> !h.events[j].op.consume
  {
    BegunStaysCurrent(lim, h, b, j);
    assert Good(lim, h, i, j);
    GoodYields(lim, h, i, j);
  }

  // ---------- When an issue is accepted ----------

  /** What is left of the tokens once expired and replaced ones are out. */
  function Remaining(s: State, purpose: Purpose, owner: Owner, kind: string, now: nat): map<string, TokenEntry> {
    map t | t in s.tokens && now < s.tokens[t].expiresAt
            && !(purpose == Confirmation == s.tokens[t].purpose && s.tokens[t].owner == owner && s.tokens[t].payload.kind == kind)
          :: s.tokens[t]
  }

  predicate IsLive(s: State, t: string, now: nat) {
    t in s.tokens && now < s.tokens[t].expiresAt
  }

  /** One of the first eight generated tokens is not in use. */
  predicate OffersToken(s: State, supply: seq<string>, now: nat) {
    exists k :: 0 <= k < |supply| && k < 8 && !IsLive(s, supply[k], now)
  }

  lemma {:induction false} NewTokenIff(tokens: map<string, TokenEntry>, supply: seq<string>, attempts: nat)
    ensures NewToken(tokens, supply, attempts).Some? <==> exists k :: 0 <= k < |supply| && k < attempts && supply[k] !in tokens
    decreases attempts
  {
    if attempts > 0 && supply != [] {
      NewTokenIff(tokens, supply[1..], attempts - 1);
      if supply[0] in tokens {
        if k :| 0 <= k < |supply| && k < attempts && supply[k] !in tokens {
          assert supply[1..][k - 1] !in tokens;
        }
      }
    }
  }

  lemma {:induction false} OffersIff(s: State, supply: seq<string>, now: nat)
    ensures NewToken(Pruned(s, now).tokens, supply, TOKEN_ATTEMPTS).Some? <==> OffersToken(s, supply, now)
  {
    NewTokenIff(Pruned(s, now).tokens, supply, TOKEN_ATTEMPTS);
    assert forall k :: 0 <= k < |supply| ==> (supply[k] in Pruned(s, now).tokens <==> IsLive(s, supply[k], now));
  }

  /** Room for one more token of this size beside the remaining tokens and the unexpired inputs. */
  ghost predicate Fits(lim: Limits, s: State, tokens: map<string, TokenEntry>, size: nat, now: nat) {
    && |tokens| < lim.maxTokens
    && TokenBytes(tokens) + InputBytes(LiveInputs(s.inputs, now)) + size <= lim.maxState
  }

  lemma {:induction false} RoomIff(lim: Limits, s: State, purpose: Purpose, owner: Owner, kind: string, size: nat, now: nat)
    ensures HasRoom(lim, WithoutReplaced(Pruned(s, now), purpose, owner, kind), size) <==> Fits(lim, s, Remaining(s, purpose, owner, kind, now), size, now)
  {
    assert WithoutReplaced(Pruned(s, now), purpose, owner, kind).tokens == Remaining(s, purpose, owner, kind, now);
  }

  lemma {:induction false} CurrentIff(s: State, owner: Owner, g: nat, now: nat)
    ensures Current(Pruned(s, now), Operation(owner, g)) <==> HoldsGeneration(s, Operation(owner, g), now)
  {
  }

  lemma {:induction false} StoringSucceedsIff(lim: Limits, p: State, token: string, entry: TokenEntry)
    ensures IssueUnder(lim, p, token, entry).1.Issued? <==> HasRoom(lim, WithoutReplaced(p, entry.purpose, entry.owner, entry.payload.kind), entry.bytes)
  {
  }

  /**
   A confirmation or selection is issued exactly if it is not too large, an unused
   token is offered, there is room once expired and replaced tokens are out, and,
   if it is bound, its generation is the owner's unexpired current one.
   */
  lemma {:induction false} IssueSucceedsIff(lim: Limits, s: State, purpose: Purpose, owner: Owner, payload: Payload, bound: Option<nat>, supply: seq<string>, now: nat)
    ensures Issue(lim, s, purpose, owner, payload, bound, supply, now).1.Issued? <==>
              && (bound.Some? ==> HoldsGeneration(s, Operation(owner, bound.value), now))
              && PayloadBytes(payload) <= lim.maxPayload && OffersToken(s, supply, now)
              && Fits(lim, s, Remaining(s, purpose, owner, payload.kind, now), PayloadBytes(payload), now)
  {
    OffersIff(s, supply, now);
    RoomIff(lim, s, purpose, owner, payload.kind, PayloadBytes(payload), now);
    if bound.Some? {
      CurrentIff(s, owner, bound.value, now);
    }
    var token := NewToken(Pruned(s, now).tokens, supply, TOKEN_ATTEMPTS);
    if token.Some? {
      StoringSucceedsIff(lim, Pruned(s, now), token.value, StoredEntry(lim, purpose, owner, payload, bound, now));
    }
  }

  // ---------- The expected input ----------

  predicate AsksInput(op: Op) {
    op.BeginInputOp? || op.BeginInputBoundOp?
  }

  function AskedInput(lim: Limits, op: Op, now: nat): InputEntry
    requires AsksInput(op)
  {
    InputEntry(op.kind, op.payload, now + lim.inputTTL, PayloadBytes(op.payload))
  }

  /** The call is carried out and ends the owner's expected input: expired, taken, cancelled, claimed, or replaced. */
  predicate EndsInput(op: Op, out: Out, now: nat, owner: Owner, e: InputEntry) {
    && Rejection(op).None?
    && (|| now >= e.expiresAt
        || (op.Target() == owner
            && (op.CancelInputOp? || op.CancelOwnerOp? || op.BeginOp?
                || (op.ConsumeInputOp? && out.Yielded?) || (op.ClaimOp? && out.Claimed?) || (AsksInput(op) && out.Done?))))
  }

  /** The owner's expected input afterwards: a new one if the call asked for it, none if it ended, else the same. */
  ghost predicate InputMoves(lim: Limits, s: State, op: Op, now: nat, s': State, out: Out, owner: Owner) {
    if AsksInput(op) && out.Done? && op.Target() == owner then owner in s'.inputs && s'.inputs[owner] == AskedInput(lim, op, now)
    else if owner !in s.inputs || EndsInput(op, out, now, owner, s.inputs[owner]) then owner !in s'.inputs
    else owner in s'.inputs && s'.inputs[owner] == s.inputs[owner]
  }

  predicate InputsOnlyExpire(s: State, s': State, now: nat) {
    s'.inputs == LiveInputs(s.inputs, now)
  }

  lemma {:induction false} TokenCallsSpareInputs(lim: Limits, s: State, op: Op, now: nat)
    requires IsIssue(op) || op.RedeemOp? || op.CancelTokenOp? || op.CancelSelectionsOp?
    ensures InputsOnlyExpire(s, Perform(lim, s, op, now).0, now)
  {
    match op {
      case IssueOp(purpose, owner, payload, supply) => IssueSparesInputs(lim, s, purpose, owner, payload, None, supply, now);
      case IssueBoundOp(o, payload, supply) => IssueSparesInputs(lim, s, Confirmation, o.owner, payload, Some(o.generation), supply, now);
      case _ =>
    }
  }

  lemma {:induction false} IssueSparesInputs(lim: Limits, s: State, purpose: Purpose, owner: Owner, payload: Payload, bound: Option<nat>, supply: seq<string>, now: nat)
    ensures InputsOnlyExpire(s, Issue(lim, s, purpose, owner, payload, bound, supply, now).0, now)
  {
  }

  lemma {:induction false} OtherCallsSpareInputs(lim: Limits, s: State, op: Op, now: nat)
    requires op.InputOp? || op.FinishOp? || op.CurrentOp?
    ensures InputsOnlyExpire(s, Perform(lim, s, op, now).0, now)
  {
  }

  lemma {:induction false} ExpiringMovesInputs(lim: Limits, s: State, op: Op, now: nat, s': State, out: Out, owner: Owner)
    requires InputsOnlyExpire(s, s', now) && Rejection(op).None? && !AsksInput(op)
    requires !op.CancelInputOp? && !op.CancelOwnerOp? && !op.BeginOp? && !op.ConsumeInputOp? && !op.ClaimOp?
    ensures InputMoves(lim, s, op, now, s', out, owner)
  {
  }

  lemma {:induction false} AskingMovesInputs(lim: Limits, s: State, op: Op, now: nat, owner: Owner)
    requires AsksInput(op) && Rejection(op).None?
    ensures var (s', out) := Perform(lim, s, op, now); InputMoves(lim, s, op, now, s', out, owner)
  {
    BeginMovesInputs(lim, s, op.Target(), op.kind, op.payload, if op.BeginInputBoundOp? then Some(op.op.generation) else None, now);
  }

  lemma {:induction false} BeginMovesInputs(lim: Limits, s: State, owner: Owner, kind: string, payload: Payload, bound: Option<nat>, now: nat)
    ensures var (s', out) := BeginInput(lim, s, owner, kind, payload, bound, now);
            s'.inputs == if out.Done? then LiveInputs(s.inputs, now)[owner := InputEntry(kind, payload, now + lim.inputTTL, PayloadBytes(payload))]
                         else LiveInputs(s.inputs, now)
  {
    var (s', out) := BeginInput(lim, s, owner, kind, payload, bound, now);
    var p := Pruned(s, now);
    if bound.Some? && !Current(p, Operation(owner, bound.value)) {
      assert s' == p;
    } else if out.Done? {
      assert s' == p.(inputs := p.inputs[owner := InputEntry(kind, payload, now + lim.inputTTL, PayloadBytes(payload))]);
    } else {
      assert s' == p;
    }
  }

  lemma {:induction false} CancellingInputs(lim: Limits, s: State, owner: Owner, now: nat)
    ensures CancelInput(lim, s, owner, now).0.inputs == LiveInputs(s.inputs, now) - {owner}
    ensures CancelOwner(lim, s, owner, now).0.inputs == LiveInputs(s.inputs, now) - {owner}
    ensures BeginOperation(lim, s, owner, now).0.inputs == LiveInputs(s.inputs, now) - {owner}
  {
  }

  lemma {:induction false} TakingInputs(lim: Limits, s: State, owner: Owner, kind: string, now: nat)
    ensures var (s', out) := ConsumeInput(lim, s, owner, kind, now);
            s'.inputs == if out.Yielded? then LiveInputs(s.inputs, now) - {owner} else LiveInputs(s.inputs, now)
    ensures var (s', out) := ClaimInput(lim, s, owner, now);
            s'.inputs == if out.Claimed? then LiveInputs(s.inputs, now) - {owner} else LiveInputs(s.inputs, now)
  {
  }

  lemma {:induction false} EndedOrKept(lim: Limits, s: State, op: Op, now: nat, s': State, out: Out, owner: Owner)
    requires Rejection(op).None? && !AsksInput(op)
    requires op.CancelInputOp? || op.CancelOwnerOp? || op.BeginOp? || op.ConsumeInputOp? || op.ClaimOp?
    requires var ended := op.CancelInputOp? || op.CancelOwnerOp? || op.BeginOp? || (op.ConsumeInputOp? && out.Yielded?) || (op.ClaimOp? && out.Claimed?);
             s'.inputs == if ended then LiveInputs(s.inputs, now) - {op.Target()} else LiveInputs(s.inputs, now)
    ensures InputMoves(lim, s, op, now, s', out, owner)
  {
  }

  lemma {:induction false} EndingMovesInputs(lim: Limits, s: State, op: Op, now: nat, owner: Owner)
    requires op.CancelInputOp? || op.CancelOwnerOp? || op.BeginOp? || op.ConsumeInputOp? || op.ClaimOp?
    requires Rejection(op).None?
    ensures var (s', out) := Perform(lim, s, op, now); InputMoves(lim, s, op, now, s', out, owner)
  {
    var (s', out) := Perform(lim, s, op, now);
    CancellingInputs(lim, s, op.Target(), now);
    TakingInputs(lim, s, op.Target(), if op.ConsumeInputOp? then op.kind else "", now);
    EndedOrKept(lim, s, op, now, s', out, owner);
  }

  /** Exactly what a store call does to an owner's expected input. */
  lemma {:induction false} StepDecidesInput(lim: Limits, s: State, op: Op, now: nat, owner: Owner)
    ensures var (s', out) := Step(lim, s, op, now); InputMoves(lim, s, op, now, s', out, owner)
  {
    if Rejection(op).None? {
      var (s', out) := Perform(lim, s, op, now);
      if AsksInput(op) {
        AskingMovesInputs(lim, s, op, now, owner);
      } else if op.CancelInputOp? || op.CancelOwnerOp? || op.BeginOp? || op.ConsumeInputOp? || op.ClaimOp? {
        EndingMovesInputs(lim, s, op, now, owner);
      } else {
        if IsIssue(op) || op.RedeemOp? || op.CancelTokenOp? || op.CancelSelectionsOp? {
          TokenCallsSpareInputs(lim, s, op, now);
        } else {
          OtherCallsSpareInputs(lim, s, op, now);
        }
        ExpiringMovesInputs(lim, s, op, now, s', out, owner);
      }
    }
  }

  /** Event `i` asked the owner for an input, and nothing since has ended it. */
  ghost predicate StillAsked(lim: Limits, h: History, i: nat, j: nat, owner: Owner)
    requires j <= |h.events| == |h.outs|
  {
    && i < j && AsksInput(h.events[i].op) && h.events[i].op.Target() == owner && h.outs[i].Done?
    && forall n :: i < n < j ==> !EndsInput(h.events[n].op, h.outs[n], h.events[n].now, owner, AskedInput(lim, h.events[i].op, h.events[i].now))
  }

  lemma {:induction false} AskedIsThere(lim: Limits, h: History, i: nat, j: nat, owner: Owner)
    requires IsHistory(lim, h) && j <= |h.events| && StillAsked(lim, h, i, j, owner)
    ensures owner in h.states[j].inputs && h.states[j].inputs[owner] == AskedInput(lim, h.events[i].op, h.events[i].now)
    decreases j
  {
    var n := j - 1;
    assert (h.states[j], h.outs[n]) == Step(lim, h.states[n], h.events[n].op, h.events[n].now);
    StepDecidesInput(lim, h.states[n], h.events[n].op, h.events[n].now, owner);
    if j > i + 1 {
      AskedIsThere(lim, h, i, n, owner);
    }
  }

  lemma {:induction false} StillAskedOn(lim: Limits, h: History, i: nat, n: nat, owner: Owner)
    requires n < |h.events| == |h.outs| && StillAsked(lim, h, i, n, owner)
    requires !EndsInput(h.events[n].op, h.outs[n], h.events[n].now, owner, AskedInput(lim, h.events[i].op, h.events[i].now))
    ensures StillAsked(lim, h, i, n + 1, owner)
  {
  }

  lemma {:induction false} WhatIsThereWasAsked(lim: Limits, h: History, j: nat, owner: Owner) returns (i: nat)
    requires IsHistory(lim, h) && j <= |h.events| && owner in h.states[j].inputs
    ensures StillAsked(lim, h, i, j, owner)
    decreases j
  {
    var n := j - 1;
    var s, ev, s', out := h.states[n], h.events[n], h.states[j], h.outs[n];
    assert (s', out) == Step(lim, s, ev.op, ev.now);
    StepDecidesInput(lim, s, ev.op, ev.now, owner);
    if AsksInput(ev.op) && out.Done? && ev.op.Target() == owner {
      i := n;
    } else {
      i := WhatIsThereWasAsked(lim, h, n, owner);
      AskedIsThere(lim, h, i, n, owner);
      StillAskedOn(lim, h, i, n, owner);
    }
  }

  /** The request that an answer at event `j` would serve. */
  ghost predicate Awaited(lim: Limits, h: History, i: nat, j: nat, owner: Owner)
    requires j < |h.events| == |h.outs|
  {
    StillAsked(lim, h, i, j, owner) && h.events[j].now < h.events[i].now + lim.inputTTL
  }

  lemma {:induction false} AnswersDecide(lim: Limits, s: State, owner: Owner, kind: string, now: nat)
    ensures var out := ConsumeInput(lim, s, owner, kind, now).1;
            && (out.Yielded? <==> owner in s.inputs && now < s.inputs[owner].expiresAt && s.inputs[owner].kind == kind)
            && (out.Yielded? ==> out.payload == s.inputs[owner].payload)
    ensures var out := PeekInput(s, owner, now).1;
            && (out.Yielded? <==> owner in s.inputs && now < s.inputs[owner].expiresAt)
            && (out.Yielded? ==> out.payload == s.inputs[owner].payload)
    ensures var out := ClaimInput(lim, s, owner, now).1;
            && (out.Claimed? <==> owner in s.inputs && now < s.inputs[owner].expiresAt && CanAdvance(lim, Pruned(s, now), owner))
            && (out.Claimed? ==> out.input == s.inputs[owner])
  {
  }

  /**
   Taking an input yields exactly if one was asked for under that kind, nothing
   since has ended the request, and it has not expired; what is yielded is what
   was kept with the request.
   */
  lemma {:induction false} TakingYieldsIff(lim: Limits, h: History, j: nat)
    requires IsHistory(lim, h) && j < |h.events| && h.events[j].op.ConsumeInputOp? && Rejection(h.events[j].op).None?
    ensures h.outs[j].Yielded? <==> exists i: nat :: Awaited(lim, h, i, j, h.events[j].op.owner) && h.events[i].op.kind == h.events[j].op.kind
    ensures forall i: nat :: h.outs[j].Yielded? && Awaited(lim, h, i, j, h.events[j].op.owner) ==> h.outs[j].payload == h.events[i].op.payload
  {
    var op, now := h.events[j].op, h.events[j].now;
    assert (h.states[j + 1], h.outs[j]) == Step(lim, h.states[j], op, now);
    AnswersDecide(lim, h.states[j], op.owner, op.kind, now);
    forall i: nat | Awaited(lim, h, i, j, op.owner)
      ensures op.owner in h.states[j].inputs && h.states[j].inputs[op.owner] == AskedInput(lim, h.events[i].op, h.events[i].now)
    {
      AskedIsThere(lim, h, i, j, op.owner);
    }
    if h.outs[j].Yielded? {
      var i := WhatIsThereWasAsked(lim, h, j, op.owner);
      AskedIsThere(lim, h, i, j, op.owner);
      assert Awaited(lim, h, i, j, op.owner);
    }
  }

  /** Claiming an input succeeds exactly if one is awaited and the generation table can take the owner. */
  lemma {:induction false} ClaimingYieldsIff(lim: Limits, h: History, j: nat)
    requires IsHistory(lim, h) && j < |h.events| && h.events[j].op.ClaimOp? && Rejection(h.events[j].op).None?
    ensures h.outs[j].Claimed? <==>
              && (exists i: nat :: Awaited(lim, h, i, j, h.events[j].op.owner))
              && CanAdvance(lim, Pruned(h.states[j], h.events[j].now), h.events[j].op.owner)
    ensures forall i: nat :: h.outs[j].Claimed? && Awaited(lim, h, i, j, h.events[j].op.owner) ==>
              h.outs[j].input == AskedInput(lim, h.events[i].op, h.events[i].now)
  {
    var op, now := h.events[j].op, h.events[j].now;
    assert (h.states[j + 1], h.outs[j]) == Step(lim, h.states[j], op, now);
    AnswersDecide(lim, h.states[j], op.owner, "", now);
    forall i: nat | Awaited(lim, h, i, j, op.owner)
      ensures op.owner in h.states[j].inputs && h.states[j].inputs[op.owner] == AskedInput(lim, h.events[i].op, h.events[i].now)
    {
      AskedIsThere(lim, h, i, j, op.owner);
    }
    if op.owner in h.states[j].inputs && now < h.states[j].inputs[op.owner].expiresAt {
      var i := WhatIsThereWasAsked(lim, h, j, op.owner);
      AskedIsThere(lim, h, i, j, op.owner);
      assert Awaited(lim, h, i, j, op.owner);
    }
  }

  // ---------- What the other calls report ----------

  predicate InputIsLive(s: State, owner: Owner, now: nat) {
    owner in s.inputs && now < s.inputs[owner].expiresAt
  }

  /**
   An owner cancellation reports that it removed something exactly if the owner
   had an unfinished operation, a token or an expected input, none of them
   expired; afterwards the owner has no token and no input.
   */
  lemma {:induction false} CancelOwnerReports(lim: Limits, s: State, owner: Owner, now: nat)
    ensures var (s', out) := CancelOwner(lim, s, owner, now);
            && out.Cutoff?
            && (out.removed <==> (owner in s.gens && now < s.gens[owner].expiresAt && s.gens[owner].active)
                                 || (exists t :: t in s.tokens && IsLive(s, t, now) && s.tokens[t].owner == owner)
                                 || InputIsLive(s, owner, now))
            && owner !in s'.inputs && forall t :: t in s'.tokens ==> s'.tokens[t].owner != owner
  {
    var p := Pruned(s, now);
    if t :| t in s.tokens && IsLive(s, t, now) && s.tokens[t].owner == owner {
      assert t in OwnedBy(p.tokens, owner);
    }
    if OwnedBy(p.tokens, owner) != {} {
      var t :| t in OwnedBy(p.tokens, owner);
      assert IsLive(s, t, now);
    }
  }

  lemma {:induction false} CancelSelectionsReports(s: State, op: Operation, kind: string, now: nat)
    ensures var out := CancelSelections(s, op, kind, now).1;
            if HoldsGeneration(s, op, now) then
              out == Flag(exists t :: t in s.tokens && IsLive(s, t, now) && s.tokens[t].owner == op.owner
                                      && s.tokens[t].purpose == Selection && s.tokens[t].payload.kind == kind)
            else out == Failed(NotCurrent)
  {
    var p := Pruned(s, now);
    if t :| t in s.tokens && IsLive(s, t, now) && s.tokens[t].owner == op.owner && s.tokens[t].purpose == Selection && s.tokens[t].payload.kind == kind {
      assert t in SelectionsOf(p.tokens, op.owner, kind);
    }
    if SelectionsOf(p.tokens, op.owner, kind) != {} {
      var t :| t in SelectionsOf(p.tokens, op.owner, kind);
      assert IsLive(s, t, now);
    }
  }

  /** The flags of the single cancellations, and of the currency check. */
  lemma {:induction false} FlagsReport(lim: Limits, s: State, token: string, purpose: Purpose, owner: Owner, op: Operation, now: nat)
    ensures CancelToken(s, token, purpose, owner, now).1 == Flag(IsLive(s, token, now) && s.tokens[token].purpose == purpose && s.tokens[token].owner == owner)
    ensures CancelInput(lim, s, owner, now).1 == Flag(InputIsLive(s, owner, now))
    ensures OperationCurrent(s, op, now).1 == Flag(HoldsGeneration(s, op, now))
  {
  }

  /** Finishing the current operation marks it as no longer active; its generation stays the owner's, and nothing else changes but by expiry. */
  lemma {:induction false} FinishMarks(s: State, op: Operation, now: nat)
    ensures var s' := FinishOperation(s, op, now).0;
            && s'.tokens == LiveTokens(s.tokens, now) && s'.inputs == LiveInputs(s.inputs, now) && s'.nextGeneration == s.nextGeneration
            && (HoldsGeneration(s, op, now) ==> op.owner in s'.gens && !s'.gens[op.owner].active && SameGeneration(s, s', op.owner))
            && forall o :: o in s.gens && now < s.gens[o].expiresAt && (o != op.owner || !HoldsGeneration(s, op, now)) ==> o in s'.gens && s'.gens[o] == s.gens[o]
  {
  }

  /**
   An expected input is accepted exactly if it is not too large, there is room for
   it in place of the owner's earlier one, and, if it is asked for on behalf of an
   operation, that operation's generation is the owner's unexpired current one.
   */
  lemma {:induction false} InputAcceptedIff(lim: Limits, s: State, owner: Owner, kind: string, payload: Payload, bound: Option<nat>, now: nat)
    ensures BeginInput(lim, s, owner, kind, payload, bound, now).1.Done? <==>
              && (bound.Some? ==> HoldsGeneration(s, Operation(owner, bound.value), now))
              && PayloadBytes(payload) <= lim.maxPayload
              && (InputIsLive(s, owner, now) || |LiveInputs(s.inputs, now)| < lim.maxInputs)
              && TokenBytes(LiveTokens(s.tokens, now)) + InputBytes(LiveInputs(s.inputs, now) - {owner}) + PayloadBytes(payload) <= lim.maxState
  {
    if bound.Some? {
      CurrentIff(s, owner, bound.value, now);
    }
    assert owner in LiveInputs(s.inputs, now) <==> InputIsLive(s, owner, now);
  }
}
