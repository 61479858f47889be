/**
 The mutable store: maps updated in place and a running byte
 counter. Each method is proved against its function in
 ExtensionStore; `Valid` says the counter is the exact sum of
 the live sizes, so the defensive clamp in `ReleaseBytes` is
 never taken.
 */
module ExtensionStoreClass {
  import opened Options
  import opened Sizes
  import opened Totals
  import opened ExtensionStore

  lemma {:induction false} RemoveTokenBytes(tokens: map<string, TokenEntry>, t: string)
    requires t in tokens
    ensures TokenBytes(tokens) == tokens[t].bytes + TokenBytes(tokens - {t})
  {
    var sizes := map u | u in tokens :: tokens[u].bytes;
    var rest := tokens - {t};
    assert (map u | u in rest :: rest[u].bytes) == sizes - {t};
    TotalRemove(sizes, t);
  }

  lemma {:induction false} RemoveInputBytes(inputs: map<Owner, InputEntry>, o: Owner)
    requires o in inputs
    ensures InputBytes(inputs) == inputs[o].bytes + InputBytes(inputs - {o})
  {
    var sizes := map u | u in inputs :: inputs[u].bytes;
    var rest := inputs - {o};
    assert (map u | u in rest :: rest[u].bytes) == sizes - {o};
    TotalRemove(sizes, o);
  }

  class StateStore {
    var tokens: map<string, TokenEntry>
    var inputs: map<Owner, InputEntry>
    var generations: map<Owner, GenEntry>
    var usedBytes: int
    var nextGeneration: nat
    const lim: Limits

    ghost function View(): State
      reads this
    {
      State(tokens, inputs, generations, nextGeneration)
    }

    ghost predicate Valid()
      reads this
    {
      usedBytes == UsedBytes(View())
    }

    constructor (lim: Limits)
      ensures Valid() && View() == State(map[], map[], map[], 0) && this.lim == lim
    {
      tokens, inputs, generations := map[], map[], map[];
      usedBytes, nextGeneration := 0, 0;
      this.lim := lim;
    }

    /** The defensive clamp; with exact accounting the deletions below always release what is there. */
    method ReleaseBytes(count: nat)
      modifies this`usedBytes
      ensures usedBytes == if old(usedBytes) < count then 0 else old(usedBytes) - count
    {
      usedBytes := usedBytes - count;
      if usedBytes < 0 {
        usedBytes := 0;
      }
    }

    method DeleteToken(token: string)
      requires Valid() && token in tokens
      modifies this`tokens, this`usedBytes
      ensures Valid() && tokens == old(tokens) - {token}
      ensures usedBytes == old(usedBytes) - old(tokens)[token].bytes
    {
      RemoveTokenBytes(tokens, token);
      var entry := tokens[token];
      tokens := tokens - {token};
      ReleaseBytes(entry.bytes);
    }

    method DeleteInput(owner: Owner)
      requires Valid() && owner in inputs
      modifies this`inputs, this`usedBytes
      ensures Valid() && inputs == old(inputs) - {owner}
      ensures usedBytes == old(usedBytes) - old(inputs)[owner].bytes
    {
      RemoveInputBytes(inputs, owner);
      var entry := inputs[owner];
      inputs := inputs - {owner};
      ReleaseBytes(entry.bytes);
    }

    method DropInput(owner: Owner) returns (had: bool)
      requires Valid()
      modifies this`inputs, this`usedBytes
      ensures Valid() && inputs == old(inputs) - {owner} && had == (owner in old(inputs))
    {
      had := owner in inputs;
      if had {
        DeleteInput(owner);
      }
    }

    method DeleteTokens(gone: set<string>)
      requires Valid() && gone <= tokens.Keys
      modifies this`tokens, this`usedBytes
      ensures Valid() && tokens == old(tokens) - gone
    {
      var todo := gone;
      while todo != {}
        invariant Valid() && todo <= gone && tokens == old(tokens) - (gone - todo)
        decreases todo
      {
        var t :| t in todo;
        assert t in tokens;
        DeleteToken(t);
        todo := todo - {t};
        assert old(tokens) - (gone - todo) == tokens;
      }
      assert gone - todo == gone;
    }

    method PruneTokens(now: nat)
      requires Valid()
      modifies this`tokens, this`usedBytes
      ensures Valid() && tokens == LiveTokens(old(tokens), now)
    {
      var todo := tokens.Keys;
      while todo != {}
        invariant Valid() && todo <= tokens.Keys <= old(tokens).Keys
        invariant forall t :: t in old(tokens) ==> (t in tokens <==> t in todo || now < old(tokens)[t].expiresAt)
        invariant forall t :: t in tokens ==> tokens[t] == old(tokens)[t]
        decreases todo
      {
        var t :| t in todo;
        if now >= tokens[t].expiresAt {
          DeleteToken(t);
        }
        todo := todo - {t};
      }
      assert tokens == LiveTokens(old(tokens), now);
    }

    method PruneInputs(now: nat)
      requires Valid()
      modifies this`inputs, this`usedBytes
      ensures Valid() && inputs == LiveInputs(old(inputs), now)
    {
      var todo := inputs.Keys;
      while todo != {}
        invariant Valid() && todo <= inputs.Keys <= old(inputs).Keys
        invariant forall o :: o in old(inputs) ==> (o in inputs <==> o in todo || now < old(inputs)[o].expiresAt)
        invariant forall o :: o in inputs ==> inputs[o] == old(inputs)[o]
        decreases todo
      {
        var o :| o in todo;
        if now >= inputs[o].expiresAt {
          DeleteInput(o);
        }
        todo := todo - {o};
      }
      assert inputs == LiveInputs(old(inputs), now);
    }

    method PruneGenerations(now: nat)
      modifies this`generations
      ensures generations == LiveGens(old(generations), now)
    {
      var todo := generations.Keys;
      while todo != {}
        invariant todo <= generations.Keys <= old(generations).Keys
        invariant forall o :: o in old(generations) ==> (o in generations <==> o in todo || now < old(generations)[o].expiresAt)
        invariant forall o :: o in generations ==> generations[o] == old(generations)[o]
        decreases todo
      {
        var o :| o in todo;
        if now >= generations[o].expiresAt {
          generations := generations - {o};
        }
        todo := todo - {o};
      }
      assert generations == LiveGens(old(generations), now);
    }

    method Prune(now: nat)
      requires Valid()
      modifies this`tokens, this`inputs, this`generations, this`usedBytes
      ensures Valid() && View() == Pruned(old(View()), now)
    {
      PruneTokens(now);
      PruneInputs(now);
      PruneGenerations(now);
    }

    /** `advanceGenerationLocked`, with the flag its callers store; 0 stands for the full table. */
    method AdvanceGeneration(owner: Owner, now: nat, active: bool) returns (value: nat)
      modifies this`generations, this`nextGeneration
      ensures View() == Advanced(lim, old(View()), owner, now, active)
      ensures value == if CanAdvance(lim, old(View()), owner) then nextGeneration else 0
    {
      if owner !in generations && |generations| >= lim.maxTokens {
        return 0;
      }
      nextGeneration := nextGeneration + 1;
      value := nextGeneration;
      generations := generations[owner := GenEntry(value, now + lim.selectionTTL, active)];
    }

    method FindToken(supply: seq<string>) returns (token: Option<string>)
      ensures token == NewToken(tokens, supply, TOKEN_ATTEMPTS)
    {
      var attempt := 0;
      while attempt < TOKEN_ATTEMPTS && attempt < |supply|
        invariant 0 <= attempt <= TOKEN_ATTEMPTS && attempt <= |supply|
        invariant NewToken(tokens, supply, TOKEN_ATTEMPTS) == NewToken(tokens, supply[attempt..], TOKEN_ATTEMPTS - attempt)
      {
        if supply[attempt] !in tokens {
          return Some(supply[attempt]);
        }
        assert supply[attempt..][1..] == supply[attempt + 1..];
        attempt := attempt + 1;
      }
      token := None;
    }

    /** The scan of `issueToken`: which confirmations go, and how many bytes that frees. */
    method ScanReplaced(purpose: Purpose, owner: Owner, kind: string) returns (gone: set<string>, freed: nat)
      ensures gone == Replaced(tokens, purpose, owner, kind)
      ensures TokenBytes(tokens) == freed + TokenBytes(tokens - gone)
      ensures |tokens| == |gone| + |tokens - gone|
    {
      gone, freed := {}, 0;
      var todo := tokens.Keys;
      assert tokens - {} == tokens;
      while todo != {}
        invariant todo <= tokens.Keys && gone <= tokens.Keys && gone !! todo
        invariant forall t :: t in tokens && t !in todo ==> (t in gone <==> t in Replaced(tokens, purpose, owner, kind))
        invariant TokenBytes(tokens) == freed + TokenBytes(tokens - gone)
        invariant |tokens| == |gone| + |tokens - gone|
        decreases todo
      {
        var t :| t in todo;
        var e := tokens[t];
        if purpose == Confirmation && e.purpose == Confirmation && e.owner == owner && e.payload.kind == kind {
          RemoveTokenBytes(tokens - gone, t);
          SizeRemove(tokens - gone, t);
          assert tokens - gone - {t} == tokens - (gone + {t});
          gone := gone + {t};
          freed := freed + e.bytes;
        }
        todo := todo - {t};
      }
      assert gone == Replaced(tokens, purpose, owner, kind);
    }

    method StoreToken(token: string, entry: TokenEntry)
      requires Valid() && token !in tokens
      modifies this`tokens, this`usedBytes
      ensures Valid() && tokens == old(tokens)[token := entry]
    {
      AddTokenBytes(tokens, token, entry);
      tokens := tokens[token := entry];
      usedBytes := usedBytes + entry.bytes;
    }

    /** The part of `issueToken` that follows the capacity-independent checks. */
    method ReplaceAndStore(token: string, entry: TokenEntry) returns (out: Out)
      requires Valid() && token !in tokens
      modifies this`tokens, this`usedBytes
      ensures Valid()
      ensures (View(), out) == IssueUnder(lim, old(View()), token, entry)
    {
      var gone, freed := ScanReplaced(entry.purpose, entry.owner, entry.payload.kind);
      if |tokens| - |gone| >= lim.maxTokens || usedBytes - freed + entry.bytes > lim.maxState {
        return Failed(Full);
      }
      DeleteTokens(gone);
      StoreToken(token, entry);
      out := Issued(token, entry.expiresAt);
    }

    method IssueToken(purpose: Purpose, owner: Owner, payload: Payload, bound: Option<nat>, supply: seq<string>, now: nat) returns (out: Out)
      requires Valid()
      modifies this`tokens, this`inputs, this`generations, this`usedBytes
      ensures Valid()
      ensures (View(), out) == Issue(lim, old(View()), purpose, owner, payload, bound, supply, now)
    {
      Prune(now);
      if bound.Some? && !(owner in generations && generations[owner].value == bound.value) {
        return Failed(NotCurrent);
      }
      if PayloadBytes(payload) > lim.maxPayload {
        return Failed(TooLarge);
      }
      var token := FindToken(supply);
      if token.None? {
        return Failed(NoToken);
      }
      NewTokenIsUnused(tokens, supply, TOKEN_ATTEMPTS);
      out := ReplaceAndStore(token.value, StoredEntry(lim, purpose, owner, payload, bound, now));
    }

    /** Store an unbound selection under the first unused token of the supply. */
    method StoreSelection(entry: TokenEntry, supply: seq<string>) returns (out: Out)
      requires Valid()
      modifies this`tokens, this`usedBytes
      ensures Valid()
      ensures var token := NewToken(old(tokens), supply, TOKEN_ATTEMPTS);
              if token.None? then tokens == old(tokens) && out == Failed(NoToken)
              else tokens == old(tokens)[token.value := entry] && out == Issued(token.value, entry.expiresAt)
    {
      var token := FindToken(supply);
      if token.None? {
        return Failed(NoToken);
      }
      NewTokenIsUnused(tokens, supply, TOKEN_ATTEMPTS);
      StoreToken(token.value, entry);
      out := Issued(token.value, entry.expiresAt);
    }

    method IssueSelectionFor(op: Operation, payload: Payload, supply: seq<string>, now: nat) returns (out: Out)
      requires Valid()
      modifies this`tokens, this`inputs, this`generations, this`usedBytes
      ensures Valid()
      ensures (View(), out) == IssueSelectionForOperation(lim, old(View()), op, payload, supply, now)
    {
      Prune(now);
      var size := PayloadBytes(payload);
      if !(op.owner in generations && generations[op.owner].value == op.generation) {
        return Failed(NotCurrent);
      }
      if size > lim.maxPayload || |tokens| >= lim.maxTokens || usedBytes + size > lim.maxState {
        return Failed(Full);
      }
      out := StoreSelection(TokenEntry(Selection, op.owner, payload, 0, now + lim.selectionTTL, size), supply);
    }

    method TokenPayload(token: string, purpose: Purpose, owner: Owner, kind: string, consume: bool, now: nat) returns (out: Out)
      requires Valid()
      modifies this`tokens, this`inputs, this`generations, this`usedBytes
      ensures Valid()
      ensures (View(), out) == Redeem(old(View()), token, purpose, owner, kind, consume, now)
    {
      Prune(now);
      if token !in tokens {
        return Missing;
      }
      var entry := tokens[token];
      if entry.purpose != purpose || entry.owner != owner || entry.payload.kind != kind {
        return Missing;
      }
      if purpose == Confirmation && entry.generation != 0 {
        if owner !in generations || generations[owner].value != entry.generation {
          return Missing;
        }
      }
      if consume {
        DeleteToken(token);
      }
      out := Yielded(entry.payload);
    }

    method CancelOneToken(token: string, purpose: Purpose, owner: Owner, now: nat) returns (out: Out)
      requires Valid()
      modifies this`tokens, this`inputs, this`generations, this`usedBytes
      ensures Valid()
      ensures (View(), out) == CancelToken(old(View()), token, purpose, owner, now)
    {
      Prune(now);
      if token !in tokens || tokens[token].purpose != purpose || tokens[token].owner != owner {
        return Flag(false);
      }
      DeleteToken(token);
      out := Flag(true);
    }

    method ReplaceInput(owner: Owner, entry: InputEntry) returns (ok: bool)
      requires Valid()
      modifies this`inputs, this`usedBytes
      ensures Valid()
      ensures ok == !((owner !in old(inputs) && |old(inputs)| >= lim.maxInputs) ||
                      UsedBytes(old(View()).(inputs := old(inputs) - {owner})) + entry.bytes > lim.maxState)
      ensures inputs == if ok then old(inputs)[owner := entry] else old(inputs)
    {
      var replacing := owner in inputs;
      var previousBytes := if replacing then inputs[owner].bytes else 0;
      PreviousInput(inputs, owner);
      if (!replacing && |inputs| >= lim.maxInputs) || usedBytes - previousBytes + entry.bytes > lim.maxState {
        return false;
      }
      PutInputBytes(inputs, owner, entry);
      ghost var before := inputs;
      var _ := DropInput(owner);
      inputs := inputs[owner := entry];
      assert inputs == before[owner := entry];
      usedBytes := usedBytes + entry.bytes;
      ok := true;
    }

    method ExpectInput(owner: Owner, kind: string, payload: Payload, bound: Option<nat>, now: nat) returns (out: Out)
      requires Valid()
      modifies this`tokens, this`inputs, this`generations, this`usedBytes
      ensures Valid()
      ensures (View(), out) == BeginInput(lim, old(View()), owner, kind, payload, bound, now)
    {
      Prune(now);
      var size := PayloadBytes(payload);
      if bound.Some? && !(owner in generations && generations[owner].value == bound.value) {
        return Failed(NotCurrent);
      }
      if size > lim.maxPayload {
        return Failed(if bound.Some? then Full else TooLarge);
      }
      var ok := ReplaceInput(owner, InputEntry(kind, payload, now + lim.inputTTL, size));
      out := if ok then Done else Failed(Full);
    }

    method TakeInput(owner: Owner, kind: string, now: nat) returns (out: Out)
      requires Valid()
      modifies this
      ensures Valid()
      ensures (View(), out) == ConsumeInput(lim, old(View()), owner, kind, now)
    {
      Prune(now);
      var _ := AdvanceGeneration(owner, now, false);
      if owner !in inputs || inputs[owner].kind != kind {
        return Missing;
      }
      var payload := inputs[owner].payload;
      DeleteInput(owner);
      out := Yielded(payload);
    }

    method AbandonInput(owner: Owner, now: nat) returns (out: Out)
      requires Valid()
      modifies this
      ensures Valid()
      ensures (View(), out) == CancelInput(lim, old(View()), owner, now)
    {
      Prune(now);
      var _ := AdvanceGeneration(owner, now, false);
      var had := DropInput(owner);
      out := Flag(had);
    }

    method CancelOwnerWithGeneration(owner: Owner, now: nat) returns (out: Out)
      requires Valid()
      modifies this
      ensures Valid()
      ensures (View(), out) == CancelOwner(lim, old(View()), owner, now)
    {
      Prune(now);
      var wasActive := owner in generations && generations[owner].active;
      var cutoff := AdvanceGeneration(owner, now, false);
      var owned := set t | t in tokens && tokens[t].owner == owner;
      DeleteTokens(owned);
      var had := DropInput(owner);
      out := Cutoff(wasActive || owned != {} || had, cutoff);
    }

    method Begin(owner: Owner, now: nat) returns (out: Out)
      requires Valid()
      modifies this
      ensures Valid()
      ensures (View(), out) == BeginOperation(lim, old(View()), owner, now)
    {
      Prune(now);
      var _ := DropInput(owner);
      label dropped:
      var generation := AdvanceGeneration(owner, now, true);
      AdvanceLeavesBytes(lim, old@dropped(View()), owner, now, true);
      out := if generation != 0 then Generation(generation) else Failed(Full);
    }

    method Claim(owner: Owner, now: nat) returns (out: Out)
      requires Valid()
      modifies this
      ensures Valid()
      ensures (View(), out) == ClaimInput(lim, old(View()), owner, now)
    {
      Prune(now);
      if owner !in inputs {
        return Missing;
      }
      var entry := inputs[owner];
      var generation := AdvanceGeneration(owner, now, true);
      if generation == 0 {
        return Missing;
      }
      DeleteInput(owner);
      out := Claimed(entry, generation);
    }

    method Finish(op: Operation, now: nat)
      requires Valid()
      modifies this`tokens, this`inputs, this`generations, this`usedBytes
      ensures Valid()
      ensures View() == FinishOperation(old(View()), op, now).0
    {
      Prune(now);
      if op.owner in generations && generations[op.owner].value == op.generation {
        generations := generations[op.owner := generations[op.owner].(active := false)];
      }
    }

    method CancelSelectionsByKind(op: Operation, kind: string, now: nat) returns (out: Out)
      requires Valid()
      modifies this`tokens, this`inputs, this`generations, this`usedBytes
      ensures Valid()
      ensures (View(), out) == CancelSelections(old(View()), op, kind, now)
    {
      Prune(now);
      if !(op.owner in generations && generations[op.owner].value == op.generation) {
        return Failed(NotCurrent);
      }
      var gone := set t | t in tokens && tokens[t].owner == op.owner && tokens[t].purpose == Selection && tokens[t].payload.kind == kind;
      DeleteTokens(gone);
      out := Flag(gone != {});
    }
  }

  lemma {:induction false} AdvanceLeavesBytes(lim: Limits, s: State, owner: Owner, now: nat, active: bool)
    ensures UsedBytes(Advanced(lim, s, owner, now, active)) == UsedBytes(s)
  {
  }

  lemma {:induction false} PreviousInput(inputs: map<Owner, InputEntry>, owner: Owner)
    ensures InputBytes(inputs) == InputBytes(inputs - {owner}) + if owner in inputs then inputs[owner].bytes else 0
  {
    if owner in inputs {
      RemoveInputBytes(inputs, owner);
    } else {
      assert inputs - {owner} == inputs;
    }
  }
}
