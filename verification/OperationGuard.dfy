module OperationGuard {
  // The per-owner guard around preview operations: a start checks the store,
  // registers under the guard's lock and checks again, while cancellations first
  // advance the owner's generation in the store and then cancel through a cutoff.
  // The two locks are different, so every section is a step of its own.

  import opened ExtensionStore

  type OpId = nat
  type CancelId = nat

  datatype Phase =
    | Begun           // holds a generation, has not checked it yet
    | Checked         // passed the first check
    | Registered      // in the guard's table, second check to come
    | Unregistering   // failed the second check, about to leave the table
    | Started         // start returned after a passed second check
    | Refused         // start returned with a cancelled context
    | Finishing | Finished

  datatype Operating = Operating(owner: Owner, generation: nat, cancelled: bool, phase: Phase)

  datatype Cancelling = Cancelling(owner: Owner, cutoff: nat, done: bool)

  datatype Sys = Sys(
    store: State,
    active: map<Owner, OpId>,
    ops: map<OpId, Operating>,
    cancels: map<CancelId, Cancelling>)

  datatype Step =
    | StoreCall(op: Op, now: nat)                     // any other store method, by anyone
    | Begin(id: OpId, op: Op, now: nat)               // BeginOperation or ClaimInput
    | FirstCheck(id: OpId, now: nat)
    | Register(id: OpId)
    | SecondCheck(id: OpId, now: nat)
    | Unregister(id: OpId)
    | FinishBegins(id: OpId)
    | FinishEnds(id: OpId)
    | ContextEnds(id: OpId)                           // timeout or parent cancellation
    | CancelBegins(c: CancelId, owner: Owner, now: nat)
    | CancelThrough(c: CancelId)

  predicate Init(s: Sys) {
    s == Sys(State(map[], map[], map[], 0), map[], map[], map[])
  }

  function WithOp(s: Sys, id: OpId, phase: Phase, cancel: bool): Sys
    requires id in s.ops
  {
    s.(ops := s.ops[id := s.ops[id].(phase := phase, cancelled := s.ops[id].cancelled || cancel)])
  }

  /** `delete(active, owner)` guarded by the generation comparison. */
  function Left(s: Sys, id: OpId): map<Owner, OpId>
    requires id in s.ops
  {
    var owner := s.ops[id].owner;
    if owner in s.active && s.active[owner] in s.ops && s.ops[s.active[owner]].generation == s.ops[id].generation
    then s.active - {owner} else s.active
  }

  function Cancelled(ops: map<OpId, Operating>, id: OpId): map<OpId, Operating> {
    if id in ops then ops[id := ops[id].(cancelled := true)] else ops
  }

  /** The registration section of `startBotExtensionOperation`. */
  function AfterRegister(s: Sys, id: OpId): Sys
    requires id in s.ops
  {
    var owner := s.ops[id].owner;
    if owner in s.active && s.active[owner] in s.ops && s.ops[s.active[owner]].generation > s.ops[id].generation then
      WithOp(s, id, Refused, true)
    else
      var t := if owner in s.active then s.(ops := Cancelled(s.ops, s.active[owner])) else s;
      WithOp(t.(active := s.active[owner := id]), id, Registered, false)
  }

  /** The section of `cancelBotExtensionOperationThrough`. */
  function AfterCancelThrough(s: Sys, c: CancelId): Sys
    requires c in s.cancels
  {
    var Cancelling(owner, cutoff, _) := s.cancels[c];
    var t := s.(cancels := s.cancels[c := s.cancels[c].(done := true)]);
    if cutoff != 0 && owner in s.active && s.active[owner] in s.ops && s.ops[s.active[owner]].generation <= cutoff
    then t.(ops := Cancelled(s.ops, s.active[owner]), active := s.active - {owner})
    else t
  }

  ghost predicate Begins(lim: Limits, s: Sys, id: OpId, op: Op, now: nat, s': Sys) {
    && id !in s.ops && (op.BeginOp? || op.ClaimOp?)
    && var (store, out) := ExtensionStore.Step(lim, s.store, op, now);
       if out.Generation? || out.Claimed? then
         s' == s.(store := store, ops := s.ops[id := Operating(op.owner, out.generation, false, Begun)])
       else s' == s.(store := store)
  }

  ghost predicate Next(lim: Limits, s: Sys, step: Step, s': Sys) {
    match step
    case StoreCall(op, now) =>
      s' == s.(store := ExtensionStore.Step(lim, s.store, op, now).0)
    case Begin(id, op, now) =>
      Begins(lim, s, id, op, now, s')
    case FirstCheck(id, now) =>
      && id in s.ops && s.ops[id].phase.Begun?
      && var t := s.(store := Pruned(s.store, now));
         s' == if Current(t.store, Operation(s.ops[id].owner, s.ops[id].generation)) then WithOp(t, id, Checked, false) else WithOp(t, id, Refused, true)
    case Register(id) =>
      id in s.ops && s.ops[id].phase.Checked? && s' == AfterRegister(s, id)
    case SecondCheck(id, now) =>
      && id in s.ops && s.ops[id].phase.Registered?
      && var t := s.(store := Pruned(s.store, now));
         s' == if Current(t.store, Operation(s.ops[id].owner, s.ops[id].generation)) then WithOp(t, id, Started, false) else WithOp(t, id, Unregistering, true)
    case Unregister(id) =>
      id in s.ops && s.ops[id].phase.Unregistering? && s' == WithOp(s.(active := Left(s, id)), id, Refused, true)
    case FinishBegins(id) =>
      id in s.ops && s.ops[id].phase.Started? && s' == WithOp(s, id, Finishing, true)
    case FinishEnds(id) =>
      id in s.ops && s.ops[id].phase.Finishing? && s' == WithOp(s.(active := Left(s, id)), id, Finished, true)
    case ContextEnds(id) =>
      id in s.ops && s' == s.(ops := Cancelled(s.ops, id))
    case CancelBegins(c, owner, now) =>
      && c !in s.cancels
      && var (store, out) := CancelOwner(lim, s.store, owner, now);
         out.Cutoff? && s' == s.(store := store, cancels := s.cancels[c := Cancelling(owner, out.cutoff, false)])
    case CancelThrough(c) =>
      c in s.cancels && !s.cancels[c].done && s' == AfterCancelThrough(s, c)
  }

  ghost predicate IsRun(lim: Limits, states: seq<Sys>, steps: seq<Step>) {
    && |states| == |steps| + 1
    && Init(states[0])
    && forall i :: 0 <= i < |steps| ==> Next(lim, states[i], steps[i], states[i + 1])
  }

  // ---------- The guard object ----------

  /** An entry of the table: the generation and the operation whose context the stored function cancels. */
  datatype Entry = Entry(generation: nat, id: OpId)

  /** The guard under its mutex; `cancelled` collects the operations whose cancel function was called. */
  class Guard {
    var active: map<Owner, Entry>
    var cancelled: set<OpId>

    ghost predicate Represents(s: Sys)
      reads this
    {
      && active.Keys == s.active.Keys
      && (forall owner :: owner in active ==>
            && s.active[owner] in s.ops
            && active[owner] == Entry(s.ops[s.active[owner]].generation, s.active[owner]))
      && (forall id :: id in s.ops ==> (id in cancelled <==> s.ops[id].cancelled))
    }

    constructor ()
      ensures active == map[] && cancelled == {}
    {
      active, cancelled := map[], {};
    }

    /** The registration section; `ok` says whether the start goes on to its second check. */
    method Register(id: OpId, owner: Owner, generation: nat, ghost s: Sys) returns (ok: bool)
      requires Represents(s) && id in s.ops && s.ops[id].owner == owner && s.ops[id].generation == generation
      modifies this
      ensures Represents(AfterRegister(s, id))
      ensures ok == AfterRegister(s, id).ops[id].phase.Registered?
      ensures ok <==> !(owner in old(active) && old(active)[owner].generation > generation)
      ensures ok ==> active == old(active)[owner := Entry(generation, id)]
                     && cancelled == old(cancelled) + if owner in old(active) then {old(active)[owner].id} else {}
      ensures !ok ==> active == old(active) && cancelled == old(cancelled) + {id}
    {
      if owner in active && active[owner].generation > generation {
        cancelled := cancelled + {id};
        return false;
      }
      if owner in active {
        cancelled := cancelled + {active[owner].id};
      }
      active := active[owner := Entry(generation, id)];
      return true;
    }

    /** Cancel one's own context and leave the table unless another generation has taken the place. */
    method Leave(id: OpId, owner: Owner, generation: nat, ghost s: Sys, ghost phase: Phase)
      requires Represents(s) && id in s.ops && s.ops[id].owner == owner && s.ops[id].generation == generation
      modifies this
      ensures Represents(WithOp(s.(active := Left(s, id)), id, phase, true))
      ensures cancelled == old(cancelled) + {id}
      ensures active == if owner in old(active) && old(active)[owner].generation == generation then old(active) - {owner} else old(active)
    {
      cancelled := cancelled + {id};
      if owner in active && active[owner].generation == generation {
        active := active - {owner};
      }
    }

    method CancelThrough(owner: Owner, cutoff: nat, ghost c: CancelId, ghost s: Sys) returns (hit: bool)
      requires Represents(s) && c in s.cancels && s.cancels[c].owner == owner && s.cancels[c].cutoff == cutoff
      modifies this
      ensures Represents(AfterCancelThrough(s, c))
      ensures hit <==> AfterCancelThrough(s, c).active != s.active
      ensures hit <==> cutoff != 0 && owner in old(active) && old(active)[owner].generation <= cutoff
      ensures hit ==> active == old(active) - {owner} && cancelled == old(cancelled) + {old(active)[owner].id}
      ensures !hit ==> active == old(active) && cancelled == old(cancelled)
    {
      hit := false;
      if cutoff == 0 {
        return;
      }
      if owner in active && active[owner].generation <= cutoff {
        cancelled := cancelled + {active[owner].id};
        active := active - {owner};
        hit := true;
      }
    }
  }

  // ---------- The invariant ----------

  /** The start has returned to its caller. */
  predicate Returned(phase: Phase) {
    phase.Started? || phase.Refused? || phase.Finishing? || phase.Finished?
  }

  predicate OpInv(s: Sys, id: OpId)
    requires id in s.ops
  {
    var o := s.ops[id];
    && 0 < o.generation <= s.store.nextGeneration
    && (!o.cancelled && (o.phase.Registered? || o.phase.Started?) ==> o.owner in s.active && s.active[o.owner] == id)
    && (o.phase.Unregistering? || o.phase.Refused? || o.phase.Finishing? || o.phase.Finished? ==> o.cancelled)
  }

  /** Once the store part is done, the owner's generation has reached the cutoff or is gone. */
  predicate CancelInv(s: Sys, c: Cancelling) {
    && c.cutoff <= s.store.nextGeneration
    && (c.cutoff != 0 && c.owner in s.store.gens ==> s.store.gens[c.owner].value >= c.cutoff)
  }

  /** The guarantee for one cancellation and one operation. */
  predicate Caught(c: Cancelling, o: Operating) {
    c.done && c.cutoff != 0 && o.owner == c.owner && o.generation < c.cutoff && Returned(o.phase) ==> o.cancelled
  }

  ghost predicate Inv(s: Sys) {
    && (forall id :: id in s.ops ==> OpInv(s, id))
    && (forall x, y :: x in s.ops && y in s.ops && x != y ==> s.ops[x].generation != s.ops[y].generation)
    && (forall owner :: owner in s.active ==> s.active[owner] in s.ops && s.ops[s.active[owner]].owner == owner)
    && (forall c :: c in s.cancels ==> CancelInv(s, s.cancels[c]))
    && (forall c, id :: c in s.cancels && id in s.ops ==> Caught(s.cancels[c], s.ops[id]))
  }

  lemma {:induction false} PruneMovesGens(s: State, now: nat)
    ensures GensMove(s, Pruned(s, now))
  {
  }

  lemma {:induction false} FloorStays(s: Sys, store: State, c: Cancelling)
    requires CancelInv(s, c) && GensMove(s.store, store)
    ensures CancelInv(s.(store := store), c)
  {
  }

  /** Store activity by others. */
  lemma {:induction false} StoreMoveKeepsInv(s: Sys, store: State)
    requires Inv(s) && GensMove(s.store, store)
    ensures Inv(s.(store := store))
  {
    var s' := s.(store := store);
    forall id | id in s'.ops
      ensures OpInv(s', id)
    {
      assert OpInv(s, id);
    }
    forall c | c in s'.cancels
      ensures CancelInv(s', s'.cancels[c])
    {
      FloorStays(s, store, s.cancels[c]);
    }
  }

  /** A change to one operation's phase and flag, with the table as it is or without that operation's entry. */
  lemma {:induction false} MoveOpKeepsInv(s: Sys, id: OpId, phase: Phase, cancel: bool)
    requires Inv(s) && id in s.ops
    requires OpInv(WithOp(s, id, phase, cancel), id)
    requires forall c | c in s.cancels :: Caught(s.cancels[c], WithOp(s, id, phase, cancel).ops[id])
    ensures Inv(WithOp(s, id, phase, cancel))
  {
    var s' := WithOp(s, id, phase, cancel);
    forall x | x in s'.ops
      ensures OpInv(s', x)
    {
      assert OpInv(s, x);
    }
    forall c, x | c in s'.cancels && x in s'.ops
      ensures Caught(s'.cancels[c], s'.ops[x])
    {
      assert Caught(s.cancels[c], s.ops[x]);
    }
    forall c | c in s'.cancels
      ensures CancelInv(s', s'.cancels[c])
    {
      assert CancelInv(s, s.cancels[c]);
    }
    forall x, y | x in s'.ops && y in s'.ops && x != y
      ensures s'.ops[x].generation != s'.ops[y].generation
    {
      assert s.ops[x].generation != s.ops[y].generation;
    }
  }

  /** Cancelling an operation, and possibly dropping it from the table, is always harmless. */
  lemma {:induction false} CancelOneKeepsInv(s: Sys, id: OpId, drop: bool)
    requires Inv(s) && id in s.ops
    requires drop ==> s.ops[id].owner in s.active && s.active[s.ops[id].owner] == id
    ensures Inv(s.(ops := Cancelled(s.ops, id), active := if drop then s.active - {s.ops[id].owner} else s.active))
  {
    var s' := s.(ops := Cancelled(s.ops, id), active := if drop then s.active - {s.ops[id].owner} else s.active);
    forall x | x in s'.ops
      ensures OpInv(s', x)
    {
      assert OpInv(s, x);
    }
    forall c, x | c in s'.cancels && x in s'.ops
      ensures Caught(s'.cancels[c], s'.ops[x])
    {
      assert Caught(s.cancels[c], s.ops[x]);
    }
    forall c | c in s'.cancels
      ensures CancelInv(s', s'.cancels[c])
    {
      assert CancelInv(s, s.cancels[c]);
    }
    forall x, y | x in s'.ops && y in s'.ops && x != y
      ensures s'.ops[x].generation != s'.ops[y].generation
    {
      assert s.ops[x].generation != s.ops[y].generation;
    }
  }

  /** Whoever passes a check is above every cutoff the store has already handed out. */
  lemma {:induction false} CurrentIsAboveCutoffs(s: Sys, o: Operating, c: Cancelling)
    requires CancelInv(s, c) && c.cutoff != 0 && o.owner == c.owner
    requires Current(s.store, Operation(o.owner, o.generation))
    ensures o.generation >= c.cutoff
  {
  }

  lemma {:induction false} CheckKeepsInv(lim: Limits, s: Sys, step: Step, s': Sys)
    requires Inv(s) && Next(lim, s, step, s') && (step.FirstCheck? || step.SecondCheck?)
    ensures Inv(s')
  {
    var id := step.id;
    PruneMovesGens(s.store, step.now);
    StoreMoveKeepsInv(s, Pruned(s.store, step.now));
    var t := s.(store := Pruned(s.store, step.now));
    assert OpInv(t, id);
    var phase := s'.ops[id].phase;
    var cancel := phase.Refused? || phase.Unregistering?;
    assert s' == WithOp(t, id, phase, cancel);
    forall c | c in t.cancels
      ensures Caught(t.cancels[c], s'.ops[id])
    {
      if phase.Started? && t.cancels[c].cutoff != 0 && t.cancels[c].owner == t.ops[id].owner {
        CurrentIsAboveCutoffs(t, t.ops[id], t.cancels[c]);
      }
    }
    MoveOpKeepsInv(t, id, phase, cancel);
  }

  lemma {:induction false} LeaveKeepsInv(s: Sys, id: OpId, phase: Phase)
    requires Inv(s) && id in s.ops && s.ops[id].cancelled && (phase.Refused? || phase.Finished?)
    ensures Inv(WithOp(s.(active := Left(s, id)), id, phase, true))
  {
    var owner := s.ops[id].owner;
    var drop := owner in s.active && s.ops[s.active[owner]].generation == s.ops[id].generation;
    if drop {
      assert s.active[owner] == id;
    }
    CancelOneKeepsInv(s, id, drop);
    var t := s.(active := Left(s, id));
    assert s.ops[id := s.ops[id].(cancelled := true)] == s.ops;
    assert OpInv(t, id);
    MoveOpKeepsInv(t, id, phase, true);
  }

  lemma {:induction false} RegisterKeepsInv(s: Sys, id: OpId)
    requires Inv(s) && id in s.ops && s.ops[id].phase.Checked?
    ensures Inv(AfterRegister(s, id))
  {
    var owner := s.ops[id].owner;
    assert OpInv(s, id);
    if owner !in s.active {
      JoinKeepsInv(s, id);
    } else if s.ops[s.active[owner]].generation > s.ops[id].generation {
      MoveOpKeepsInv(s, id, Refused, true);
    } else {
      ReplaceKeepsInv(s, id);
    }
  }

  /** Taking the place of an operation that is cancelled on the way. */
  lemma {:induction false} ReplaceKeepsInv(s: Sys, id: OpId)
    requires Inv(s) && id in s.ops && s.ops[id].phase.Checked? && s.ops[id].owner in s.active
    ensures Inv(WithOp(s.(ops := Cancelled(s.ops, s.active[s.ops[id].owner]), active := s.active[s.ops[id].owner := id]), id, Registered, false))
  {
    var owner := s.ops[id].owner;
    CancelOneKeepsInv(s, s.active[owner], true);
    var t := s.(ops := Cancelled(s.ops, s.active[owner]), active := s.active - {owner});
    JoinKeepsInv(t, id);
    RejoinedTable(s.active, owner, id);
  }

  lemma {:induction false} RejoinedTable(active: map<Owner, OpId>, owner: Owner, id: OpId)
    ensures (active - {owner})[owner := id] == active[owner := id]
  {
  }

  /** Entering the table while the owner's place is free. */
  lemma {:induction false} JoinKeepsInv(s: Sys, id: OpId)
    requires Inv(s) && id in s.ops && s.ops[id].phase.Checked? && s.ops[id].owner !in s.active
    ensures Inv(WithOp(s.(active := s.active[s.ops[id].owner := id]), id, Registered, false))
  {
    var s' := WithOp(s.(active := s.active[s.ops[id].owner := id]), id, Registered, false);
    forall x | x in s'.ops
      ensures OpInv(s', x)
    {
      assert OpInv(s, x);
    }
    forall c, x | c in s'.cancels && x in s'.ops
      ensures Caught(s'.cancels[c], s'.ops[x])
    {
      assert Caught(s.cancels[c], s.ops[x]);
    }
    forall c | c in s'.cancels
      ensures CancelInv(s', s'.cancels[c])
    {
      assert CancelInv(s, s.cancels[c]);
    }
    forall x, y | x in s'.ops && y in s'.ops && x != y
      ensures s'.ops[x].generation != s'.ops[y].generation
    {
      assert s.ops[x].generation != s.ops[y].generation;
    }
  }

  lemma {:induction false} CancelThroughKeepsInv(s: Sys, c: CancelId)
    requires Inv(s) && c in s.cancels && !s.cancels[c].done
    ensures Inv(AfterCancelThrough(s, c))
  {
    var Cancelling(owner, cutoff, _) := s.cancels[c];
    var t := s;
    if cutoff != 0 && owner in s.active && s.ops[s.active[owner]].generation <= cutoff {
      CancelOneKeepsInv(s, s.active[owner], true);
      t := s.(ops := Cancelled(s.ops, s.active[owner]), active := s.active - {owner});
    }
    var s' := AfterCancelThrough(s, c);
    assert s' == t.(cancels := s.cancels[c := s.cancels[c].(done := true)]);
    forall x | x in s'.ops
      ensures OpInv(s', x)
    {
      assert OpInv(t, x);
    }
    forall d | d in s'.cancels
      ensures CancelInv(s', s'.cancels[d])
    {
      assert CancelInv(t, t.cancels[d]);
    }
    forall d, x | d in s'.cancels && x in s'.ops
      ensures Caught(s'.cancels[d], s'.ops[x])
    {
      assert Caught(t.cancels[d], t.ops[x]);
      assert OpInv(t, x);
    }
  }

  lemma {:induction false} NewGenerationIsFresh(lim: Limits, s: State, op: Op, now: nat)
    requires op.BeginOp? || op.ClaimOp?
    ensures var (s', out) := ExtensionStore.Step(lim, s, op, now);
            out.Generation? || out.Claimed? ==> out.generation == s'.nextGeneration == s.nextGeneration + 1
  {
  }

  lemma {:induction false} BeginKeepsInv(lim: Limits, s: Sys, id: OpId, op: Op, now: nat, s': Sys)
    requires Inv(s) && Begins(lim, s, id, op, now, s')
    ensures Inv(s')
  {
    var (store, out) := ExtensionStore.Step(lim, s.store, op, now);
    StepMovesGens(lim, s.store, op, now);
    StoreMoveKeepsInv(s, store);
    NewGenerationIsFresh(lim, s.store, op, now);
    if out.Generation? || out.Claimed? {
      AddOpKeepsInv(s, store, id, Operating(op.owner, out.generation, false, Begun));
    }
  }

  lemma {:induction false} AddOpKeepsInv(s: Sys, store: State, id: OpId, o: Operating)
    requires Inv(s) && Inv(s.(store := store)) && id !in s.ops
    requires o.phase.Begun? && s.store.nextGeneration < o.generation <= store.nextGeneration
    ensures Inv(s.(store := store, ops := s.ops[id := o]))
  {
    var t := s.(store := store);
    var s' := t.(ops := s.ops[id := o]);
    forall x | x in s'.ops
      ensures OpInv(s', x)
    {
      assert x != id ==> OpInv(t, x);
    }
    forall c, x | c in s'.cancels && x in s'.ops
      ensures Caught(s'.cancels[c], s'.ops[x])
    {
      assert x != id ==> Caught(s.cancels[c], s.ops[x]);
    }
    forall c | c in s'.cancels
      ensures CancelInv(s', s'.cancels[c])
    {
      assert CancelInv(t, t.cancels[c]);
    }
    forall x, y | x in s'.ops && y in s'.ops && x != y
      ensures s'.ops[x].generation != s'.ops[y].generation
    {
      assert x != id ==> OpInv(s, x);
      assert y != id ==> OpInv(s, y);
    }
  }

  lemma {:induction false} CutoffIsCurrent(lim: Limits, s: State, owner: Owner, now: nat)
    ensures var (s', out) := CancelOwner(lim, s, owner, now);
            && GensMove(s, s') && out.Cutoff? && out.cutoff <= s'.nextGeneration
            && (out.cutoff != 0 ==> owner in s'.gens && s'.gens[owner].value == out.cutoff)
  {
  }

  lemma {:induction false} CancelBeginsKeepsInv(lim: Limits, s: Sys, c: CancelId, owner: Owner, now: nat, s': Sys)
    requires Inv(s) && Next(lim, s, CancelBegins(c, owner, now), s')
    ensures Inv(s')
  {
    CutoffIsCurrent(lim, s.store, owner, now);
    StoreMoveKeepsInv(s, s'.store);
    var t := s.(store := s'.store);
    forall x | x in s'.ops
      ensures OpInv(s', x)
    {
      assert OpInv(t, x);
    }
    forall d | d in s'.cancels
      ensures CancelInv(s', s'.cancels[d])
    {
      assert d != c ==> CancelInv(t, t.cancels[d]);
    }
    forall d, x | d in s'.cancels && x in s'.ops
      ensures Caught(s'.cancels[d], s'.ops[x])
    {
      assert d != c ==> Caught(t.cancels[d], t.ops[x]);
    }
  }

  lemma {:induction false} NextKeepsInv(lim: Limits, s: Sys, step: Step, s': Sys)
    requires Inv(s) && Next(lim, s, step, s')
    ensures Inv(s')
  {
    match step
    case StoreCall(op, now) =>
      StepMovesGens(lim, s.store, op, now);
      StoreMoveKeepsInv(s, s'.store);
    case Begin(id, op, now) => BeginKeepsInv(lim, s, id, op, now, s');
    case FirstCheck(_, _) => CheckKeepsInv(lim, s, step, s');
    case SecondCheck(_, _) => CheckKeepsInv(lim, s, step, s');
    case Register(id) => RegisterKeepsInv(s, id);
    case Unregister(id) =>
      assert OpInv(s, id);
      LeaveKeepsInv(s, id, Refused);
    case FinishBegins(id) =>
      assert OpInv(s, id);
      MoveOpKeepsInv(s, id, Finishing, true);
    case FinishEnds(id) =>
      assert OpInv(s, id);
      LeaveKeepsInv(s, id, Finished);
    case ContextEnds(id) => CancelOneKeepsInv(s, id, false);
    case CancelBegins(c, owner, now) => CancelBeginsKeepsInv(lim, s, c, owner, now, s');
    case CancelThrough(c) => CancelThroughKeepsInv(s, c);
  }

  lemma {:induction false} RunKeepsInv(lim: Limits, states: seq<Sys>, steps: seq<Step>, i: nat)
    requires IsRun(lim, states, steps) && i < |states|
    ensures Inv(states[i])
  {
    if i > 0 {
      RunKeepsInv(lim, states, steps, i - 1);
      assert Next(lim, states[i - 1], steps[i - 1], states[i]);
      NextKeepsInv(lim, states[i - 1], steps[i - 1], states[i]);
    }
  }

  // ---------- The guarantees ----------

  /**
   In every interleaving: once a start of a generation below a nonzero cutoff
   and that cancellation have both returned, the operation is cancelled.
   */
  lemma {:induction false} CancellationCatchesEarlierStarts(lim: Limits, states: seq<Sys>, steps: seq<Step>, i: nat, c: CancelId, id: OpId)
    requires IsRun(lim, states, steps) && i < |states|
    requires c in states[i].cancels && states[i].cancels[c].done && states[i].cancels[c].cutoff != 0
    requires id in states[i].ops && states[i].ops[id].owner == states[i].cancels[c].owner
    requires states[i].ops[id].generation < states[i].cancels[c].cutoff && Returned(states[i].ops[id].phase)
    ensures states[i].ops[id].cancelled
  {
    RunKeepsInv(lim, states, steps, i);
    assert Caught(states[i].cancels[c], states[i].ops[id]);
  }

  /** A cutoff cancels nothing of a later generation, and nothing of another owner. */
  lemma {:induction false} CutoffSparesLaterOperations(lim: Limits, states: seq<Sys>, steps: seq<Step>, i: nat, id: OpId)
    requires IsRun(lim, states, steps) && i < |steps| && steps[i].CancelThrough?
    requires id in states[i].ops && !states[i].ops[id].cancelled
    ensures steps[i].c in states[i].cancels && id in states[i + 1].ops
    ensures states[i + 1].ops[id].cancelled ==>
              && states[i].ops[id].generation <= states[i].cancels[steps[i].c].cutoff
              && states[i].ops[id].owner == states[i].cancels[steps[i].c].owner
  {
    RunKeepsInv(lim, states, steps, i);
    assert Next(lim, states[i], steps[i], states[i + 1]);
  }

  /** At most one started operation per owner is uncancelled. */
  lemma {:induction false} OneLiveOperationPerOwner(lim: Limits, states: seq<Sys>, steps: seq<Step>, i: nat, x: OpId, y: OpId)
    requires IsRun(lim, states, steps) && i < |states|
    requires x in states[i].ops && states[i].ops[x].phase.Started? && !states[i].ops[x].cancelled
    requires y in states[i].ops && states[i].ops[y].phase.Started? && !states[i].ops[y].cancelled
    requires states[i].ops[x].owner == states[i].ops[y].owner
    ensures x == y
  {
    RunKeepsInv(lim, states, steps, i);
    assert OpInv(states[i], x) && OpInv(states[i], y);
  }

  // ---------- What a registration does ----------

  /** Only operations that have registered are in the table. */
  predicate TableInv(s: Sys) {
    forall owner :: owner in s.active ==>
      s.active[owner] in s.ops && !s.ops[s.active[owner]].phase.Begun? && !s.ops[s.active[owner]].phase.Checked?
  }

  lemma {:induction false} CancelKeepsTable(s: Sys, c: CancelId)
    requires TableInv(s) && c in s.cancels
    ensures TableInv(AfterCancelThrough(s, c))
  {
  }

  lemma {:induction false} RegisterKeepsTable(s: Sys, id: OpId)
    requires TableInv(s) && id in s.ops
    ensures TableInv(AfterRegister(s, id))
  {
  }

  lemma {:induction false} StepKeepsTable(lim: Limits, s: Sys, step: Step, s': Sys)
    requires TableInv(s) && Next(lim, s, step, s')
    ensures TableInv(s')
  {
    match step {
      case CancelThrough(c) => CancelKeepsTable(s, c);
      case Register(id) => RegisterKeepsTable(s, id);
      case _ =>
    }
  }

  lemma {:induction false} RunKeepsTable(lim: Limits, states: seq<Sys>, steps: seq<Step>, i: nat)
    requires IsRun(lim, states, steps) && i < |states|
    ensures TableInv(states[i])
  {
    if i > 0 {
      RunKeepsTable(lim, states, steps, i - 1);
      assert Next(lim, states[i - 1], steps[i - 1], states[i]);
      StepKeepsTable(lim, states[i - 1], steps[i - 1], states[i]);
    }
  }

  /** The table holds an operation of the owner that began later. */
  predicate MetLater(s: Sys, id: OpId)
    requires id in s.ops
  {
    var owner := s.ops[id].owner;
    owner in s.active && s.active[owner] in s.ops && s.ops[s.active[owner]].generation > s.ops[id].generation
  }

  /**
   In every run: a checked start that meets a later generation in the table is
   refused and cancelled, and the table stays. Any other goes on as registered,
   uncancelled if it was, and owns the entry; the earlier operation it displaces
   is cancelled. Nothing else changes.
   */
  lemma {:induction false} RegistrationDecides(lim: Limits, states: seq<Sys>, steps: seq<Step>, i: nat)
    requires IsRun(lim, states, steps) && i < |steps| && steps[i].Register?
    ensures var s, t, id := states[i], states[i + 1], steps[i].id;
            && id in s.ops && id in t.ops && t.store == s.store && t.cancels == s.cancels && t.ops.Keys == s.ops.Keys
            && var owner := s.ops[id].owner;
               if MetLater(s, id) then
                 && t.ops[id].phase.Refused? && t.ops[id].cancelled && t.active == s.active
                 && forall x :: x in s.ops && x != id ==> t.ops[x] == s.ops[x]
               else
                 && t.ops[id] == s.ops[id].(phase := Registered) && t.active == s.active[owner := id]
                 && (owner in s.active ==> s.active[owner] != id && s.active[owner] in t.ops && t.ops[s.active[owner]].cancelled
                                           && s.ops[s.active[owner]].generation < s.ops[id].generation)
                 && forall x :: x in s.ops && x != id && !(owner in s.active && s.active[owner] == x) ==> t.ops[x] == s.ops[x]
  {
    RunKeepsInv(lim, states, steps, i);
    RunKeepsTable(lim, states, steps, i);
    assert Next(lim, states[i], steps[i], states[i + 1]);
  }

  /** What may cancel an operation that was not cancelled before. */
  ghost predicate MayCancel(s: Sys, step: Step, id: OpId)
    requires id in s.ops
  {
    match step
    case FirstCheck(x, now) => x == id && !Current(Pruned(s.store, now), Operation(s.ops[id].owner, s.ops[id].generation))
    case SecondCheck(x, now) => x == id && !Current(Pruned(s.store, now), Operation(s.ops[id].owner, s.ops[id].generation))
    case Register(x) =>
      x in s.ops && if x == id then MetLater(s, id) else s.ops[x].owner == s.ops[id].owner && s.ops[x].generation > s.ops[id].generation
    case FinishBegins(x) => x == id
    case ContextEnds(x) => x == id
    case CancelThrough(c) => c in s.cancels && s.cancels[c].owner == s.ops[id].owner && s.ops[id].generation <= s.cancels[c].cutoff
    case _ => false
  }

  lemma {:induction false} LeavingCancelsNothing(lim: Limits, s: Sys, step: Step, s': Sys, id: OpId)
    requires Inv(s) && Next(lim, s, step, s') && id in s.ops && !s.ops[id].cancelled
    requires step.StoreCall? || step.Begin? || step.Unregister? || step.FinishEnds? || step.CancelBegins?
    ensures id in s'.ops && !s'.ops[id].cancelled
  {
    if step.Unregister? || step.FinishEnds? {
      assert OpInv(s, step.id);
    }
  }

  /**
   In every run an operation is cancelled only by its own failed check, its own
   end, its own finish, a later operation of the same owner, or a cutoff at or
   above its generation.
   */
  lemma {:induction false} NothingElseCancels(lim: Limits, states: seq<Sys>, steps: seq<Step>, i: nat, id: OpId)
    requires IsRun(lim, states, steps) && i < |steps| && id in states[i].ops && !states[i].ops[id].cancelled
    ensures id in states[i + 1].ops
    ensures states[i + 1].ops[id].cancelled ==> MayCancel(states[i], steps[i], id)
  {
    var s, step, s' := states[i], steps[i], states[i + 1];
    RunKeepsInv(lim, states, steps, i);
    assert Next(lim, s, step, s');
    if step.StoreCall? || step.Begin? || step.Unregister? || step.FinishEnds? || step.CancelBegins? {
      LeavingCancelsNothing(lim, s, step, s', id);
    } else if step.Register? {
      RegistrationDecides(lim, states, steps, i);
    }
  }
}
