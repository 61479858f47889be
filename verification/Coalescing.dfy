module Coalescing {
  // Coalescing of concurrent cache misses (`coalesceResolution`). Each caller loads
  // the epoch and the three hot-swappable snapshots one at a time, keeping both
  // their identities and their contents. The flight key is built from the
  // identities, the resolution closure uses the contents. Callers with the same
  // key share one detached resolution, the key map is bounded, and a caller that
  // gives up only stops waiting.

  import opened Options
  import opened Sizes

  const DEFAULT_FLIGHT_LIMIT := 1024

  type FlightId = nat
  type CallerId = nat
  type Ptr = nat

  /** The request properties that can change a response. */
  datatype Request = Request(name: string, qtype: nat, qclass: nat, dnssecOK: bool, checkingDisabled: bool)

  datatype Action = Auto | Block | Direct | Gateway

  datatype Slot = Upstreams | Rules | Policy

  /** Published snapshots: what each slot points to, and the immutable contents behind every pointer so far. */
  datatype Runtime = Runtime(epoch: nat, upstreams: Option<Ptr>, rules: Option<Ptr>, policy: Option<Ptr>, heap: map<Ptr, string>)

  /** A loaded snapshot: its identity and what was read through it; no snapshot means the built-in defaults. */
  datatype Loaded = Loaded(id: Option<Ptr>, content: Option<string>)

  datatype FlightKey = FlightKey(
    request: Request, epoch: nat, policy: Option<Ptr>, rules: Option<Ptr>, upstreams: Option<Ptr>, action: Action)

  /** An answer computed from snapshot contents, or a stale answer or SERVFAIL for the request. */
  datatype Reply =
    | Computed(request: Request, epoch: nat, policy: Option<string>, rules: Option<string>, upstreams: Option<string>, action: Action, answer: string)
    | Fallback(request: Request, answer: string)

  datatype CallerPhase =
    | NeedsUpstreams | NeedsRules | NeedsPolicy | Ready
    | Waiting(flight: FlightId) | Resolving | Delivered(reply: Reply) | GaveUp

  datatype Caller = Caller(
    request: Request, epoch: nat, policy: Loaded, rules: Loaded, upstreams: Loaded, action: Action, phase: CallerPhase)
  {
    predicate Loading() {
      phase.NeedsUpstreams? || phase.NeedsRules? || phase.NeedsPolicy?
    }

    function Key(): FlightKey {
      FlightKey(request, epoch, policy.id, rules.id, upstreams.id, action)
    }

    /** The caller's own closure could have produced this reply. */
    predicate Makes(reply: Reply) {
      && reply.request == request
      && (reply.Computed? ==>
            && reply.epoch == epoch && reply.action == action
            && reply.policy == policy.content && reply.rules == rules.content && reply.upstreams == upstreams.content)
    }
  }

  datatype Phase = Running | Finished(reply: Reply) | Retired(reply: Reply)

  /** A shared resolution runs the closure of the caller that started it. */
  datatype Flight = Flight(leader: CallerId, key: FlightKey, phase: Phase)

  datatype Sys = Sys(runtime: Runtime, table: map<FlightKey, FlightId>, flights: seq<Flight>, callers: map<CallerId, Caller>)

  datatype Step =
    | Publish(slot: Slot, p: Ptr, content: string)
    | Flush
    | CaptureEpoch(c: CallerId, request: Request)
    | LoadUpstreams(c: CallerId)
    | LoadRules(c: CallerId)
    | Decide(c: CallerId, action: Action)
    | Arrive(c: CallerId)
    | ArriveCancelled(c: CallerId)
    | ResolveAlone(c: CallerId, reply: Reply)
    | LeaderResolves(f: FlightId, reply: Reply)
    | LeaderRetires(f: FlightId)
    | Deliver(c: CallerId)
    | GiveUp(c: CallerId)

  function FlightLimit(configured: int): nat {
    if configured <= 0 then DEFAULT_FLIGHT_LIMIT else configured
  }

  function Read(heap: map<Ptr, string>, id: Option<Ptr>): Loaded {
    Loaded(id, if id.Some? && id.value in heap then Some(heap[id.value]) else None)
  }

  function Published(r: Runtime, slot: Slot, p: Ptr, content: string): Runtime {
    var t := r.(heap := r.heap[p := content]);
    match slot
    case Upstreams => t.(upstreams := Some(p))
    case Rules => t.(rules := Some(p))
    case Policy => t.(policy := Some(p))
  }

  datatype Admission = Joined(flight: FlightId) | Leads(flight: FlightId) | Alone

  function Admit(flights: map<FlightKey, FlightId>, key: FlightKey, limit: nat, newId: FlightId): (Admission, map<FlightKey, FlightId>) {
    if key in flights then (Joined(flights[key]), flights)
    else if |flights| < limit then (Leads(newId), flights[key := newId])
    else (Alone, flights)
  }

  function Leave(flights: map<FlightKey, FlightId>, key: FlightKey, flight: FlightId): map<FlightKey, FlightId> {
    if key in flights && flights[key] == flight then flights - {key} else flights
  }

  function WithCaller(s: Sys, c: CallerId, caller: Caller): Sys {
    s.(callers := s.callers[c := caller])
  }

  function WithFlight(s: Sys, f: FlightId, phase: Phase): Sys
    requires f < |s.flights|
  {
    s.(flights := s.flights[f := s.flights[f].(phase := phase)])
  }

  /** What one caller does before it reaches the flight table. */
  predicate Loads(s: Sys, step: Step, s': Sys) {
    match step
    case CaptureEpoch(c, request) =>
      && c !in s.callers
      && s' == WithCaller(s, c, Caller(request, s.runtime.epoch, Loaded(None, None), Loaded(None, None), Loaded(None, None), Auto, NeedsUpstreams))
    case LoadUpstreams(c) =>
      && c in s.callers && s.callers[c].phase.NeedsUpstreams?
      && s' == WithCaller(s, c, s.callers[c].(upstreams := Read(s.runtime.heap, s.runtime.upstreams), phase := NeedsRules))
    case LoadRules(c) =>
      && c in s.callers && s.callers[c].phase.NeedsRules?
      && s' == WithCaller(s, c, s.callers[c].(rules := Read(s.runtime.heap, s.runtime.rules), phase := NeedsPolicy))
    case Decide(c, action) =>
      && c in s.callers && s.callers[c].phase.NeedsPolicy?
      && s' == WithCaller(s, c, s.callers[c].(policy := Read(s.runtime.heap, s.runtime.policy), action := action, phase := Ready))
    case _ => false
  }

  /** The first section under `flightMu`. */
  predicate Arrives(limit: nat, s: Sys, c: CallerId, s': Sys) {
    && c in s.callers && s.callers[c].phase.Ready?
    && var caller := s.callers[c];
       var (a, table) := Admit(s.table, caller.Key(), limit, |s.flights|);
       s' == (match a
              case Joined(f) => WithCaller(s, c, caller.(phase := Waiting(f)))
              case Leads(f) =>
                WithCaller(s.(table := table, flights := s.flights + [Flight(c, caller.Key(), Running)]), c, caller.(phase := Waiting(f)))
              case Alone => WithCaller(s, c, caller.(phase := Resolving)))
  }

  predicate FlightMoves(s: Sys, step: Step, s': Sys) {
    match step
    case LeaderResolves(f, reply) =>
      && f < |s.flights| && s.flights[f].phase.Running?
      && s.flights[f].leader in s.callers && s.callers[s.flights[f].leader].Makes(reply)
      && s' == WithFlight(s, f, Finished(reply))
    case LeaderRetires(f) =>
      && f < |s.flights| && s.flights[f].phase.Finished?
      && s' == WithFlight(s.(table := Leave(s.table, s.flights[f].key, f)), f, Retired(s.flights[f].phase.reply))
    case _ => false
  }

  predicate CallerMoves(s: Sys, step: Step, s': Sys) {
    match step
    case ArriveCancelled(c) =>
      c in s.callers && s.callers[c].phase.Ready? && s' == WithCaller(s, c, s.callers[c].(phase := GaveUp))
    case ResolveAlone(c, reply) =>
      && c in s.callers && s.callers[c].phase.Resolving? && s.callers[c].Makes(reply)
      && s' == WithCaller(s, c, s.callers[c].(phase := Delivered(reply)))
    case Deliver(c) =>
      && c in s.callers && s.callers[c].phase.Waiting? && s.callers[c].phase.flight < |s.flights|
      && !s.flights[s.callers[c].phase.flight].phase.Running?
      && s' == WithCaller(s, c, s.callers[c].(phase := Delivered(s.flights[s.callers[c].phase.flight].phase.reply)))
    case GiveUp(c) =>
      && c in s.callers && (s.callers[c].phase.Waiting? || s.callers[c].phase.Resolving?)
      && s' == WithCaller(s, c, s.callers[c].(phase := GaveUp))
    case _ => false
  }

  predicate Next(limit: nat, s: Sys, step: Step, s': Sys) {
    match step
    case Publish(slot, p, content) =>
      p !in s.runtime.heap && s' == s.(runtime := Published(s.runtime, slot, p, content))
    case Flush => s' == s.(runtime := s.runtime.(epoch := s.runtime.epoch + 1))
    case Arrive(c) => Arrives(limit, s, c, s')
    case CaptureEpoch(_, _) => Loads(s, step, s')
    case LoadUpstreams(_) => Loads(s, step, s')
    case LoadRules(_) => Loads(s, step, s')
    case Decide(_, _) => Loads(s, step, s')
    case LeaderResolves(_, _) => FlightMoves(s, step, s')
    case LeaderRetires(_) => FlightMoves(s, step, s')
    case _ => CallerMoves(s, step, s')
  }

  ghost predicate IsRun(limit: nat, states: seq<Sys>, steps: seq<Step>) {
    && |states| == |steps| + 1
    && states[0] == Sys(Runtime(0, None, None, None, map[]), map[], [], map[])
    && forall i :: 0 <= i < |steps| ==> Next(limit, states[i], steps[i], states[i + 1])
  }

  // ---------- The table object ----------

  /** The two sections run under `flightMu`, each as one step of the system the table stands for. */
  class FlightTable {
    var flights: map<FlightKey, FlightId>
    const limit: nat

    ghost predicate Represents(s: Sys)
      reads this
    {
      flights == s.table
    }

    constructor (configured: int)
      ensures flights == map[] && limit == FlightLimit(configured)
    {
      flights := map[];
      limit := FlightLimit(configured);
    }

    /** Join the key's flight, lead a new one while there is room, or resolve alone. */
    method Enter(key: FlightKey, newId: FlightId, ghost c: CallerId, ghost s: Sys) returns (a: Admission, ghost t: Sys)
      requires Represents(s) && newId == |s.flights|
      requires c in s.callers && s.callers[c].phase.Ready? && s.callers[c].Key() == key
      modifies this
      ensures Next(limit, s, Arrive(c), t) && Represents(t)
      ensures a.Joined? ==> t.callers[c].phase == Waiting(a.flight) && t.flights == s.flights
      ensures a.Leads? ==> t.callers[c].phase == Waiting(a.flight) && a.flight < |t.flights| && t.flights[a.flight] == Flight(c, key, Running)
      ensures a.Alone? ==> t.callers[c].phase == Resolving && |flights| >= limit
    {
      ghost var caller := s.callers[c];
      if key in flights {
        a := Joined(flights[key]);
        t := WithCaller(s, c, caller.(phase := Waiting(flights[key])));
      } else if |flights| < limit {
        flights := flights[key := newId];
        a := Leads(newId);
        t := WithCaller(s.(table := flights, flights := s.flights + [Flight(c, key, Running)]), c, caller.(phase := Waiting(newId)));
      } else {
        a := Alone;
        t := WithCaller(s, c, caller.(phase := Resolving));
      }
    }

    /** The leader takes its flight out, unless another flight has the key by now. */
    method Retire(key: FlightKey, flight: FlightId, ghost s: Sys) returns (ghost t: Sys)
      requires Represents(s) && flight < |s.flights| && s.flights[flight].phase.Finished? && s.flights[flight].key == key
      modifies this
      ensures Next(limit, s, LeaderRetires(flight), t) && Represents(t)
      ensures key in flights ==> flights[key] != flight
      ensures forall k :: k in flights <==> k in old(flights) && !(k == key && old(flights)[k] == flight)
    {
      if key in flights && flights[key] == flight {
        flights := flights - {key};
      }
      t := WithFlight(s.(table := flights), flight, Retired(s.flights[flight].phase.reply));
    }
  }

  // ---------- The invariant ----------

  predicate Faithful(heap: map<Ptr, string>, l: Loaded) {
    (l.id.Some? ==> l.id.value in heap) && l == Read(heap, l.id)
  }

  predicate RuntimeInv(r: Runtime) {
    Faithful(r.heap, Read(r.heap, r.upstreams)) && Faithful(r.heap, Read(r.heap, r.rules)) && Faithful(r.heap, Read(r.heap, r.policy))
  }

  predicate FlightInv(s: Sys, f: FlightId)
    requires f < |s.flights|
  {
    var flight := s.flights[f];
    && flight.leader in s.callers && !s.callers[flight.leader].Loading() && !s.callers[flight.leader].phase.Ready?
    && s.callers[flight.leader].Key() == flight.key
    && (!flight.phase.Retired? <==> flight.key in s.table && s.table[flight.key] == f)
    && (!flight.phase.Running? ==> s.callers[flight.leader].Makes(flight.phase.reply))
  }

  predicate CallerInv(s: Sys, caller: Caller) {
    && Faithful(s.runtime.heap, caller.policy) && Faithful(s.runtime.heap, caller.rules) && Faithful(s.runtime.heap, caller.upstreams)
    && (caller.phase.Waiting? ==> caller.phase.flight < |s.flights| && s.flights[caller.phase.flight].key == caller.Key())
    && (caller.phase.Delivered? ==> caller.Makes(caller.phase.reply))
  }

  ghost predicate TableInv(limit: nat, s: Sys) {
    && |s.table| <= limit
    && forall k :: k in s.table ==> s.table[k] < |s.flights| && s.flights[s.table[k]].key == k
  }

  ghost predicate FlightsInv(s: Sys) {
    forall f :: 0 <= f < |s.flights| ==> FlightInv(s, f)
  }

  ghost predicate CallersInv(s: Sys) {
    forall c :: c in s.callers ==> CallerInv(s, s.callers[c])
  }

  ghost predicate Inv(limit: nat, s: Sys) {
    RuntimeInv(s.runtime) && TableInv(limit, s) && FlightsInv(s) && CallersInv(s)
  }

  /** Contents never change, so equal keys mean equal contents: callers that share a key could make the same replies. */
  lemma {:induction false} SameKeySameReplies(s: Sys, a: Caller, b: Caller, reply: Reply)
    requires CallerInv(s, a) && CallerInv(s, b) && a.Key() == b.Key()
    ensures a.Makes(reply) <==> b.Makes(reply)
  {
  }

  /** A caller that leads nothing changes, or one that leads keeps what its flights rely on. */
  predicate KeepsRole(s: Sys, c: CallerId, caller: Caller) {
    c in s.callers ==>
      || s.callers[c].Loading() || s.callers[c].phase.Ready?
      || (caller == s.callers[c].(phase := caller.phase) && !caller.Loading() && !caller.phase.Ready?)
  }

  lemma {:induction false} CallerChangeKeepsInv(limit: nat, s: Sys, c: CallerId, caller: Caller)
    requires Inv(limit, s) && CallerInv(s, caller) && KeepsRole(s, c, caller)
    ensures Inv(limit, WithCaller(s, c, caller))
  {
    var s' := WithCaller(s, c, caller);
    forall f | 0 <= f < |s'.flights|
      ensures FlightInv(s', f)
    {
      assert FlightInv(s, f);
    }
    forall d | d in s'.callers
      ensures CallerInv(s', s'.callers[d])
    {
      assert d != c ==> CallerInv(s, s.callers[d]);
    }
  }

  lemma {:induction false} PublishKeepsInv(limit: nat, s: Sys, slot: Slot, p: Ptr, content: string)
    requires Inv(limit, s) && p !in s.runtime.heap
    ensures Inv(limit, s.(runtime := Published(s.runtime, slot, p, content)))
  {
    var s' := s.(runtime := Published(s.runtime, slot, p, content));
    forall f | 0 <= f < |s'.flights|
      ensures FlightInv(s', f)
    {
      assert FlightInv(s, f);
    }
    forall d | d in s'.callers
      ensures CallerInv(s', s'.callers[d])
    {
      assert CallerInv(s, s.callers[d]);
    }
  }

  lemma {:induction false} FlushKeepsInv(limit: nat, s: Sys, epoch: nat)
    requires Inv(limit, s)
    ensures Inv(limit, s.(runtime := s.runtime.(epoch := epoch)))
  {
    var s' := s.(runtime := s.runtime.(epoch := epoch));
    forall f | 0 <= f < |s'.flights|
      ensures FlightInv(s', f)
    {
      assert FlightInv(s, f);
    }
    forall d | d in s'.callers
      ensures CallerInv(s', s'.callers[d])
    {
      assert CallerInv(s, s.callers[d]);
    }
  }

  lemma {:induction false} LoadKeepsInv(limit: nat, s: Sys, step: Step, s': Sys)
    requires Inv(limit, s) && Loads(s, step, s')
    ensures Inv(limit, s')
  {
    var c := step.c;
    assert c in s.callers ==> CallerInv(s, s.callers[c]);
    CallerChangeKeepsInv(limit, s, c, s'.callers[c]);
  }

  lemma {:induction false} LeadKeepsInv(limit: nat, s: Sys, c: CallerId, s': Sys)
    requires Inv(limit, s) && Arrives(limit, s, c, s') && s.callers[c].Key() !in s.table && |s.table| < limit
    ensures Inv(limit, s')
  {
    SizeInsert(s.table, s.callers[c].Key(), |s.flights|);
    assert CallerInv(s, s.callers[c]);
    forall f | 0 <= f < |s'.flights|
      ensures FlightInv(s', f)
    {
      assert f < |s.flights| ==> FlightInv(s, f);
    }
    forall d | d in s'.callers
      ensures CallerInv(s', s'.callers[d])
    {
      assert CallerInv(s, s.callers[d]);
    }
  }

  lemma {:induction false} ArriveKeepsInv(limit: nat, s: Sys, c: CallerId, s': Sys)
    requires Inv(limit, s) && Arrives(limit, s, c, s')
    ensures Inv(limit, s')
  {
    assert CallerInv(s, s.callers[c]);
    if s.callers[c].Key() !in s.table && |s.table| < limit {
      LeadKeepsInv(limit, s, c, s');
    } else {
      CallerChangeKeepsInv(limit, s, c, s'.callers[c]);
    }
  }

  lemma {:induction false} FlightStepKeepsInv(limit: nat, s: Sys, step: Step, s': Sys)
    requires Inv(limit, s) && FlightMoves(s, step, s')
    ensures Inv(limit, s')
  {
    var g := step.f;
    SizeSubmap(s.table - {s.flights[g].key}, s.table);
    assert FlightInv(s, g);
    forall f | 0 <= f < |s'.flights|
      ensures FlightInv(s', f)
    {
      assert FlightInv(s, f);
    }
    forall d | d in s'.callers
      ensures CallerInv(s', s'.callers[d])
    {
      assert CallerInv(s, s.callers[d]);
    }
  }

  lemma {:induction false} CallerStepKeepsInv(limit: nat, s: Sys, step: Step, s': Sys)
    requires Inv(limit, s) && CallerMoves(s, step, s')
    ensures Inv(limit, s')
  {
    var c := step.c;
    assert CallerInv(s, s.callers[c]);
    if step.Deliver? {
      var flight := s.flights[s.callers[c].phase.flight];
      assert FlightInv(s, s.callers[c].phase.flight);
      assert CallerInv(s, s.callers[flight.leader]);
      SameKeySameReplies(s, s.callers[c], s.callers[flight.leader], flight.phase.reply);
    }
    CallerChangeKeepsInv(limit, s, c, s'.callers[c]);
  }

  lemma {:induction false} NextKeepsInv(limit: nat, s: Sys, step: Step, s': Sys)
    requires Inv(limit, s) && Next(limit, s, step, s')
    ensures Inv(limit, s')
  {
    match step
    case Publish(slot, p, content) => PublishKeepsInv(limit, s, slot, p, content);
    case Flush => FlushKeepsInv(limit, s, s.runtime.epoch + 1);
    case Arrive(c) => ArriveKeepsInv(limit, s, c, s');
    case LeaderResolves(_, _) => FlightStepKeepsInv(limit, s, step, s');
    case LeaderRetires(_) => FlightStepKeepsInv(limit, s, step, s');
    case ArriveCancelled(_) => CallerStepKeepsInv(limit, s, step, s');
    case ResolveAlone(_, _) => CallerStepKeepsInv(limit, s, step, s');
    case Deliver(_) => CallerStepKeepsInv(limit, s, step, s');
    case GiveUp(_) => CallerStepKeepsInv(limit, s, step, s');
    case _ => LoadKeepsInv(limit, s, step, s');
  }

  lemma {:induction false} RunKeepsInv(limit: nat, states: seq<Sys>, steps: seq<Step>, i: nat)
    requires IsRun(limit, states, steps) && i < |states|
    ensures Inv(limit, states[i])
  {
    if i > 0 {
      RunKeepsInv(limit, states, steps, i - 1);
      assert Next(limit, states[i - 1], steps[i - 1], states[i]);
      NextKeepsInv(limit, states[i - 1], steps[i - 1], states[i]);
    }
  }

  // ---------- The guarantees ----------

  predicate SameLiveFlight(s: Sys, f: FlightId, g: FlightId)
    requires f < |s.flights| && g < |s.flights|
  {
    s.flights[f].key == s.flights[g].key && !s.flights[f].phase.Retired? && !s.flights[g].phase.Retired?
  }

  /**
   In every interleaving: the map stays within its limit, at most one flight per
   key is unfinished business, and every delivered reply answers the caller's
   request; if it was computed, then from the very snapshot contents, epoch and
   action which that caller itself had loaded, whoever led the flight.
   */
  lemma {:induction false} DeliveredRepliesMatchTheirCaller(limit: nat, states: seq<Sys>, steps: seq<Step>, i: nat)
    requires IsRun(limit, states, steps) && i < |states|
    ensures |states[i].table| <= limit
    ensures forall c | c in states[i].callers && states[i].callers[c].phase.Delivered? ::
              states[i].callers[c].Makes(states[i].callers[c].phase.reply)
    ensures forall f, g | 0 <= f < |states[i].flights| && 0 <= g < |states[i].flights| :: SameLiveFlight(states[i], f, g) ==> f == g
  {
    RunKeepsInv(limit, states, steps, i);
    var s := states[i];
    forall c | c in s.callers && s.callers[c].phase.Delivered?
      ensures s.callers[c].Makes(s.callers[c].phase.reply)
    {
      assert CallerInv(s, s.callers[c]);
    }
    forall f, g | 0 <= f < |s.flights| && 0 <= g < |s.flights|
      ensures SameLiveFlight(s, f, g) ==> f == g
    {
      assert FlightInv(s, f) && FlightInv(s, g);
    }
  }

  /** What a caller loaded stays what it loaded: later publications change neither identity nor content. */
  lemma {:induction false} LoadsStay(limit: nat, states: seq<Sys>, steps: seq<Step>, i: nat, k: nat, c: CallerId)
    requires IsRun(limit, states, steps) && i <= k < |states| && c in states[i].callers && !states[i].callers[c].Loading()
    ensures c in states[k].callers
    ensures states[k].callers[c] == states[i].callers[c].(phase := states[k].callers[c].phase) && !states[k].callers[c].Loading()
  {
    if i < k {
      LoadsStay(limit, states, steps, i, k - 1, c);
      assert Next(limit, states[k - 1], steps[k - 1], states[k]);
    }
  }

  predicate LiveFlight(s: Sys, key: FlightKey, f: FlightId) {
    f < |s.flights| && s.flights[f].key == key && !s.flights[f].phase.Retired?
  }

  /**
   In every interleaving, a caller that arrives waits for the flight of its key if
   there is one that has not retired; else it leads a new one while the table has
   room; else it resolves alone. No other caller and no other flight is touched.
   */
  lemma {:induction false} ArrivalDecides(limit: nat, states: seq<Sys>, steps: seq<Step>, i: nat)
    requires IsRun(limit, states, steps) && i < |steps| && steps[i].Arrive?
    ensures var s, t, c := states[i], states[i + 1], steps[i].c;
            c in s.callers && t.callers.Keys == s.callers.Keys && t.runtime == s.runtime
            && (forall b :: b in s.callers && b != c ==> t.callers[b] == s.callers[b])
            && var key, phase := s.callers[c].Key(), t.callers[c].phase;
               if exists f: FlightId :: LiveFlight(s, key, f) then
                 phase.Waiting? && LiveFlight(s, key, phase.flight) && t.flights == s.flights && t.table == s.table
               else if |s.table| < limit then
                 && phase == Waiting(|s.flights|) && t.flights == s.flights + [Flight(c, key, Running)]
                 && t.table == s.table[key := |s.flights|]
               else
                 phase == Resolving && t.flights == s.flights && t.table == s.table
  {
    var s, c := states[i], steps[i].c;
    RunKeepsInv(limit, states, steps, i);
    assert Next(limit, s, steps[i], states[i + 1]);
    var key := s.callers[c].Key();
    if key in s.table {
      assert FlightInv(s, s.table[key]);
      assert LiveFlight(s, key, s.table[key]);
    }
    if f: FlightId :| LiveFlight(s, key, f) {
      assert FlightInv(s, f);
    }
  }

  /** A flight leaves the map in exactly one way: its own leader retires it, after having finished it. */
  lemma {:induction false} OnlyTheLeaderRetires(limit: nat, states: seq<Sys>, steps: seq<Step>, i: nat, key: FlightKey)
    requires IsRun(limit, states, steps) && i < |steps| && key in states[i].table
    ensures (key !in states[i + 1].table || states[i + 1].table[key] != states[i].table[key]) <==>
              steps[i] == LeaderRetires(states[i].table[key])
    ensures steps[i] == LeaderRetires(states[i].table[key]) ==> states[i].flights[states[i].table[key]].phase.Finished?
  {
    RunKeepsInv(limit, states, steps, i);
    var s, s' := states[i], states[i + 1];
    assert Next(limit, s, steps[i], s');
    var f := s.table[key];
    assert FlightInv(s, f);
    if steps[i].LeaderRetires? {
      assert FlightInv(s, steps[i].f);
    }
  }

  predicate NeverResolved(steps: seq<Step>, i: nat, k: nat, f: FlightId)
    requires i <= k <= |steps|
  {
    forall n :: i <= n < k ==> !(steps[n].LeaderResolves? && steps[n].f == f)
  }

  /**
   Whoever gives up between two moments, its leader included, a running flight
   keeps running, led by the same closure, until that closure's own result.
   */
  lemma {:induction false} CancellationLeavesSharedWork(limit: nat, states: seq<Sys>, steps: seq<Step>, i: nat, k: nat, f: FlightId)
    requires IsRun(limit, states, steps) && i <= k < |states|
    requires f < |states[i].flights| && states[i].flights[f].phase.Running? && NeverResolved(steps, i, k, f)
    ensures f < |states[k].flights| && states[k].flights[f] == states[i].flights[f]
    ensures states[k].flights[f].key in states[k].table && states[k].table[states[k].flights[f].key] == f
  {
    if i < k {
      CancellationLeavesSharedWork(limit, states, steps, i, k - 1, f);
      assert Next(limit, states[k - 1], steps[k - 1], states[k]);
    }
    RunKeepsInv(limit, states, steps, k);
    assert FlightInv(states[k], f);
  }

  predicate StaysPut(steps: seq<Step>, i: nat, k: nat, c: CallerId)
    requires i <= k <= |steps|
  {
    forall n :: i <= n < k ==> steps[n] != Deliver(c) && steps[n] != GiveUp(c)
  }

  /** A waiter that neither gave up nor was served still waits, and gets the reply as soon as its flight has one. */
  lemma {:induction false} WaitersAreServed(limit: nat, states: seq<Sys>, steps: seq<Step>, i: nat, k: nat, c: CallerId)
    requires IsRun(limit, states, steps) && i <= k < |states|
    requires c in states[i].callers && states[i].callers[c].phase.Waiting? && StaysPut(steps, i, k, c)
    ensures c in states[k].callers && states[k].callers[c] == states[i].callers[c]
    ensures var f := states[k].callers[c].phase.flight;
            && f < |states[k].flights|
            && (!states[k].flights[f].phase.Running? ==>
                  Next(limit, states[k], Deliver(c),
                       WithCaller(states[k], c, states[k].callers[c].(phase := Delivered(states[k].flights[f].phase.reply)))))
  {
    if i < k {
      WaitersAreServed(limit, states, steps, i, k - 1, c);
      assert Next(limit, states[k - 1], steps[k - 1], states[k]);
    }
    RunKeepsInv(limit, states, steps, k);
    assert CallerInv(states[k], states[k].callers[c]);
  }
}
