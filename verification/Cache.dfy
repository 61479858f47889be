module ResponseCache {
  // The capacity-bounded, epoch-guarded response cache. Time is a count of
  // nanoseconds handed to each operation; `T` is the decision metadata kept with
  // an entry.

  import opened Options
  import opened Sizes

  const SECOND := 1_000_000_000
  const STALE_GRACE := 3600 * SECOND
  const TWO32 := 0x1_0000_0000
  const SAMPLE := 8

  datatype Key = Key(name: string, qtype: nat, dnssecOK: bool, checkingDisabled: bool)

  datatype RR = RR(ttl: nat, opt: bool, data: string)

  datatype Msg = Msg(answer: seq<RR>, ns: seq<RR>, extra: seq<RR>, header: string)

  datatype Entry<T> = Entry(msg: Msg, expiry: nat, meta: T)

  datatype State<T> = State(m: map<Key, Entry<T>>, epoch: nat)

  // ---------- What a lookup serves ----------

  function SetTTLs(rrs: seq<RR>, secs: nat): (r: seq<RR>)
    ensures |r| == |rrs|
    ensures forall i :: 0 <= i < |rrs| ==> r[i] == rrs[i].(ttl := secs)
  {
    seq(|rrs|, i requires 0 <= i < |rrs| => rrs[i].(ttl := secs))
  }

  /** `capSectionTTLs`: the EDNS OPT pseudo-record keeps its TTL bits. */
  function CapTTL(rr: RR, secs: nat): RR {
    if rr.opt || rr.ttl <= secs then rr else rr.(ttl := secs)
  }

  function CapTTLs(rrs: seq<RR>, secs: nat): (r: seq<RR>)
    ensures |r| == |rrs|
    ensures forall i :: 0 <= i < |rrs| ==> r[i] == CapTTL(rrs[i], secs)
  {
    seq(|rrs|, i requires 0 <= i < |rrs| => CapTTL(rrs[i], secs))
  }

  function WithTTL(msg: Msg, secs: nat): Msg {
    msg.(answer := SetTTLs(msg.answer, secs), ns := CapTTLs(msg.ns, secs), extra := CapTTLs(msg.extra, secs))
  }

  function RemainingSecs(expiry: nat, now: nat): nat
    requires now < expiry
  {
    ((expiry - now) / SECOND) % TWO32
  }

  predicate Expired<T>(e: Entry<T>, now: nat) {
    now >= e.expiry
  }

  function Get<T>(s: State<T>, k: Key, now: nat): Option<(Msg, T)> {
    if k !in s.m || Expired(s.m[k], now) then None
    else Some((WithTTL(s.m[k].msg, RemainingSecs(s.m[k].expiry, now)), s.m[k].meta))
  }

  predicate BeyondGrace<T>(e: Entry<T>, now: nat) {
    now - e.expiry > STALE_GRACE
  }

  function GetStale<T>(s: State<T>, k: Key, ttl: nat, now: nat): Option<(Msg, T)> {
    if k !in s.m || BeyondGrace(s.m[k], now) then None
    else Some((WithTTL(s.m[k].msg, ttl), s.m[k].meta))
  }

  /** A stale lookup prunes what is too old even for a last resort. */
  function AfterGetStale<T>(s: State<T>, k: Key, now: nat): State<T> {
    if k in s.m && BeyondGrace(s.m[k], now) then s.(m := s.m - {k}) else s
  }

  // ---------- Writes ----------

  function Insert<T>(s: State<T>, k: Key, msg: Msg, ttl: nat, meta: T, now: nat): State<T> {
    s.(m := s.m[k := Entry(msg, now + ttl, meta)])
  }

  function Flushed<T>(s: State<T>, now: nat): State<T> {
    State(map k | k in s.m :: s.m[k].(expiry := now), s.epoch + 1)
  }

  predicate NeedsRoom<T>(s: State<T>, k: Key, max: nat) {
    |s.m| >= max && k !in s.m
  }

  /** Entries that are still live. */
  function Live<T>(s: State<T>, now: nat): set<Key> {
    set k | k in s.m && !Expired(s.m[k], now)
  }

  /** A key `evictOneLocked` may pick: a live one only after a full sample of live ones. */
  predicate MayEvict<T>(s: State<T>, victim: Key, now: nat) {
    && victim in s.m
    && (Expired(s.m[victim], now) || |Live(s, now)| >= SAMPLE || |Live(s, now)| == |s.m|)
  }

  // ---------- The mutable cache ----------

  class Cache<T> {
    var m: map<Key, Entry<T>>
    var epoch: nat
    const max: nat

    ghost function View(): State<T>
      reads this
    {
      State(m, epoch)
    }

    ghost predicate Valid()
      reads this
    {
      max > 0 && |m| <= max
    }

    constructor (max: nat)
      requires max > 0
      ensures Valid() && View() == State(map[], 0) && this.max == max
    {
      m := map[];
      epoch := 0;
      this.max := max;
    }

    method Lookup(k: Key, now: nat) returns (hit: Option<(Msg, T)>)
      ensures hit == Get(View(), k, now)
    {
      if k !in m {
        return None;
      }
      var e := m[k];
      if now >= e.expiry {
        return None;
      }
      hit := Some((WithTTL(e.msg, RemainingSecs(e.expiry, now)), e.meta));
    }

    method LookupStale(k: Key, ttl: nat, now: nat) returns (hit: Option<(Msg, T)>)
      requires Valid()
      modifies this`m
      ensures Valid()
      ensures hit == GetStale(old(View()), k, ttl, now)
      ensures View() == AfterGetStale(old(View()), k, now)
    {
      if k !in m {
        return None;
      }
      var e := m[k];
      if now - e.expiry > STALE_GRACE {
        SizeRemove(m, k);
        m := m - {k};
        return None;
      }
      hit := Some((WithTTL(e.msg, ttl), e.meta));
    }

    /** Samples keys in the map's arbitrary order. */
    method PickVictim(now: nat) returns (victim: Key)
      requires m.Keys != {}
      ensures MayEvict(View(), victim, now)
    {
      var remaining := m.Keys;
      var first :| first in remaining;
      var next := first;
      ghost var sampled: set<Key> := {};
      var i := 0;
      while true
        invariant 0 <= i < SAMPLE
        invariant remaining == m.Keys - sampled
        invariant next in remaining
        invariant sampled <= Live(View(), now) && |sampled| == i
        invariant i > 0 ==> first in sampled
        invariant i == 0 ==> next == first
        decreases SAMPLE - i
      {
        if now >= m[next].expiry {
          return next;
        }
        sampled := sampled + {next};
        remaining := remaining - {next};
        i := i + 1;
        if i >= SAMPLE || remaining == {} {
          break;
        }
        next :| next in remaining;
      }
      assert sampled <= Live(View(), now);
      SubsetSize(sampled, Live(View(), now));
      if remaining == {} {
        assert sampled == m.Keys;
        assert Live(View(), now) == m.Keys;
      }
      return first;
    }

    method PutLocked(k: Key, msg: Msg, ttl: nat, meta: T, now: nat)
      requires Valid()
      modifies this`m
      ensures Valid()
      ensures !NeedsRoom(old(View()), k, max) ==> View() == Insert(old(View()), k, msg, ttl, meta, now)
      ensures NeedsRoom(old(View()), k, max) ==>
                exists victim :: MayEvict(old(View()), victim, now) &&
                  View() == Insert(old(View()).(m := old(m) - {victim}), k, msg, ttl, meta, now)
    {
      if |m| >= max && k !in m {
        assert m.Keys != {} by {
          assert |m.Keys| == |m|;
        }
        var victim := PickVictim(now);
        SizeRemove(m, victim);
        m := m - {victim};
      }
      SizeInsert(m, k, Entry(msg, now + ttl, meta));
      m := m[k := Entry(msg, now + ttl, meta)];
    }

    /** `PutAtEpochWithMetadataOptions`: a write from before a flush is dropped. */
    method PutAtEpoch(k: Key, msg: Msg, ttl: nat, captured: nat, meta: T, now: nat)
      requires Valid()
      modifies this`m
      ensures Valid()
      ensures captured != epoch ==> View() == old(View())
      ensures captured == epoch && !NeedsRoom(old(View()), k, max) ==> View() == Insert(old(View()), k, msg, ttl, meta, now)
      ensures captured == epoch && NeedsRoom(old(View()), k, max) ==>
                exists victim :: MayEvict(old(View()), victim, now) &&
                  View() == Insert(old(View()).(m := old(m) - {victim}), k, msg, ttl, meta, now)
    {
      if captured != epoch {
        return;
      }
      PutLocked(k, msg, ttl, meta, now);
    }

    /** Expires every entry in place and moves to the next epoch. */
    method Flush(now: nat)
      requires Valid()
      modifies this
      ensures Valid()
      ensures View() == Flushed(old(View()), now)
    {
      var todo := m.Keys;
      while todo != {}
        invariant m.Keys == old(m).Keys && todo <= m.Keys
        invariant forall k :: k in m ==> m[k] == if k in todo then old(m)[k] else old(m)[k].(expiry := now)
        invariant epoch == old(epoch)
        decreases todo
      {
        var k :| k in todo;
        m := m[k := m[k].(expiry := now)];
        todo := todo - {k};
      }
      epoch := epoch + 1;
      assert m == Flushed(old(View()), now).m;
      assert |m.Keys| == |old(m).Keys|;
    }
  }

  // ---------- Refinement of an unbounded cache ----------

  datatype Op<T> =
    | GetOp(k: Key)
    | StaleOp(k: Key, ttl: nat)
    | PutOp(k: Key, msg: Msg, ttl: nat, captured: nat, meta: T)
    | FlushOp

  datatype Event<T> = Event(op: Op<T>, now: nat)

  /** What the caller sees. */
  function Output<T>(s: State<T>, ev: Event<T>): Option<(Msg, T)> {
    match ev.op
    case GetOp(k) => Get(s, k, ev.now)
    case StaleOp(k, ttl) => GetStale(s, k, ttl, ev.now)
    case _ => None
  }

  /** The cache with no bound: it never evicts. */
  function UnboundedStep<T>(s: State<T>, ev: Event<T>): State<T> {
    match ev.op
    case GetOp(_) => s
    case StaleOp(k, _) => AfterGetStale(s, k, ev.now)
    case PutOp(k, msg, ttl, captured, meta) => if captured != s.epoch then s else Insert(s, k, msg, ttl, meta, ev.now)
    case FlushOp => Flushed(s, ev.now)
  }

  /** The bounded cache, whose eviction may pick any admissible victim. */
  ghost predicate BoundedStep<T>(max: nat, s: State<T>, ev: Event<T>, s': State<T>) {
    match ev.op
    case PutOp(k, msg, ttl, captured, meta) =>
      if captured == s.epoch && NeedsRoom(s, k, max) then
        exists victim :: MayEvict(s, victim, ev.now) && s' == Insert(s.(m := s.m - {victim}), k, msg, ttl, meta, ev.now)
      else s' == UnboundedStep(s, ev)
    case _ => s' == UnboundedStep(s, ev)
  }

  function UnboundedRun<T>(events: seq<Event<T>>): State<T> {
    if events == [] then State(map[], 0)
    else UnboundedStep(UnboundedRun(events[..|events| - 1]), events[|events| - 1])
  }

  ghost predicate BoundedRun<T>(max: nat, events: seq<Event<T>>, states: seq<State<T>>) {
    && |states| == |events| + 1
    && states[0] == State(map[], 0)
    && forall i :: 0 <= i < |events| ==> BoundedStep(max, states[i], events[i], states[i + 1])
  }

  predicate SubState<T(==)>(a: State<T>, b: State<T>) {
    a.epoch == b.epoch && a.m.Keys <= b.m.Keys && forall k :: k in a.m ==> a.m[k] == b.m[k]
  }

  lemma {:induction false} StepKeepsSubState<T>(max: nat, a: State<T>, b: State<T>, ev: Event<T>, a': State<T>)
    requires SubState(a, b) && BoundedStep(max, a, ev, a')
    ensures SubState(a', UnboundedStep(b, ev))
  {
  }

  lemma {:induction false} StepKeepsBound<T>(max: nat, a: State<T>, ev: Event<T>, a': State<T>)
    requires max > 0 && |a.m| <= max && BoundedStep(max, a, ev, a')
    ensures |a'.m| <= max
  {
    match ev.op
    case GetOp(_) =>
    case StaleOp(k, _) =>
      if k in a.m {
        SizeRemove(a.m, k);
      }
    case PutOp(k, msg, ttl, captured, meta) =>
      if captured == a.epoch {
        var e := Entry(msg, ev.now + ttl, meta);
        if NeedsRoom(a, k, max) {
          var victim :| MayEvict(a, victim, ev.now) && a' == Insert(a.(m := a.m - {victim}), k, msg, ttl, meta, ev.now);
          SizeRemove(a.m, victim);
          SizeInsert(a.m - {victim}, k, e);
        } else {
          SizeInsert(a.m, k, e);
        }
      }
    case FlushOp =>
      assert a'.m.Keys == a.m.Keys;
      assert |a'.m.Keys| == |a'.m| && |a.m.Keys| == |a.m|;
  }

  /** Every hit of the bounded cache, fresh or stale, is the hit the unbounded cache gives; the bound holds throughout. */
  lemma {:induction false} BoundedRefinesUnbounded<T>(max: nat, events: seq<Event<T>>, states: seq<State<T>>, i: nat)
    requires max > 0 && BoundedRun(max, events, states) && i <= |events|
    ensures |states[i].m| <= max
    ensures SubState(states[i], UnboundedRun(events[..i]))
    ensures i < |events| && Output(states[i], events[i]).Some? ==>
              Output(UnboundedRun(events[..i]), events[i]) == Output(states[i], events[i])
    decreases i
  {
    if i > 0 {
      BoundedRefinesUnbounded(max, events, states, i - 1);
      assert events[..i][..i - 1] == events[..i - 1];
      assert BoundedStep(max, states[i - 1], events[i - 1], states[i]);
      StepKeepsSubState(max, states[i - 1], UnboundedRun(events[..i - 1]), events[i - 1], states[i]);
      StepKeepsBound(max, states[i - 1], events[i - 1], states[i]);
    }
  }

  // ---------- What a hit promises about the write behind it ----------

  predicate IsPutOf<T(==)>(ev: Event<T>, k: Key, e: Entry<T>) {
    ev.op.PutOp? && ev.op.k == k && ev.op.msg == e.msg && ev.op.meta == e.meta
  }

  predicate NoFlushBetween<T>(events: seq<Event<T>>, j: nat, i: nat)
    requires i <= |events|
  {
    forall n :: j < n < i ==> !events[n].op.FlushOp?
  }

  /** When the write of event `j` stops being fresh, seen from event `i`: at the end of its lifetime, or at the last flush since. */
  function EndOf<T>(events: seq<Event<T>>, j: nat, i: nat): nat
    requires j < i <= |events| && events[j].op.PutOp?
    decreases i
  {
    if i == j + 1 then events[j].now + events[j].op.ttl
    else if events[i - 1].op.FlushOp? then events[i - 1].now
    else EndOf(events, j, i - 1)
  }

  /** Event `n` is a write of the key at the epoch then current. */
  ghost predicate AcceptedPut<T>(events: seq<Event<T>>, n: nat, k: Key)
    requires n < |events|
  {
    events[n].op.PutOp? && events[n].op.k == k && events[n].op.captured == UnboundedRun(events[..n]).epoch
  }

  ghost predicate LatestPut<T>(events: seq<Event<T>>, j: nat, i: nat, k: Key)
    requires j < i <= |events|
  {
    AcceptedPut(events, j, k) && forall n :: j < n < i ==> !AcceptedPut(events, n, k)
  }

  /** The entry holds what the latest accepted write `j` wrote, and expires when that write stops being fresh. */
  ghost predicate BackedBy<T>(events: seq<Event<T>>, i: nat, k: Key, e: Entry<T>, j: nat)
    requires i <= |events|
  {
    j < i && IsPutOf(events[j], k, e) && LatestPut(events, j, i, k) && e.expiry == EndOf(events, j, i)
  }

  ghost predicate Backed<T>(events: seq<Event<T>>, i: nat, k: Key, e: Entry<T>)
    requires i <= |events|
  {
    exists j :: BackedBy(events, i, k, e, j)
  }

  lemma {:induction false} BackedLater<T>(events: seq<Event<T>>, i: nat, k: Key, e: Entry<T>)
    requires i < |events| && Backed(events, i, k, e) && !AcceptedPut(events, i, k)
    ensures !events[i].op.FlushOp? ==> Backed(events, i + 1, k, e)
    ensures events[i].op.FlushOp? ==> Backed(events, i + 1, k, e.(expiry := events[i].now))
  {
    var j :| BackedBy(events, i, k, e, j);
    assert LatestPut(events, j, i + 1, k);
    if events[i].op.FlushOp? {
      assert BackedBy(events, i + 1, k, e.(expiry := events[i].now), j);
    } else {
      assert BackedBy(events, i + 1, k, e, j);
    }
  }

  ghost predicate AllBacked<T>(events: seq<Event<T>>, i: nat, s: State<T>)
    requires i <= |events|
  {
    forall k :: k in s.m ==> Backed(events, i, k, s.m[k])
  }

  lemma {:induction false} UnboundedStepBacked<T>(events: seq<Event<T>>, i: nat, s: State<T>)
    requires i < |events| && s == UnboundedRun(events[..i]) && AllBacked(events, i, s)
    ensures AllBacked(events, i + 1, UnboundedStep(s, events[i]))
  {
    var s' := UnboundedStep(s, events[i]);
    forall k | k in s'.m
      ensures Backed(events, i + 1, k, s'.m[k])
    {
      var op := events[i].op;
      if AcceptedPut(events, i, k) {
        assert LatestPut(events, i, i + 1, k);
        assert BackedBy(events, i + 1, k, s'.m[k], i);
      } else {
        BackedLater(events, i, k, s.m[k]);
      }
    }
  }

  lemma {:induction false} UnboundedBacked<T>(events: seq<Event<T>>, i: nat)
    requires i <= |events|
    ensures AllBacked(events, i, UnboundedRun(events[..i]))
  {
    if i > 0 {
      UnboundedBacked(events, i - 1);
      assert events[..i][..i - 1] == events[..i - 1];
      UnboundedStepBacked(events, i - 1, UnboundedRun(events[..i - 1]));
    }
  }

  ghost predicate Monotone<T>(events: seq<Event<T>>) {
    forall i, j :: 0 <= i < j < |events| ==> events[i].now <= events[j].now
  }

  /** No record outlives the write's remaining lifetime, EDNS pseudo-records aside. */
  predicate TTLsWithin(msg: Msg, lifetime: int) {
    && (forall i :: 0 <= i < |msg.answer| ==> msg.answer[i].ttl * SECOND <= lifetime)
    && (forall i :: 0 <= i < |msg.ns| ==> msg.ns[i].opt || msg.ns[i].ttl * SECOND <= lifetime)
    && (forall i :: 0 <= i < |msg.extra| ==> msg.extra[i].opt || msg.extra[i].ttl * SECOND <= lifetime)
  }

  /**
   A normal hit of the bounded cache goes back to the latest accepted write of
   that key: no flush has happened since, its lifetime has not run out, the
   data are the written data, and no served TTL exceeds what is left of that
   lifetime.
   */
  lemma {:induction false} HitComesFromLiveWrite<T>(max: nat, events: seq<Event<T>>, states: seq<State<T>>, i: nat) returns (j: nat)
    requires max > 0 && BoundedRun(max, events, states) && Monotone(events)
    requires i < |events| && events[i].op.GetOp? && Output(states[i], events[i]).Some?
    ensures j < i && events[j].op.PutOp? && events[j].op.k == events[i].op.k
    ensures events[j].op.captured == states[j].epoch
    ensures forall n :: j < n < i && events[n].op.PutOp? && events[n].op.k == events[i].op.k ==> events[n].op.captured != states[n].epoch
    ensures NoFlushBetween(events, j, i)
    ensures events[i].now < events[j].now + events[j].op.ttl
    ensures var (msg, meta) := Output(states[i], events[i]).value;
            && meta == events[j].op.meta && SameRecords(msg, events[j].op.msg)
            && TTLsWithin(msg, events[j].now + events[j].op.ttl - events[i].now)
            && ServedTTLs(msg, events[j].op.msg, ((events[j].now + events[j].op.ttl - events[i].now) / SECOND) % TWO32)
  {
    var k := events[i].op.k;
    j := WriterOf(max, events, states, i, k);
    LatestInRun(max, events, states, j, i, k);
    FreshIsUnflushed(events, j, i, events[i].now);
    UnflushedEnd(events, j, i);
  }

  lemma {:induction false} WriterOf<T>(max: nat, events: seq<Event<T>>, states: seq<State<T>>, i: nat, k: Key) returns (j: nat)
    requires max > 0 && BoundedRun(max, events, states) && i <= |events| && k in states[i].m
    ensures BackedBy(events, i, k, states[i].m[k], j)
  {
    BoundedRefinesUnbounded(max, events, states, i);
    UnboundedBacked(events, i);
    assert Backed(events, i, k, states[i].m[k]);
    j :| BackedBy(events, i, k, states[i].m[k], j);
  }

  lemma {:induction false} LatestInRun<T>(max: nat, events: seq<Event<T>>, states: seq<State<T>>, j: nat, i: nat, k: Key)
    requires max > 0 && BoundedRun(max, events, states) && j < i <= |events| && LatestPut(events, j, i, k)
    ensures events[j].op.captured == states[j].epoch
    ensures forall n :: j < n < i && events[n].op.PutOp? && events[n].op.k == k ==> events[n].op.captured != states[n].epoch
  {
    BoundedRefinesUnbounded(max, events, states, j);
    forall n | j < n < i && events[n].op.PutOp? && events[n].op.k == k
      ensures events[n].op.captured != states[n].epoch
    {
      BoundedRefinesUnbounded(max, events, states, n);
      assert !AcceptedPut(events, n, k);
    }
  }

  lemma {:induction false} UnflushedEnd<T>(events: seq<Event<T>>, j: nat, i: nat)
    requires j < i <= |events| && events[j].op.PutOp? && NoFlushBetween(events, j, i)
    ensures EndOf(events, j, i) == events[j].now + events[j].op.ttl
    decreases i
  {
    if i > j + 1 {
      UnflushedEnd(events, j, i - 1);
    }
  }

  /** A write that is still fresh has seen no flush. */
  lemma {:induction false} FreshIsUnflushed<T>(events: seq<Event<T>>, j: nat, i: nat, now: nat)
    requires j < i <= |events| && events[j].op.PutOp? && now < EndOf(events, j, i)
    requires forall n :: j < n < i ==> events[n].now <= now
    ensures NoFlushBetween(events, j, i)
    decreases i
  {
    if i > j + 1 && !events[i - 1].op.FlushOp? {
      FreshIsUnflushed(events, j, i - 1, now);
    }
  }

  predicate SameRecords(a: Msg, b: Msg) {
    && a.header == b.header
    && SameData(a.answer, b.answer) && SameData(a.ns, b.ns) && SameData(a.extra, b.extra)
  }

  predicate SameData(a: seq<RR>, b: seq<RR>) {
    |a| == |b| && forall i :: 0 <= i < |a| ==> a[i].data == b[i].data && a[i].opt == b[i].opt
  }

  /** Every answer has the asked TTL; other records have at most that, and EDNS pseudo-records keep theirs. */
  predicate ServedTTLs(served: Msg, written: Msg, ttl: nat) {
    && |served.answer| == |written.answer| && (forall i :: 0 <= i < |served.answer| ==> served.answer[i].ttl == ttl)
    && ServedAtMost(served.ns, written.ns, ttl) && ServedAtMost(served.extra, written.extra, ttl)
  }

  predicate ServedAtMost(served: seq<RR>, written: seq<RR>, ttl: nat) {
    && |served| == |written|
    && forall i :: 0 <= i < |served| ==>
         served[i].ttl == if !written[i].opt && written[i].ttl > ttl then ttl else written[i].ttl
  }

  // ---------- Stale hits ----------

  /**
   A stale hit of the bounded cache, too, goes back to the latest accepted write
   of that key: the data are the written data, every answer has exactly the TTL
   asked for, no other record more, and it is at most an hour since the write
   stopped being fresh.
   */
  lemma {:induction false} StaleHitComesFromLatestWrite<T>(max: nat, events: seq<Event<T>>, states: seq<State<T>>, i: nat) returns (j: nat)
    requires max > 0 && BoundedRun(max, events, states)
    requires i < |events| && events[i].op.StaleOp? && Output(states[i], events[i]).Some?
    ensures j < i && events[j].op.PutOp? && events[j].op.k == events[i].op.k
    ensures events[j].op.captured == states[j].epoch
    ensures forall n :: j < n < i && events[n].op.PutOp? && events[n].op.k == events[i].op.k ==> events[n].op.captured != states[n].epoch
    ensures events[i].now <= EndOf(events, j, i) + 3600 * SECOND
    ensures var (msg, meta) := Output(states[i], events[i]).value;
            meta == events[j].op.meta && SameRecords(msg, events[j].op.msg) && ServedTTLs(msg, events[j].op.msg, events[i].op.ttl)
  {
    var k := events[i].op.k;
    j := WriterOf(max, events, states, i, k);
    LatestInRun(max, events, states, j, i, k);
  }

  // ---------- When there is a hit ----------

  /** Event `j` is the latest write of the key that the cache took. */
  ghost predicate TakenWrite<T>(events: seq<Event<T>>, states: seq<State<T>>, j: nat, i: nat, k: Key)
    requires |states| == |events| + 1 && i <= |events|
  {
    && j < i && events[j].op.PutOp? && events[j].op.k == k && events[j].op.captured == states[j].epoch
    && forall n :: j < n < i && events[n].op.PutOp? && events[n].op.k == k ==> events[n].op.captured != states[n].epoch
  }

  /** No write of another key pushed this one out. */
  predicate NotEvicted<T>(events: seq<Event<T>>, states: seq<State<T>>, j: nat, i: nat, k: Key)
    requires |states| == |events| + 1 && i <= |events|
  {
    forall n :: j < n < i && events[n].op.PutOp? ==> k in states[n + 1].m
  }

  /** The key never left the cache. */
  predicate Kept<T>(states: seq<State<T>>, j: nat, i: nat, k: Key)
    requires i < |states|
  {
    forall n :: j < n <= i ==> k in states[n].m
  }

  /** A key that was not written was there before. */
  lemma {:induction false} OnlyWritesAdd<T>(max: nat, s: State<T>, ev: Event<T>, s': State<T>, k: Key)
    requires BoundedStep(max, s, ev, s') && k in s'.m
    requires ev.op.PutOp? && ev.op.k == k ==> ev.op.captured != s.epoch
    ensures k in s.m
  {
  }

  lemma {:induction false} TakenEarlier<T>(events: seq<Event<T>>, states: seq<State<T>>, j: nat, i: nat, k: Key)
    requires |states| == |events| + 1 && i <= |events| && TakenWrite(events, states, j, i, k) && i > j + 1
    ensures TakenWrite(events, states, j, i - 1, k)
    ensures events[i - 1].op.PutOp? && events[i - 1].op.k == k ==> events[i - 1].op.captured != states[i - 1].epoch
  {
  }

  lemma {:induction false} PresentWasKept<T>(max: nat, events: seq<Event<T>>, states: seq<State<T>>, j: nat, i: nat, k: Key)
    requires BoundedRun(max, events, states) && i <= |events| && TakenWrite(events, states, j, i, k) && k in states[i].m
    ensures Kept(states, j, i, k)
    decreases i
  {
    if i > j + 1 {
      assert BoundedStep(max, states[i - 1], events[i - 1], states[i]);
      TakenEarlier(events, states, j, i, k);
      OnlyWritesAdd(max, states[i - 1], events[i - 1], states[i], k);
      PresentWasKept(max, events, states, j, i - 1, k);
    }
  }

  /** Without an accepted write of it, an entry that stays only has its expiry moved, by a flush. */
  lemma {:induction false} StayingEntry<T>(max: nat, s: State<T>, ev: Event<T>, s': State<T>, k: Key)
    requires BoundedStep(max, s, ev, s') && k in s.m && k in s'.m
    requires ev.op.PutOp? && ev.op.k == k ==> ev.op.captured != s.epoch
    ensures s'.m[k].expiry == if ev.op.FlushOp? then ev.now else s.m[k].expiry
  {
  }

  lemma {:induction false} TakenIsThere<T>(max: nat, s: State<T>, ev: Event<T>, s': State<T>)
    requires BoundedStep(max, s, ev, s') && ev.op.PutOp? && ev.op.captured == s.epoch
    ensures ev.op.k in s'.m && s'.m[ev.op.k].expiry == ev.now + ev.op.ttl
  {
  }

  lemma {:induction false} KeptEntry<T>(max: nat, events: seq<Event<T>>, states: seq<State<T>>, j: nat, i: nat, k: Key)
    requires BoundedRun(max, events, states) && i <= |events| && TakenWrite(events, states, j, i, k) && Kept(states, j, i, k)
    ensures k in states[i].m && states[i].m[k].expiry == EndOf(events, j, i)
    decreases i
  {
    assert BoundedStep(max, states[i - 1], events[i - 1], states[i]);
    if i == j + 1 {
      TakenIsThere(max, states[j], events[j], states[i]);
    } else {
      KeptEntry(max, events, states, j, i - 1, k);
      StayingEntry(max, states[i - 1], events[i - 1], states[i], k);
    }
  }

  /** The write behind a stale answer: the latest taken one, its entry still there, at most an hour past being fresh. */
  ghost predicate ServesStale<T>(events: seq<Event<T>>, states: seq<State<T>>, j: nat, i: nat, k: Key)
    requires |states| == |events| + 1 && i < |events|
  {
    TakenWrite(events, states, j, i, k) && Kept(states, j, i, k) && events[i].now <= EndOf(events, j, i) + 3600 * SECOND
  }

  /** There is a stale answer exactly if there is such a write. */
  lemma {:induction false} StaleHitIff<T>(max: nat, events: seq<Event<T>>, states: seq<State<T>>, i: nat)
    requires max > 0 && BoundedRun(max, events, states) && i < |events| && events[i].op.StaleOp?
    ensures Output(states[i], events[i]).Some? <==> exists j: nat :: ServesStale(events, states, j, i, events[i].op.k)
    ensures Output(states[i], events[i]).Some? <==>
              events[i].op.k in states[i].m && events[i].now <= states[i].m[events[i].op.k].expiry + 3600 * SECOND
  {
    var k := events[i].op.k;
    if Output(states[i], events[i]).Some? {
      var j := StaleHitComesFromLatestWrite(max, events, states, i);
      PresentWasKept(max, events, states, j, i, k);
      assert ServesStale(events, states, j, i, k);
    }
    if j: nat :| ServesStale(events, states, j, i, k) {
      KeptEntry(max, events, states, j, i, k);
    }
  }

  /** The write behind a normal answer: the latest taken one, not flushed, not pushed out, its lifetime not over. */
  ghost predicate ServesFresh<T>(events: seq<Event<T>>, states: seq<State<T>>, j: nat, i: nat, k: Key)
    requires |states| == |events| + 1 && i < |events|
  {
    && TakenWrite(events, states, j, i, k) && NoFlushBetween(events, j, i) && NotEvicted(events, states, j, i, k)
    && events[i].now < events[j].now + events[j].op.ttl
  }

  /** Nothing but eviction removes an entry while its lifetime runs. */
  lemma {:induction false} FreshStays<T>(max: nat, s: State<T>, ev: Event<T>, s': State<T>, k: Key)
    requires BoundedStep(max, s, ev, s') && k in s.m && ev.now < s.m[k].expiry
    requires ev.op.PutOp? ==> k in s'.m
    ensures k in s'.m
  {
  }

  lemma {:induction false} FreshIsKept<T>(max: nat, events: seq<Event<T>>, states: seq<State<T>>, j: nat, i: nat, k: Key, end: nat)
    requires BoundedRun(max, events, states) && i <= |events| && TakenWrite(events, states, j, i, k)
    requires NoFlushBetween(events, j, i) && NotEvicted(events, states, j, i, k)
    requires end == events[j].now + events[j].op.ttl && forall n :: j < n < i ==> events[n].now < end
    ensures Kept(states, j, i, k)
    decreases i
  {
    assert BoundedStep(max, states[i - 1], events[i - 1], states[i]);
    if i == j + 1 {
      TakenIsThere(max, states[j], events[j], states[i]);
    } else {
      FreshIsKept(max, events, states, j, i - 1, k, end);
      KeptEntry(max, events, states, j, i - 1, k);
      UnflushedEnd(events, j, i - 1);
      FreshStays(max, states[i - 1], events[i - 1], states[i], k);
    }
  }

  /** There is a normal answer exactly if there is such a write. */
  lemma {:induction false} HitIff<T>(max: nat, events: seq<Event<T>>, states: seq<State<T>>, i: nat)
    requires max > 0 && BoundedRun(max, events, states) && Monotone(events) && i < |events| && events[i].op.GetOp?
    ensures Output(states[i], events[i]).Some? <==> exists j: nat :: ServesFresh(events, states, j, i, events[i].op.k)
    ensures Output(states[i], events[i]).Some? <==> events[i].op.k in states[i].m && events[i].now < states[i].m[events[i].op.k].expiry
  {
    var k := events[i].op.k;
    if Output(states[i], events[i]).Some? {
      var j := HitComesFromLiveWrite(max, events, states, i);
      PresentWasKept(max, events, states, j, i, k);
      assert ServesFresh(events, states, j, i, k);
    }
    if j: nat :| ServesFresh(events, states, j, i, k) {
      FreshIsKept(max, events, states, j, i, k, events[j].now + events[j].op.ttl);
      KeptEntry(max, events, states, j, i, k);
      UnflushedEnd(events, j, i);
    }
  }
}
