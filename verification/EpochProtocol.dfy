module EpochProtocol {
  // Queries and publishers interleaving over the hot-swappable snapshots and the
  // response cache. A query captures the cache epoch, loads the four snapshots one
  // at a time, looks up, resolves and writes back at the captured epoch; a
  // publisher stores one or more snapshots and then flushes. Every action between
  // two lock or atomic operations is one step, and steps interleave freely.

  import opened Options
  import opened ResponseCache

  datatype Slot = Upstreams | Rules | Intercept | Policy

  /** Which version of each snapshot: versions grow with every store. */
  datatype Versions = Versions(upstreams: nat, rules: nat, intercept: nat, policy: nat) {
    function At(slot: Slot): nat {
      match slot
      case Upstreams => upstreams
      case Rules => rules
      case Intercept => intercept
      case Policy => policy
    }

    function With(slot: Slot, v: nat): Versions {
      match slot
      case Upstreams => this.(upstreams := v)
      case Rules => this.(rules := v)
      case Intercept => this.(intercept := v)
      case Policy => this.(policy := v)
    }
  }

  predicate NoOlder(a: Versions, b: Versions) {
    forall slot: Slot :: a.At(slot) >= b.At(slot)
  }

  /** How many of the four loads are done, in the order the resolver performs them. */
  const LOAD_ORDER: seq<Slot> := [Upstreams, Rules, Intercept, Policy]

  datatype Query = Query(key: Key, epoch: nat, loads: nat, loaded: Versions)

  datatype Publication = Publication(stored: map<Slot, nat>, flushed: bool)

  datatype Sys = Sys(
    cache: State<Versions>,   // the metadata of an entry is the snapshots it was computed from
    now: nat,
    current: Versions,        // the published snapshots
    nextVersion: nat,             // the next version number
    marks: seq<Versions>,     // marks[e]: what was published when epoch e began
    queries: map<nat, Query>,
    pubs: map<nat, Publication>)

  datatype Step =
    | Tick(to: nat)
    | Capture(q: nat, key: Key)
    | Load(q: nat)
    | PutBack(q: nat, msg: Msg, ttl: nat)
    | StaleLookup(key: Key, ttl: nat)
    | Begin(p: nat)
    | Store(p: nat, slot: Slot)
    | FlushFor(p: nat)

  ghost predicate Init(s: Sys) {
    && s.cache == ResponseCache.State(map[], 0)
    && s.marks == [s.current]
    && (forall slot: Slot :: s.current.At(slot) < s.nextVersion)
    && s.queries == map[] && s.pubs == map[]
  }

  ghost predicate CacheMoves(max: nat, s: Sys, op: Op<Versions>, s': Sys) {
    && BoundedStep(max, s.cache, Event(op, s.now), s'.cache)
    && s' == s.(cache := s'.cache)
  }

  ghost predicate Next(max: nat, s: Sys, step: Step, s': Sys) {
    match step
    case Tick(to) =>
      to >= s.now && s' == s.(now := to)
    case Capture(q, key) =>
      q !in s.queries && s' == s.(queries := s.queries[q := Query(key, s.cache.epoch, 0, Versions(0, 0, 0, 0))])
    case Load(q) =>
      && q in s.queries && s.queries[q].loads < |LOAD_ORDER|
      && var query := s.queries[q];
         var slot := LOAD_ORDER[query.loads];
         s' == s.(queries := s.queries[q := query.(loads := query.loads + 1, loaded := query.loaded.With(slot, s.current.At(slot)))])
    case PutBack(q, msg, ttl) =>
      && q in s.queries && s.queries[q].loads == |LOAD_ORDER|
      && var query := s.queries[q];
         CacheMoves(max, s, PutOp(query.key, msg, ttl, query.epoch, query.loaded), s')
    case StaleLookup(key, ttl) =>
      CacheMoves(max, s, StaleOp(key, ttl), s')
    case Begin(p) =>
      p !in s.pubs && s' == s.(pubs := s.pubs[p := Publication(map[], false)])
    case Store(p, slot) =>
      && p in s.pubs && !s.pubs[p].flushed
      && s' == s.(current := s.current.With(slot, s.nextVersion), nextVersion := s.nextVersion + 1,
                  pubs := s.pubs[p := s.pubs[p].(stored := s.pubs[p].stored[slot := s.nextVersion])])
    case FlushFor(p) =>
      && p in s.pubs && !s.pubs[p].flushed
      && s' == s.(cache := Flushed(s.cache, s.now), marks := s.marks + [s.current],
                  pubs := s.pubs[p := s.pubs[p].(flushed := true)])
  }

  ghost predicate IsRun(max: nat, states: seq<Sys>, steps: seq<Step>) {
    && |states| == |steps| + 1
    && Init(states[0])
    && forall i :: 0 <= i < |steps| ==> Next(max, states[i], steps[i], states[i + 1])
  }

  // ---------- The invariant ----------

  ghost predicate MarksInv(s: Sys) {
    && |s.marks| == s.cache.epoch + 1
    && (forall e :: 0 <= e < |s.marks| ==> NoOlder(s.current, s.marks[e]))
    && (forall e, f :: 0 <= e <= f < |s.marks| ==> NoOlder(s.marks[f], s.marks[e]))
    && (forall slot: Slot :: s.current.At(slot) < s.nextVersion)
  }

  /** What a query has loaded is no older than what was published when its epoch began. */
  ghost predicate QueryInv(s: Sys, query: Query) {
    && query.epoch < |s.marks| && query.loads <= |LOAD_ORDER|
    && forall n :: 0 <= n < query.loads ==> query.loaded.At(LOAD_ORDER[n]) >= s.marks[query.epoch].At(LOAD_ORDER[n])
  }

  /** A live entry was computed from snapshots published in the current epoch. */
  ghost predicate EntryInv(s: Sys, e: Entry<Versions>) {
    Expired(e, s.now) || (s.marks != [] && NoOlder(e.meta, s.marks[|s.marks| - 1]))
  }

  ghost predicate PubInv(s: Sys, pub: Publication) {
    forall slot | slot in pub.stored ::
      && pub.stored[slot] <= s.current.At(slot)
      && (pub.flushed ==> s.marks != [] && pub.stored[slot] <= s.marks[|s.marks| - 1].At(slot))
  }

  ghost predicate Inv(s: Sys) {
    && MarksInv(s)
    && (forall q :: q in s.queries ==> QueryInv(s, s.queries[q]))
    && (forall k :: k in s.cache.m ==> EntryInv(s, s.cache.m[k]))
    && (forall p :: p in s.pubs ==> PubInv(s, s.pubs[p]))
  }

  lemma AllLoaded(s: Sys, query: Query)
    requires QueryInv(s, query) && query.loads == |LOAD_ORDER|
    ensures NoOlder(query.loaded, s.marks[query.epoch])
  {
    forall slot: Slot
      ensures query.loaded.At(slot) >= s.marks[query.epoch].At(slot)
    {
      match slot
      case Upstreams => assert LOAD_ORDER[0] == slot;
      case Rules => assert LOAD_ORDER[1] == slot;
      case Intercept => assert LOAD_ORDER[2] == slot;
      case Policy => assert LOAD_ORDER[3] == slot;
    }
  }

  lemma LoadKeepsInv(max: nat, s: Sys, q: nat, s': Sys)
    requires Inv(s) && Next(max, s, Load(q), s')
    ensures Inv(s')
  {
    var query := s.queries[q];
    var query' := s'.queries[q];
    var slot := LOAD_ORDER[query.loads];
    assert NoOlder(s.current, s.marks[query.epoch]);
    forall n | 0 <= n < query'.loads
      ensures query'.loaded.At(LOAD_ORDER[n]) >= s'.marks[query'.epoch].At(LOAD_ORDER[n])
    {
      if n < query.loads {
        assert LOAD_ORDER[n] != slot;
      }
    }
    forall r | r in s'.queries
      ensures QueryInv(s', s'.queries[r])
    {
      assert r != q ==> QueryInv(s, s.queries[r]);
    }
    assert forall k :: k in s'.cache.m ==> EntryInv(s, s.cache.m[k]);
    assert forall p :: p in s'.pubs ==> PubInv(s, s.pubs[p]);
  }

  lemma PutBackKeepsInv(max: nat, s: Sys, q: nat, msg: Msg, ttl: nat, s': Sys)
    requires Inv(s) && Next(max, s, PutBack(q, msg, ttl), s')
    ensures Inv(s')
  {
    var query := s.queries[q];
    AllLoaded(s, query);
    forall k | k in s'.cache.m
      ensures EntryInv(s', s'.cache.m[k])
    {
      if k != query.key || query.epoch != s.cache.epoch {
        assert s'.cache.m[k] == s.cache.m[k];
        assert EntryInv(s, s.cache.m[k]);
      }
    }
    assert forall r :: r in s'.queries ==> QueryInv(s, s.queries[r]);
    assert forall p :: p in s'.pubs ==> PubInv(s, s.pubs[p]);
  }

  lemma StoreKeepsInv(max: nat, s: Sys, p: nat, slot: Slot, s': Sys)
    requires Inv(s) && Next(max, s, Store(p, slot), s')
    ensures Inv(s')
  {
    assert NoOlder(s'.current, s.current);
    forall e | 0 <= e < |s'.marks|
      ensures NoOlder(s'.current, s'.marks[e])
    {
      assert NoOlder(s.current, s.marks[e]);
    }
    forall r | r in s'.pubs
      ensures PubInv(s', s'.pubs[r])
    {
      assert PubInv(s, s.pubs[r]);
      forall other | other in s'.pubs[r].stored
        ensures s'.pubs[r].stored[other] <= s'.current.At(other)
      {
        assert s'.current.At(other) >= s.current.At(other);
      }
    }
    assert forall r :: r in s'.queries ==> QueryInv(s, s.queries[r]);
    assert forall k :: k in s'.cache.m ==> EntryInv(s, s.cache.m[k]);
  }

  lemma FlushKeepsInv(max: nat, s: Sys, p: nat, s': Sys)
    requires Inv(s) && Next(max, s, FlushFor(p), s')
    ensures Inv(s')
  {
    var last := |s'.marks| - 1;
    assert s'.marks[last] == s.current;
    forall e, f | 0 <= e <= f < |s'.marks|
      ensures NoOlder(s'.marks[f], s'.marks[e])
    {
      if f == last && e < last {
        assert NoOlder(s.current, s.marks[e]);
      } else if f < last {
        assert NoOlder(s.marks[f], s.marks[e]);
      }
    }
    forall r | r in s'.pubs
      ensures PubInv(s', s'.pubs[r])
    {
      assert PubInv(s, s.pubs[r]);
      assert NoOlder(s.current, s.marks[last - 1]);
    }
    forall r | r in s'.queries
      ensures QueryInv(s', s'.queries[r])
    {
      assert QueryInv(s, s.queries[r]);
    }
    assert forall k :: k in s'.cache.m ==> Expired(s'.cache.m[k], s'.now);
  }

  lemma OtherStepsKeepInv(max: nat, s: Sys, step: Step, s': Sys)
    requires Inv(s) && Next(max, s, step, s')
    requires step.Tick? || step.Capture? || step.StaleLookup? || step.Begin?
    ensures Inv(s')
  {
    forall k | k in s'.cache.m
      ensures EntryInv(s', s'.cache.m[k])
    {
      assert EntryInv(s, s.cache.m[k]);
    }
    forall r | r in s'.queries
      ensures QueryInv(s', s'.queries[r])
    {
      assert r in s.queries ==> QueryInv(s, s.queries[r]);
    }
    forall r | r in s'.pubs
      ensures PubInv(s', s'.pubs[r])
    {
      assert r in s.pubs ==> PubInv(s, s.pubs[r]);
    }
  }

  lemma NextKeepsInv(max: nat, s: Sys, step: Step, s': Sys)
    requires Inv(s) && Next(max, s, step, s')
    ensures Inv(s')
  {
    match step
    case Load(q) => LoadKeepsInv(max, s, q, s');
    case PutBack(q, msg, ttl) => PutBackKeepsInv(max, s, q, msg, ttl, s');
    case Store(p, slot) => StoreKeepsInv(max, s, p, slot, s');
    case FlushFor(p) => FlushKeepsInv(max, s, p, s');
    case _ => OtherStepsKeepInv(max, s, step, s');
  }

  lemma {:induction false} RunKeepsInv(max: nat, states: seq<Sys>, steps: seq<Step>, i: nat)
    requires IsRun(max, states, steps) && i < |states|
    ensures Inv(states[i])
  {
    if i > 0 {
      RunKeepsInv(max, states, steps, i - 1);
      assert Next(max, states[i - 1], steps[i - 1], states[i]);
      NextKeepsInv(max, states[i - 1], steps[i - 1], states[i]);
    }
  }

  // ---------- The guarantee ----------

  /** The answer a normal lookup of `key` would give now, if any, and the snapshots it came from. */
  function Answer(s: Sys, key: Key): Option<(Msg, Versions)> {
    Get(s.cache, key, s.now)
  }

  /**
   In every interleaving: once a flush has completed, no normal lookup returns
   an answer computed from a snapshot that had been overwritten before that
   flush - whether the flush is named by its epoch or by its publisher.
   */
  lemma {:induction false} NoAnswerOlderThanAFlush(max: nat, states: seq<Sys>, steps: seq<Step>, i: nat, key: Key)
    requires IsRun(max, states, steps) && i < |states| && Answer(states[i], key).Some?
    ensures |states[i].marks| == states[i].cache.epoch + 1
    ensures forall e :: 0 <= e < |states[i].marks| ==> NoOlder(Answer(states[i], key).value.1, states[i].marks[e])
    ensures forall p, slot | p in states[i].pubs && states[i].pubs[p].flushed && slot in states[i].pubs[p].stored ::
              Answer(states[i], key).value.1.At(slot) >= states[i].pubs[p].stored[slot]
  {
    RunKeepsInv(max, states, steps, i);
    var s := states[i];
    var last := |s.marks| - 1;
    var prov := Answer(s, key).value.1;
    assert EntryInv(s, s.cache.m[key]);
    forall e | 0 <= e < |s.marks|
      ensures NoOlder(prov, s.marks[e])
    {
      assert NoOlder(s.marks[last], s.marks[e]);
    }
    forall p, slot | p in s.pubs && s.pubs[p].flushed && slot in s.pubs[p].stored
      ensures prov.At(slot) >= s.pubs[p].stored[slot]
    {
      assert PubInv(s, s.pubs[p]);
    }
  }

  /** Marks are what was published at the flush: a flush appends exactly the snapshots then current. */
  lemma {:induction false} FlushMarksWhatIsPublished(max: nat, states: seq<Sys>, steps: seq<Step>, i: nat, j: nat)
    requires IsRun(max, states, steps) && i < j < |states| && i < |steps| && steps[i].FlushFor?
    ensures |states[i].marks| < |states[j].marks|
    ensures states[j].marks[|states[i].marks|] == states[i].current
    decreases j
  {
    if j == i + 1 {
      assert Next(max, states[i], steps[i], states[i + 1]);
    } else {
      FlushMarksWhatIsPublished(max, states, steps, i, j - 1);
      assert Next(max, states[j - 1], steps[j - 1], states[j]);
    }
  }

  /** The same, read off a run: after flush step `i`, answers use nothing older than what was published at `i`. */
  lemma {:induction false} NoAnswerFromBeforeFlush(max: nat, states: seq<Sys>, steps: seq<Step>, i: nat, j: nat, key: Key)
    requires IsRun(max, states, steps) && i < j < |states| && steps[i].FlushFor? && Answer(states[j], key).Some?
    ensures NoOlder(Answer(states[j], key).value.1, states[i].current)
  {
    FlushMarksWhatIsPublished(max, states, steps, i, j);
    NoAnswerOlderThanAFlush(max, states, steps, j, key);
  }
}
