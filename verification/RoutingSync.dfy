module RoutingSync {
  // Once mihomo's rules are in sync with the stored document, no operation of
  // the manager, with whatever failures, gets them out of sync.

  import opened Options
  import opened Documents
  import opened CaptureRouting
  import opened Overlay
  import opened InterceptState
  import opened RoutingUpdate
  import opened Transaction
  import opened InterceptManager

  // The steps below hold for any notion of "ready" that looks at nothing in a
  // document but its active modules; the last lemma puts the real one in.

  ghost predicate OnActive(ready: (Mihomo, Document) -> bool) {
    forall m: Mihomo, d: Document, e: Document :: ready(m, d) && Active(d) == Active(e) ==> ready(m, e)
  }

  /** The configuration is ready for the stored document, whose modules all have hosts. */
  ghost predicate InStep(w: World, ready: (Mihomo, Document) -> bool) {
    ready(w.mihomo, w.stored.document) && Hosted(w.stored.document)
  }

  /** A configuration is published only after analysis has found it ready for the new document. */
  predicate Verified(w: World, op: Op, ready: (Mihomo, Document) -> bool) {
    op.Mutate? && op.rendered.Some? && Mutated(w.stored, op.mutation).Some? ==>
      ready(op.rendered.value, Mutated(w.stored, op.mutation).value.next.document)
  }

  /** Snapshots that the parser lets through have hosts. */
  predicate WellParsed(op: Op) {
    op.Import? || op.ApplyUpdate? ==> op.m.captureHosts != [] && ValidHosts(op.m.captureHosts)
  }

  lemma {:induction false} WriteKeepsStep(w: World, next: Stored, ready: (Mihomo, Document) -> bool)
    requires OnActive(ready) && InStep(w, ready) && Hosted(next.document)
    requires Active(next.document) == Active(w.stored.document)
    ensures InStep(AfterAll(w, [WroteDocument(next)]), ready)
  {
    One(w, WroteDocument(next));
  }

  lemma {:induction false} WrittenStaysHosted(before: Stored, after: Stored, mutation: Mutation)
    requires Hosted(before.document) && Wrote(before, after, mutation)
    ensures Hosted(after.document)
  {
    var d, e := before.document, after.document;
    forall i | 0 <= i < |e.modules|
      ensures e.modules[i].captureHosts != [] && ValidHosts(e.modules[i].captureHosts)
    {
      assert e.modules[i].captureHosts == d.modules[i].captureHosts;
    }
  }

  lemma {:induction false} QuietKeepsStep(w: World, mutation: Mutation, ready: (Mihomo, Document) -> bool)
    requires OnActive(ready) && InStep(w, ready) && ValidDocument(w.stored.document)
    requires Mutated(w.stored, mutation).Some? && !Mutated(w.stored, mutation).value.routing
    ensures InStep(AfterAll(w, [WroteDocument(Mutated(w.stored, mutation).value.next)]), ready)
  {
    var next := Mutated(w.stored, mutation).value.next;
    EditIsFaithful(w.stored, mutation);
    WrittenStaysHosted(w.stored, next, mutation);
    QuietEditKeepsActive(w.stored, mutation);
    WriteKeepsStep(w, next, ready);
  }

  lemma {:induction false} PublishedKeepsStep(w: World, mutation: Mutation, text: Mihomo, ready: (Mihomo, Document) -> bool)
    requires InStep(w, ready) && ValidDocument(w.stored.document) && Mutated(w.stored, mutation).Some?
    requires ready(text, Mutated(w.stored, mutation).value.next.document)
    ensures var next := Mutated(w.stored, mutation).value.next;
            InStep(AfterAll(w, [WroteDocument(next), WroteMihomo(text), Ran(text), Published(Built(next.document))]), ready)
  {
    var next := Mutated(w.stored, mutation).value.next;
    EditIsFaithful(w.stored, mutation);
    WrittenStaysHosted(w.stored, next, mutation);
    Four(w, WroteDocument(next), WroteMihomo(text), Ran(text), Published(Built(next.document)));
  }

  lemma {:induction false} MutateKeepsStep(w: World, revision: Stored, mutation: Mutation, f: Faults, rendered: Option<Mihomo>, ready: (Mihomo, Document) -> bool)
    requires OnActive(ready) && InStep(w, ready) && ValidDocument(w.stored.document) && w.controller == w.mihomo
    requires Verified(w, Op.Mutate(revision, mutation, f, rendered), ready)
    ensures InStep(AfterAll(w, MutateTrace(w, revision, mutation, f, rendered).effects), ready)
  {
    var t := MutateTrace(w, revision, mutation, f, rendered);
    if t.outcome.Rejected? {
      RejectedMutationChangesNothing(w, revision, mutation, f, rendered);
    } else if t.effects != [] {
      if Mutated(w.stored, mutation).value.routing {
        PublishedKeepsStep(w, mutation, rendered.value, ready);
      } else {
        QuietKeepsStep(w, mutation, ready);
      }
    }
  }

  lemma {:induction false} ImportKeepsStep(w: World, revision: Stored, m: Module, rest: string, f: Faults, ready: (Mihomo, Document) -> bool)
    requires OnActive(ready) && InStep(w, ready) && ValidDocument(w.stored.document)
    requires m.captureHosts != [] && ValidHosts(m.captureHosts)
    ensures InStep(AfterAll(w, ImportTrace(w, revision, m, rest, f).effects), ready)
  {
    if ImportTrace(w, revision, m, rest, f).effects != [] {
      ImportKeepsActive(w.stored.document, Parsed(m));
      WriteKeepsStep(w, Stored(Imported(w.stored.document, Parsed(m)), rest), ready);
    }
  }

  lemma {:induction false} ReplaceKeepsStep(w: World, revision: Stored, id: string, m: Module, rest: string, f: Faults, ready: (Mihomo, Document) -> bool)
    requires OnActive(ready) && InStep(w, ready) && ValidDocument(w.stored.document)
    requires m.captureHosts != [] && ValidHosts(m.captureHosts)
    ensures InStep(AfterAll(w, ReplaceTrace(w, revision, id, m, rest, f).effects), ready)
  {
    if ReplaceTrace(w, revision, id, m, rest, f).effects != [] {
      var d := w.stored.document;
      var i := Find(d.modules, id);
      ReplacedActive(d, i, Replaced(d, i, Parsed(m)).modules[i]);
      WriteKeepsStep(w, Stored(Replaced(d, i, Parsed(m)), rest), ready);
    }
  }

  lemma {:induction false} DeleteKeepsStep(w: World, revision: Stored, id: string, rest: string, f: Faults, ready: (Mihomo, Document) -> bool)
    requires OnActive(ready) && InStep(w, ready) && ValidDocument(w.stored.document)
    ensures InStep(AfterAll(w, DeleteTrace(w, revision, id, rest, f).effects), ready)
  {
    if DeleteTrace(w, revision, id, rest, f).effects != [] {
      var d := w.stored.document;
      var i := Find(d.modules, id);
      DeleteKeepsActive(d, i);
      WriteKeepsStep(w, Stored(Deleted(d, i), rest), ready);
    }
  }

  lemma {:induction false} CheckKeepsStep(w: World, op: Op, ready: (Mihomo, Document) -> bool)
    requires InStep(w, ready) && (op.Prepare? || op.Reconcile?)
    ensures InStep(Next(w, op), ready)
  {
    var effects := OpTrace(w, op).effects;
    if effects != [] {
      One(w, effects[0]);
    }
  }

  lemma {:induction false} OpKeepsStep(w: World, op: Op, ready: (Mihomo, Document) -> bool)
    requires OnActive(ready) && InStep(w, ready) && ValidDocument(w.stored.document) && w.controller == w.mihomo
    requires Verified(w, op, ready) && WellParsed(op)
    ensures InStep(Next(w, op), ready)
  {
    match op
    case Mutate(revision, mutation, f, rendered) => MutateKeepsStep(w, revision, mutation, f, rendered, ready);
    case Import(revision, m, rest, f) => ImportKeepsStep(w, revision, m, rest, f, ready);
    case ApplyUpdate(revision, id, m, rest, f) => ReplaceKeepsStep(w, revision, id, m, rest, f, ready);
    case Delete(revision, id, rest, f) => DeleteKeepsStep(w, revision, id, rest, f, ready);
    case Prepare(_, _, _) => CheckKeepsStep(w, op, ready);
    case Reconcile(_, _, _) => CheckKeepsStep(w, op, ready);
  }

  lemma {:induction false} HistoryKeepsStep(worlds: seq<World>, ops: seq<Op>, i: nat, ready: (Mihomo, Document) -> bool)
    requires OnActive(ready) && IsHistory(worlds, ops) && i < |worlds| && InStep(worlds[0], ready)
    requires forall k :: 0 <= k < |ops| ==> Verified(worlds[k], ops[k], ready) && WellParsed(ops[k])
    ensures InStep(worlds[i], ready)
  {
    if i > 0 {
      HistoryKeepsStep(worlds, ops, i - 1, ready);
      OverlayStaysFaithful(worlds, ops, i - 1);
      assert worlds[i] == Next(worlds[i - 1], ops[i - 1]);
      OpKeepsStep(worlds[i - 1], ops[i - 1], ready);
    }
  }

  ghost function IsReady(): (Mihomo, Document) -> bool {
    (m: Mihomo, d: Document) => ReadyFor(m, d)
  }

  /** What is compiled depends on the active modules only. */
  lemma {:induction false} SameActiveReady(m: Mihomo, d: Document, e: Document)
    requires Active(d) == Active(e) && ReadyFor(m, d)
    ensures ReadyFor(m, e)
  {
    var c, target :| IsCompiled(d, c) && InSync(m, c, target);
    assert IsCompiled(e, c);
  }

  lemma {:induction false} ReadyIsOnActive()
    ensures OnActive(IsReady())
  {
    forall m: Mihomo, d: Document, e: Document | IsReady()(m, d) && Active(d) == Active(e)
      ensures IsReady()(m, e)
    {
      SameActiveReady(m, d, e);
    }
  }

  /**
   Over every run of operations with any steps failing, rules that were in sync
   with the stored document at the start are in sync with whatever it has
   become; an edit that publishes no routing never makes publishing necessary.
   */
  lemma {:induction false} RoutingStaysInSync(worlds: seq<World>, ops: seq<Op>, i: nat)
    requires IsHistory(worlds, ops) && i < |worlds|
    requires ReadyFor(worlds[0].mihomo, worlds[0].stored.document) && Hosted(worlds[0].stored.document)
    requires forall k :: 0 <= k < |ops| ==> Verified(worlds[k], ops[k], IsReady()) && WellParsed(ops[k])
    ensures ReadyFor(worlds[i].mihomo, worlds[i].stored.document)
  {
    ReadyIsOnActive();
    HistoryKeepsStep(worlds, ops, i, IsReady());
  }
}
