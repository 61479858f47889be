module Transaction {
  // The interception transaction. Every operation is the sequence of effects it
  // has on the stored document, the mihomo file, the running controller and the
  // DNS overlay; which steps fail is arbitrary, and rollback writes succeed.

  import opened Options
  import opened Documents
  import opened Overlay
  import opened InterceptState

  /** A mihomo configuration: its rules and its group names. */
  datatype Mihomo = Mihomo(rules: seq<string>, groups: set<string>)

  datatype World = World(stored: Stored, mihomo: Mihomo, controller: Mihomo, overlay: Snapshot)

  datatype Effect =
    | WroteDocument(body: Stored)
    | WroteMihomo(text: Mihomo)
    | Ran(config: Mihomo)            // what the controller runs after an apply
    | Published(snapshot: Snapshot)

  function After(w: World, e: Effect): World {
    match e
    case WroteDocument(body) => w.(stored := body)
    case WroteMihomo(text) => w.(mihomo := text)
    case Ran(config) => w.(controller := config)
    case Published(snapshot) => w.(overlay := snapshot)
  }

  function AfterAll(w: World, effects: seq<Effect>): World {
    if effects == [] then w else After(AfterAll(w, effects[..|effects| - 1]), effects[|effects| - 1])
  }

  /** An error may also come from composing the reply after the work is done. */
  datatype Outcome = Rejected | Committed | CommittedUnviewed

  datatype Trace = Trace(outcome: Outcome, effects: seq<Effect>)

  /** Which steps fail; `wreck` is what a failed apply leaves running. */
  datatype Faults = Faults(
    readDocument: bool, marshal: bool, sidecar: bool, view: bool, writeDocument: bool,
    unmanaged: bool, readMihomo: bool, credentials: bool, bindings: bool, candidate: bool,
    certificate: bool, backup: bool, writeMihomo: bool, apply: bool, wreck: Mihomo)

  // ---------- mutate ----------

  function PublishTrace(w: World, next: Stored, text: Mihomo, f: Faults): Trace {
    if f.certificate || f.backup || f.writeMihomo then
      Trace(Rejected, [WroteDocument(next), WroteDocument(w.stored)])
    else if f.apply then
      Trace(Rejected, [WroteDocument(next), WroteMihomo(text), Ran(f.wreck), WroteMihomo(w.mihomo), Ran(w.mihomo), WroteDocument(w.stored)])
    else
      Trace(Committed, [WroteDocument(next), WroteMihomo(text), Ran(text), Published(Built(next.document))])
  }

  function Viewed(f: Faults): Outcome {
    if f.view then CommittedUnviewed else Committed
  }

  /** `rendered` is the verified new configuration, if analysis, rendering and re-analysis succeed. */
  function MutateTrace(w: World, revision: Stored, mutation: Mutation, f: Faults, rendered: Option<Mihomo>): Trace {
    if f.readDocument || revision != w.stored || Mutated(w.stored, mutation).None? || f.marshal || f.sidecar then Trace(Rejected, []) else
      var edit := Mutated(w.stored, mutation).value;
      if !edit.routing then
        if edit.next == w.stored then Trace(Viewed(f), [])
        else if f.writeDocument then Trace(Rejected, [])
        else Trace(Viewed(f), [WroteDocument(edit.next)])
      else if f.unmanaged || f.readMihomo || f.credentials || rendered.None? || f.bindings || f.candidate || f.writeDocument then Trace(Rejected, [])
      else PublishTrace(w, edit.next, rendered.value, f)
  }

  // ---------- The other operations ----------

  /** Modules come from the manifest parser, which leaves them disabled. */
  function Parsed(m: Module): Module {
    m.(enabled := false)
  }

  function WriteTrace(next: Stored, f: Faults): Trace {
    if f.marshal || f.sidecar || f.writeDocument then Trace(Rejected, []) else Trace(Viewed(f), [WroteDocument(next)])
  }

  function ImportTrace(w: World, revision: Stored, m: Module, rest: string, f: Faults): Trace {
    var d := w.stored.document;
    if f.readDocument || revision != w.stored || Parsed(m).id in Ids(d.modules) then Trace(Rejected, [])
    else WriteTrace(Stored(Imported(d, Parsed(m)), rest), f)
  }

  function ReplaceTrace(w: World, revision: Stored, id: string, m: Module, rest: string, f: Faults): Trace {
    var d := w.stored.document;
    var i := Find(d.modules, id);
    if f.readDocument || revision != w.stored || i == |d.modules| || d.modules[i].enabled || m.id != id then Trace(Rejected, [])
    else WriteTrace(Stored(Replaced(d, i, Parsed(m)), rest), f)
  }

  function DeleteTrace(w: World, revision: Stored, id: string, rest: string, f: Faults): Trace {
    var d := w.stored.document;
    var i := Find(d.modules, id);
    if f.readDocument || revision != w.stored || i == |d.modules| || d.modules[i].enabled then Trace(Rejected, [])
    else WriteTrace(Stored(Deleted(d, i), rest), f)
  }

  function Withdraw(outcome: Outcome): Trace {
    Trace(outcome, [Published(Empty)])
  }

  /** `ready`: routing in sync and credentials matching; `certified`: certificate state current. */
  function PrepareTrace(w: World, f: Faults, ready: bool, certified: bool): Trace {
    var d := w.stored.document;
    if f.readDocument then Trace(Rejected, [])
    else if !d.mitm then Withdraw(Committed)
    else if f.unmanaged then (if HasActiveHosts(d) then Trace(Rejected, []) else Withdraw(Committed))
    else if f.readMihomo then Trace(Rejected, [])
    else if !ready || (HasActiveHosts(d) && !certified) then Withdraw(Rejected)
    else Trace(Committed, [Published(Built(d))])
  }

  /** After a raw configuration was applied by other means. */
  function ReconcileTrace(w: World, f: Faults, ready: bool, certified: bool): Trace {
    var d := w.stored.document;
    if f.readDocument then Withdraw(Rejected)
    else if !d.mitm then Withdraw(Committed)
    else if !ready || (HasActiveHosts(d) && !certified) then Withdraw(Rejected)
    else Trace(Committed, [Published(Built(d))])
  }

  datatype Op =
    | Mutate(revision: Stored, mutation: Mutation, f: Faults, rendered: Option<Mihomo>)
    | Import(revision: Stored, m: Module, rest: string, f: Faults)
    | ApplyUpdate(revision: Stored, id: string, m: Module, rest: string, f: Faults)
    | Delete(revision: Stored, id: string, rest: string, f: Faults)
    | Prepare(f: Faults, ready: bool, certified: bool)
    | Reconcile(f: Faults, ready: bool, certified: bool)

  function OpTrace(w: World, op: Op): Trace {
    match op
    case Mutate(revision, mutation, f, rendered) => MutateTrace(w, revision, mutation, f, rendered)
    case Import(revision, m, rest, f) => ImportTrace(w, revision, m, rest, f)
    case ApplyUpdate(revision, id, m, rest, f) => ReplaceTrace(w, revision, id, m, rest, f)
    case Delete(revision, id, rest, f) => DeleteTrace(w, revision, id, rest, f)
    case Prepare(f, ready, certified) => PrepareTrace(w, f, ready, certified)
    case Reconcile(f, ready, certified) => ReconcileTrace(w, f, ready, certified)
  }

  function Next(w: World, op: Op): World {
    AfterAll(w, OpTrace(w, op).effects)
  }

  // ---------- What every operation keeps ----------

  /** The overlay is withdrawn, or answers every name as the stored document does. */
  ghost predicate Faithful(w: World) {
    w.overlay == Empty || forall name :: Lookup(w.overlay, name) == Answer(w.stored.document, name)
  }

  ghost predicate Inv(w: World) {
    ValidDocument(w.stored.document) && w.controller == w.mihomo && Faithful(w)
  }

  lemma {:induction false} One(w: World, e: Effect)
    ensures AfterAll(w, [e]) == After(w, e)
  {
    assert [e][..0] == [];
  }

  lemma {:induction false} AfterAppend(w: World, a: seq<Effect>, b: seq<Effect>)
    ensures AfterAll(w, a + b) == AfterAll(AfterAll(w, a), b)
  {
    if b == [] {
      assert a + b == a;
    } else {
      AfterAppend(w, a, b[..|b| - 1]);
      assert (a + b)[..|a + b| - 1] == a + b[..|b| - 1];
    }
  }

  lemma {:induction false} Two(w: World, a: Effect, b: Effect)
    ensures AfterAll(w, [a, b]) == After(After(w, a), b)
  {
    AfterAppend(w, [a], [b]);
    One(w, a);
    One(After(w, a), b);
    assert [a] + [b] == [a, b];
  }

  lemma {:induction false} Four(w: World, a: Effect, b: Effect, c: Effect, d: Effect)
    ensures AfterAll(w, [a, b, c, d]) == After(After(After(After(w, a), b), c), d)
  {
    AfterAppend(w, [a, b], [c, d]);
    Two(w, a, b);
    Two(After(After(w, a), b), c, d);
    assert [a, b] + [c, d] == [a, b, c, d];
  }

  lemma {:induction false} Six(w: World, a: Effect, b: Effect, c: Effect, d: Effect, e: Effect, g: Effect)
    ensures AfterAll(w, [a, b, c, d, e, g]) == After(After(After(After(After(After(w, a), b), c), d), e), g)
  {
    AfterAppend(w, [a, b, c, d], [e, g]);
    Four(w, a, b, c, d);
    Two(After(After(After(After(w, a), b), c), d), e, g);
    assert [a, b, c, d] + [e, g] == [a, b, c, d, e, g];
  }

  /** A rejected publication has undone everything it did. */
  lemma {:induction false} RejectedPublish(w: World, next: Stored, text: Mihomo, f: Faults)
    requires PublishTrace(w, next, text, f).outcome.Rejected?
    ensures AfterAll(w, PublishTrace(w, next, text, f).effects) == w.(controller := if !f.certificate && !f.backup && !f.writeMihomo then w.mihomo else w.controller)
  {
    if f.certificate || f.backup || f.writeMihomo {
      Two(w, WroteDocument(next), WroteDocument(w.stored));
    } else {
      Six(w, WroteDocument(next), WroteMihomo(text), Ran(f.wreck), WroteMihomo(w.mihomo), Ran(w.mihomo), WroteDocument(w.stored));
    }
  }

  /**
   A rejected mutation leaves document, mihomo file, controller and overlay as
   they were, provided the controller ran the file to begin with.
   */
  lemma {:induction false} RejectedMutationChangesNothing(w: World, revision: Stored, mutation: Mutation, f: Faults, rendered: Option<Mihomo>)
    requires MutateTrace(w, revision, mutation, f, rendered).outcome.Rejected? && w.controller == w.mihomo
    ensures AfterAll(w, MutateTrace(w, revision, mutation, f, rendered).effects) == w
  {
    if MutateTrace(w, revision, mutation, f, rendered).effects != [] {
      RejectedPublish(w, Mutated(w.stored, mutation).value.next, rendered.value, f);
    }
  }

  /** A mutation that was not rejected has written what it asked for, whether or not its reply could be composed. */
  lemma {:induction false} MutationWrites(w: World, revision: Stored, mutation: Mutation, f: Faults, rendered: Option<Mihomo>)
    requires ValidDocument(w.stored.document) && !MutateTrace(w, revision, mutation, f, rendered).outcome.Rejected?
    ensures Wrote(w.stored, AfterAll(w, MutateTrace(w, revision, mutation, f, rendered).effects).stored, mutation)
  {
    var edit := Mutated(w.stored, mutation).value;
    EditIsFaithful(w.stored, mutation);
    if edit.routing {
      var text := rendered.value;
      Four(w, WroteDocument(edit.next), WroteMihomo(text), Ran(text), Published(Built(edit.next.document)));
    } else if edit.next != w.stored {
      One(w, WroteDocument(edit.next));
    }
  }

  /** No step fails for outside reasons. */
  predicate Faultless(f: Faults) {
    && !f.readDocument && !f.marshal && !f.sidecar && !f.view && !f.writeDocument
    && !f.unmanaged && !f.readMihomo && !f.credentials && !f.bindings && !f.candidate
    && !f.certificate && !f.backup && !f.writeMihomo && !f.apply
  }

  /** Every step of publishing routing succeeds. */
  predicate Publishable(f: Faults) {
    && !f.unmanaged && !f.readMihomo && !f.credentials && !f.bindings && !f.candidate && !f.writeDocument
    && !f.certificate && !f.backup && !f.writeMihomo && !f.apply
  }

  /**
   A mutation goes through exactly if it is made under the current revision, is
   acceptable, passes the common checks and, when it publishes routing, a verified
   configuration was made and every step of publishing it succeeds; a quiet edit
   that changes something must be written. It replies without error exactly if
   it went through and, being quiet, its reply could be composed.
   */
  lemma {:induction false} MutationCommitsIff(w: World, revision: Stored, mutation: Mutation, f: Faults, rendered: Option<Mihomo>)
    requires ValidDocument(w.stored.document)
    ensures Mutated(w.stored, mutation).Some? <==> Acceptable(w.stored.document, mutation)
    ensures var outcome := MutateTrace(w, revision, mutation, f, rendered).outcome;
            var checked := !f.readDocument && revision == w.stored && Acceptable(w.stored.document, mutation) && !f.marshal && !f.sidecar;
            if !checked then outcome.Rejected?
            else
              var edit := Mutated(w.stored, mutation).value;
              if edit.routing then outcome == if rendered.Some? && Publishable(f) then Committed else Rejected
              else outcome == if edit.next != w.stored && f.writeDocument then Rejected else if f.view then CommittedUnviewed else Committed
  {
    EditIsFaithful(w.stored, mutation);
  }

  /** What the caller sees as an error. */
  predicate IsError(t: Trace) {
    !t.outcome.Committed?
  }

  /** The caller gets an error although something has changed. */
  predicate FailsChanged(w: World, t: Trace) {
    IsError(t) && AfterAll(w, t.effects) != w
  }

  /**
   A caller also gets an error when only the reply could not be composed. So a
   mutation fails with something changed if and only if a quiet edit passed
   every check, altered the document, was written, and could not be viewed.
   */
  lemma {:induction false} ErrorMeansUnchangedIff(w: World, revision: Stored, mutation: Mutation, f: Faults, rendered: Option<Mihomo>)
    requires w.controller == w.mihomo
    ensures FailsChanged(w, MutateTrace(w, revision, mutation, f, rendered)) <==>
              && !f.readDocument && revision == w.stored && Mutated(w.stored, mutation).Some? && !f.marshal && !f.sidecar
              && !Mutated(w.stored, mutation).value.routing && Mutated(w.stored, mutation).value.next != w.stored
              && !f.writeDocument && f.view
  {
    var t := MutateTrace(w, revision, mutation, f, rendered);
    if t.outcome.Rejected? {
      RejectedMutationChangesNothing(w, revision, mutation, f, rendered);
    } else if t.effects != [] {
      One(w, t.effects[0]);
    }
  }

  lemma {:induction false} WriteErrorChangesIff(w: World, next: Stored, f: Faults)
    ensures FailsChanged(w, WriteTrace(next, f)) <==> !f.marshal && !f.sidecar && !f.writeDocument && f.view && next != w.stored
  {
    One(w, WroteDocument(next));
  }

  /** An import fails with the module installed exactly when only the reply failed. */
  lemma {:induction false} ImportErrorChangesIff(w: World, revision: Stored, m: Module, rest: string, f: Faults)
    ensures FailsChanged(w, ImportTrace(w, revision, m, rest, f)) <==>
              && !f.readDocument && revision == w.stored && m.id !in Ids(w.stored.document.modules)
              && !f.marshal && !f.sidecar && !f.writeDocument && f.view
  {
    var d := w.stored.document;
    WriteErrorChangesIff(w, Stored(Imported(d, Parsed(m)), rest), f);
    assert |Imported(d, Parsed(m)).modules| != |d.modules|;
  }

  /** A snapshot replacement fails with a document changed exactly when only the reply failed. */
  lemma {:induction false} ReplaceErrorChangesIff(w: World, revision: Stored, id: string, m: Module, rest: string, f: Faults)
    ensures var d := w.stored.document;
            var i := Find(d.modules, id);
            FailsChanged(w, ReplaceTrace(w, revision, id, m, rest, f)) <==>
              && !f.readDocument && revision == w.stored && i < |d.modules| && !d.modules[i].enabled && m.id == id
              && !f.marshal && !f.sidecar && !f.writeDocument && f.view
              && Stored(Replaced(d, i, Parsed(m)), rest) != w.stored
  {
    var d := w.stored.document;
    var i := Find(d.modules, id);
    if i < |d.modules| {
      WriteErrorChangesIff(w, Stored(Replaced(d, i, Parsed(m)), rest), f);
    }
  }

  /** A deletion fails with the module gone exactly when only the reply failed. */
  lemma {:induction false} DeleteErrorChangesIff(w: World, revision: Stored, id: string, rest: string, f: Faults)
    ensures var d := w.stored.document;
            var i := Find(d.modules, id);
            FailsChanged(w, DeleteTrace(w, revision, id, rest, f)) <==>
              && !f.readDocument && revision == w.stored && i < |d.modules| && !d.modules[i].enabled
              && !f.marshal && !f.sidecar && !f.writeDocument && f.view
  {
    var d := w.stored.document;
    var i := Find(d.modules, id);
    if i < |d.modules| {
      WriteErrorChangesIff(w, Stored(Deleted(d, i), rest), f);
      assert |Deleted(d, i).modules| != |d.modules|;
    }
  }

  /** A concrete case: changing an unrelated setting of an empty document, with only the reply failing. */
  lemma {:induction false} WrittenThoughFailed()
    ensures var config := Mihomo([], {});
            var before, next := Stored(Document(false, [], []), "old"), Stored(Document(false, [], []), "new");
            var onlyView := Faults(false, false, false, true, false, false, false, false, false, false, false, false, false, false, config);
            var w := World(before, config, config, Empty);
            var t := MutateTrace(w, before, Settings(false, "new"), onlyView, None);
            IsError(t) && AfterAll(w, t.effects) == w.(stored := next) != w
  {
    var config := Mihomo([], {});
    var before, next := Stored(Document(false, [], []), "old"), Stored(Document(false, [], []), "new");
    assert "old"[0] != "new"[0];
    assert before.rest != next.rest;
    One(World(before, config, config, Empty), WroteDocument(next));
  }

  /** A committed routing change: the overlay moves last, after the other three are in their new state. */
  lemma {:induction false} OverlayPublishedLast(w: World, revision: Stored, mutation: Mutation, f: Faults, rendered: Option<Mihomo>, k: nat)
    requires Mutated(w.stored, mutation).Some? && Mutated(w.stored, mutation).value.routing
    requires var t := MutateTrace(w, revision, mutation, f, rendered); t.outcome.Committed? && k <= |t.effects|
    ensures var t := MutateTrace(w, revision, mutation, f, rendered);
            var next := Mutated(w.stored, mutation).value.next;
            && rendered.Some?
            && (if k < |t.effects| then AfterAll(w, t.effects[..k]).overlay == w.overlay
                else AfterAll(w, t.effects[..k]) == World(next, rendered.value, rendered.value, Built(next.document)))
  {
    var next := Mutated(w.stored, mutation).value.next;
    var a, b, c, e := WroteDocument(next), WroteMihomo(rendered.value), Ran(rendered.value), Published(Built(next.document));
    var effects := MutateTrace(w, revision, mutation, f, rendered).effects;
    assert effects == [a, b, c, e];
    if k == 4 {
      Four(w, a, b, c, e);
      assert effects[..4] == effects;
    } else {
      NotPublished(w, effects[..k]);
    }
  }

  lemma {:induction false} NotPublished(w: World, effects: seq<Effect>)
    requires forall i :: 0 <= i < |effects| ==> !effects[i].Published?
    ensures AfterAll(w, effects).overlay == w.overlay
  {
    if effects != [] {
      NotPublished(w, effects[..|effects| - 1]);
    }
  }

  lemma {:induction false} BuiltIsFaithful(w: World)
    requires w.overlay == Built(w.stored.document)
    ensures Faithful(w)
  {
    forall name
      ensures Lookup(w.overlay, name) == Answer(w.stored.document, name)
    {
      LookupRefinesScan(w.stored.document, name);
    }
  }

  /** A document write that changes no answer keeps a faithful overlay faithful. */
  lemma {:induction false} QuietWriteKeepsInv(w: World, next: Stored)
    requires Inv(w) && ValidDocument(next.document)
    requires forall name :: Answer(next.document, name) == Answer(w.stored.document, name)
    ensures Inv(AfterAll(w, [WroteDocument(next)]))
  {
    One(w, WroteDocument(next));
  }

  lemma {:induction false} PublishKeepsInv(w: World, snapshot: Snapshot)
    requires Inv(w) && (snapshot == Empty || snapshot == Built(w.stored.document))
    ensures Inv(AfterAll(w, [Published(snapshot)]))
  {
    One(w, Published(snapshot));
    if snapshot == Built(w.stored.document) {
      BuiltIsFaithful(w.(overlay := snapshot));
    }
  }

  lemma {:induction false} MutateKeepsInv(w: World, revision: Stored, mutation: Mutation, f: Faults, rendered: Option<Mihomo>)
    requires Inv(w)
    ensures Inv(AfterAll(w, MutateTrace(w, revision, mutation, f, rendered).effects))
  {
    var t := MutateTrace(w, revision, mutation, f, rendered);
    if t.outcome.Rejected? {
      RejectedMutationChangesNothing(w, revision, mutation, f, rendered);
    } else if t.effects != [] {
      var edit := Mutated(w.stored, mutation).value;
      MutatedIsValid(w.stored, mutation);
      if edit.routing {
        OverlayPublishedLast(w, revision, mutation, f, rendered, |t.effects|);
        assert t.effects[..|t.effects|] == t.effects;
        BuiltIsFaithful(AfterAll(w, t.effects));
      } else {
        forall name
          ensures Answer(edit.next.document, name) == Answer(w.stored.document, name)
        {
          QuietEditKeepsAnswers(w.stored, mutation, name);
        }
        QuietWriteKeepsInv(w, edit.next);
      }
    }
  }

  /** Either nothing moved, or the document says what was asked. */
  lemma {:induction false} MutateSums(w: World, revision: Stored, mutation: Mutation, f: Faults, rendered: Option<Mihomo>)
    requires Inv(w)
    ensures var t := MutateTrace(w, revision, mutation, f, rendered);
            && Inv(AfterAll(w, t.effects))
            && (if t.outcome.Rejected? then AfterAll(w, t.effects) == w else Wrote(w.stored, AfterAll(w, t.effects).stored, mutation))
  {
    MutateKeepsInv(w, revision, mutation, f, rendered);
    if MutateTrace(w, revision, mutation, f, rendered).outcome.Rejected? {
      RejectedMutationChangesNothing(w, revision, mutation, f, rendered);
    } else {
      MutationWrites(w, revision, mutation, f, rendered);
    }
  }

  lemma {:induction false} ImportKeepsInv(w: World, revision: Stored, m: Module, rest: string, f: Faults)
    requires Inv(w)
    ensures Inv(AfterAll(w, ImportTrace(w, revision, m, rest, f).effects))
  {
    var d := w.stored.document;
    if ImportTrace(w, revision, m, rest, f).effects != [] {
      AppendKeepsValid(d, Parsed(m));
      forall name
        ensures Answer(Imported(d, Parsed(m)), name) == Answer(d, name)
      {
        ImportKeepsAnswers(d, Parsed(m), name);
      }
      QuietWriteKeepsInv(w, Stored(Imported(d, Parsed(m)), rest));
    }
  }

  lemma {:induction false} ReplaceKeepsInv(w: World, revision: Stored, id: string, m: Module, rest: string, f: Faults)
    requires Inv(w)
    ensures Inv(AfterAll(w, ReplaceTrace(w, revision, id, m, rest, f).effects))
  {
    var d := w.stored.document;
    var i := Find(d.modules, id);
    if ReplaceTrace(w, revision, id, m, rest, f).effects != [] {
      var candidate := Parsed(m).(egressGroup := d.modules[i].egressGroup, captureDNS := d.modules[i].captureDNS);
      ReplacedValid(d, i, candidate);
      forall name
        ensures Answer(Replaced(d, i, Parsed(m)), name) == Answer(d, name)
      {
        ReplaceKeepsAnswers(d, i, candidate, name);
      }
      QuietWriteKeepsInv(w, Stored(Replaced(d, i, Parsed(m)), rest));
    }
  }

  lemma {:induction false} DeleteKeepsInv(w: World, revision: Stored, id: string, rest: string, f: Faults)
    requires Inv(w)
    ensures Inv(AfterAll(w, DeleteTrace(w, revision, id, rest, f).effects))
  {
    var d := w.stored.document;
    var i := Find(d.modules, id);
    if DeleteTrace(w, revision, id, rest, f).effects != [] {
      DeleteKeepsValid(d, i);
      forall name
        ensures Answer(Deleted(d, i), name) == Answer(d, name)
      {
        DeleteKeepsAnswers(d, i, name);
      }
      QuietWriteKeepsInv(w, Stored(Deleted(d, i), rest));
    }
  }

  lemma {:induction false} PrepareKeepsInv(w: World, f: Faults, ready: bool, certified: bool)
    requires Inv(w)
    ensures Inv(AfterAll(w, PrepareTrace(w, f, ready, certified).effects))
  {
    PublishKeepsInv(w, Empty);
    PublishKeepsInv(w, Built(w.stored.document));
  }

  lemma {:induction false} ReconcileKeepsInv(w: World, f: Faults, ready: bool, certified: bool)
    requires Inv(w)
    ensures Inv(AfterAll(w, ReconcileTrace(w, f, ready, certified).effects))
  {
    PublishKeepsInv(w, Empty);
    PublishKeepsInv(w, Built(w.stored.document));
  }

  /** Routing in sync, and a certificate if there is anything to capture. */
  predicate MayServe(d: Document, ready: bool, certified: bool) {
    d.mitm && ready && (HasActiveHosts(d) ==> certified)
  }

  /**
   At start-up the overlay ends up published exactly if interception is on and
   managed, everything could be read, and serving is in order; a document that
   could be read but may not be served has its overlay withdrawn, except that an
   unmanaged or unreadable configuration leaves things as they are.
   */
  lemma {:induction false} PrepareDecides(w: World, f: Faults, ready: bool, certified: bool)
    ensures var d, t := w.stored.document, PrepareTrace(w, f, ready, certified);
            var undecided := f.readDocument || (d.mitm && f.unmanaged && HasActiveHosts(d)) || (d.mitm && !f.unmanaged && f.readMihomo);
            if undecided then t == Trace(Rejected, [])
            else
              var serve := !f.unmanaged && MayServe(d, ready, certified);
              && AfterAll(w, t.effects) == w.(overlay := if serve then Built(d) else Empty)
              && (t.outcome.Committed? <==> serve || !d.mitm || f.unmanaged)
  {
    One(w, Published(Empty));
    One(w, Published(Built(w.stored.document)));
  }

  /** After a configuration was applied by other means, the overlay is published exactly if serving is in order, else withdrawn. */
  lemma {:induction false} ReconcileDecides(w: World, f: Faults, ready: bool, certified: bool)
    ensures var d, t := w.stored.document, ReconcileTrace(w, f, ready, certified);
            var serve := !f.readDocument && MayServe(d, ready, certified);
            && AfterAll(w, t.effects) == w.(overlay := if serve then Built(d) else Empty)
            && (t.outcome.Committed? <==> !f.readDocument && (serve || !d.mitm))
  {
    One(w, Published(Empty));
    One(w, Published(Built(w.stored.document)));
  }

  lemma {:induction false} OpKeepsInv(w: World, op: Op)
    requires Inv(w)
    ensures Inv(Next(w, op))
  {
    match op
    case Mutate(revision, mutation, f, rendered) => MutateKeepsInv(w, revision, mutation, f, rendered);
    case Import(revision, m, rest, f) => ImportKeepsInv(w, revision, m, rest, f);
    case ApplyUpdate(revision, id, m, rest, f) => ReplaceKeepsInv(w, revision, id, m, rest, f);
    case Delete(revision, id, rest, f) => DeleteKeepsInv(w, revision, id, rest, f);
    case Prepare(f, ready, certified) => PrepareKeepsInv(w, f, ready, certified);
    case Reconcile(f, ready, certified) => ReconcileKeepsInv(w, f, ready, certified);
  }

  ghost predicate IsHistory(worlds: seq<World>, ops: seq<Op>) {
    && |worlds| == |ops| + 1
    && Inv(worlds[0])
    && forall i :: 0 <= i < |ops| ==> worlds[i + 1] == Next(worlds[i], ops[i])
  }

  /**
   Over every run of operations with any steps failing, the overlay is
   withdrawn or answers every name as the document stored at that moment.
   */
  lemma {:induction false} OverlayStaysFaithful(worlds: seq<World>, ops: seq<Op>, i: nat)
    requires IsHistory(worlds, ops) && i < |worlds|
    ensures Inv(worlds[i])
  {
    if i > 0 {
      OverlayStaysFaithful(worlds, ops, i - 1);
      assert worlds[i] == Next(worlds[i - 1], ops[i - 1]);
      OpKeepsInv(worlds[i - 1], ops[i - 1]);
    }
  }
}
