module InterceptManager {
  // The manager object: its operations change the four pieces of state in place,
  // one effect at a time.

  import opened Options
  import opened Documents
  import opened RuleText
  import opened RuleRows
  import opened CaptureRouting
  import opened Overlay
  import opened InterceptState
  import opened RuleSplice
  import opened RuleAnalysis
  import opened RoutingUpdate
  import opened Transaction

  /** The configuration's rules are in sync with the document. */
  ghost predicate ReadyFor(m: Mihomo, d: Document) {
    exists c, target :: IsCompiled(d, c) && InSync(m, c, target)
  }

  ghost predicate InSync(m: Mihomo, c: Compiled, target: string) {
    && m.rules != [] && Rows(m.rules)[|m.rules| - 1].terminal == Some(target)
    && Available(c.egress, m.groups)
    && Ready(Rows(m.rules), Wanted(NextRows(c, target)))
  }

  lemma {:induction false} SyncNeedsEnd(m: Mihomo, c: Compiled, target: string)
    requires InSync(m, c, target)
    ensures EndsInMatch(Rows(m.rules))
  {
  }

  method CheckSync(m: Mihomo, c: Compiled) returns (ok: bool, target: string)
    ensures ok <==> InSync(m, c, target)
    ensures !ok ==> forall t :: !InSync(m, c, t)
  {
    var rows := Rows(m.rules);
    var ended;
    ended, target := TerminalMatch(rows);
    forall t | InSync(m, c, t)
      ensures ended && t == target
    {
      SyncNeedsEnd(m, c, t);
    }
    var known := CheckAvailable(c.egress, m.groups);
    if !ended || !known {
      return false, target;
    }
    ok := IsReady(rows, Wanted(NextRows(c, target)));
  }

  lemma {:induction false} ReadyIsReconcileable(rows: seq<Row>, expected: Expected)
    requires Ready(rows, expected)
    ensures Reconcileable(rows, expected)
  {
    var l :| Synced(rows, l, expected);
    SyncedFits(rows, l, expected);
  }

  method IsReady(rows: seq<Row>, expected: Expected) returns (ok: bool)
    ensures ok <==> Ready(rows, expected)
  {
    var a := Analyze(rows, expected);
    if Ready(rows, expected) {
      ReadyIsReconcileable(rows, expected);
    }
    ok := a.Found? && a.ready;
  }

  /** Analysis of a configuration for a document, as far as "manageable". */
  method Manageable(m: Mihomo, d: Document) returns (ok: bool)
    ensures ok <==> ReadyFor(m, d)
  {
    var c := Compile(d);
    var target;
    ok, target := CheckSync(m, c);
    forall b, t | IsCompiled(d, b) && InSync(m, b, t)
      ensures b == c
    {
      CompiledUnique(d, b, c);
    }
  }

  /** The configuration with the module rules of one document replaced by those of another. */
  ghost predicate Renders(m: Mihomo, before: Document, next: Document, out: Mihomo) {
    out.groups == m.groups &&
    exists was, c, l, target :: IsCompiled(before, was) && IsCompiled(next, c) && Accepts(m.rules, m.groups, was, l, target)
      && out.rules == TextsOf(Spliced(Rows(m.rules), l, NextRows(c, target), Read(RejectText)))
  }

  /**
   When an update can go through: the list accepts it for the old document, all
   groups exist, no target reads as the proxy, and no host contains a blank.
   */
  ghost predicate CanTake(m: Mihomo, before: Document, next: Document) {
    && HostsUnblanked(Active(next))
    && exists was, c, l, target :: IsCompiled(before, was) && IsCompiled(next, c) && Accepts(m.rules, m.groups, was, l, target)
         && Available(c.egress, m.groups) && TargetsPlain(c.egress)
  }

  lemma {:induction false} ReadyExactly(out: Mihomo, d: Document, c: Compiled, target: string, rows: seq<Row>)
    requires IsCompiled(d, c) && Available(c.egress, out.groups)
    requires Rows(out.rules) == rows && rows != [] && rows[|rows| - 1].terminal == Some(target)
    ensures ReadyFor(out, d) <==> Ready(rows, Wanted(NextRows(c, target)))
  {
    forall b, t | IsCompiled(d, b) && InSync(out, b, t)
      ensures b == c && t == target
    {
      CompiledUnique(d, b, c);
    }
    if Ready(rows, Wanted(NextRows(c, target))) {
      assert InSync(out, c, target);
    }
  }

  lemma {:induction false} AcceptedReadyIff(texts: seq<string>, groups: set<string>, was: Compiled, d: Document, c: Compiled, l: Layout, target: string, rows: seq<Row>)
    requires Accepts(texts, groups, was, l, target) && IsCompiled(d, c) && ValidModules(Active(d))
    requires rows == Spliced(Rows(texts), l, NextRows(c, target), Read(RejectText))
    ensures Ready(rows, Wanted(NextRows(c, target))) <==> TargetsPlain(c.egress) && HostsUnblanked(Active(d))
  {
    UpdateReadyIff(texts, l, Wanted(NextRows(was, target)), d, c, target);
  }

  lemma {:induction false} RenderedReadyExactly(m: Mihomo, was: Compiled, next: Document, c: Compiled, l: Layout, target: string, reject: Row, rows: seq<Row>)
    requires Accepts(m.rules, m.groups, was, l, target) && IsCompiled(next, c) && Available(c.egress, m.groups)
    requires FromTexts([reject]) && rows == Spliced(Rows(m.rules), l, NextRows(c, target), reject)
    ensures ReadyFor(Mihomo(TextsOf(rows), m.groups), next) <==> Ready(rows, Wanted(NextRows(c, target)))
  {
    SplicedIsRead(m.rules, l, c, target, reject, rows);
    ReadyExactly(Mihomo(TextsOf(rows), m.groups), next, c, target, rows);
  }

  lemma {:induction false} CanTakeNeeds(m: Mihomo, before: Document, next: Document, was: Compiled, c: Compiled)
    requires IsCompiled(before, was) && IsCompiled(next, c) && CanTake(m, before, next)
    ensures Available(c.egress, m.groups) && TargetsPlain(c.egress) && HostsUnblanked(Active(next))
    ensures exists l, target :: Accepts(m.rules, m.groups, was, l, target)
  {
    var was', c', l, target :| IsCompiled(before, was') && IsCompiled(next, c') && Accepts(m.rules, m.groups, was', l, target)
                               && Available(c'.egress, m.groups) && TargetsPlain(c'.egress);
    CompiledUnique(before, was, was');
    CompiledUnique(next, c, c');
  }

  /** Analyse for the old document, render the new one, verify the result. */
  method Rendered(m: Mihomo, before: Document, next: Document) returns (r: Option<Mihomo>)
    ensures r.Some? ==> ReadyFor(r.value, next) && Renders(m, before, next, r.value)
    ensures ValidModules(Active(next)) ==> (r.Some? <==> CanTake(m, before, next))
  {
    var was := Compile(before);
    var c := Compile(next);
    var rows := Rewrite(m.rules, m.groups, was, c);
    if ValidModules(Active(next)) && CanTake(m, before, next) {
      CanTakeNeeds(m, before, next, was, c);
    }
    if rows.None? {
      return None;
    }
    var text := Mihomo(TextsOf(rows.value), m.groups);
    ghost var l, target :| Accepts(m.rules, m.groups, was, l, target)
                           && rows.value == Spliced(Rows(m.rules), l, NextRows(c, target), Read(RejectText));
    if ValidModules(Active(next)) {
      OneFromText(RejectText);
      RenderedReadyExactly(m, was, next, c, l, target, Read(RejectText), rows.value);
      AcceptedReadyIff(m.rules, m.groups, was, next, c, l, target, rows.value);
    }
    var ok := Manageable(text, next);
    r := if ok then Some(text) else None;
  }

  lemma {:induction false} PublishedOnce(w: World)
    requires Inv(w)
    ensures AfterAll(w, [Published(Empty)]) == w.(overlay := Empty) && Inv(w.(overlay := Empty))
    ensures AfterAll(w, [Published(Built(w.stored.document))]) == w.(overlay := Built(w.stored.document))
    ensures Inv(w.(overlay := Built(w.stored.document)))
  {
    One(w, Published(Empty));
    One(w, Published(Built(w.stored.document)));
    PublishKeepsInv(w, Empty);
    PublishKeepsInv(w, Built(w.stored.document));
  }

  /** A routing change of valid modules is rendered exactly if the configuration can take it. */
  ghost predicate Judged(w: World, mutation: Mutation, rendered: Option<Mihomo>) {
    Mutated(w.stored, mutation).Some? ==>
      var edit := Mutated(w.stored, mutation).value;
      edit.routing && ValidModules(Active(edit.next.document)) ==>
        (rendered.Some? <==> CanTake(w.mihomo, w.stored.document, edit.next.document))
  }

  class Manager {
    var stored: Stored
    var mihomo: Mihomo
    var controller: Mihomo
    var overlay: Snapshot
    ghost var log: seq<Effect>

    ghost function Now(): World
      reads this
    {
      World(stored, mihomo, controller, overlay)
    }

    constructor (body: Stored, config: Mihomo)
      requires ValidDocument(body.document)
      ensures Now() == World(body, config, config, Empty) && log == [] && Inv(Now())
    {
      stored, mihomo, controller, overlay, log := body, config, config, Empty, [];
    }

    method WriteDocument(body: Stored)
      modifies this`stored, this`log
      ensures Now() == After(old(Now()), WroteDocument(body)) && log == old(log) + [WroteDocument(body)]
    {
      stored, log := body, log + [WroteDocument(body)];
    }

    method WriteMihomo(text: Mihomo)
      modifies this`mihomo, this`log
      ensures Now() == After(old(Now()), WroteMihomo(text)) && log == old(log) + [WroteMihomo(text)]
    {
      mihomo, log := text, log + [WroteMihomo(text)];
    }

    /** The controller loads the file; a failed apply leaves it running something else. */
    method PutConfigs(fails: bool, wreck: Mihomo) returns (ok: bool)
      modifies this`controller, this`log
      ensures ok == !fails
      ensures var config := if fails then wreck else old(mihomo);
              Now() == After(old(Now()), Ran(config)) && log == old(log) + [Ran(config)]
    {
      controller := if fails then wreck else mihomo;
      log := log + [Ran(controller)];
      ok := !fails;
    }

    method PublishHosts(document: Option<Document>)
      modifies this`overlay, this`log
      ensures var snapshot := if document.Some? then Built(document.value) else Empty;
              Now() == After(old(Now()), Published(snapshot)) && log == old(log) + [Published(snapshot)]
    {
      if document.None? {
        overlay := Empty;
      } else {
        overlay := NewSnapshot(document.value);
      }
      log := log + [Published(overlay)];
    }

    /** Backup, write, apply; on a failed apply the old file is written and applied again. */
    method PublishMihomo(text: Mihomo, f: Faults) returns (ok: bool)
      modifies this`mihomo, this`controller, this`log
      ensures ok == !(f.backup || f.writeMihomo || f.apply)
      ensures ok ==> Now() == old(Now()).(mihomo := text, controller := text) && log == old(log) + [WroteMihomo(text), Ran(text)]
      ensures !ok && !f.backup && !f.writeMihomo ==>
                && Now() == old(Now()).(controller := old(mihomo))
                && log == old(log) + [WroteMihomo(text), Ran(f.wreck), WroteMihomo(old(mihomo)), Ran(old(mihomo))]
      ensures f.backup || f.writeMihomo ==> Now() == old(Now()) && log == old(log)
    {
      if f.backup || f.writeMihomo {
        return false;
      }
      var before := mihomo;
      WriteMihomo(text);
      ok := PutConfigs(f.apply, f.wreck);
      if !ok {
        WriteMihomo(before);
        var _ := PutConfigs(false, f.wreck);
      }
    }

    /** The publishing half of `mutate`. */
    method Publish(next: Stored, text: Mihomo, f: Faults) returns (outcome: Outcome)
      requires Inv(Now())
      modifies this
      ensures var t := PublishTrace(old(Now()), next, text, f);
              outcome == t.outcome && log == old(log) + t.effects && Now() == AfterAll(old(Now()), t.effects)
    {
      ghost var w := Now();
      var before := stored;
      WriteDocument(next);
      if f.certificate {
        WriteDocument(before);
        RejectedPublish(w, next, text, f);
        return Rejected;
      }
      var ok := PublishMihomo(text, f);
      if !ok {
        WriteDocument(before);
        RejectedPublish(w, next, text, f);
        return Rejected;
      }
      PublishHosts(Some(next.document));
      Four(w, WroteDocument(next), WroteMihomo(text), Ran(text), Published(Built(next.document)));
      return Committed;
    }

    /** The part of `mutate` that leaves routing alone. */
    method WriteQuietly(next: Stored, f: Faults) returns (outcome: Outcome)
      modifies this`stored, this`log
      ensures var t := if next == old(stored) then Trace(Viewed(f), [])
                       else if f.writeDocument then Trace(Rejected, [])
                       else Trace(Viewed(f), [WroteDocument(next)]);
              outcome == t.outcome && log == old(log) + t.effects && Now() == AfterAll(old(Now()), t.effects)
    {
      ghost var w := Now();
      if next == stored {
        return Viewed(f);
      }
      if f.writeDocument {
        return Rejected;
      }
      WriteDocument(next);
      One(w, WroteDocument(next));
      outcome := Viewed(f);
    }

    /** The part of `mutate` that renders, verifies and publishes routing. */
    method Route(next: Stored, f: Faults) returns (outcome: Outcome, ghost rendered: Option<Mihomo>)
      requires Inv(Now())
      modifies this
      ensures var t := if f.unmanaged || f.readMihomo || f.credentials || rendered.None? || f.bindings || f.candidate || f.writeDocument
                       then Trace(Rejected, []) else PublishTrace(old(Now()), next, rendered.value, f);
              outcome == t.outcome && log == old(log) + t.effects && Now() == AfterAll(old(Now()), t.effects)
      ensures rendered.Some? ==> ReadyFor(rendered.value, next.document) && Renders(old(mihomo), old(stored).document, next.document, rendered.value)
      ensures !f.unmanaged && !f.readMihomo && !f.credentials && ValidModules(Active(next.document)) ==>
                (rendered.Some? <==> CanTake(old(mihomo), old(stored).document, next.document))
    {
      if f.unmanaged || f.readMihomo || f.credentials {
        return Rejected, None;
      }
      var text := Rendered(mihomo, stored.document, next.document);
      rendered := text;
      if text.None? || f.bindings || f.candidate || f.writeDocument {
        return Rejected, text;
      }
      outcome := Publish(next, text.value, f);
    }

    /** `mutate`: `rendered` reports the verified configuration, when one was made. */
    method Mutate(revision: Stored, mutation: Mutation, f: Faults) returns (outcome: Outcome, ghost rendered: Option<Mihomo>)
      requires Inv(Now())
      modifies this
      ensures Inv(Now())
      ensures var t := MutateTrace(old(Now()), revision, mutation, f, rendered);
              outcome == t.outcome && log == old(log) + t.effects && Now() == AfterAll(old(Now()), t.effects)
      ensures if outcome.Rejected? then Now() == old(Now()) else Wrote(old(stored), stored, mutation)
      ensures rendered.Some? ==> Mutated(old(stored), mutation).Some? && ReadyFor(rendered.value, Mutated(old(stored), mutation).value.next.document)
      ensures Faultless(f) && revision == old(stored) ==> Judged(old(Now()), mutation, rendered)
    {
      ghost var w := Now();
      rendered := None;
      if f.readDocument || revision != stored {
        return Rejected, None;
      }
      var edit := Mutated(stored, mutation);
      if edit.None? || f.marshal || f.sidecar {
        return Rejected, None;
      }
      if edit.value.routing {
        outcome, rendered := Route(edit.value.next, f);
      } else {
        outcome := WriteQuietly(edit.value.next, f);
      }
      MutateSums(w, revision, mutation, f, rendered);
    }

    /** Install a parsed module: appended, last in the order, disabled. */
    method ImportSnapshot(revision: Stored, m: Module, rest: string, f: Faults) returns (outcome: Outcome)
      requires Inv(Now())
      modifies this
      ensures Inv(Now())
      ensures var t := ImportTrace(old(Now()), revision, m, rest, f);
              outcome == t.outcome && log == old(log) + t.effects && Now() == AfterAll(old(Now()), t.effects)
      ensures outcome.Rejected? <==> f.readDocument || f.marshal || f.sidecar || f.writeDocument
                                     || revision != old(stored) || m.id in Ids(old(stored).document.modules)
      ensures if outcome.Rejected? then Now() == old(Now())
              else stored.rest == rest && WroteImport(old(stored).document, stored.document, m)
    {
      ghost var w := Now();
      ImportKeepsInv(w, revision, m, rest, f);
      if f.readDocument || revision != stored {
        return Rejected;
      }
      var d, parsed := stored.document, Parsed(m);
      var i := Find(d.modules, parsed.id);
      FoundIff(d.modules, parsed.id);
      if i < |d.modules| || f.marshal || f.sidecar || f.writeDocument {
        return Rejected;
      }
      var next := Stored(Document(d.mitm, d.modules + [parsed], d.executionOrder + [parsed.id]), rest);
      WriteDocument(next);
      One(w, WroteDocument(next));
      outcome := Viewed(f);
    }

    /** Replace the snapshot of a disabled module; the operator's bindings stay. */
    method ReplaceSnapshot(revision: Stored, id: string, m: Module, rest: string, f: Faults) returns (outcome: Outcome)
      requires Inv(Now())
      modifies this
      ensures Inv(Now())
      ensures var t := ReplaceTrace(old(Now()), revision, id, m, rest, f);
              outcome == t.outcome && log == old(log) + t.effects && Now() == AfterAll(old(Now()), t.effects)
      ensures outcome.Rejected? <==> f.readDocument || f.marshal || f.sidecar || f.writeDocument || revision != old(stored)
                                     || m.id != id || !HasDisabled(old(stored).document.modules, id)
      ensures if outcome.Rejected? then Now() == old(Now())
              else stored.rest == rest && WroteSnapshot(old(stored).document, stored.document, id, m)
    {
      ghost var w := Now();
      ReplaceKeepsInv(w, revision, id, m, rest, f);
      if f.readDocument || revision != stored {
        return Rejected;
      }
      var d := stored.document;
      var i := Find(d.modules, id);
      FirstDecides(d.modules, id, i);
      if i == |d.modules| || d.modules[i].enabled || m.id != id || f.marshal || f.sidecar || f.writeDocument {
        return Rejected;
      }
      var candidate := Parsed(m).(egressGroup := d.modules[i].egressGroup, captureDNS := d.modules[i].captureDNS);
      var next := Stored(d.(modules := d.modules[i := candidate]), rest);
      WriteDocument(next);
      One(w, WroteDocument(next));
      outcome := Viewed(f);
    }

    method DeleteModule(revision: Stored, id: string, rest: string, f: Faults) returns (outcome: Outcome)
      requires Inv(Now())
      modifies this
      ensures Inv(Now())
      ensures var t := DeleteTrace(old(Now()), revision, id, rest, f);
              outcome == t.outcome && log == old(log) + t.effects && Now() == AfterAll(old(Now()), t.effects)
      ensures outcome.Rejected? <==> f.readDocument || f.marshal || f.sidecar || f.writeDocument || revision != old(stored)
                                     || !HasDisabled(old(stored).document.modules, id)
      ensures if outcome.Rejected? then Now() == old(Now())
              else stored.rest == rest && WroteDeletion(old(stored).document, stored.document, id)
    {
      ghost var w := Now();
      DeleteKeepsInv(w, revision, id, rest, f);
      if f.readDocument || revision != stored {
        return Rejected;
      }
      var d := stored.document;
      var i := Find(d.modules, id);
      FirstDecides(d.modules, id, i);
      if i == |d.modules| || d.modules[i].enabled || f.marshal || f.sidecar || f.writeDocument {
        return Rejected;
      }
      var order := RemoveModuleId(d.executionOrder, id);
      DeletionIsWritten(d, i);
      var next := Stored(Document(d.mitm, d.modules[..i] + d.modules[i + 1..], order), rest);
      WriteDocument(next);
      One(w, WroteDocument(next));
      outcome := Viewed(f);
    }

    /** Decide at start-up whether the overlay may be published for the stored document. */
    method PrepareRuntime(f: Faults, certified: bool) returns (outcome: Outcome, ghost ready: bool)
      requires Inv(Now())
      modifies this`overlay, this`log
      ensures Inv(Now())
      ensures var t := PrepareTrace(old(Now()), f, ready, certified);
              outcome == t.outcome && log == old(log) + t.effects && Now() == AfterAll(old(Now()), t.effects)
      ensures !f.readDocument && stored.document.mitm && !f.unmanaged && !f.readMihomo ==> (ready <==> ReadyFor(mihomo, stored.document) && !f.credentials)
    {
      ghost var w := Now();
      ready := false;
      PublishedOnce(w);
      if f.readDocument {
        return Rejected, false;
      }
      if !stored.document.mitm {
        PublishHosts(None);
        return Committed, false;
      }
      if f.unmanaged {
        if HasActiveHosts(stored.document) {
          return Rejected, false;
        }
        PublishHosts(None);
        return Committed, false;
      }
      if f.readMihomo {
        return Rejected, false;
      }
      var manageable := Manageable(mihomo, stored.document);
      ready := manageable && !f.credentials;
      if !manageable || f.credentials || (HasActiveHosts(stored.document) && !certified) {
        PublishHosts(None);
        return Rejected, ready;
      }
      PublishHosts(Some(stored.document));
      return Committed, ready;
    }
  }

  lemma {:induction false} FoundIff(modules: seq<Module>, id: string)
    ensures Find(modules, id) < |modules| <==> id in Ids(modules)
  {
    if id in Ids(modules) {
      var i :| 0 <= i < |modules| && Ids(modules)[i] == id;
      assert modules[i].id == id;
    }
    if Find(modules, id) < |modules| {
      assert Ids(modules)[Find(modules, id)] == id;
    }
  }
}
