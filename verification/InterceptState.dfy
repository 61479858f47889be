/**
 Edits of the stored interception document, and which of them can change what
 the DNS overlay answers.
 */
module InterceptState {
  import opened Options
  import opened Names
  import opened Documents
  import opened RuleText
  import opened CaptureRouting
  import opened Overlay

  /** The stored body: the document, and everything in it that neither routing nor the overlay reads. */
  datatype Stored = Stored(document: Document, rest: string)

  /** Verdicts of the setting, resolver and requirement checks for one update. */
  datatype Checks = Checks(settingsValid: bool, dnsValid: bool, settingsReady: bool, groupRequired: bool)

  datatype Change = Change(
    settings: Option<string>,
    egressGroup: Option<string>,
    captureDNS: Option<string>,
    enabled: Option<bool>,
    checks: Checks)

  datatype Mutation =
    | UpdateModule(id: string, change: Change)
    | Reorder(order: seq<string>)
    | Settings(mitm: bool, rest: string)

  /** An edited document, and whether routing has to be published with it. */
  datatype Edit = Edit(next: Stored, routing: bool)

  // ---------- The mutators ----------

  function WithGroup(m: Module, group: Option<string>): Module {
    if group.Some? then m.(egressGroup := group.value) else m
  }

  function WithDNS(m: Module, dns: Option<string>): Module {
    if dns.Some? then m.(captureDNS := dns.value) else m
  }

  function WithEnabled(m: Module, enabled: Option<bool>): Module {
    if enabled.Some? then m.(enabled := enabled.value) else m
  }

  predicate Allowed(m: Module, c: Change) {
    && (c.settings.Some? ==> c.checks.settingsValid)
    && (c.egressGroup.Some? ==> ValidGroup(c.egressGroup.value))
    && (c.captureDNS.Some? ==> c.checks.dnsValid)
    && (c.enabled == Some(true) ==>
          c.checks.settingsReady && !(c.checks.groupRequired && WithGroup(m, c.egressGroup).egressGroup == []))
  }

  function Changed(m: Module, c: Change): Module {
    WithEnabled(WithDNS(WithGroup(m, c.egressGroup), c.captureDNS), c.enabled)
  }

  predicate NeedsRouting(mitm: bool, m: Module, c: Change) {
    || c.egressGroup.Some?
    || (c.captureDNS.Some? && mitm && m.enabled && m.captureDNS != c.captureDNS.value)
    || (c.enabled.Some? && mitm && m.enabled != c.enabled.value)
  }

  /** The first module with the id, or the end. */
  function Find(modules: seq<Module>, id: string): (i: nat)
    ensures i <= |modules|
    ensures i < |modules| ==> modules[i].id == id
    ensures forall k :: 0 <= k < i ==> modules[k].id != id
  {
    if modules == [] || modules[0].id == id then 0 else 1 + Find(modules[1..], id)
  }

  /** Whether any enabled module contributes a capture host. */
  predicate HasActiveHosts(d: Document) {
    d.mitm && exists i, k :: 0 <= i < |d.modules| && 0 <= k < |d.modules[i].captureHosts|
                             && d.modules[i].enabled && TrimSpace(d.modules[i].captureHosts[k]) != []
  }

  function Mutated(s: Stored, mutation: Mutation): Option<Edit> {
    var d := s.document;
    match mutation
    case UpdateModule(id, c) =>
      var i := Find(d.modules, id);
      if i == |d.modules| || !Allowed(d.modules[i], c) then None else
        var next := d.(modules := d.modules[i := Changed(d.modules[i], c)]);
        Some(Edit(Stored(next, if c.settings.Some? then c.settings.value else s.rest), NeedsRouting(d.mitm, d.modules[i], c)))
    case Reorder(order) =>
      if !OrderCovers(d.modules, order) then None
      else Some(Edit(s.(document := d.(executionOrder := order)), d.executionOrder != order))
    case Settings(mitm, rest) =>
      var next := d.(mitm := mitm);
      Some(Edit(Stored(next, rest), HasActiveHosts(d) != HasActiveHosts(next)))
  }

  // ---------- Direct edits of a disabled module ----------

  function Imported(d: Document, m: Module): Document {
    Document(d.mitm, d.modules + [m], d.executionOrder + [m.id])
  }

  function Deleted(d: Document, i: nat): Document
    requires i < |d.modules|
  {
    Document(d.mitm, d.modules[..i] + d.modules[i + 1..], Without(d.executionOrder, d.modules[i].id))
  }

  /** A newer snapshot keeps the operator's bindings. */
  function Replaced(d: Document, i: nat, candidate: Module): Document
    requires i < |d.modules|
  {
    d.(modules := d.modules[i := candidate.(egressGroup := d.modules[i].egressGroup, captureDNS := d.modules[i].captureDNS)])
  }

  // ---------- What the overlay can see ----------

  /** Two modules that the scan treats alike. */
  predicate Alike(a: Module, b: Module) {
    && a.enabled == b.enabled
    && (a.enabled ==> a.id == b.id && a.captureDNS == b.captureDNS && a.captureHosts == b.captureHosts)
  }

  lemma {:induction false} AlikeScan(a: seq<Module>, b: seq<Module>, name: string)
    requires |a| == |b| && forall i :: 0 <= i < |a| ==> Alike(a[i], b[i])
    ensures Scan(a, name) == Scan(b, name)
  {
    if a != [] {
      var n := |a| - 1;
      AlikeScan(a[..n], b[..n], name);
      assert Alike(a[n], b[n]);
      assert Captures(a[n], name) <==> Captures(b[n], name);
    }
  }

  lemma {:induction false} ReplacedIds(modules: seq<Module>, i: nat, m: Module)
    requires i < |modules| && m.id == modules[i].id
    ensures Ids(modules[i := m]) == Ids(modules)
  {
  }

  lemma {:induction false} ReplacedLookup(modules: seq<Module>, i: nat, m: Module, id: string)
    requires Distinct(Ids(modules)) && i < |modules| && m.id == modules[i].id && id in Ids(modules)
    ensures id in ById(modules) && id in ById(modules[i := m])
    ensures ById(modules[i := m])[id] == if id == m.id then m else ById(modules)[id]
  {
    ReplacedIds(modules, i, m);
    var j :| 0 <= j < |modules| && Ids(modules)[j] == id;
    ByIdFinds(modules, j);
    ByIdFinds(modules[i := m], j);
    assert id == m.id ==> Ids(modules)[i] == Ids(modules)[j];
  }

  lemma {:induction false} ReplacedValid(d: Document, i: nat, m: Module)
    requires ValidDocument(d) && i < |d.modules| && m.id == d.modules[i].id
    ensures ValidDocument(d.(modules := d.modules[i := m]))
  {
    ReplacedIds(d.modules, i, m);
  }

  /** Replacing a module in place replaces it in execution order. */
  lemma {:induction false} ReplacedOrdered(d: Document, i: nat, m: Module)
    requires ValidDocument(d) && i < |d.modules| && m.id == d.modules[i].id
    ensures var next := d.(modules := d.modules[i := m]);
            && |Ordered(next)| == |Ordered(d)|
            && forall k :: 0 <= k < |Ordered(d)| ==> Ordered(next)[k] == if Ordered(d)[k].id == m.id then m else Ordered(d)[k]
  {
    var byId, byId' := ById(d.modules), ById(d.modules[i := m]);
    forall k | 0 <= k < |d.executionOrder|
      ensures var id := d.executionOrder[k]; id in byId && id in byId' && byId'[id] == if id == m.id then m else byId[id]
    {
      ReplacedLookup(d.modules, i, m, d.executionOrder[k]);
    }
    PickKnown(byId, d.executionOrder);
    PickKnown(byId', d.executionOrder);
  }

  lemma {:induction false} ReplaceKeepsAnswers(d: Document, i: nat, m: Module, name: string)
    requires ValidDocument(d) && i < |d.modules| && m.id == d.modules[i].id
    requires d.mitm ==> Alike(d.modules[i], m)
    ensures Answer(d.(modules := d.modules[i := m]), name) == Answer(d, name)
  {
    if d.mitm {
      var next := d.(modules := d.modules[i := m]);
      ReplacedOrdered(d, i, m);
      forall k | 0 <= k < |Ordered(d)|
        ensures Alike(Ordered(d)[k], Ordered(next)[k])
      {
        OrderedModuleIsStored(d, k, i);
      }
      AlikeScan(Ordered(d), Ordered(next), name);
    }
  }

  lemma {:induction false} OrderedModuleIsStored(d: Document, k: nat, i: nat)
    requires ValidDocument(d) && k < |Ordered(d)| && i < |d.modules|
    ensures Ordered(d)[k].id == d.modules[i].id ==> Ordered(d)[k] == d.modules[i]
  {
    PickKnown(ById(d.modules), d.executionOrder);
    ByIdFinds(d.modules, i);
  }

  lemma {:induction false} ImportKeepsAnswers(d: Document, m: Module, name: string)
    requires ValidDocument(d) && m.id !in Ids(d.modules) && !m.enabled
    ensures Answer(Imported(d, m), name) == Answer(d, name)
  {
    var next := Imported(d, m);
    var byId, byId' := ById(d.modules), ById(next.modules);
    assert next.modules[..|d.modules|] == d.modules;
    assert byId' == byId[m.id := m];
    PickSame(byId, byId', d.executionOrder);
    assert next.executionOrder[..|d.executionOrder|] == d.executionOrder;
    assert Ordered(next) == Ordered(d) + [m];
    assert (Ordered(d) + [m])[..|Ordered(d)|] == Ordered(d);
  }

  lemma {:induction false} PickSame(a: map<string, Module>, b: map<string, Module>, order: seq<string>)
    requires forall i :: 0 <= i < |order| ==> order[i] in a && order[i] in b && a[order[i]] == b[order[i]]
    ensures Pick(a, order) == Pick(b, order)
  {
    if order != [] {
      PickSame(a, b, order[..|order| - 1]);
    }
  }

  /** Leaving out a disabled module changes no scan. */
  lemma {:induction false} ScanWithout(byId: map<string, Module>, order: seq<string>, id: string, name: string)
    requires id in byId ==> !byId[id].enabled
    ensures Scan(Pick(byId, Without(order, id)), name) == Scan(Pick(byId, order), name)
  {
    if order != [] {
      var n := |order| - 1;
      var init, last := order[..n], order[n];
      ScanWithout(byId, init, id, name);
      var rest := Without(init, id);
      assert (rest + [last])[..|rest|] == rest;
      if last in byId {
        ScanSnoc(Pick(byId, init), byId[last], name);
        ScanSnoc(Pick(byId, rest), byId[last], name);
      }
    }
  }

  lemma {:induction false} ScanSnoc(modules: seq<Module>, m: Module, name: string)
    ensures Scan(modules + [m], name) ==
            if Scan(modules, name).NoCapture? && Captures(m, name) then Captured(m.captureDNS, m.id) else Scan(modules, name)
  {
    assert (modules + [m])[..|modules|] == modules;
  }

  lemma {:induction false} DeleteKeepsAnswers(d: Document, i: nat, name: string)
    requires ValidDocument(d) && i < |d.modules| && !d.modules[i].enabled
    ensures Answer(Deleted(d, i), name) == Answer(d, name)
  {
    var next, id := Deleted(d, i), d.modules[i].id;
    var byId, byId' := ById(d.modules), ById(next.modules);
    DeleteKeepsValid(d, i);
    ByIdFinds(d.modules, i);
    forall k | 0 <= k < |next.executionOrder|
      ensures next.executionOrder[k] in byId && next.executionOrder[k] in byId' && byId[next.executionOrder[k]] == byId'[next.executionOrder[k]]
    {
      SameAfterDelete(d, i, next.executionOrder[k]);
    }
    PickSame(byId, byId', next.executionOrder);
    ScanWithout(byId, d.executionOrder, id, name);
  }

  lemma {:induction false} SameAfterDelete(d: Document, i: nat, id: string)
    requires ValidDocument(d) && i < |d.modules| && id in Deleted(d, i).executionOrder
    ensures id in ById(d.modules) && id in ById(Deleted(d, i).modules) && ById(d.modules)[id] == ById(Deleted(d, i).modules)[id]
  {
    var next := Deleted(d, i);
    DeleteKeepsValid(d, i);
    var k :| 0 <= k < |next.executionOrder| && next.executionOrder[k] == id;
    assert id in Ids(next.modules);
    var j :| 0 <= j < |next.modules| && Ids(next.modules)[j] == id;
    ByIdFinds(next.modules, j);
    var j' := if j < i then j else j + 1;
    assert next.modules[j] == d.modules[j'];
    ByIdFinds(d.modules, j');
  }

  // ---------- Quiet edits ----------

  lemma {:induction false} BlankHostsCaptureNothing(m: Module, name: string)
    requires m.enabled ==> forall k :: 0 <= k < |m.captureHosts| ==> TrimSpace(m.captureHosts[k]) == []
    ensures !Captures(m, name)
  {
    if m.enabled {
      forall k | 0 <= k < |m.captureHosts|
        ensures !PatternMatches(NormalPattern(m.captureHosts[k]), name)
      {
        assert NormalPattern(m.captureHosts[k]) == [];
      }
    }
  }

  lemma {:induction false} NoHostsNoAnswers(d: Document, name: string)
    requires ValidDocument(d) && !HasActiveHosts(d)
    ensures Answer(d, name).NoCapture?
  {
    if d.mitm {
      OrderedIsRearrangement(d);
      ScanFindsOwner(Ordered(d), name);
      forall i | 0 <= i < |Ordered(d)|
        ensures !Captures(Ordered(d)[i], name)
      {
        var m := Ordered(d)[i];
        assert m in d.modules;
        var j :| 0 <= j < |d.modules| && d.modules[j] == m;
        BlankHostsCaptureNothing(d.modules[j], name);
      }
    }
  }

  lemma {:induction false} SettingsKeepAnswers(d: Document, mitm: bool, name: string)
    requires ValidDocument(d) && HasActiveHosts(d) == HasActiveHosts(d.(mitm := mitm))
    ensures Answer(d.(mitm := mitm), name) == Answer(d, name)
  {
    var next := d.(mitm := mitm);
    assert Ordered(next) == Ordered(d);
    if !HasActiveHosts(d) {
      NoHostsNoAnswers(d, name);
      NoHostsNoAnswers(next, name);
    }
  }

  // ---------- What an accepted edit writes ----------

  function GivenOr<T>(given: Option<T>, was: T): T {
    if given.Some? then given.value else was
  }

  /** Each binding of the module is the given one if one was given; nothing else about it moved. */
  predicate ModuleWritten(before: Module, after: Module, c: Change) {
    && after.egressGroup == GivenOr(c.egressGroup, before.egressGroup)
    && after.captureDNS == GivenOr(c.captureDNS, before.captureDNS)
    && after.enabled == GivenOr(c.enabled, before.enabled)
    && after.id == before.id && after.captureHosts == before.captureHosts
    && after.origins == before.origins && after.mappings == before.mappings && after.routes == before.routes
  }

  predicate IsFirst(modules: seq<Module>, id: string, i: nat) {
    i < |modules| && modules[i].id == id && forall k :: 0 <= k < i ==> modules[k].id != id
  }

  /** The module with the id is there and switched off. */
  predicate HasDisabled(modules: seq<Module>, id: string) {
    exists i :: 0 <= i < |modules| && IsFirst(modules, id, i) && !modules[i].enabled
  }

  lemma {:induction false} FirstDecides(modules: seq<Module>, id: string, i: nat)
    requires i == Find(modules, id)
    ensures i < |modules| ==> IsFirst(modules, id, i)
    ensures HasDisabled(modules, id) <==> i < |modules| && !modules[i].enabled
  {
    if k :| 0 <= k < |modules| && IsFirst(modules, id, k) && !modules[k].enabled {
      assert k == i;
    }
  }

  /** The first module with the id is written, and no other. */
  predicate OneWritten(before: seq<Module>, after: seq<Module>, id: string, c: Change) {
    && |after| == |before|
    && exists i :: 0 <= i < |before| && IsFirst(before, id, i) && ModuleWritten(before[i], after[i], c)
                        && forall k :: 0 <= k < |before| && k != i ==> after[k] == before[k]
  }

  /** What the edit asked for is what the document now says, field by field. */
  predicate Wrote(before: Stored, after: Stored, mutation: Mutation) {
    var d, e := before.document, after.document;
    match mutation
    case UpdateModule(id, c) =>
      e.mitm == d.mitm && e.executionOrder == d.executionOrder && OneWritten(d.modules, e.modules, id, c) && after.rest == GivenOr(c.settings, before.rest)
    case Reorder(order) =>
      e.mitm == d.mitm && e.executionOrder == order && e.modules == d.modules && after.rest == before.rest
    case Settings(mitm, rest) =>
      e.mitm == mitm && e.executionOrder == d.executionOrder && e.modules == d.modules && after.rest == rest
  }

  /** An enabled module must have its settings, and a group if it demands one. */
  predicate Permitted(m: Module, c: Change) {
    && (c.settings.Some? ==> c.checks.settingsValid)
    && (c.egressGroup.Some? ==> ValidGroup(c.egressGroup.value))
    && (c.captureDNS.Some? ==> c.checks.dnsValid)
    && (c.enabled == Some(true) ==> c.checks.settingsReady && (c.checks.groupRequired ==> GivenOr(c.egressGroup, m.egressGroup) != ""))
  }

  predicate Acceptable(d: Document, mutation: Mutation) {
    match mutation
    case UpdateModule(id, c) => exists i :: 0 <= i < |d.modules| && IsFirst(d.modules, id, i) && Permitted(d.modules[i], c)
    case Reorder(order) => multiset(order) == multiset(Ids(d.modules))
    case Settings(_, _) => true
  }

  /** What the overlay gets from a module: its resolver, while it is switched on. */
  function Face(d: Document, i: nat): Option<string>
    requires i < |d.modules|
  {
    if d.mitm && d.modules[i].enabled then Some(d.modules[i].captureDNS) else None
  }

  /** Why an edit publishes routing. */
  predicate Loud(before: Document, after: Document, mutation: Mutation)
    requires |after.modules| == |before.modules|
  {
    match mutation
    case UpdateModule(_, c) => c.egressGroup.Some? || exists i :: 0 <= i < |before.modules| && Face(before, i) != Face(after, i)
    case Reorder(_) => after.executionOrder != before.executionOrder
    case Settings(_, _) => HasActiveHosts(after) != HasActiveHosts(before)
  }

  lemma {:induction false} UpdateWrites(s: Stored, id: string, c: Change)
    requires Mutated(s, UpdateModule(id, c)).Some?
    ensures Wrote(s, Mutated(s, UpdateModule(id, c)).value.next, UpdateModule(id, c))
  {
    var i := Find(s.document.modules, id);
    assert IsFirst(s.document.modules, id, i);
  }

  lemma {:induction false} UpdateAcceptedIff(s: Stored, id: string, c: Change)
    ensures Mutated(s, UpdateModule(id, c)).Some? <==> Acceptable(s.document, UpdateModule(id, c))
  {
    var modules := s.document.modules;
    var i := Find(modules, id);
    if i < |modules| {
      assert IsFirst(modules, id, i);
      assert Allowed(modules[i], c) <==> Permitted(modules[i], c);
    }
    if k: nat :| IsFirst(modules, id, k) && Permitted(modules[k], c) {
      assert k == i;
    }
  }

  lemma {:induction false} UpdateLoudIff(s: Stored, id: string, c: Change)
    requires Mutated(s, UpdateModule(id, c)).Some?
    ensures var edit := Mutated(s, UpdateModule(id, c)).value;
            && |edit.next.document.modules| == |s.document.modules|
            && (edit.routing <==> Loud(s.document, edit.next.document, UpdateModule(id, c)))
  {
    var d, e := s.document, Mutated(s, UpdateModule(id, c)).value.next.document;
    var i := Find(d.modules, id);
    assert forall k :: 0 <= k < |d.modules| && k != i ==> Face(d, k) == Face(e, k);
    assert Face(d, i) != Face(e, i) <==> d.mitm && NeedsRouting(true, d.modules[i], c.(egressGroup := None));
  }

  /**
   An edit of a valid document is accepted exactly if it is acceptable; it then
   writes what was asked and nothing else, and publishes routing exactly if it
   binds a group, or changes what the overlay gets.
   */
  lemma {:induction false} EditIsFaithful(s: Stored, mutation: Mutation)
    requires ValidDocument(s.document)
    ensures Mutated(s, mutation).Some? <==> Acceptable(s.document, mutation)
    ensures Mutated(s, mutation).Some? ==>
              var edit := Mutated(s, mutation).value;
              && Wrote(s, edit.next, mutation)
              && |edit.next.document.modules| == |s.document.modules|
              && (edit.routing <==> Loud(s.document, edit.next.document, mutation))
  {
    match mutation
    case UpdateModule(id, c) =>
      UpdateAcceptedIff(s, id, c);
      if Mutated(s, mutation).Some? {
        UpdateWrites(s, id, c);
        UpdateLoudIff(s, id, c);
      }
    case Reorder(order) =>
      AcceptedOrdersArePermutations(s.document.modules, order);
    case Settings(_, _) =>
  }

  /** Every edit keeps ids distinct and the order a permutation. */
  lemma {:induction false} MutatedIsValid(s: Stored, mutation: Mutation)
    requires ValidDocument(s.document) && Mutated(s, mutation).Some?
    ensures ValidDocument(Mutated(s, mutation).value.next.document)
  {
    if mutation.UpdateModule? {
      var i := Find(s.document.modules, mutation.id);
      ReplacedValid(s.document, i, Changed(s.document.modules[i], mutation.change));
    }
  }

  /** An edit that asks for no routing change leaves every answer as it was. */
  lemma {:induction false} QuietEditKeepsAnswers(s: Stored, mutation: Mutation, name: string)
    requires ValidDocument(s.document) && Mutated(s, mutation).Some? && !Mutated(s, mutation).value.routing
    ensures Answer(Mutated(s, mutation).value.next.document, name) == Answer(s.document, name)
  {
    var d := s.document;
    match mutation
    case UpdateModule(id, c) =>
      var i := Find(d.modules, id);
      ReplaceKeepsAnswers(d, i, Changed(d.modules[i], c), name);
    case Reorder(order) =>
      assert d.(executionOrder := order) == d;
    case Settings(mitm, _) =>
      SettingsKeepAnswers(d, mitm, name);
  }

  // ---------- Quiet edits and routing ----------

  /** What validation establishes about the hosts of every module. */
  predicate Hosted(d: Document) {
    forall i :: 0 <= i < |d.modules| ==> d.modules[i].captureHosts != [] && ValidHosts(d.modules[i].captureHosts)
  }

  lemma {:induction false} ValidPatternShows(host: string)
    requires ValidHostPattern(host)
    ensures TrimSpace(host) != []
  {
    TrimLeftChars(host);
    TrimRightChars(TrimLeft(host));
    DomainsNotEmpty();
  }

  lemma {:induction false} DomainsNotEmpty()
    ensures !ValidDomain([])
  {
  }

  /** With hosts everywhere, hosts are active exactly if the switch is on and some module is. */
  lemma {:induction false} ActiveHostsIff(d: Document)
    requires Hosted(d)
    ensures HasActiveHosts(d) <==> d.mitm && exists i :: 0 <= i < |d.modules| && d.modules[i].enabled
  {
    if i :| 0 <= i < |d.modules| && d.modules[i].enabled {
      assert ValidHostPattern(d.modules[i].captureHosts[0]);
      ValidPatternShows(d.modules[i].captureHosts[0]);
    }
  }

  lemma {:induction false} SameEnabled(a: seq<Module>, b: seq<Module>)
    requires |a| == |b| && forall i :: 0 <= i < |a| ==> a[i] == b[i] || (!a[i].enabled && !b[i].enabled)
    ensures Enabled(a) == Enabled(b)
  {
    if a != [] {
      SameEnabled(a[..|a| - 1], b[..|b| - 1]);
    }
  }

  lemma {:induction false} NoneEnabled(modules: seq<Module>)
    requires forall i :: 0 <= i < |modules| ==> !modules[i].enabled
    ensures Enabled(modules) == []
  {
    if modules != [] {
      NoneEnabled(modules[..|modules| - 1]);
    }
  }

  lemma {:induction false} ActiveIsEnabled(d: Document)
    requires ValidDocument(d)
    ensures Active(d) == if d.mitm then Enabled(Ordered(d)) else []
  {
    CompletionIsIdle(d);
  }

  lemma {:induction false} InactiveDocument(d: Document)
    requires ValidDocument(d) && Hosted(d) && !HasActiveHosts(d)
    ensures Active(d) == []
  {
    ActiveIsEnabled(d);
    ActiveHostsIff(d);
    if d.mitm {
      OrderedIsRearrangement(d);
      forall i | 0 <= i < |Ordered(d)|
        ensures !Ordered(d)[i].enabled
      {
        assert Ordered(d)[i] in d.modules;
      }
      NoneEnabled(Ordered(d));
    }
  }

  lemma {:induction false} ReplacedActive(d: Document, i: nat, m: Module)
    requires ValidDocument(d) && i < |d.modules| && m.id == d.modules[i].id
    requires d.mitm ==> m == d.modules[i] || (!m.enabled && !d.modules[i].enabled)
    ensures Active(d.(modules := d.modules[i := m])) == Active(d)
  {
    var next := d.(modules := d.modules[i := m]);
    ReplacedValid(d, i, m);
    ActiveIsEnabled(d);
    ActiveIsEnabled(next);
    if d.mitm {
      ReplacedOrdered(d, i, m);
      forall k | 0 <= k < |Ordered(d)|
        ensures Ordered(d)[k] == Ordered(next)[k] || (!Ordered(d)[k].enabled && !Ordered(next)[k].enabled)
      {
        OrderedModuleIsStored(d, k, i);
      }
      SameEnabled(Ordered(d), Ordered(next));
    }
  }

  lemma {:induction false} SwitchedActive(d: Document, mitm: bool)
    requires ValidDocument(d) && Hosted(d) && HasActiveHosts(d) == HasActiveHosts(d.(mitm := mitm))
    ensures Active(d.(mitm := mitm)) == Active(d)
  {
    if mitm != d.mitm {
      InactiveDocument(d);
      InactiveDocument(d.(mitm := mitm));
    }
  }

  /** An edit that asks for no routing change leaves everything that is compiled as it was. */
  lemma {:induction false} QuietEditKeepsActive(s: Stored, mutation: Mutation)
    requires ValidDocument(s.document) && Hosted(s.document)
    requires Mutated(s, mutation).Some? && !Mutated(s, mutation).value.routing
    ensures Active(Mutated(s, mutation).value.next.document) == Active(s.document)
  {
    var d := s.document;
    match mutation
    case UpdateModule(id, c) =>
      var i := Find(d.modules, id);
      ReplacedActive(d, i, Changed(d.modules[i], c));
    case Reorder(order) =>
      assert d.(executionOrder := order) == d;
    case Settings(mitm, _) =>
      SwitchedActive(d, mitm);
  }

  /** Installing a disabled module leaves everything that is compiled as it was. */
  lemma {:induction false} ImportKeepsActive(d: Document, m: Module)
    requires ValidDocument(d) && m.id !in Ids(d.modules) && !m.enabled
    ensures ValidDocument(Imported(d, m)) && Active(Imported(d, m)) == Active(d)
  {
    var next := Imported(d, m);
    var byId, byId' := ById(d.modules), ById(next.modules);
    AppendKeepsValid(d, m);
    ActiveIsEnabled(d);
    ActiveIsEnabled(next);
    assert next.modules[..|d.modules|] == d.modules;
    assert byId' == byId[m.id := m];
    PickSame(byId, byId', d.executionOrder);
    EnabledPick(byId', d.executionOrder, m.id);
  }

  lemma {:induction false} EnabledWithout(byId: map<string, Module>, order: seq<string>, id: string)
    requires id in byId ==> !byId[id].enabled
    ensures Enabled(Pick(byId, Without(order, id))) == Enabled(Pick(byId, order))
  {
    if order != [] {
      var n := |order| - 1;
      EnabledWithout(byId, order[..n], id);
      EnabledPick(byId, order[..n], order[n]);
      EnabledPick(byId, Without(order[..n], id), order[n]);
      assert order == order[..n] + [order[n]];
    }
  }

  /** Deleting a disabled module leaves everything that is compiled as it was. */
  lemma {:induction false} DeleteKeepsActive(d: Document, i: nat)
    requires ValidDocument(d) && i < |d.modules| && !d.modules[i].enabled
    ensures ValidDocument(Deleted(d, i)) && Active(Deleted(d, i)) == Active(d)
  {
    var next, id := Deleted(d, i), d.modules[i].id;
    var byId, byId' := ById(d.modules), ById(next.modules);
    DeleteKeepsValid(d, i);
    ByIdFinds(d.modules, i);
    ActiveIsEnabled(d);
    ActiveIsEnabled(next);
    forall k | 0 <= k < |next.executionOrder|
      ensures next.executionOrder[k] in byId && next.executionOrder[k] in byId' && byId[next.executionOrder[k]] == byId'[next.executionOrder[k]]
    {
      SameAfterDelete(d, i, next.executionOrder[k]);
    }
    PickSame(byId, byId', next.executionOrder);
    EnabledWithout(byId, d.executionOrder, id);
  }

  // ---------- What the direct edits write ----------

  /** The new snapshot stands where the old one stood, disabled, under the operator's bindings. */
  predicate SnapshotWritten(before: Module, m: Module, after: Module) {
    && after.id == before.id == m.id && !before.enabled && !after.enabled
    && after.egressGroup == before.egressGroup && after.captureDNS == before.captureDNS
    && after.captureHosts == m.captureHosts && after.origins == m.origins && after.mappings == m.mappings && after.routes == m.routes
  }

  predicate WroteSnapshot(d: Document, e: Document, id: string, m: Module) {
    && e.mitm == d.mitm && e.executionOrder == d.executionOrder && |e.modules| == |d.modules|
    && exists i :: 0 <= i < |d.modules| && IsFirst(d.modules, id, i) && SnapshotWritten(d.modules[i], m, e.modules[i])
                   && forall k :: 0 <= k < |d.modules| && k != i ==> e.modules[k] == d.modules[k]
  }

  /** The module stands last, in the list and in the order, and is disabled. */
  predicate WroteImport(d: Document, e: Document, m: Module) {
    && e.mitm == d.mitm && e.executionOrder == d.executionOrder + [m.id] && m.id !in Ids(d.modules)
    && |e.modules| == |d.modules| + 1 && e.modules[..|d.modules|] == d.modules
    && e.modules[|d.modules|] == Module(m.id, false, m.captureHosts, m.captureDNS, m.egressGroup, m.origins, m.mappings, m.routes)
  }

  predicate CutOut<T(==)>(before: seq<T>, after: seq<T>, i: nat) {
    i < |before| && after == before[..i] + before[i + 1..]
  }

  /** A disabled module and its place in the order are gone; everything else stays where it was. */
  predicate WroteDeletion(d: Document, e: Document, id: string) {
    && e.mitm == d.mitm
    && (exists i :: 0 <= i < |d.modules| && IsFirst(d.modules, id, i) && !d.modules[i].enabled && CutOut(d.modules, e.modules, i))
    && (exists k :: 0 <= k < |d.executionOrder| && d.executionOrder[k] == id && CutOut(d.executionOrder, e.executionOrder, k))
  }

  lemma {:induction false} WithoutAbsent(ids: seq<string>, id: string)
    requires id !in ids
    ensures Without(ids, id) == ids
  {
    if ids != [] {
      WithoutAbsent(ids[..|ids| - 1], id);
    }
  }

  lemma {:induction false} WithoutCutsOut(ids: seq<string>, id: string, k: nat)
    requires Distinct(ids) && k < |ids| && ids[k] == id
    ensures CutOut(ids, Without(ids, id), k)
  {
    var n := |ids| - 1;
    if k == n {
      WithoutAbsent(ids[..n], id);
      assert ids[..k] + ids[k + 1..] == ids[..n];
    } else {
      WithoutCutsOut(ids[..n], id, k);
      assert ids[..k] + ids[k + 1..] == ids[..n][..k] + ids[..n][k + 1..] + [ids[n]];
    }
  }

  lemma {:induction false} DeletionIsWritten(d: Document, i: nat)
    requires ValidDocument(d) && i < |d.modules| && IsFirst(d.modules, d.modules[i].id, i) && !d.modules[i].enabled
    ensures WroteDeletion(d, Deleted(d, i), d.modules[i].id)
  {
    var id := d.modules[i].id;
    OrderIsPermutation(d);
    assert Ids(d.modules)[i] == id && id in d.executionOrder;
    var k :| 0 <= k < |d.executionOrder| && d.executionOrder[k] == id;
    WithoutCutsOut(d.executionOrder, id, k);
    assert CutOut(d.modules, Deleted(d, i).modules, i);
  }
}
