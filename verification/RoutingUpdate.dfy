module RoutingUpdate {
  // The routing compiler end to end: a document is compiled to rule texts, which
  // are spliced into the operator's list and analysed again.

  import opened Options
  import opened Names
  import opened Documents
  import opened RuleText
  import opened Sorting
  import opened CaptureRouting
  import opened EgressRouting
  import opened RuleSplice
  import opened RuleRows
  import opened PolicyText
  import opened RuleAnalysis
  import opened HostImport
  import Agreement

  // ---------- Compilation ----------

  function RouteTexts(routes: seq<Route>): (r: seq<string>)
    ensures |r| == |routes| && forall i :: 0 <= i < |r| ==> r[i] == RenderPolicy(routes[i])
  {
    seq(|routes|, i requires 0 <= i < |routes| => RenderPolicy(routes[i]))
  }

  /** Appending texts that are not there yet. */
  function AddTexts(policy: seq<string>, texts: seq<string>): seq<string> {
    if texts == [] then policy else
      var n := |texts| - 1;
      var before := AddTexts(policy, texts[..n]);
      if texts[n] in before then before else before + [texts[n]]
  }

  /** Policy texts of the modules in order, repeated texts dropped. */
  function PolicyRules(modules: seq<Module>): seq<string> {
    if modules == [] then [] else
      AddTexts(PolicyRules(modules[..|modules| - 1]), RouteTexts(modules[|modules| - 1].routes))
  }

  method AppendTexts(policy0: seq<string>, seen0: set<string>, texts: seq<string>) returns (policy: seq<string>, seen: set<string>)
    requires forall t :: t in seen0 <==> t in policy0
    ensures policy == AddTexts(policy0, texts)
    ensures forall t :: t in seen <==> t in policy
  {
    policy, seen := policy0, seen0;
    for i := 0 to |texts|
      invariant policy == AddTexts(policy0, texts[..i])
      invariant forall t :: t in seen <==> t in policy
    {
      assert texts[..i + 1][..i] == texts[..i];
      if texts[i] !in seen {
        seen := seen + {texts[i]};
        policy := policy + [texts[i]];
      }
    }
    assert texts[..|texts|] == texts;
  }

  method CollectPolicy(modules: seq<Module>) returns (policy: seq<string>)
    ensures policy == PolicyRules(modules)
  {
    policy := [];
    var seen: set<string> := {};
    for i := 0 to |modules|
      invariant policy == PolicyRules(modules[..i])
      invariant forall t :: t in seen <==> t in policy
    {
      assert modules[..i + 1][..i] == modules[..i];
      policy, seen := AppendTexts(policy, seen, RouteTexts(modules[i].routes));
    }
    assert modules[..|modules|] == modules;
  }

  method CompilePolicy(d: Document) returns (policy: seq<string>)
    ensures policy == PolicyRules(Active(d))
  {
    if !d.mitm {
      return [];
    }
    var modules := OrderedEnabledModules(d);
    policy := CollectPolicy(modules);
  }

  datatype Compiled = Compiled(capture: seq<string>, egress: seq<Rule>, policy: seq<string>)

  ghost predicate IsCompiled(d: Document, c: Compiled) {
    && StrictlySorted(c.capture)
    && (forall text :: text in c.capture <==> text in Texts(AllSelectors(Active(d))))
    && c.egress == EgressRules(Active(d))
    && c.policy == PolicyRules(Active(d))
  }

  method Compile(d: Document) returns (c: Compiled)
    ensures IsCompiled(d, c)
  {
    var capture := CompileCapture(d);
    var egress := CompileEgress(d);
    var policy := CompilePolicy(d);
    c := Compiled(capture, egress, policy);
  }

  /** Compilation has one result. */
  lemma {:induction false} CompiledUnique(d: Document, a: Compiled, b: Compiled)
    requires IsCompiled(d, a) && IsCompiled(d, b)
    ensures a == b
  {
    SortedListsAgree(a.capture, b.capture);
  }

  // ---------- Rows ----------

  function Rows(texts: seq<string>): (r: seq<Row>)
    ensures |r| == |texts| && forall i :: 0 <= i < |r| ==> r[i] == Read(texts[i])
  {
    seq(|texts|, i requires 0 <= i < |texts| => Read(texts[i]))
  }

  function EgressTexts(rules: seq<Rule>): (r: seq<string>)
    ensures |r| == |rules| && forall i :: 0 <= i < |r| ==> r[i] == RenderEgress(rules[i].selector, rules[i].target)
  {
    seq(|rules|, i requires 0 <= i < |rules| => RenderEgress(rules[i].selector, rules[i].target))
  }

  /** The rows that a document contributes to a list whose final rule goes to `target`. */
  function NextRows(c: Compiled, target: string): Next {
    Next(Rows(EgressTexts(Materialize(c.egress, target))), Rows(c.policy), Rows(c.capture))
  }

  // ---------- Validity of what is compiled ----------

  predicate ValidOrigin(o: Origin) {
    1 <= o.port <= 65535 && ValidValue(Domain, o.host)
  }

  predicate ValidMapping(m: Mapping) {
    match m.target
    case HostTarget(name) => ValidValue(Domain, Lower(StripDot(name)))
    case AddressTarget(quad) => ValidAddress(quad + "/32")
  }

  predicate ValidModule(m: Module) {
    && ValidHosts(m.captureHosts) && ValidGroup(m.egressGroup)
    && (forall i :: 0 <= i < |m.origins| ==> ValidOrigin(m.origins[i]))
    && (forall i :: 0 <= i < |m.mappings| ==> ValidMapping(m.mappings[i]))
    && (forall i :: 0 <= i < |m.routes| ==> ValidRoute(m.routes[i]))
  }

  predicate ValidModules(modules: seq<Module>) {
    forall i :: 0 <= i < |modules| ==> ValidModule(modules[i])
  }

  lemma {:induction false} MappingPairValid(m: Mapping, s: Selector)
    requires ValidMapping(m) && s in MappingPair(m)
    ensures ValidSelector(s)
  {
  }

  lemma {:induction false} MappingSelectorsValid(mappings: seq<Mapping>, s: Selector)
    requires (forall i :: 0 <= i < |mappings| ==> ValidMapping(mappings[i])) && s in MappingSelectors(mappings)
    ensures ValidSelector(s)
  {
    var n := |mappings| - 1;
    if s in MappingPair(mappings[n]) {
      MappingPairValid(mappings[n], s);
    } else {
      MappingSelectorsValid(mappings[..n], s);
    }
  }

  lemma {:induction false} HostSelectorsValid(hosts: seq<string>)
    requires ValidHosts(hosts)
    ensures forall s :: s in HostSelectors(hosts, |hosts|) ==> ValidSelector(s)
  {
    forall s | s in HostSelectors(hosts, |hosts|)
      ensures ValidSelector(s)
    {
      var i :| 0 <= i < |HostSelectors(hosts, |hosts|)| && HostSelectors(hosts, |hosts|)[i] == s;
      SelectorsValid(hosts, i);
    }
  }

  lemma {:induction false} OriginSelectorsValid(origins: seq<Origin>)
    requires forall i :: 0 <= i < |origins| ==> ValidOrigin(origins[i])
    ensures forall s :: s in OriginSelectors(origins) ==> ValidSelector(s)
  {
    forall i | 0 <= i < |origins|
      ensures ValidSelector(OriginSelectors(origins)[i])
    {
      assert ValidOrigin(origins[i]);
    }
  }

  lemma {:induction false} ModuleSelectorsValid(m: Module, s: Selector)
    requires ValidModule(m) && s in ModuleSelectors(m)
    ensures ValidSelector(s)
  {
    SortedMember(Unsorted(m), s);
    HostSelectorsValid(m.captureHosts);
    OriginSelectorsValid(m.origins);
    if s in MappingSelectors(m.mappings) {
      MappingSelectorsValid(m.mappings, s);
    }
  }

  lemma {:induction false} SortedMember(selectors: seq<Selector>, s: Selector)
    requires s in SortByKey(selectors)
    ensures s in selectors
  {
    assert s in multiset(SortByKey(selectors));
  }

  predicate ValidRule(r: Rule) {
    ValidSelector(r.selector) && ValidTarget(r.target)
  }

  predicate ValidRules(rules: seq<Rule>) {
    forall i :: 0 <= i < |rules| ==> ValidRule(rules[i])
  }

  lemma {:induction false} GroupRulesValid(modules: seq<Module>, bound: bool)
    requires ValidModules(modules)
    ensures ValidRules(GroupRules(modules, bound))
  {
    if modules != [] {
      var n := |modules| - 1;
      var m := modules[n];
      GroupRulesValid(modules[..n], bound);
      forall i | 0 <= i < |ModuleSelectors(m)|
        ensures ValidRule(RulesFor(ModuleSelectors(m), TargetOf(m))[i])
      {
        assert ValidModule(m);
        ModuleSelectorsValid(m, ModuleSelectors(m)[i]);
      }
    }
  }

  lemma {:induction false} AddNewValid(rules: seq<Rule>, more: seq<Rule>)
    requires ValidRules(rules) && ValidRules(more)
    ensures ValidRules(AddNew(rules, more))
  {
    if more != [] {
      AddNewValid(rules, more[..|more| - 1]);
    }
  }

  lemma {:induction false} EgressRulesValid(modules: seq<Module>)
    requires ValidModules(modules)
    ensures ValidRules(EgressRules(modules)) && DistinctSelectors(EgressRules(modules))
  {
    GroupRulesValid(modules, true);
    GroupRulesValid(modules, false);
    AddNewValid([], GroupRules(modules, true));
    AddNewValid(AddNew([], GroupRules(modules, true)), GroupRules(modules, false));
    EgressSelectorsDistinct(modules);
  }

  // ---------- The compiled rows are well formed ----------

  lemma {:induction false} EgressRowsFormed(rules: seq<Rule>)
    requires ValidRules(rules) && DistinctSelectors(rules)
    ensures var rows := Rows(EgressTexts(rules));
            && (forall i :: 0 <= i < |rows| ==> EgressRow(rows[i]))
            && DistinctEgress(rows)
            && (forall i :: 0 <= i < |rows| ==> (rows[i].proxied <==> Compact(rules[i].target) == ProxyName))
  {
    var rows := Rows(EgressTexts(rules));
    forall i | 0 <= i < |rows|
      ensures EgressRow(rows[i]) && rows[i].egress == Some(rules[i].selector) && (rows[i].proxied <==> Compact(rules[i].target) == ProxyName)
    {
      assert ValidRule(rules[i]);
      EgressRowFacts(rules[i].selector, rules[i].target);
    }
  }

  lemma {:induction false} MaterializedValid(rules: seq<Rule>, target: string)
    requires ValidRules(rules) && DistinctSelectors(rules) && ValidTarget(target)
    ensures ValidRules(Materialize(rules, target)) && DistinctSelectors(Materialize(rules, target))
  {
    forall i | 0 <= i < |rules|
      ensures ValidRule(Materialize(rules, target)[i])
    {
      assert ValidRule(rules[i]);
    }
  }

  lemma {:induction false} AddedTexts(policy: seq<string>, texts: seq<string>, t: string)
    requires t in AddTexts(policy, texts)
    ensures t in policy || t in texts
  {
    if texts != [] {
      var n := |texts| - 1;
      if t in AddTexts(policy, texts[..n]) {
        AddedTexts(policy, texts[..n], t);
      }
    }
  }

  lemma {:induction false} RouteRow(routes: seq<Route>, t: string)
    requires (forall i :: 0 <= i < |routes| ==> ValidRoute(routes[i])) && t in RouteTexts(routes)
    ensures PolicyRow(Read(t))
  {
    var i :| 0 <= i < |routes| && RouteTexts(routes)[i] == t;
    PolicyRowFacts(routes[i]);
  }

  lemma {:induction false} PolicyFormed(modules: seq<Module>, t: string)
    requires ValidModules(modules) && t in PolicyRules(modules)
    ensures PolicyRow(Read(t))
  {
    var n := |modules| - 1;
    AddedTexts(PolicyRules(modules[..n]), RouteTexts(modules[n].routes), t);
    if t in PolicyRules(modules[..n]) {
      PolicyFormed(modules[..n], t);
    } else {
      assert ValidModule(modules[n]);
      RouteRow(modules[n].routes, t);
    }
  }

  /** No active capture host has a blank in it. */
  predicate HostsUnblanked(modules: seq<Module>) {
    forall i, k :: 0 <= i < |modules| && 0 <= k < |modules[i].captureHosts| ==> NoBlank(modules[i].captureHosts[k])
  }

  /** Every compiled selector comes from a host of some module. */
  lemma {:induction false} SelectorSource(modules: seq<Module>, i: nat)
    requires i < |AllSelectors(modules)|
    ensures WebPort(AllSelectors(modules)[i].port)
    ensures exists k :: 0 <= k < |modules| && FromModule(AllSelectors(modules)[i], modules[k].captureHosts)
  {
    var n := |modules| - 1;
    var before := AllSelectors(modules[..n]);
    if i < |before| {
      SelectorSource(modules[..n], i);
      var k :| 0 <= k < n && FromModule(before[i], modules[..n][k].captureHosts);
      assert FromModule(before[i], modules[k].captureHosts);
    } else {
      var hosts := modules[n].captureHosts;
      SelectorsSound(hosts, |hosts|, i - |before|);
      assert FromModule(AllSelectors(modules)[i], modules[n].captureHosts);
    }
  }

  predicate FromModule(s: Selector, hosts: seq<string>) {
    exists k :: 0 <= k < |hosts| && s.value == ValueOf(hosts, hosts[k])
  }

  lemma {:induction false} ValueUnblanked(hosts: seq<string>, k: nat)
    requires k < |hosts| && NoBlank(hosts[k])
    ensures NoBlank(ValueOf(hosts, hosts[k]))
  {
  }

  lemma {:induction false} CaptureRowsFormed(modules: seq<Module>, capture: seq<string>)
    requires ValidModules(modules) && HostsUnblanked(modules) && StrictlySorted(capture)
    requires forall t :: t in capture ==> t in Texts(AllSelectors(modules))
    ensures forall i :: 0 <= i < |capture| ==> CaptureRow(Rows(capture)[i])
    ensures CanonicalCaptures(Rows(capture))
  {
    forall i | 0 <= i < |capture|
      ensures CaptureRow(Rows(capture)[i]) && Rows(capture)[i].canonical
    {
      assert capture[i] in capture;
      CaptureTextFormed(modules, capture[i]);
    }
    assert Compacts(Rows(capture)) == capture;
  }

  lemma {:induction false} CaptureTextFormed(modules: seq<Module>, text: string)
    requires ValidModules(modules) && HostsUnblanked(modules) && text in Texts(AllSelectors(modules))
    ensures CaptureRow(Read(text)) && Read(text).canonical
  {
    var selectors := AllSelectors(modules);
    var i :| 0 <= i < |selectors| && Texts(selectors)[i] == text;
    SelectorSource(modules, i);
    var k :| 0 <= k < |modules| && FromModule(selectors[i], modules[k].captureHosts);
    var hosts := modules[k].captureHosts;
    var h :| 0 <= h < |hosts| && selectors[i].value == ValueOf(hosts, hosts[h]);
    ValueUnblanked(hosts, h);
    HostsOfValidModules(modules);
    Agreement.AllSelectorsValid(modules, i);
    CaptureRowFacts(selectors[i]);
  }

  lemma {:induction false} HostsOfValidModules(modules: seq<Module>)
    requires ValidModules(modules)
    ensures Agreement.AllValid(modules)
  {
    forall i | 0 <= i < |modules|
      ensures ValidHosts(modules[i].captureHosts)
    {
      assert ValidModule(modules[i]);
    }
  }

  // ---------- The final rule's target ----------

  lemma {:induction false} CompactTrimLeft(s: string)
    ensures Compact(TrimLeft(s)) == Compact(s)
  {
    if s != [] && IsSpace(s[0]) {
      CompactTrimLeft(s[1..]);
      assert s == [s[0]] + s[1..];
      CompactConcat([s[0]], s[1..]);
      assert [s[0]][..0] == [];
    }
  }

  lemma {:induction false} CompactTrim(s: string)
    ensures Compact(TrimSpace(s)) == Compact(s)
  {
    CompactTrimLeft(s);
    CompactTrimRight(TrimLeft(s));
  }

  lemma {:induction false} CompactTrimRight(s: string)
    ensures Compact(TrimRight(s)) == Compact(s)
  {
    if s != [] && IsSpace(s[|s| - 1]) {
      CompactTrimRight(s[..|s| - 1]);
    }
  }

  /** A final rule is a capture rule in disguise exactly if its target compacts to the proxy. */
  lemma {:induction false} TerminalProxied(text: string)
    requires Read(text).terminal.Some?
    ensures Read(text).proxied <==> Compact(Read(text).terminal.value) == ProxyName
    ensures ValidTarget(Read(text).terminal.value)
  {
    var raw := TrimSpace(text);
    var at := FirstComma(raw);
    var kind, rest := raw[..at], raw[at + 1..];
    var target := TrimSpace(rest);
    assert raw == kind + ("," + rest);
    CompactTrim(text);
    CompactLastPart(kind, rest);
    CompactTrim(rest);
    CompactHasNoComma(target);
    ProxyHasNoComma();
    LastPart(Compact(kind), Compact(target), ProxyName);
  }

  // ---------- The whole update ----------

  /** No compiled egress rule has a target that reads as the interception proxy once blanks are gone. */
  predicate TargetsPlain(rules: seq<Rule>) {
    forall i :: 0 <= i < |rules| ==> Compact(rules[i].target) != ProxyName
  }

  lemma {:induction false} NextFormed(d: Document, c: Compiled, target: string)
    requires IsCompiled(d, c) && ValidModules(Active(d)) && HostsUnblanked(Active(d)) && ValidTarget(target)
    ensures WellFormed(NextRows(c, target))
  {
    EgressRulesValid(Active(d));
    MaterializedValid(c.egress, target);
    EgressRowsFormed(Materialize(c.egress, target));
    CaptureRowsFormed(Active(d), c.capture);
    forall i | 0 <= i < |c.policy|
      ensures PolicyRow(Rows(c.policy)[i])
    {
      assert c.policy[i] in PolicyRules(Active(d));
      PolicyFormed(Active(d), c.policy[i]);
    }
  }

  lemma {:induction false} UnproxiedIff(d: Document, c: Compiled, target: string)
    requires IsCompiled(d, c) && ValidModules(Active(d)) && ValidTarget(target) && Compact(target) != ProxyName
    ensures Unproxied(NextRows(c, target)) <==> TargetsPlain(c.egress)
  {
    var rules := Materialize(c.egress, target);
    EgressRulesValid(Active(d));
    MaterializedValid(c.egress, target);
    EgressRowsFormed(rules);
    forall i | 0 <= i < |rules|
      ensures Compact(rules[i].target) == ProxyName <==> Compact(c.egress[i].target) == ProxyName
    {
      ResolvedPlain(c.egress[i].target, target);
    }
  }

  lemma {:induction false} ResolvedPlain(t: string, matchTarget: string)
    requires Compact(matchTarget) != ProxyName
    ensures Compact(Resolved(t, matchTarget)) == ProxyName <==> Compact(t) == ProxyName
  {
    TerminalTargetIsNotProxy();
  }

  lemma {:induction false} TerminalTargetIsNotProxy()
    ensures Compact(TerminalTarget) != ProxyName
  {
    assert NoBlank(TerminalTarget);
    CompactSame(TerminalTarget);
    assert TerminalTarget[0] != ProxyName[0];
  }

  /** A list that carries module rules in sync has only capture texts without blanks. */
  lemma {:induction false} ReadyNeedsCompact(rules: seq<Row>, l: Layout, next: Next, reject: Row, m: Layout)
    requires Bounds(rules, l) && Synced(Spliced(rules, l, next, reject), m, Wanted(next))
    ensures forall i :: 0 <= i < |next.capture| ==> next.capture[i].compact == next.capture[i].text
  {
    var out := Spliced(rules, l, next, reject);
    BackStretches(rules, l, next, reject);
    var at := SplicedLayout(l, next);
    assert |CapturesOf(out, m)| == |next.capture|;
    SplicedRow(rules, l, next, reject, 0);
    assert m.capture == at.capture;
    forall i | 0 <= i < |next.capture|
      ensures next.capture[i].compact == next.capture[i].text
    {
      assert CapturesOf(out, m)[i] == next.capture[i].compact;
      assert TextsOf(next.capture)[i] == next.capture[i].text;
    }
  }

  lemma {:induction false} CompactShrinks(s: string)
    ensures |Compact(s)| <= |s| && (|Compact(s)| == |s| ==> NoBlank(s))
  {
    if s != [] {
      CompactShrinks(s[..|s| - 1]);
    }
  }

  lemma {:induction false} BlankHostShows(modules: seq<Module>, i: nat, k: nat)
    requires i < |modules| && k < |modules[i].captureHosts|
    ensures exists s :: s in AllSelectors(modules) && HostOf(s, modules[i].captureHosts[k])
  {
    var n := |modules| - 1;
    if i < n {
      BlankHostShows(modules[..n], i, k);
    } else {
      var hosts := modules[i].captureHosts;
      EveryHostHandled(hosts, |hosts|, k);
      HandledEmitted(hosts, |hosts|, hosts[k], 80);
      var h :| 0 <= h < |hosts| && hosts[k] in Settles(hosts, hosts[h]) && Emits(hosts, |hosts|, hosts[h], 80);
      var s := Selector(KindOf(hosts, hosts[h]), ValueOf(hosts, hosts[h]), 80);
      assert s in AllSelectors(modules) && HostOf(s, hosts[k]);
    }
  }

  /** The host is the selector's value, possibly behind "*.". */
  predicate HostOf(s: Selector, host: string) {
    host == s.value || host == "*." + s.value
  }

  lemma {:induction false} UnblankedValue(s: Selector, host: string)
    requires HostOf(s, host) && NoBlank(RenderCapture(s))
    ensures NoBlank(host)
  {
    CaptureParts(s);
    var a, b := CapturePrefix(s.kind), CaptureSuffix(s.port);
    var t := a + s.value + b;
    forall i | 0 <= i < |s.value|
      ensures !IsSpace(s.value[i])
    {
      assert t[|a| + i] == s.value[i];
    }
    assert NoBlank("*.");
    NoBlankConcat("*.", s.value);
  }

  lemma {:induction false} CompactTextsUnblanked(d: Document, c: Compiled)
    requires IsCompiled(d, c)
    requires forall i :: 0 <= i < |c.capture| ==> Compact(c.capture[i]) == c.capture[i]
    ensures HostsUnblanked(Active(d))
  {
    var modules := Active(d);
    forall i, k | 0 <= i < |modules| && 0 <= k < |modules[i].captureHosts|
      ensures NoBlank(modules[i].captureHosts[k])
    {
      BlankHostShows(modules, i, k);
      var s :| s in AllSelectors(modules) && HostOf(s, modules[i].captureHosts[k]);
      var n :| 0 <= n < |AllSelectors(modules)| && AllSelectors(modules)[n] == s;
      assert Texts(AllSelectors(modules))[n] == RenderCapture(s);
      assert RenderCapture(s) in c.capture;
      CompactShrinks(RenderCapture(s));
      UnblankedValue(s, modules[i].captureHosts[k]);
    }
  }

  /**
   Let a list be reconcileable for some earlier document. Rendering a valid
   new document into it and analysing the result gives "ready" if and only if
   no egress target reads as the interception proxy and no capture host
   contains a blank.
   */
  lemma {:induction false} UpdateReadyIff(texts: seq<string>, l: Layout, before: Expected, d: Document, c: Compiled, target: string)
    requires Fits(Rows(texts), l, before) && Rows(texts)[|texts| - 1].terminal == Some(target)
    requires IsCompiled(d, c) && ValidModules(Active(d))
    ensures var next := NextRows(c, target);
            Ready(Spliced(Rows(texts), l, next, Read(RejectText)), Wanted(next)) <==> TargetsPlain(c.egress) && HostsUnblanked(Active(d))
  {
    var rules, next, reject := Rows(texts), NextRows(c, target), Read(RejectText);
    var out := Spliced(rules, l, next, reject);
    RejectRowFacts();
    FinalIsPlain(texts, l, target);
    UnproxiedIff(d, c, target);
    if HostsUnblanked(Active(d)) {
      NextFormed(d, c, target);
      RenderedReadyIff(rules, l, before, next, reject);
    } else if m :| Synced(out, m, Wanted(next)) {
      ReadyNeedsCompact(rules, l, next, reject, m);
      RowsCompact(c.capture);
      CompactTextsUnblanked(d, c);
    }
  }

  lemma {:induction false} RowsCompact(capture: seq<string>)
    requires forall i :: 0 <= i < |capture| ==> Rows(capture)[i].compact == Rows(capture)[i].text
    ensures forall i :: 0 <= i < |capture| ==> Compact(capture[i]) == capture[i]
  {
    forall i | 0 <= i < |capture|
      ensures Compact(capture[i]) == capture[i]
    {
      assert Rows(capture)[i] == Read(capture[i]);
    }
  }

  lemma {:induction false} FinalIsPlain(texts: seq<string>, l: Layout, target: string)
    requires Shaped(Rows(texts), l) && Rows(texts)[|texts| - 1].terminal == Some(target)
    ensures ValidTarget(target) && Compact(target) != ProxyName
  {
    var last := |texts| - 1;
    assert Rows(texts)[last] == Read(texts[last]);
    assert !MarksCapture(Rows(texts)[last]);
    assert !Rows(texts)[last].isReject;
    TerminalProxied(texts[last]);
  }

  /** Named targets must be groups that the configuration has. */
  predicate Available(rules: seq<Rule>, groups: set<string>) {
    forall i :: 0 <= i < |rules| ==> rules[i].target == TerminalTarget || rules[i].target in groups
  }

  method CheckAvailable(rules: seq<Rule>, groups: set<string>) returns (ok: bool)
    ensures ok <==> Available(rules, groups)
  {
    for i := 0 to |rules|
      invariant forall k :: 0 <= k < i ==> rules[k].target == TerminalTarget || rules[k].target in groups
    {
      if rules[i].target != TerminalTarget && rules[i].target !in groups {
        return false;
      }
    }
    return true;
  }

  /** The list accepts an update from `before`, with the layout and final target that the analysis finds. */
  ghost predicate Accepts(texts: seq<string>, groups: set<string>, before: Compiled, l: Layout, target: string) {
    && texts != [] && Rows(texts)[|texts| - 1].terminal == Some(target) && Available(before.egress, groups)
    && Fits(Rows(texts), l, Wanted(NextRows(before, target)))
  }

  /** Analyse for the old document, render the new one. */
  method Rewrite(texts: seq<string>, groups: set<string>, before: Compiled, c: Compiled) returns (out: Option<seq<Row>>)
    ensures out.Some? <==> Available(c.egress, groups) && exists l, target :: Accepts(texts, groups, before, l, target)
    ensures out.Some? ==> exists l, target :: Accepts(texts, groups, before, l, target)
                            && out.value == Spliced(Rows(texts), l, NextRows(c, target), Read(RejectText))
  {
    var rules := Rows(texts);
    var ok, target := TerminalMatch(rules);
    var known := CheckAvailable(before.egress, groups);
    var wanted := CheckAvailable(c.egress, groups);
    if !ok || !known || !wanted {
      return None;
    }
    var expected := Wanted(NextRows(before, target));
    var a := Analyze(rules, expected);
    if a.Refused? {
      return None;
    }
    assert Accepts(texts, groups, before, a.layout, target);
    MatchRowIsNotQuic(texts, a.layout);
    var result := Render(rules, a.layout, NextRows(c, target), Read(RejectText));
    out := Some(result);
  }

  /** Rows that are what reading their own text gives. */
  predicate FromTexts(rows: seq<Row>) {
    forall i :: 0 <= i < |rows| ==> rows[i] == Read(rows[i].text)
  }

  lemma {:induction false} RowsFromTexts(texts: seq<string>)
    ensures FromTexts(Rows(texts))
  {
  }

  lemma {:induction false} ReadAgain(rows: seq<Row>)
    requires FromTexts(rows)
    ensures Rows(TextsOf(rows)) == rows
  {
  }

  lemma {:induction false} SplicedFromTexts(rules: seq<Row>, l: Layout, next: Next, reject: Row)
    requires Bounds(rules, l) && FromTexts(rules) && FromTexts(next.egress) && FromTexts(next.policy) && FromTexts(next.capture)
    requires FromTexts([reject])
    ensures FromTexts(Spliced(rules, l, next, reject))
  {
    var out := Spliced(rules, l, next, reject);
    assert [reject][0] == reject;
    forall i | 0 <= i < |out|
      ensures out[i] == Read(out[i].text)
    {
      SplicedRow(rules, l, next, reject, i);
    }
  }

  lemma {:induction false} SplicedEnds(rules: seq<Row>, l: Layout, next: Next, reject: Row)
    requires Bounds(rules, l)
    ensures var rows := Spliced(rules, l, next, reject); rows != [] && rows[|rows| - 1] == rules[|rules| - 1]
  {
  }

  /** A rendered list is read again as the rows that were put together. */
  lemma {:induction false} SplicedIsRead(texts: seq<string>, l: Layout, c: Compiled, target: string, reject: Row, rows: seq<Row>)
    requires Bounds(Rows(texts), l) && FromTexts([reject]) && rows == Spliced(Rows(texts), l, NextRows(c, target), reject)
    ensures Rows(TextsOf(rows)) == rows && rows != [] && rows[|rows| - 1] == Rows(texts)[|texts| - 1]
  {
    RowsFromTexts(texts);
    RowsFromTexts(EgressTexts(Materialize(c.egress, target)));
    RowsFromTexts(c.policy);
    RowsFromTexts(c.capture);
    SplicedFromTexts(Rows(texts), l, NextRows(c, target), reject);
    SplicedEnds(Rows(texts), l, NextRows(c, target), reject);
    ReadAgain(rows);
  }

  lemma {:induction false} OneFromText(text: string)
    ensures FromTexts([Read(text)])
  {
  }

  lemma {:induction false} MatchRowIsNotQuic(texts: seq<string>, l: Layout)
    requires Shaped(Rows(texts), l)
    ensures !Rows(texts)[|texts| - 1].denyQuic
  {
    var last := |texts| - 1;
    assert Rows(texts)[last] == Read(texts[last]);
    assert Rows(texts)[last].isMatch;
    MatchIsNotQuic(texts[last]);
  }

  // ---------- Where an update fails ----------

  lemma {:induction false} ProxyChars(a: string, b: string)
    requires a + b == ProxyName
    ensures forall i :: 0 <= i < |a| ==> a[i] == '-' || 'A' <= a[i] <= 'Z'
    ensures forall i :: 0 <= i < |b| ==> b[i] == '-' || 'A' <= b[i] <= 'Z'
  {
    assert forall i :: 0 <= i < |ProxyName| ==> ProxyName[i] == '-' || 'A' <= ProxyName[i] <= 'Z';
    assert forall i :: 0 <= i < |a| ==> a[i] == (a + b)[i];
    assert forall i :: 0 <= i < |b| ==> b[i] == (a + b)[|a| + i];
  }

  lemma {:induction false} SpacedCompacts(a: string, b: string)
    requires NoBlank(a) && NoBlank(b)
    ensures Compact(a + " " + b) == a + b
  {
    CompactSame(a);
    CompactSame(b);
    CompactConcat(a + " ", b);
    CompactConcat(a, " ");
    assert " "[..0] == "";
    assert Compact(" ") == "";
  }

  predicate CapitalsAndDashes(s: string) {
    forall i :: 0 <= i < |s| ==> s[i] == '-' || 'A' <= s[i] <= 'Z'
  }

  lemma {:induction false} SpacedIsGroup(a: string, b: string)
    requires CapitalsAndDashes(a) && CapitalsAndDashes(b) && a != [] && b != [] && |a| + |b| < 32
    ensures ValidGroup(a + " " + b)
  {
    var group := a + " " + b;
    Utf8Bound(group);
    OuterCharsTrimmed(group);
    assert group[0] == a[0];
    PrefixDiffers(group, TerminalTarget, 0);
  }

  /**
   The proxy's name with a blank anywhere inside is an acceptable group name,
   yet an egress rule to it is read as a capture rule.
   */
  lemma {:induction false} SpacedProxyName(a: string, b: string)
    requires a + b == ProxyName && a != [] && b != []
    ensures SpacedName(a + " " + b) && a + " " + b != ProxyName
  {
    ProxyChars(a, b);
    SpacedCompacts(a, b);
    assert |a| + |b| == 16;
    SpacedIsGroup(a, b);
    assert |a + " " + b| == 17;
  }

  lemma {:induction false} TwoRowsFit(rules: seq<Row>)
    requires |rules| == 2 && rules[0].isReject && !rules[0].isMatch
    requires rules[1].isMatch && rules[1].terminal.Some? && !rules[1].isReject && !rules[1].touches && !rules[1].proxied
    ensures Fits(rules, Layout(0, 0, 1, 1), Expected([], [], []))
  {
    assert rules[0..0] == [] && rules[1..1] == [];
  }

  lemma {:induction false} SortedOf(values: seq<string>) returns (out: seq<string>)
    ensures StrictlySorted(out) && forall x :: x in out <==> x in values
  {
    out := [];
    if values != [] {
      var n := |values| - 1;
      out := SortedOf(values[..n]);
      assert values == values[..n] + [values[n]];
      if values[n] !in out {
        InsertSorted(out, values[n]);
        out := Sorting.Insert(out, values[n]);
      }
    }
  }

  /** Every document compiles. */
  lemma {:induction false} CompiledExists(d: Document) returns (c: Compiled)
    ensures IsCompiled(d, c)
  {
    var capture := SortedOf(Texts(AllSelectors(Active(d))));
    c := Compiled(capture, EgressRules(Active(d)), PolicyRules(Active(d)));
  }

  /** One enabled module with one capture host. */
  function OneModule(host: string, group: string): Module {
    Module("m", true, [host], "", group, [], [], [])
  }

  function OneModuleDocument(host: string, group: string): Document {
    Document(true, [OneModule(host, group)], ["m"])
  }

  lemma {:induction false} OneModuleValid(d: Document, host: string, group: string)
    requires d == OneModuleDocument(host, group) && ValidHostPattern(host) && ValidGroup(group)
    ensures ValidDocument(d) && Active(d) == [OneModule(host, group)] && ValidModules(Active(d))
  {
    Agreement.OneModuleActive(d, OneModule(host, group));
  }

  lemma {:induction false} HostIsCompiled(m: Module)
    requires |m.captureHosts| == 1
    ensures ModuleSelectors(m) != []
  {
    var hosts := m.captureHosts;
    assert HostSelectors(hosts, 0) == [];
    assert HostSelectors(hosts, 1) == PortPair(KindOf(hosts, hosts[0]), ValueOf(hosts, hosts[0]));
    assert |Unsorted(m)| > 0;
    assert |multiset(ModuleSelectors(m))| == |multiset(Unsorted(m))|;
  }

  lemma {:induction false} AddNewKeepsTargets(rules: seq<Rule>, more: seq<Rule>, target: string)
    requires forall i :: 0 <= i < |rules| ==> rules[i].target == target
    requires forall i :: 0 <= i < |more| ==> more[i].target == target
    ensures forall i :: 0 <= i < |AddNew(rules, more)| ==> AddNew(rules, more)[i].target == target
    ensures |AddNew(rules, more)| >= |rules| && (rules == [] && more != [] ==> AddNew(rules, more) != [])
  {
    if more != [] {
      AddNewKeepsTargets(rules, more[..|more| - 1], target);
    }
  }

  lemma {:induction false} OneGroup(m: Module, bound: bool)
    ensures GroupRules([m], bound) == if Bound(m) == bound then RulesFor(ModuleSelectors(m), TargetOf(m)) else []
  {
    assert [m][..0] == [];
    var added := if Bound(m) == bound then RulesFor(ModuleSelectors(m), TargetOf(m)) else [];
    assert GroupRules([m], bound) == GroupRules([], bound) + added;
    assert GroupRules([], bound) == [];
  }

  lemma {:induction false} TwoStages(a: seq<Rule>, b: seq<Rule>, target: string)
    requires forall i :: 0 <= i < |a| ==> a[i].target == target
    requires forall i :: 0 <= i < |b| ==> b[i].target == target
    ensures var r := AddNew(AddNew([], a), b);
            (forall i :: 0 <= i < |r| ==> r[i].target == target) && (a != [] ==> r != [])
  {
    AddNewKeepsTargets([], a, target);
    AddNewKeepsTargets(AddNew([], a), b, target);
  }

  predicate AllTo(rules: seq<Rule>, target: string) {
    forall i :: 0 <= i < |rules| ==> rules[i].target == target
  }

  lemma {:induction false} GroupTargets(modules: seq<Module>, m: Module, bound: bool)
    requires modules == [m]
    ensures AllTo(GroupRules(modules, bound), TargetOf(m))
    ensures Bound(m) == bound ==> |GroupRules(modules, bound)| == |ModuleSelectors(m)|
  {
    OneGroup(m, bound);
  }

  lemma {:induction false} RulesOfGroups(modules: seq<Module>, target: string)
    requires AllTo(GroupRules(modules, true), target) && AllTo(GroupRules(modules, false), target)
    ensures AllTo(EgressRules(modules), target)
    ensures GroupRules(modules, true) != [] ==> EgressRules(modules) != []
  {
    TwoStages(GroupRules(modules, true), GroupRules(modules, false), target);
  }

  /** All rules of a single module go to its target, and a bound one with a host has some. */
  lemma {:induction false} SingleModuleTargets(modules: seq<Module>, m: Module)
    requires modules == [m] && |m.captureHosts| == 1
    ensures AllTo(EgressRules(modules), TargetOf(m))
    ensures Bound(m) ==> EgressRules(modules) != []
  {
    GroupTargets(modules, m, true);
    GroupTargets(modules, m, false);
    HostIsCompiled(m);
    RulesOfGroups(modules, TargetOf(m));
  }

  lemma {:induction false} GroupIsCompiled(modules: seq<Module>, m: Module, rules: seq<Rule>)
    requires modules == [m] && |m.captureHosts| == 1 && Compact(m.egressGroup) == ProxyName && rules == EgressRules(modules)
    ensures !TargetsPlain(rules)
  {
    assert m.egressGroup != [];
    SingleModuleTargets(modules, m);
    assert rules[0].target == m.egressGroup;
  }

  lemma {:induction false} DomainIsHost(host: string)
    requires IsDomain(host) && |host| <= 253
    ensures ValidHostPattern(host) && NoBlank(host)
  {
    Agreement.LowerDomain(host);
    DomainChars(host);
    OuterCharsTrimmed(host);
    assert StripDot(host) == host;
  }

  /** The list takes an update, and ends in a rule for `target`. */
  ghost predicate TakesUpdate(texts: seq<string>, l: Layout, before: Expected, target: string) {
    Fits(Rows(texts), l, before) && Rows(texts)[|texts| - 1].terminal == Some(target)
  }

  predicate DomainHost(host: string) {
    IsDomain(host) && |host| <= 253
  }

  /** A group name that passes validation and reads as the proxy. */
  predicate SpacedName(group: string) {
    ValidGroup(group) && Compact(group) == ProxyName
  }

  /** A valid document whose rendering into the list does not come out as ready. */
  ghost predicate BreaksUpdate(texts: seq<string>, l: Layout, target: string, d: Document, c: Compiled) {
    && ValidDocument(d) && ValidModules(Active(d)) && IsCompiled(d, c) && Bounds(Rows(texts), l)
    && var next := NextRows(c, target);
       !Ready(Spliced(Rows(texts), l, next, Read(RejectText)), Wanted(next))
  }

  lemma {:induction false} UnblankedAlone(modules: seq<Module>, m: Module, host: string)
    requires modules == [m] && m.captureHosts == [host] && NoBlank(host)
    ensures HostsUnblanked(modules)
  {
  }

  lemma {:induction false} SpacedDocument(d: Document, host: string, group: string)
    requires d == OneModuleDocument(host, group)
    requires IsDomain(host) && |host| <= 253 && ValidGroup(group) && Compact(group) == ProxyName
    ensures ValidDocument(d) && ValidModules(Active(d)) && HostsUnblanked(Active(d)) && !TargetsPlain(EgressRules(Active(d)))
  {
    var m := OneModule(host, group);
    DomainIsHost(host);
    OneModuleValid(d, host, group);
    UnblankedAlone(Active(d), m, host);
    GroupIsCompiled(Active(d), m, EgressRules(Active(d)));
  }

  /**
   Whatever list accepts an update, there is a valid document, bound to a group
   with a passing name, whose rendering does not come out as ready.
   */
  lemma {:induction false} SpacedGroupBreaksUpdate(texts: seq<string>, l: Layout, before: Expected, target: string, host: string, group: string)
    returns (d: Document, c: Compiled)
    requires TakesUpdate(texts, l, before, target) && DomainHost(host) && SpacedName(group)
    ensures d == OneModuleDocument(host, group) && BreaksUpdate(texts, l, target, d, c) && HostsUnblanked(Active(d))
  {
    d := OneModuleDocument(host, group);
    c := CompiledExists(d);
    SpacedDocument(d, host, group);
    UpdateReadyIff(texts, l, before, d, c, target);
  }

  lemma {:induction false} BlankDocument(d: Document, host: string)
    requires d == OneModuleDocument(host, "") && ValidHostPattern(host) && !NoBlank(host)
    ensures ValidDocument(d) && ValidModules(Active(d)) && TargetsPlain(EgressRules(Active(d))) && !HostsUnblanked(Active(d))
  {
    var m := OneModule(host, "");
    OneModuleValid(d, host, "");
    SingleModuleTargets(Active(d), m);
    UnboundTargets(EgressRules(Active(d)));
    assert Active(d)[0].captureHosts[0] == host;
  }

  /**
   A host imported with a blank before two trailing dots is stored with the
   blank and one dot; then no list accepts the document's rules as ready.
   */
  lemma {:induction false} BlankHostBreaksUpdate(texts: seq<string>, l: Layout, before: Expected, target: string, host: string)
    returns (d: Document, c: Compiled)
    requires TakesUpdate(texts, l, before, target) && DomainHost(host)
    ensures NormalizeList([host + " .."]) == Some([host + " ."])
    ensures d == OneModuleDocument(host + " .", "") && BreaksUpdate(texts, l, target, d, c) && TargetsPlain(c.egress)
  {
    BlankIsStored(host);
    d := OneModuleDocument(host + " .", "");
    c := CompiledExists(d);
    BlankDocument(d, host + " .");
    UpdateReadyIff(texts, l, before, d, c, target);
  }

  lemma {:induction false} ImportedModulesUnblanked(modules: seq<Module>, raws: seq<seq<string>>)
    requires Imported(modules, raws)
    ensures HostsUnblanked(modules) <==> forall i :: 0 <= i < |raws| ==> NoneWith(raws[i], BlankAndTwoDots)
  {
    forall i | 0 <= i < |modules|
      ensures AllUnblanked(modules[i].captureHosts) <==> NoneWith(raws[i], BlankAndTwoDots)
    {
      ImportedUnblankedIff(raws[i], modules[i].captureHosts);
    }
  }

  /**
   For modules that were imported, the condition is one on what was imported:
   no target reads as the proxy, and no host was written with a blank before
   two dots.
   */
  lemma {:induction false} ImportedReadyIff(texts: seq<string>, l: Layout, before: Expected, d: Document, c: Compiled, target: string, raws: seq<seq<string>>)
    requires Fits(Rows(texts), l, before) && Rows(texts)[|texts| - 1].terminal == Some(target)
    requires IsCompiled(d, c) && ValidModules(Active(d)) && Imported(Active(d), raws)
    ensures var next := NextRows(c, target);
            Ready(Spliced(Rows(texts), l, next, Read(RejectText)), Wanted(next)) <==>
              TargetsPlain(c.egress) && forall i :: 0 <= i < |raws| ==> NoneWith(raws[i], BlankAndTwoDots)
  {
    UpdateReadyIff(texts, l, before, d, c, target);
    ImportedModulesUnblanked(Active(d), raws);
  }

  lemma {:induction false} UnboundTargets(rules: seq<Rule>)
    requires AllTo(rules, TerminalTarget)
    ensures TargetsPlain(rules)
  {
    TerminalTargetIsNotProxy();
  }

  // ---------- Closed examples ----------

  const BareList := [RejectText, FinalText]
  const BareLayout := Layout(0, 0, 1, 1)
  const EmptyUpdate := Expected([], [], [])
  const ExampleHost := "a.bc"
  const ExampleGroup := "MODULE- INTERCEPT"

  /** A list with nothing but the terminator and the final rule accepts an update from the empty document. */
  lemma {:induction false} BareListFits()
    ensures TakesUpdate(BareList, BareLayout, EmptyUpdate, "DIRECT")
  {
    RejectTextFacts();
    FinalTextFacts();
    var rules := Rows(BareList);
    assert rules[0] == Read(RejectText) && rules[1] == Read(FinalText);
    TwoRowsFit(rules);
  }

  lemma {:induction false} ExampleDomain()
    ensures DomainHost(ExampleHost)
  {
    var s := ExampleHost;
    assert s[1] == '.' && s[..1] == "a" && s[2..] == "bc";
    assert IsLabel("a") && IsTopLevel("bc");
  }

  /** An update with a module for `a.bc` and a blank: imported, valid, and not ready afterwards. */
  lemma {:induction false} BlankHostExample() returns (d: Document, c: Compiled)
    ensures NormalizeList([ExampleHost + " .."]) == Some([ExampleHost + " ."])
    ensures d == OneModuleDocument(ExampleHost + " .", "") && BreaksUpdate(BareList, BareLayout, "DIRECT", d, c)
  {
    ExampleDomain();
    BareListFits();
    d, c := BlankHostBreaksUpdate(BareList, BareLayout, EmptyUpdate, "DIRECT", ExampleHost);
  }

  lemma {:induction false} ExampleGroupIsSpaced()
    ensures SpacedName(ExampleGroup)
  {
    SpacedProxyName("MODULE-", "INTERCEPT");
    assert "MODULE-" + " " + "INTERCEPT" == ExampleGroup;
  }

  /** An update with a module for `a.bc` bound to the spaced group. */
  lemma {:induction false} SpacedGroupExample() returns (d: Document, c: Compiled)
    ensures d == OneModuleDocument(ExampleHost, ExampleGroup) && BreaksUpdate(BareList, BareLayout, "DIRECT", d, c)
  {
    ExampleDomain();
    BareListFits();
    ExampleGroupIsSpaced();
    d, c := SpacedGroupBreaksUpdate(BareList, BareLayout, EmptyUpdate, "DIRECT", ExampleHost, ExampleGroup);
  }
}
