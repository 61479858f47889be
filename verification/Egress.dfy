module EgressRouting {
  // Egress rules: bound modules first, then unbound ones, each selector once.
  // First-match evaluation of that list is compared with a specification that
  // speaks about modules only.

  import opened Options
  import opened Names
  import opened Documents
  import opened RuleText
  import opened Sorting
  import opened CaptureRouting
  import Agreement

  datatype Rule = Rule(selector: Selector, target: string)

  // ---------- Selectors of one module ----------

  function OriginSelectors(origins: seq<Origin>): (r: seq<Selector>)
    ensures |r| == |origins|
    ensures forall i :: 0 <= i < |r| ==> r[i] == Selector(Domain, origins[i].host, origins[i].port)
  {
    seq(|origins|, i requires 0 <= i < |origins| => Selector(Domain, origins[i].host, origins[i].port))
  }

  function MappingPair(m: Mapping): seq<Selector> {
    match m.target
    case HostTarget(name) => PortPair(Domain, Lower(StripDot(name)))
    case AddressTarget(quad) => PortPair(IpCidr, quad + "/32")
  }

  function MappingSelectors(mappings: seq<Mapping>): seq<Selector> {
    if mappings == [] then [] else
      MappingSelectors(mappings[..|mappings| - 1]) + MappingPair(mappings[|mappings| - 1])
  }

  /** The port in five digits. */
  function Padded(port: nat): string {
    var digits := Itoa(port);
    if |digits| >= 5 then digits else seq(5 - |digits|, _ => '0') + digits
  }

  function SortKey(s: Selector): string {
    var kind := KindText(s.kind);
    TrimSuffix(kind, ",") + ['\0'] + s.value + ['\0'] + Padded(s.port)
  }

  function InsertByKey(sorted: seq<Selector>, s: Selector): (r: seq<Selector>)
    ensures multiset(r) == multiset(sorted) + multiset{s}
  {
    if sorted == [] then [s]
    else if Less(SortKey(s), SortKey(sorted[0])) then [s] + sorted
    else
      assert sorted == [sorted[0]] + sorted[1..];
      [sorted[0]] + InsertByKey(sorted[1..], s)
  }

  function SortByKey(selectors: seq<Selector>): (r: seq<Selector>)
    ensures multiset(r) == multiset(selectors)
  {
    if selectors == [] then [] else
      var n := |selectors| - 1;
      assert selectors == selectors[..n] + [selectors[n]];
      InsertByKey(SortByKey(selectors[..n]), selectors[n])
  }

  predicate KeySorted(selectors: seq<Selector>) {
    forall i, j :: 0 <= i < j < |selectors| ==> !Less(SortKey(selectors[j]), SortKey(selectors[i]))
  }

  lemma {:induction false} InsertByKeySorted(sorted: seq<Selector>, s: Selector)
    requires KeySorted(sorted)
    ensures KeySorted(InsertByKey(sorted, s))
  {
    if sorted != [] {
      if Less(SortKey(s), SortKey(sorted[0])) {
        forall i | 0 <= i < |sorted|
          ensures !Less(SortKey(sorted[i]), SortKey(s))
        {
          if Less(SortKey(sorted[i]), SortKey(s)) {
            LessTransitive(SortKey(sorted[i]), SortKey(s), SortKey(sorted[0]));
            LessTrichotomy(SortKey(sorted[i]), SortKey(sorted[i]));
          }
        }
      } else {
        InsertByKeySorted(sorted[1..], s);
        var tail := InsertByKey(sorted[1..], s);
        forall i | 0 <= i < |tail|
          ensures !Less(SortKey(tail[i]), SortKey(sorted[0]))
        {
          assert tail[i] in multiset(tail);
          if tail[i] != s {
            assert tail[i] in sorted[1..];
          }
        }
      }
    }
  }

  lemma {:induction false} SortByKeySorts(selectors: seq<Selector>)
    ensures KeySorted(SortByKey(selectors))
  {
    if selectors != [] {
      SortByKeySorts(selectors[..|selectors| - 1]);
      InsertByKeySorted(SortByKey(selectors[..|selectors| - 1]), selectors[|selectors| - 1]);
    }
  }

  function Unsorted(m: Module): seq<Selector> {
    HostSelectors(m.captureHosts, |m.captureHosts|) + OriginSelectors(m.origins) + MappingSelectors(m.mappings)
  }

  function ModuleSelectors(m: Module): seq<Selector> {
    SortByKey(Unsorted(m))
  }

  method EgressSelectors(m: Module) returns (selectors: seq<Selector>)
    ensures selectors == ModuleSelectors(m)
  {
    selectors := CaptureSelectors(m.captureHosts);
    var origins := OriginSelectors(m.origins);
    selectors := selectors + origins;
    var mapped: seq<Selector> := [];
    for i := 0 to |m.mappings|
      invariant mapped == MappingSelectors(m.mappings[..i])
    {
      assert m.mappings[..i + 1][..i] == m.mappings[..i];
      mapped := mapped + MappingPair(m.mappings[i]);
    }
    assert m.mappings[..|m.mappings|] == m.mappings;
    selectors := SortByKey(selectors + mapped);
  }

  // ---------- The rule list ----------

  predicate Bound(m: Module) {
    m.egressGroup != []
  }

  function TargetOf(m: Module): string {
    if Bound(m) then m.egressGroup else TerminalTarget
  }

  function RulesFor(selectors: seq<Selector>, target: string): (r: seq<Rule>)
    ensures |r| == |selectors| && forall i :: 0 <= i < |r| ==> r[i] == Rule(selectors[i], target)
  {
    seq(|selectors|, i requires 0 <= i < |selectors| => Rule(selectors[i], target))
  }

  /** Rules of the modules that are bound (or not), before duplicates go. */
  function GroupRules(modules: seq<Module>, bound: bool): seq<Rule> {
    if modules == [] then [] else
      var n := |modules| - 1;
      GroupRules(modules[..n], bound) +
      (if Bound(modules[n]) == bound then RulesFor(ModuleSelectors(modules[n]), TargetOf(modules[n])) else [])
  }

  predicate HasSelector(rules: seq<Rule>, s: Selector) {
    exists i :: 0 <= i < |rules| && rules[i].selector == s
  }

  /** Appending while skipping selectors that are already there. */
  function AddNew(rules: seq<Rule>, more: seq<Rule>): seq<Rule> {
    if more == [] then rules else
      var n := |more| - 1;
      var r := AddNew(rules, more[..n]);
      if HasSelector(r, more[n].selector) then r else r + [more[n]]
  }

  function EgressRules(modules: seq<Module>): seq<Rule> {
    AddNew(AddNew([], GroupRules(modules, true)), GroupRules(modules, false))
  }

  ghost predicate SeenExactly(seen: set<Selector>, rules: seq<Rule>) {
    forall s :: s in seen <==> HasSelector(rules, s)
  }

  lemma {:induction false} SeenGrows(seen: set<Selector>, rules: seq<Rule>, r: Rule)
    requires SeenExactly(seen, rules)
    ensures SeenExactly(seen + {r.selector}, rules + [r])
  {
    var longer := rules + [r];
    forall s
      ensures s in seen + {r.selector} <==> HasSelector(longer, s)
    {
      if HasSelector(rules, s) {
        var i :| 0 <= i < |rules| && rules[i].selector == s;
        assert longer[i].selector == s;
      }
      assert longer[|rules|].selector == r.selector;
    }
  }

  method AddRules(rules0: seq<Rule>, seen0: set<Selector>, selectors: seq<Selector>, target: string)
    returns (rules: seq<Rule>, seen: set<Selector>)
    requires SeenExactly(seen0, rules0)
    ensures rules == AddNew(rules0, RulesFor(selectors, target)) && SeenExactly(seen, rules)
  {
    rules, seen := rules0, seen0;
    ghost var more := RulesFor(selectors, target);
    for i := 0 to |selectors|
      invariant rules == AddNew(rules0, more[..i]) && SeenExactly(seen, rules)
    {
      assert more[..i + 1][..i] == more[..i];
      if selectors[i] !in seen {
        SeenGrows(seen, rules, Rule(selectors[i], target));
        seen := seen + {selectors[i]};
        rules := rules + [Rule(selectors[i], target)];
      }
    }
    assert more[..|selectors|] == more;
  }

  lemma {:induction false} AddNewAppend(rules: seq<Rule>, a: seq<Rule>, b: seq<Rule>)
    ensures AddNew(rules, a + b) == AddNew(AddNew(rules, a), b)
  {
    if b == [] {
      assert a + b == a;
    } else {
      var n := |b| - 1;
      AddNewAppend(rules, a, b[..n]);
      assert (a + b)[..|a + b| - 1] == a + b[..n];
    }
  }

  method AppendSelectors(modules: seq<Module>, bound: bool, rules0: seq<Rule>, seen0: set<Selector>)
    returns (rules: seq<Rule>, seen: set<Selector>)
    requires SeenExactly(seen0, rules0)
    ensures rules == AddNew(rules0, GroupRules(modules, bound)) && SeenExactly(seen, rules)
  {
    rules, seen := rules0, seen0;
    for i := 0 to |modules|
      invariant rules == AddNew(rules0, GroupRules(modules[..i], bound)) && SeenExactly(seen, rules)
    {
      var m := modules[i];
      assert modules[..i + 1][..i] == modules[..i];
      if Bound(m) == bound {
        var selectors := EgressSelectors(m);
        AddNewAppend(rules0, GroupRules(modules[..i], bound), RulesFor(selectors, TargetOf(m)));
        rules, seen := AddRules(rules, seen, selectors, TargetOf(m));
      } else {
        assert GroupRules(modules[..i], bound) + [] == GroupRules(modules[..i], bound);
      }
    }
    assert modules[..|modules|] == modules;
  }

  method CompileEgress(d: Document) returns (rules: seq<Rule>)
    ensures rules == EgressRules(Active(d))
  {
    if !d.mitm {
      return [];
    }
    var modules := OrderedEnabledModules(d);
    var seen: set<Selector>;
    rules, seen := AppendSelectors(modules, true, [], {});
    rules, seen := AppendSelectors(modules, false, rules, seen);
  }

  // ---------- First-match evaluation ----------

  /** Target of the first rule that selects the connection; the reject terminator follows the list. */
  function FirstMatch(rules: seq<Rule>, dest: Destination, port: nat): Option<string> {
    if rules == [] then None
    else if Selects(rules[0].selector, dest, port) then Some(rules[0].target)
    else FirstMatch(rules[1..], dest, port)
  }

  lemma {:induction false} FirstMatchAppend(a: seq<Rule>, b: seq<Rule>, dest: Destination, port: nat)
    ensures FirstMatch(a + b, dest, port) ==
            if FirstMatch(a, dest, port).Some? then FirstMatch(a, dest, port) else FirstMatch(b, dest, port)
  {
    if a == [] {
      assert a + b == b;
    } else {
      assert (a + b)[1..] == a[1..] + b;
      FirstMatchAppend(a[1..], b, dest, port);
    }
  }

  lemma {:induction false} PresentMatches(rules: seq<Rule>, s: Selector, dest: Destination, port: nat)
    requires HasSelector(rules, s) && Selects(s, dest, port)
    ensures FirstMatch(rules, dest, port).Some?
  {
    var i :| 0 <= i < |rules| && rules[i].selector == s;
    if i > 0 {
      assert rules[1..][i - 1].selector == s;
      PresentMatches(rules[1..], s, dest, port);
    }
  }

  /** Dropping later duplicates of a selector changes no outcome. */
  lemma {:induction false} DedupKeepsOutcome(rules: seq<Rule>, more: seq<Rule>, dest: Destination, port: nat)
    ensures FirstMatch(AddNew(rules, more), dest, port) == FirstMatch(rules + more, dest, port)
  {
    if more == [] {
      assert rules + more == rules;
    } else {
      var n := |more| - 1;
      var last := more[n];
      DedupKeepsOutcome(rules, more[..n], dest, port);
      assert rules + more == rules + more[..n] + [last];
      FirstMatchAppend(rules + more[..n], [last], dest, port);
      var r := AddNew(rules, more[..n]);
      FirstMatchAppend(r, [last], dest, port);
      if HasSelector(r, last.selector) && Selects(last.selector, dest, port) {
        PresentMatches(r, last.selector, dest, port);
      }
    }
  }

  // ---------- The specification ----------

  /** Whether a module declares the destination, in terms of its own fields. */
  predicate Covers(m: Module, dest: Destination, port: nat) {
    match dest
    case Host(name) =>
      || (WebPort(port) && HostsMatch(m.captureHosts, name))
      || (exists i :: 0 <= i < |m.origins| && Lower(m.origins[i].host) == name && m.origins[i].port == port)
      || (WebPort(port) && exists i :: 0 <= i < |m.mappings| && m.mappings[i].target.HostTarget? && Lower(StripDot(m.mappings[i].target.name)) == name)
    case Address(quad) =>
      WebPort(port) && exists i :: 0 <= i < |m.mappings| && m.mappings[i].target == AddressTarget(quad)
  }

  /** The first module, among the bound or the unbound ones, that covers the destination. */
  function FirstCovering(modules: seq<Module>, bound: bool, dest: Destination, port: nat): Option<Module> {
    if modules == [] then None else
      var n := |modules| - 1;
      var r := FirstCovering(modules[..n], bound, dest, port);
      if r.None? && Bound(modules[n]) == bound && Covers(modules[n], dest, port) then Some(modules[n]) else r
  }

  /** A bound module's group wins, then the terminal target, then the reject terminator. */
  function Outcome(modules: seq<Module>, dest: Destination, port: nat): Option<string> {
    var owner := FirstCovering(modules, true, dest, port);
    if owner.Some? then Some(owner.value.egressGroup)
    else if FirstCovering(modules, false, dest, port).Some? then Some(TerminalTarget)
    else None
  }

  lemma {:induction false} RulesForMatch(selectors: seq<Selector>, target: string, dest: Destination, port: nat)
    ensures FirstMatch(RulesFor(selectors, target), dest, port) ==
            if AnySelects(selectors, dest, port) then Some(target) else None
  {
    if selectors != [] {
      assert RulesFor(selectors, target)[1..] == RulesFor(selectors[1..], target);
      RulesForMatch(selectors[1..], target, dest, port);
      assert selectors == [selectors[0]] + selectors[1..];
      Agreement.AnySelectsAppend([selectors[0]], selectors[1..], dest, port);
      assert AnySelects([selectors[0]], dest, port) <==> Selects(selectors[0], dest, port) by {
        assert [selectors[0]][0] == selectors[0];
      }
    }
  }

  lemma {:induction false} SameSelectorsSameMatch(a: seq<Selector>, b: seq<Selector>, dest: Destination, port: nat)
    requires multiset(a) == multiset(b)
    ensures AnySelects(a, dest, port) ==> AnySelects(b, dest, port)
  {
    if AnySelects(a, dest, port) {
      var i :| 0 <= i < |a| && Selects(a[i], dest, port);
      assert a[i] in multiset(b);
      MemberSelects(b, a[i], dest);
    }
  }

  lemma {:induction false} PairMatch(kind: Kind, value: string, dest: Destination, port: nat)
    ensures AnySelects(PortPair(kind, value), dest, port) <==> WebPort(port) && ValueMatches(kind, value, dest)
  {
    var pair := PortPair(kind, value);
    assert pair[0] == Selector(kind, value, 80) && pair[1] == Selector(kind, value, 443);
  }

  predicate MappingCovers(m: Mapping, dest: Destination) {
    match dest
    case Host(name) => m.target.HostTarget? && Lower(StripDot(m.target.name)) == name
    case Address(quad) => m.target == AddressTarget(quad)
  }

  lemma {:induction false} MappingMatch(mappings: seq<Mapping>, dest: Destination, port: nat)
    ensures AnySelects(MappingSelectors(mappings), dest, port) <==>
            WebPort(port) && exists i :: 0 <= i < |mappings| && MappingCovers(mappings[i], dest)
  {
    if mappings != [] {
      var n := |mappings| - 1;
      MappingMatch(mappings[..n], dest, port);
      Agreement.AnySelectsAppend(MappingSelectors(mappings[..n]), MappingPair(mappings[n]), dest, port);
      MappingPairMatch(mappings[n], dest, port);
    }
  }

  lemma {:induction false} MappingPairMatch(m: Mapping, dest: Destination, port: nat)
    ensures AnySelects(MappingPair(m), dest, port) <==> WebPort(port) && MappingCovers(m, dest)
  {
    match m.target
    case HostTarget(name) =>
      PairMatch(Domain, Lower(StripDot(name)), dest, port);
      Agreement.LowerTwice(StripDot(name));
    case AddressTarget(quad) =>
      PairMatch(IpCidr, quad + "/32", dest, port);
      if dest.Address? {
        Ends(quad, "/32");
        Ends(dest.quad, "/32");
      }
  }

  lemma {:induction false} OriginMatch(origins: seq<Origin>, dest: Destination, port: nat)
    ensures AnySelects(OriginSelectors(origins), dest, port) <==>
            dest.Host? && exists i :: 0 <= i < |origins| && Lower(origins[i].host) == dest.name && origins[i].port == port
  {
    var selectors := OriginSelectors(origins);
    if dest.Host? {
      assert forall i :: 0 <= i < |origins| ==> (Selects(selectors[i], dest, port) <==> Lower(origins[i].host) == dest.name && origins[i].port == port);
    }
  }

  /** A host selector never selects a bare address. */
  lemma {:induction false} HostSelectorsNeedNames(hosts: seq<string>, quad: string, port: nat)
    ensures !AnySelects(HostSelectors(hosts, |hosts|), Address(quad), port)
  {
    forall i | 0 <= i < |HostSelectors(hosts, |hosts|)|
      ensures !Selects(HostSelectors(hosts, |hosts|)[i], Address(quad), port)
    {
      SelectorsSound(hosts, |hosts|, i);
    }
  }

  predicate Fair(dest: Destination) {
    dest.Host? ==> CanonicalName(dest.name)
  }

  /** The compiled selectors of a module match exactly the destinations it declares. */
  lemma {:induction false} ModuleMatch(m: Module, dest: Destination, port: nat)
    requires ValidHosts(m.captureHosts) && Fair(dest)
    ensures AnySelects(ModuleSelectors(m), dest, port) <==> Covers(m, dest, port)
  {
    var hosts := HostSelectors(m.captureHosts, |m.captureHosts|);
    SameSelectorsSameMatch(ModuleSelectors(m), Unsorted(m), dest, port);
    SameSelectorsSameMatch(Unsorted(m), ModuleSelectors(m), dest, port);
    Agreement.AnySelectsAppend(hosts + OriginSelectors(m.origins), MappingSelectors(m.mappings), dest, port);
    Agreement.AnySelectsAppend(hosts, OriginSelectors(m.origins), dest, port);
    OriginMatch(m.origins, dest, port);
    MappingMatch(m.mappings, dest, port);
    match dest
    case Host(name) => SelectorsMatchHosts(m.captureHosts, name, port);
    case Address(quad) => HostSelectorsNeedNames(m.captureHosts, quad, port);
  }

  lemma {:induction false} GroupOutcome(modules: seq<Module>, bound: bool, dest: Destination, port: nat)
    requires Agreement.AllValid(modules) && Fair(dest)
    ensures var owner := FirstCovering(modules, bound, dest, port);
            && FirstMatch(GroupRules(modules, bound), dest, port) == (if owner.Some? then Some(TargetOf(owner.value)) else None)
            && (owner.Some? ==> Bound(owner.value) == bound)
  {
    if modules != [] {
      var n := |modules| - 1;
      var m := modules[n];
      GroupOutcome(modules[..n], bound, dest, port);
      ModuleMatch(m, dest, port);
      RulesForMatch(ModuleSelectors(m), TargetOf(m), dest, port);
      var added := if Bound(m) == bound then RulesFor(ModuleSelectors(m), TargetOf(m)) else [];
      FirstMatchAppend(GroupRules(modules[..n], bound), added, dest, port);
    }
  }

  /**
   Evaluating the deduplicated list from the top gives the group of the first
   bound module covering the destination, else the terminal target if an
   unbound one does, else nothing, and the reject terminator decides.
   */
  lemma {:induction false} EvaluationMeetsSpec(d: Document, dest: Destination, port: nat)
    requires Agreement.AllValid(Active(d)) && Fair(dest)
    ensures FirstMatch(EgressRules(Active(d)), dest, port) == Outcome(Active(d), dest, port)
  {
    var modules := Active(d);
    var first, second := GroupRules(modules, true), GroupRules(modules, false);
    DedupKeepsOutcome(AddNew([], first), second, dest, port);
    DedupKeepsOutcome([], first, dest, port);
    assert [] + first == first;
    FirstMatchAppend(AddNew([], first), second, dest, port);
    GroupOutcome(modules, true, dest, port);
    GroupOutcome(modules, false, dest, port);
  }

  /** The owner covers, has the asked-for binding, and no earlier module of that kind covers. */
  lemma {:induction false} OwnerIsFirst(modules: seq<Module>, bound: bool, dest: Destination, port: nat)
    ensures var owner := FirstCovering(modules, bound, dest, port);
            if owner.Some? then
              exists i :: 0 <= i < |modules| && modules[i] == owner.value && Bound(modules[i]) == bound && Covers(modules[i], dest, port)
                          && forall j :: 0 <= j < i ==> !(Bound(modules[j]) == bound && Covers(modules[j], dest, port))
            else
              forall j :: 0 <= j < |modules| ==> !(Bound(modules[j]) == bound && Covers(modules[j], dest, port))
  {
    if modules != [] {
      var n := |modules| - 1;
      var init := modules[..n];
      OwnerIsFirst(init, bound, dest, port);
      assert forall i :: 0 <= i < n ==> init[i] == modules[i];
    }
  }

  // ---------- Distinct selectors, and the terminal target ----------

  predicate DistinctSelectors(rules: seq<Rule>) {
    forall i, j :: 0 <= i < j < |rules| ==> rules[i].selector != rules[j].selector
  }

  lemma {:induction false} AddNewDistinct(rules: seq<Rule>, more: seq<Rule>)
    requires DistinctSelectors(rules)
    ensures DistinctSelectors(AddNew(rules, more))
  {
    if more != [] {
      AddNewDistinct(rules, more[..|more| - 1]);
    }
  }

  lemma {:induction false} EgressSelectorsDistinct(modules: seq<Module>)
    ensures DistinctSelectors(EgressRules(modules))
  {
    AddNewDistinct([], GroupRules(modules, true));
    AddNewDistinct(AddNew([], GroupRules(modules, true)), GroupRules(modules, false));
  }

  function Resolved(target: string, matchTarget: string): string {
    if target == TerminalTarget then matchTarget else target
  }

  /** The list as it is written: the terminal placeholder becomes the operator's final target. */
  function Materialize(rules: seq<Rule>, matchTarget: string): (r: seq<Rule>)
    ensures |r| == |rules|
    ensures forall i :: 0 <= i < |r| ==> r[i] == Rule(rules[i].selector, Resolved(rules[i].target, matchTarget))
  {
    seq(|rules|, i requires 0 <= i < |rules| => Rule(rules[i].selector, Resolved(rules[i].target, matchTarget)))
  }

  lemma {:induction false} MaterializedOutcome(rules: seq<Rule>, matchTarget: string, dest: Destination, port: nat)
    ensures FirstMatch(Materialize(rules, matchTarget), dest, port) ==
            var r := FirstMatch(rules, dest, port);
            if r.Some? then Some(Resolved(r.value, matchTarget)) else None
  {
    if rules != [] {
      assert Materialize(rules, matchTarget)[1..] == Materialize(rules[1..], matchTarget);
      MaterializedOutcome(rules[1..], matchTarget, dest, port);
    }
  }
}
