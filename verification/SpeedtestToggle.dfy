/**
 The switch for the speed test on port 5060: one listener per
 gateway, one sniffed port in three lists, and two guard
 rules behind the panel guards.
 */
module SpeedtestToggle {
  import opened Names
  import opened Documents
  import opened RuleText
  import opened RuleRows
  import opened Sizes

  const PORT := 5060
  const PANEL := 8      // panel guards, and so the boundary where the module's rules go
  const BEHIND := 10    // guards that must follow the module's rules

  /** `ForGateway(g)` is exactly the listener the switch writes for gateway `g`. */
  datatype Listener = Gateway(name: string) | ForGateway(gateway: string) | Other(id: string, usesPort: bool) {
    predicate Touches() {
      ForGateway? || (Other? && usesPort)
    }
  }

  /** The names the guard rules are built from. */
  datatype Infra = Infra(gatewayIP: string, console: string, zash: string)

  /** A rule text with the answers of the classifiers: which panel and closing guards it is, and so on. */
  datatype Rule = Rule(text: string, compact: string, panels: set<nat>, closings: set<nat>, touches: bool, final: bool)

  datatype Config = Config(listeners: seq<Listener>, http: seq<int>, tls: seq<int>, quic: seq<int>, rules: seq<string>)

  // ---------- Listeners ----------

  function Gateways(ls: seq<Listener>): seq<string> {
    if ls == [] then [] else
      var n := |ls| - 1;
      Gateways(ls[..n]) + (if ls[n].Gateway? then [ls[n].name] else [])
  }

  function Added(gateways: seq<string>): (r: seq<Listener>)
    ensures |r| == |gateways| && forall i :: 0 <= i < |r| ==> r[i] == ForGateway(gateways[i])
  {
    seq(|gateways|, i requires 0 <= i < |gateways| => ForGateway(gateways[i]))
  }

  predicate Written(l: Listener, gateways: seq<string>) {
    l.ForGateway? && l.gateway in gateways
  }

  function TouchCount(ls: seq<Listener>): nat {
    if ls == [] then 0 else TouchCount(ls[..|ls| - 1]) + (if ls[|ls| - 1].Touches() then 1 else 0)
  }

  function WrittenCount(ls: seq<Listener>, gateways: seq<string>): nat {
    if ls == [] then 0 else WrittenCount(ls[..|ls| - 1], gateways) + (if Written(ls[|ls| - 1], gateways) then 1 else 0)
  }

  function Kept(ls: seq<Listener>, gateways: seq<string>): seq<Listener> {
    if ls == [] then [] else
      var n := |ls| - 1;
      if Written(ls[n], gateways) then Kept(ls[..n], gateways) else Kept(ls[..n], gateways) + [ls[n]]
  }

  predicate NoTouch(ls: seq<Listener>) {
    forall i :: 0 <= i < |ls| ==> !ls[i].Touches()
  }

  /** As many listeners on the port as gateways, and one written for each gateway among them. */
  predicate ListenersOn(ls: seq<Listener>) {
    TouchCount(ls) == |Gateways(ls)| && forall g :: g in Gateways(ls) ==> ForGateway(g) in ls
  }

  lemma {:induction false} TouchAppend(a: seq<Listener>, b: seq<Listener>)
    ensures TouchCount(a + b) == TouchCount(a) + TouchCount(b)
    ensures Gateways(a + b) == Gateways(a) + Gateways(b)
  {
    if b == [] {
      assert a + b == a;
    } else {
      var n := |b| - 1;
      TouchAppend(a, b[..n]);
      assert (a + b)[..|a + b| - 1] == a + b[..n];
    }
  }

  lemma {:induction false} KeptAppend(a: seq<Listener>, b: seq<Listener>, gateways: seq<string>)
    ensures Kept(a + b, gateways) == Kept(a, gateways) + Kept(b, gateways)
    ensures WrittenCount(a + b, gateways) == WrittenCount(a, gateways) + WrittenCount(b, gateways)
  {
    if b == [] {
      assert a + b == a;
    } else {
      var n := |b| - 1;
      KeptAppend(a, b[..n], gateways);
      assert (a + b)[..|a + b| - 1] == a + b[..n];
    }
  }

  lemma {:induction false} NoTouchCounts(ls: seq<Listener>, gateways: seq<string>)
    ensures TouchCount(ls) == 0 <==> NoTouch(ls)
    ensures NoTouch(ls) ==> Kept(ls, gateways) == ls
  {
    if ls != [] {
      NoTouchCounts(ls[..|ls| - 1], gateways);
    }
  }

  lemma {:induction false} AddedCounts(gateways: seq<string>, all: seq<string>)
    requires forall i :: 0 <= i < |gateways| ==> gateways[i] in all
    ensures TouchCount(Added(gateways)) == |gateways| && Gateways(Added(gateways)) == []
    ensures Kept(Added(gateways), all) == [] && WrittenCount(Added(gateways), all) == |gateways|
  {
    if gateways != [] {
      var n := |gateways| - 1;
      AddedCounts(gateways[..n], all);
      assert Added(gateways)[..n] == Added(gateways[..n]);
    }
  }

  lemma {:induction false} WrittenTouches(ls: seq<Listener>, gateways: seq<string>)
    ensures WrittenCount(ls, gateways) <= TouchCount(ls)
    ensures WrittenCount(ls, gateways) == TouchCount(ls) ==> NoTouch(Kept(ls, gateways))
  {
    if ls != [] {
      WrittenTouches(ls[..|ls| - 1], gateways);
    }
  }

  lemma {:induction false} GatewaysSnoc(ls: seq<Listener>, l: Listener)
    ensures Gateways(ls + [l]) == Gateways(ls) + (if l.Gateway? then [l.name] else [])
  {
    assert (ls + [l])[..|ls|] == ls;
  }

  lemma {:induction false} KeptGateways(ls: seq<Listener>, gateways: seq<string>)
    ensures Gateways(Kept(ls, gateways)) == Gateways(ls)
  {
    if ls != [] {
      var n := |ls| - 1;
      KeptGateways(ls[..n], gateways);
      if !Written(ls[n], gateways) {
        GatewaysSnoc(Kept(ls[..n], gateways), ls[n]);
      }
    }
  }

  lemma {:induction false} OneMoreWritten(ls: seq<Listener>, gateways: seq<string>, g: string)
    requires g !in gateways
    ensures WrittenCount(ls, gateways + [g]) >= WrittenCount(ls, gateways) + (if ForGateway(g) in ls then 1 else 0)
  {
    if ls != [] {
      var n := |ls| - 1;
      OneMoreWritten(ls[..n], gateways, g);
      assert ls == ls[..n] + [ls[n]];
      assert Written(ls[n], gateways) ==> Written(ls[n], gateways + [g]);
      assert ls[n] == ForGateway(g) ==> Written(ls[n], gateways + [g]) && !Written(ls[n], gateways);
    }
  }

  /** Distinct gateways that each have their listener account for that many listeners. */
  lemma {:induction false} EachWritten(ls: seq<Listener>, gateways: seq<string>)
    requires Distinct(gateways) && forall i :: 0 <= i < |gateways| ==> ForGateway(gateways[i]) in ls
    ensures WrittenCount(ls, gateways) >= |gateways|
  {
    if gateways != [] {
      var n := |gateways| - 1;
      var init, g := gateways[..n], gateways[n];
      EachWritten(ls, init);
      assert g !in init;
      OneMoreWritten(ls, init, g);
      assert init + [g] == gateways;
    }
  }

  lemma {:induction false} OnListeners(ls: seq<Listener>)
    requires Distinct(Gateways(ls)) && ListenersOn(ls)
    ensures NoTouch(Kept(ls, Gateways(ls))) && WrittenCount(ls, Gateways(ls)) == |Gateways(ls)|
    ensures Gateways(Kept(ls, Gateways(ls))) == Gateways(ls)
  {
    EachWritten(ls, Gateways(ls));
    WrittenTouches(ls, Gateways(ls));
    KeptGateways(ls, Gateways(ls));
  }

  lemma {:induction false} SwitchListenersOn(ls: seq<Listener>)
    requires NoTouch(ls)
    ensures var out := ls + Added(Gateways(ls));
            ListenersOn(out) && Gateways(out) == Gateways(ls) && Kept(out, Gateways(ls)) == ls
  {
    var gs := Gateways(ls);
    var out := ls + Added(gs);
    TouchAppend(ls, Added(gs));
    AddedCounts(gs, gs);
    NoTouchCounts(ls, gs);
    KeptAppend(ls, Added(gs), gs);
    forall g | g in gs
      ensures ForGateway(g) in out
    {
      var i :| 0 <= i < |gs| && gs[i] == g;
      assert out[|ls| + i] == ForGateway(g);
    }
  }

  /** The written listeners close the list, in gateway order. */
  predicate ListenersLast(ls: seq<Listener>) {
    var n := |Gateways(ls)|;
    n <= |ls| && ls[|ls| - n..] == Added(Gateways(ls))
  }

  lemma {:induction false} FrontUntouched(front: seq<Listener>, gs: seq<string>)
    requires TouchCount(front + Added(gs)) == |gs|
    ensures Kept(front + Added(gs), gs) == front
  {
    KeptAppend(front, Added(gs), gs);
    AddedCounts(gs, gs);
    TouchAppend(front, Added(gs));
    NoTouchCounts(front, gs);
  }

  lemma {:induction false} LastListenersBack(ls: seq<Listener>)
    requires ListenersOn(ls) && ListenersLast(ls)
    ensures Kept(ls, Gateways(ls)) + Added(Gateways(ls)) == ls
  {
    var gs := Gateways(ls);
    var front := ls[..|ls| - |gs|];
    assert ls == front + Added(gs);
    FrontUntouched(front, gs);
  }

  lemma {:induction false} SwitchListenersBackIff(ls: seq<Listener>)
    requires Distinct(Gateways(ls)) && ListenersOn(ls)
    ensures Kept(ls, Gateways(ls)) + Added(Gateways(ls)) == ls <==> ListenersLast(ls)
  {
    if ListenersLast(ls) {
      LastListenersBack(ls);
    }
    var kept, gs := Kept(ls, Gateways(ls)), Gateways(ls);
    if kept + Added(gs) == ls {
      assert |ls| - |gs| == |kept|;
      assert ls[|kept|..] == Added(gs);
    }
  }

  // ---------- Sniffed ports ----------

  function PortCount(ports: seq<int>): nat {
    if ports == [] then 0 else PortCount(ports[..|ports| - 1]) + (if ports[|ports| - 1] == PORT then 1 else 0)
  }

  function WithoutPort(ports: seq<int>): seq<int> {
    if ports == [] then [] else
      var n := |ports| - 1;
      WithoutPort(ports[..n]) + (if ports[n] == PORT then [] else [ports[n]])
  }

  lemma {:induction false} PortFacts(ports: seq<int>)
    ensures PortCount(WithoutPort(ports)) == 0
    ensures PortCount(ports) == 0 ==> WithoutPort(ports) == ports
    ensures PortCount(ports + [PORT]) == PortCount(ports) + 1 && WithoutPort(ports + [PORT]) == WithoutPort(ports)
  {
    assert (ports + [PORT])[..|ports|] == ports;
    if ports != [] {
      var n := |ports| - 1;
      PortFacts(ports[..n]);
      var rest := WithoutPort(ports[..n]);
      if ports[n] != PORT {
        assert (rest + [ports[n]])[..|rest|] == rest;
      }
    }
  }

  lemma {:induction false} PortBackIff(ports: seq<int>)
    requires PortCount(ports) == 1
    ensures WithoutPort(ports) + [PORT] == ports <==> ports[|ports| - 1] == PORT
  {
    var n := |ports| - 1;
    PortFacts(ports[..n]);
    if ports[n] == PORT {
      assert ports == ports[..n] + [PORT];
    }
  }

  // ---------- Rules ----------

  const PortText := "DST-PORT,5060"

  predicate Denies(rule: string, base: string, allowNoResolve: bool) {
    || rule == base + ",REJECT" || rule == base + ",REJECT-DROP"
    || (allowNoResolve && (rule == base + ",REJECT,no-resolve" || rule == base + ",REJECT-DROP,no-resolve"))
  }

  function DomainGuard(domain: string, condition: string): string {
    "AND,((DOMAIN," + domain + "),(" + condition + "))"
  }

  /** The eight panel guards, console first. */
  function PanelBase(infra: Infra, i: nat): string {
    var domain := if i < 4 then infra.console else infra.zash;
    DomainGuard(domain, if i % 4 == 0 then "NETWORK,UDP" else if i % 4 == 1 then "DST-PORT,80" else if i % 4 == 2 then "DST-PORT,8080" else "DST-PORT,8443")
  }

  const LocalRanges := ["127.0.0.0/8", "10.0.0.0/8", "172.16.0.0/12", "192.168.0.0/16", "100.64.0.0/10", "169.254.0.0/16"]

  /** The guards behind the module's place: two routes, the denied panel, and the anti-loop ranges. */
  predicate IsClosing(infra: Infra, rule: string, i: nat) {
    if i == 0 then rule == "DOMAIN," + infra.console + ",DIRECT"
    else if i == 1 then rule == "AND,((DOMAIN," + infra.zash + "),(RULE-SET,whitelist,DIRECT,src)),DIRECT"
    else if i == 2 then Denies(rule, "DOMAIN," + infra.zash, false)
    else if i == 3 then Denies(rule, "IP-CIDR," + infra.gatewayIP + "/32", true)
    else i < BEHIND && Denies(rule, "IP-CIDR," + LocalRanges[i - 4], true)
  }

  function Classify(infra: Infra, text: string): Rule {
    var compact := Compact(text);
    Rule(text, compact,
         (set i: nat | i < PANEL && Denies(compact, PanelBase(infra, i), false)),
         (set i: nat | i < BEHIND && IsClosing(infra, compact, i)),
         Contains(compact, PortText), HasPrefix(compact, "MATCH,"))
  }

  function Lines(infra: Infra, texts: seq<string>): (r: seq<Rule>)
    ensures |r| == |texts| && forall i :: 0 <= i < |r| ==> r[i] == Classify(infra, texts[i])
  {
    seq(|texts|, i requires 0 <= i < |texts| => Classify(infra, texts[i]))
  }

  /** The rules of the module, and what they deny. */
  function ModuleRule(domain: string): string {
    "AND,((DOMAIN," + domain + "),(" + PortText + ")),REJECT"
  }

  function Want(infra: Infra): seq<string> {
    [ModuleRule(infra.console), ModuleRule(infra.zash)]
  }

  /** What holds of every classified rule text. */
  predicate Sane(r: Rule, want: seq<string>) {
    r.compact in want ==> r.touches
  }

  predicate AllSane(rules: seq<Rule>, want: seq<string>) {
    |want| == 2 && forall i :: 0 <= i < |rules| ==> Sane(rules[i], want)
  }

  /** Every list of rule texts is sane: the module's own rules mention the port. */
  lemma {:induction false} LinesAreSane(infra: Infra, texts: seq<string>)
    ensures AllSane(Lines(infra, texts), Want(infra))
  {
    ModuleRuleTouches(infra.console);
    ModuleRuleTouches(infra.zash);
    forall i | 0 <= i < |texts|
      ensures Sane(Lines(infra, texts)[i], Want(infra))
    {
      assert Lines(infra, texts)[i] == Classify(infra, texts[i]);
    }
  }

  lemma {:induction false} ModuleRuleTouches(domain: string)
    ensures Contains(ModuleRule(domain), PortText)
  {
    var head, tail := "AND,((DOMAIN," + domain + "),(", ")),REJECT";
    assert ModuleRule(domain) == head + PortText + tail;
    Cut(head, PortText, tail);
    assert At(ModuleRule(domain), PortText, |head|);
  }

  /** Behind the panel guards, past at most two rules about the port. */
  function Cursor(rules: seq<Rule>): nat {
    if |rules| > PANEL && rules[PANEL].touches then
      if |rules| > PANEL + 1 && rules[PANEL + 1].touches then PANEL + 2 else PANEL + 1
    else PANEL
  }

  predicate ClosesAt(rules: seq<Rule>, at: nat, i: nat) {
    at + i < |rules| && i in rules[at + i].closings
  }

  /** The guards that must close behind `at`, and a MATCH rule somewhere after them. */
  predicate ClosedBehind(rules: seq<Rule>, at: nat) {
    && at + BEHIND <= |rules|
    && (forall i :: 0 <= i < BEHIND ==> ClosesAt(rules, at, i))
    && exists k :: at + BEHIND <= k < |rules| && rules[k].final
  }

  predicate Guarded(rules: seq<Rule>) {
    && |rules| >= PANEL
    && (forall i :: 0 <= i < PANEL ==> i in rules[i].panels)
    && ClosedBehind(rules, Cursor(rules))
  }

  /** `failClosedGuardBoundary` refuses blank names before it looks at any rule. */
  predicate Named(infra: Infra) {
    TrimSpace(infra.gatewayIP) != [] && TrimSpace(infra.console) != [] && TrimSpace(infra.zash) != []
  }

  predicate RulesOff(rules: seq<Rule>) {
    forall i :: 0 <= i < |rules| ==> !rules[i].touches
  }

  predicate RulesOn(rules: seq<Rule>, want: seq<string>) {
    && |want| == 2 && |rules| >= PANEL + 2
    && rules[PANEL].compact == want[0] && rules[PANEL + 1].compact == want[1]
    && forall i :: 0 <= i < |rules| ==> (rules[i].touches <==> i == PANEL || i == PANEL + 1)
  }

  function Inserted<T>(rules: seq<T>, more: seq<T>): seq<T>
    requires |rules| >= PANEL
  {
    rules[..PANEL] + more + rules[PANEL..]
  }

  function Removed(rules: seq<Rule>, want: seq<string>): seq<Rule> {
    if rules == [] then [] else
      var n := |rules| - 1;
      if rules[n].compact in want then Removed(rules[..n], want) else Removed(rules[..n], want) + [rules[n]]
  }

  /** The same filter on the texts themselves. */
  function RemovedTexts(texts: seq<string>, want: seq<string>): seq<string> {
    if texts == [] then [] else
      var n := |texts| - 1;
      if Compact(texts[n]) in want then RemovedTexts(texts[..n], want) else RemovedTexts(texts[..n], want) + [texts[n]]
  }

  lemma {:induction false} LinesAppend(infra: Infra, a: seq<string>, b: seq<string>)
    ensures Lines(infra, a + b) == Lines(infra, a) + Lines(infra, b)
  {
  }

  lemma {:induction false} LinesRemoved(infra: Infra, texts: seq<string>, want: seq<string>)
    ensures Lines(infra, RemovedTexts(texts, want)) == Removed(Lines(infra, texts), want)
  {
    if texts != [] {
      var n := |texts| - 1;
      LinesRemoved(infra, texts[..n], want);
      assert Lines(infra, texts)[..n] == Lines(infra, texts[..n]);
      LinesAppend(infra, RemovedTexts(texts[..n], want), [texts[n]]);
    }
  }

  lemma {:induction false} LinesInserted(infra: Infra, texts: seq<string>, more: seq<string>)
    requires |texts| >= PANEL
    ensures Lines(infra, Inserted(texts, more)) == Inserted(Lines(infra, texts), Lines(infra, more))
  {
  }

  lemma {:induction false} LinesInjective(infra: Infra, a: seq<string>, b: seq<string>)
    ensures Lines(infra, a) == Lines(infra, b) <==> a == b
  {
    if Lines(infra, a) == Lines(infra, b) {
      forall i | 0 <= i < |a|
        ensures a[i] == b[i]
      {
        assert Lines(infra, a)[i].text == Lines(infra, b)[i].text;
      }
    }
  }

  // ---------- The written rules are recognised ----------

  lemma {:induction false} CompactHasNoBlank(s: string)
    ensures NoBlank(Compact(s))
  {
    if s != [] {
      CompactHasNoBlank(s[..|s| - 1]);
    }
  }

  lemma {:induction false} PartHasNoBlank(a: string, b: string, c: string)
    requires NoBlank(a + b + c)
    ensures NoBlank(b)
  {
    var s := a + b + c;
    forall i | 0 <= i < |b|
      ensures !IsSpace(b[i])
    {
      assert s[|a| + i] == b[i];
    }
  }

  lemma {:induction false} GuardedDomain(text: string, domain: string, condition: string)
    requires Denies(Compact(text), DomainGuard(domain, condition), false)
    ensures NoBlank(domain)
  {
    CompactHasNoBlank(text);
    var head, tail := "AND,((DOMAIN,", "),(" + condition + "))";
    assert DomainGuard(domain, condition) == head + domain + tail;
    if Compact(text) == DomainGuard(domain, condition) + ",REJECT" {
      assert Compact(text) == head + domain + (tail + ",REJECT");
      PartHasNoBlank(head, domain, tail + ",REJECT");
    } else {
      assert Compact(text) == head + domain + (tail + ",REJECT-DROP");
      PartHasNoBlank(head, domain, tail + ",REJECT-DROP");
    }
  }

  /** Where the panel guards stand, the panel names contain no blanks. */
  lemma {:induction false} GuardsMeanPlainNames(infra: Infra, texts: seq<string>)
    requires Guarded(Lines(infra, texts))
    ensures NoBlank(infra.console) && NoBlank(infra.zash)
  {
    assert 0 in Lines(infra, texts)[0].panels && 4 in Lines(infra, texts)[4].panels;
    GuardedDomain(texts[0], infra.console, "NETWORK,UDP");
    GuardedDomain(texts[4], infra.zash, "NETWORK,UDP");
  }

  lemma {:induction false} ModuleRuleCompact(domain: string)
    requires NoBlank(domain)
    ensures Compact(ModuleRule(domain)) == ModuleRule(domain)
  {
    var head, tail := "AND,((DOMAIN,", "),(" + PortText + ")),REJECT";
    assert NoBlank(head) && NoBlank("),(") && NoBlank(PortText) && NoBlank(")),REJECT");
    NoBlankConcat("),(", PortText);
    NoBlankConcat("),(" + PortText, ")),REJECT");
    NoBlankConcat(head, domain);
    NoBlankConcat(head + domain, tail);
    assert ModuleRule(domain) == head + domain + tail;
    CompactSame(ModuleRule(domain));
  }

  /** The two rows the switch inserts. */
  predicate WrittenRows(rows: seq<Rule>, want: seq<string>) {
    |want| == 2 && |rows| == 2 && forall k :: 0 <= k < 2 ==> rows[k].compact == want[k] && rows[k].touches
  }

  lemma {:induction false} WantIsWritten(infra: Infra)
    requires NoBlank(infra.console) && NoBlank(infra.zash)
    ensures WrittenRows(Lines(infra, Want(infra)), Want(infra))
  {
    ModuleRuleCompact(infra.console);
    ModuleRuleCompact(infra.zash);
    ModuleRuleTouches(infra.console);
    ModuleRuleTouches(infra.zash);
  }

  // ---------- Switching the rules ----------

  lemma {:induction false} RemovedAppend(a: seq<Rule>, b: seq<Rule>, want: seq<string>)
    ensures Removed(a + b, want) == Removed(a, want) + Removed(b, want)
  {
    if b == [] {
      assert a + b == a;
    } else {
      var n := |b| - 1;
      RemovedAppend(a, b[..n], want);
      assert (a + b)[..|a + b| - 1] == a + b[..n];
    }
  }

  lemma {:induction false} RemovedNone(rules: seq<Rule>, want: seq<string>)
    requires forall i :: 0 <= i < |rules| ==> rules[i].compact !in want
    ensures Removed(rules, want) == rules
  {
    if rules != [] {
      RemovedNone(rules[..|rules| - 1], want);
    }
  }

  lemma {:induction false} RemovedAll(rules: seq<Rule>, want: seq<string>)
    requires forall i :: 0 <= i < |rules| ==> rules[i].compact in want
    ensures Removed(rules, want) == []
  {
    if rules != [] {
      RemovedAll(rules[..|rules| - 1], want);
    }
  }

  lemma {:induction false} ShiftedGuards(rules: seq<Rule>, out: seq<Rule>, at: nat)
    requires ClosedBehind(rules, at) && |out| == |rules| + 2 && forall i :: at <= i < |rules| ==> out[i + 2] == rules[i]
    ensures ClosedBehind(out, at + 2)
  {
    var k :| at + BEHIND <= k < |rules| && rules[k].final;
    assert out[k + 2].final;
    var to := at + 2;
    forall i | 0 <= i < BEHIND
      ensures ClosesAt(out, to, i)
    {
      assert ClosesAt(rules, at, i);
    }
  }

  lemma {:induction false} InsertedRow(rules: seq<Rule>, rows: seq<Rule>, i: nat)
    requires |rules| >= PANEL && |rows| == 2 && i < |rules| + 2
    ensures |Inserted(rules, rows)| == |rules| + 2
    ensures Inserted(rules, rows)[i] == if i < PANEL then rules[i] else if i < PANEL + 2 then rows[i - PANEL] else rules[i - 2]
  {
  }

  lemma {:induction false} InsertedIsOn(rules: seq<Rule>, rows: seq<Rule>, want: seq<string>)
    requires Guarded(rules) && RulesOff(rules) && WrittenRows(rows, want)
    ensures RulesOn(Inserted(rules, rows), want) && Guarded(Inserted(rules, rows))
  {
    var out := Inserted(rules, rows);
    forall i | 0 <= i < |out|
      ensures out[i] == if i < PANEL then rules[i] else if i < PANEL + 2 then rows[i - PANEL] else rules[i - 2]
    {
      InsertedRow(rules, rows, i);
    }
    ShiftedGuards(rules, out, PANEL);
  }

  lemma {:induction false} InsertedRemoved(rules: seq<Rule>, rows: seq<Rule>, want: seq<string>)
    requires |rules| >= PANEL && AllSane(rules, want) && RulesOff(rules) && WrittenRows(rows, want)
    ensures Removed(Inserted(rules, rows), want) == rules
  {
    var a, b := rules[..PANEL], rules[PANEL..];
    RemovedAppend(a + rows, b, want);
    RemovedAppend(a, rows, want);
    RemovedAll(rows, want);
    RemovedNone(a, want);
    RemovedNone(b, want);
    assert a + b == rules;
  }

  lemma {:induction false} OnRulesSplit(rules: seq<Rule>, want: seq<string>)
    requires AllSane(rules, want) && RulesOn(rules, want)
    ensures Removed(rules, want) == rules[..PANEL] + rules[PANEL + 2..]
  {
    var a, m, b := rules[..PANEL], rules[PANEL..PANEL + 2], rules[PANEL + 2..];
    assert rules == a + m + b;
    RemovedAppend(a + m, b, want);
    RemovedAppend(a, m, want);
    RemovedAll(m, want);
    RemovedNone(a, want);
    RemovedNone(b, want);
  }

  lemma {:induction false} UnshiftedGuards(rules: seq<Rule>, out: seq<Rule>, at: nat)
    requires ClosedBehind(rules, at + 2) && |rules| == |out| + 2 && forall i :: at <= i < |out| ==> out[i] == rules[i + 2]
    ensures ClosedBehind(out, at)
  {
    var k :| at + 2 + BEHIND <= k < |rules| && rules[k].final;
    assert out[k - 2].final;
    forall i | 0 <= i < BEHIND
      ensures ClosesAt(out, at, i)
    {
      assert ClosesAt(rules, at + 2, i);
    }
  }

  lemma {:induction false} CutIsOff(rules: seq<Rule>, want: seq<string>)
    requires Guarded(rules) && RulesOn(rules, want)
    ensures var out := rules[..PANEL] + rules[PANEL + 2..]; RulesOff(out) && Guarded(out)
  {
    var out := rules[..PANEL] + rules[PANEL + 2..];
    assert forall i :: 0 <= i < |out| ==> out[i] == if i < PANEL then rules[i] else rules[i + 2];
    UnshiftedGuards(rules, out, PANEL);
  }

  lemma {:induction false} CutBackIff<T>(rules: seq<T>, rows: seq<T>)
    requires |rows| == 2 && |rules| >= PANEL + 2
    ensures Inserted(rules[..PANEL] + rules[PANEL + 2..], rows) == rules <==> rules[PANEL..PANEL + 2] == rows
  {
    var out := rules[..PANEL] + rules[PANEL + 2..];
    assert out[..PANEL] == rules[..PANEL] && out[PANEL..] == rules[PANEL + 2..];
    assert rules == rules[..PANEL] + rules[PANEL..PANEL + 2] + rules[PANEL + 2..];
    assert Inserted(out, rows)[PANEL..PANEL + 2] == rows;
  }

  // ---------- The whole switch ----------

  predicate Usable(infra: Infra, c: Config) {
    Named(infra) && Gateways(c.listeners) != [] && Distinct(Gateways(c.listeners)) && Guarded(Lines(infra, c.rules))
  }

  predicate IsOff(infra: Infra, c: Config) {
    && Usable(infra, c) && NoTouch(c.listeners)
    && PortCount(c.http) == PortCount(c.tls) == PortCount(c.quic) == 0 && RulesOff(Lines(infra, c.rules))
  }

  predicate IsOn(infra: Infra, c: Config) {
    && Usable(infra, c) && ListenersOn(c.listeners)
    && PortCount(c.http) == PortCount(c.tls) == PortCount(c.quic) == 1 && RulesOn(Lines(infra, c.rules), Want(infra))
  }

  function Enabled(infra: Infra, c: Config): Config
    requires |c.rules| >= PANEL
  {
    Config(c.listeners + Added(Gateways(c.listeners)), c.http + [PORT], c.tls + [PORT], c.quic + [PORT], Inserted(c.rules, Want(infra)))
  }

  function Disabled(infra: Infra, c: Config): Config {
    Config(Kept(c.listeners, Gateways(c.listeners)), WithoutPort(c.http), WithoutPort(c.tls), WithoutPort(c.quic), RemovedTexts(c.rules, Want(infra)))
  }

  lemma {:induction false} TextsOn(infra: Infra, texts: seq<string>)
    requires Guarded(Lines(infra, texts)) && RulesOff(Lines(infra, texts))
    ensures var out := Inserted(texts, Want(infra));
            && RulesOn(Lines(infra, out), Want(infra)) && Guarded(Lines(infra, out))
            && RemovedTexts(out, Want(infra)) == texts
  {
    var rules, rows, want := Lines(infra, texts), Lines(infra, Want(infra)), Want(infra);
    var out := Inserted(texts, want);
    GuardsMeanPlainNames(infra, texts);
    WantIsWritten(infra);
    LinesInserted(infra, texts, want);
    InsertedIsOn(rules, rows, want);
    LinesAreSane(infra, texts);
    InsertedRemoved(rules, rows, want);
    LinesRemoved(infra, out, want);
    LinesInjective(infra, RemovedTexts(out, want), texts);
  }

  lemma {:induction false} TextsOff(infra: Infra, texts: seq<string>)
    requires Guarded(Lines(infra, texts)) && RulesOn(Lines(infra, texts), Want(infra))
    ensures var out := RemovedTexts(texts, Want(infra));
            && out == texts[..PANEL] + texts[PANEL + 2..]
            && RulesOff(Lines(infra, out)) && Guarded(Lines(infra, out))
            && (Inserted(out, Want(infra)) == texts <==> texts[PANEL..PANEL + 2] == Want(infra))
  {
    var rules, want := Lines(infra, texts), Want(infra);
    var cut := texts[..PANEL] + texts[PANEL + 2..];
    LinesAreSane(infra, texts);
    OnRulesSplit(rules, want);
    LinesRemoved(infra, texts, want);
    assert Lines(infra, cut) == rules[..PANEL] + rules[PANEL + 2..];
    LinesInjective(infra, RemovedTexts(texts, want), cut);
    CutIsOff(rules, want);
    CutBackIff(texts, want);
  }

  lemma {:induction false} PortOn(ports: seq<int>)
    requires PortCount(ports) == 0
    ensures PortCount(ports + [PORT]) == 1
  {
    PortFacts(ports);
  }

  lemma {:induction false} EnabledIsOn(infra: Infra, c: Config)
    requires IsOff(infra, c)
    ensures IsOn(infra, Enabled(infra, c))
  {
    SwitchListenersOn(c.listeners);
    TextsOn(infra, c.rules);
    PortOn(c.http);
    PortOn(c.tls);
    PortOn(c.quic);
  }

  lemma {:induction false} EnabledParts(infra: Infra, c: Config)
    requires IsOff(infra, c)
    ensures var e := Enabled(infra, c);
            && Kept(e.listeners, Gateways(e.listeners)) == c.listeners
            && WithoutPort(e.http) == c.http && WithoutPort(e.tls) == c.tls && WithoutPort(e.quic) == c.quic
            && RemovedTexts(e.rules, Want(infra)) == c.rules
  {
    SwitchListenersOn(c.listeners);
    TextsOn(infra, c.rules);
    PortFacts(c.http);
    PortFacts(c.tls);
    PortFacts(c.quic);
  }

  /** Switching on is recognised as on, and switching off again gives the very same configuration. */
  lemma {:induction false} OnThenOff(infra: Infra, c: Config)
    requires IsOff(infra, c)
    ensures IsOn(infra, Enabled(infra, c))
    ensures Disabled(infra, Enabled(infra, c)) == c
  {
    EnabledIsOn(infra, c);
    EnabledParts(infra, c);
  }

  /** What the operator may have rearranged: the written parts must be where the switch puts them. */
  predicate InPlace(infra: Infra, c: Config)
    requires |c.rules| >= PANEL + 2
  {
    && ListenersLast(c.listeners)
    && LastIsPort(c.http) && LastIsPort(c.tls) && LastIsPort(c.quic)
    && c.rules[PANEL..PANEL + 2] == Want(infra)
  }

  predicate LastIsPort(ports: seq<int>) {
    ports != [] && ports[|ports| - 1] == PORT
  }

  lemma {:induction false} OffIsOff(infra: Infra, c: Config)
    requires IsOn(infra, c)
    ensures IsOff(infra, Disabled(infra, c))
  {
    OnListeners(c.listeners);
    TextsOff(infra, c.rules);
    PortFacts(c.http);
    PortFacts(c.tls);
    PortFacts(c.quic);
  }

  /**
   Switching off is recognised as off. Switching on again restores the
   configuration if and only if the written listeners and ports stood last and
   the two rules were the written texts.
   */
  lemma {:induction false} OffThenOnIff(infra: Infra, c: Config)
    requires IsOn(infra, c)
    ensures IsOff(infra, Disabled(infra, c))
    ensures Enabled(infra, Disabled(infra, c)) == c <==> InPlace(infra, c)
  {
    OffIsOff(infra, c);
    BackAndForth(infra, c);
    PartsBackIff(infra, c);
  }

  /** Each part comes back exactly if it stood where the switch puts it. */
  lemma {:induction false} PartsBackIff(infra: Infra, c: Config)
    requires IsOn(infra, c) && |RemovedTexts(c.rules, Want(infra))| >= PANEL
    ensures Kept(c.listeners, Gateways(c.listeners)) + Added(Gateways(c.listeners)) == c.listeners <==> ListenersLast(c.listeners)
    ensures WithoutPort(c.http) + [PORT] == c.http <==> LastIsPort(c.http)
    ensures WithoutPort(c.tls) + [PORT] == c.tls <==> LastIsPort(c.tls)
    ensures WithoutPort(c.quic) + [PORT] == c.quic <==> LastIsPort(c.quic)
    ensures Inserted(RemovedTexts(c.rules, Want(infra)), Want(infra)) == c.rules <==> c.rules[PANEL..PANEL + 2] == Want(infra)
  {
    SwitchListenersBackIff(c.listeners);
    TextsOff(infra, c.rules);
    PortBackIff(c.http);
    PortBackIff(c.tls);
    PortBackIff(c.quic);
  }

  lemma {:induction false} BackAndForth(infra: Infra, c: Config)
    requires IsOn(infra, c) && |RemovedTexts(c.rules, Want(infra))| >= PANEL
    ensures Enabled(infra, Disabled(infra, c)) ==
            Config(Kept(c.listeners, Gateways(c.listeners)) + Added(Gateways(c.listeners)),
                   WithoutPort(c.http) + [PORT], WithoutPort(c.tls) + [PORT], WithoutPort(c.quic) + [PORT],
                   Inserted(RemovedTexts(c.rules, Want(infra)), Want(infra)))
  {
    OnListeners(c.listeners);
  }

  // ---------- A configuration that does not come back ----------

  /** A comma here cannot be the one in "DST-PORT,5060", whatever stands around this piece. */
  predicate TameAt(s: string, p: nat) {
    p < |s| && s[p] == ',' ==> (p > 0 && s[p - 1] != 'T') || (p + 1 < |s| && s[p + 1] != '5')
  }

  predicate Tame(s: string) {
    forall p :: 0 <= p < |s| ==> TameAt(s, p)
  }

  predicate Clean(s: string) {
    NoBlank(s) && Tame(s)
  }

  lemma {:induction false} CleanConcat(a: string, b: string)
    requires Clean(a) && Clean(b)
    ensures Clean(a + b)
  {
    var s := a + b;
    NoBlankConcat(a, b);
    forall p | 0 <= p < |s|
      ensures TameAt(s, p)
    {
      if p < |a| {
        assert TameAt(a, p);
      } else {
        assert TameAt(b, p - |a|);
      }
    }
  }

  lemma {:induction false} CleanRule(infra: Infra, text: string)
    requires Clean(text)
    ensures Compact(text) == text && !Classify(infra, text).touches
  {
    CompactSame(text);
    forall j | 0 <= j <= |text|
      ensures !At(text, PortText, j)
    {
      if j + |PortText| <= |text| {
        var w := text[j..j + |PortText|];
        assert w[7] == text[j + 7] && w[8] == text[j + 8] && w[9] == text[j + 9];
        assert PortText[7] == 'T' && PortText[8] == ',' && PortText[9] == '5';
        assert TameAt(text, j + 8);
      }
    }
  }

  predicate PlainName(s: string) {
    s != [] && NoBlank(s) && ',' !in s
  }

  predicate PlainNames(infra: Infra) {
    PlainName(infra.gatewayIP) && PlainName(infra.console) && PlainName(infra.zash)
  }

  function ClosingText(infra: Infra, i: nat): string
    requires i < BEHIND
  {
    if i == 0 then "DOMAIN," + infra.console + ",DIRECT"
    else if i == 1 then "AND,((DOMAIN," + infra.zash + "),(RULE-SET,whitelist,DIRECT,src)),DIRECT"
    else if i == 2 then "DOMAIN," + infra.zash + ",REJECT"
    else if i == 3 then "IP-CIDR," + infra.gatewayIP + "/32" + ",REJECT"
    else "IP-CIDR," + LocalRanges[i - 4] + ",REJECT"
  }

  /** The guards alone, closed by a final rule. */
  function GuardTexts(infra: Infra): (r: seq<string>)
    ensures |r| == PANEL + BEHIND + 1
    ensures forall i :: 0 <= i < PANEL ==> r[i] == PanelBase(infra, i) + ",REJECT"
    ensures forall i :: PANEL <= i < PANEL + BEHIND ==> r[i] == ClosingText(infra, i - PANEL)
    ensures r[PANEL + BEHIND] == "MATCH,DIRECT"
  {
    seq(PANEL, i requires 0 <= i < PANEL => PanelBase(infra, i) + ",REJECT")
    + seq(BEHIND, i requires 0 <= i < BEHIND => ClosingText(infra, i)) + ["MATCH,DIRECT"]
  }

  lemma {:induction false} CleanParts(a: string, name: string, b: string)
    requires Clean(a) && Clean(name) && Clean(b)
    ensures Clean(a + name + b)
  {
    CleanConcat(a, name);
    CleanConcat(a + name, b);
  }

  lemma {:induction false} CleanActions()
    ensures Clean(",DIRECT") && Clean(",REJECT") && Clean("DOMAIN,") && Clean("IP-CIDR,") && Clean("/32")
  {
  }

  lemma {:induction false} CleanGuardPieces()
    ensures Clean("AND,((DOMAIN,") && Clean("),(") && Clean("))")
  {
  }

  lemma {:induction false} CleanConditions()
    ensures Clean("NETWORK,UDP") && Clean("DST-PORT,80") && Clean("DST-PORT,8080") && Clean("DST-PORT,8443")
  {
  }

  lemma {:induction false} CleanRoute()
    ensures Clean("),(RULE-SET,whitelist,DIRECT,src)),DIRECT")
  {
  }

  lemma {:induction false} CleanGuard(domain: string, condition: string)
    requires Clean(domain) && Clean(condition)
    ensures Clean(DomainGuard(domain, condition) + ",REJECT")
  {
    CleanGuardPieces();
    CleanActions();
    CleanParts("AND,((DOMAIN,", domain, "),(");
    CleanParts("AND,((DOMAIN," + domain + "),(", condition, "))");
    CleanConcat(DomainGuard(domain, condition), ",REJECT");
  }

  lemma {:induction false} CleanPanel(infra: Infra, i: nat)
    requires PlainNames(infra) && i < PANEL
    ensures Clean(PanelBase(infra, i) + ",REJECT")
  {
    CleanConditions();
    var domain := if i < 4 then infra.console else infra.zash;
    CleanGuard(domain, "NETWORK,UDP");
    CleanGuard(domain, "DST-PORT,80");
    CleanGuard(domain, "DST-PORT,8080");
    CleanGuard(domain, "DST-PORT,8443");
  }

  lemma {:induction false} CleanClosing(infra: Infra, i: nat)
    requires PlainNames(infra) && i < BEHIND
    ensures Clean(ClosingText(infra, i))
  {
    CleanActions();
    if i == 0 {
      CleanParts("DOMAIN,", infra.console, ",DIRECT");
    } else if i == 1 {
      CleanGuardPieces();
      CleanRoute();
      CleanParts("AND,((DOMAIN,", infra.zash, "),(RULE-SET,whitelist,DIRECT,src)),DIRECT");
    } else if i == 2 {
      CleanParts("DOMAIN,", infra.zash, ",REJECT");
    } else if i == 3 {
      CleanParts("IP-CIDR,", infra.gatewayIP, "/32");
      CleanConcat("IP-CIDR," + infra.gatewayIP + "/32", ",REJECT");
    } else {
      CleanRange(i - 4);
      CleanParts("IP-CIDR,", LocalRanges[i - 4], ",REJECT");
    }
  }

  lemma {:induction false} CleanRange(i: nat)
    requires i < 6
    ensures Clean(LocalRanges[i])
  {
    var s := LocalRanges[i];
    if i == 0 { assert s == "127.0.0.0/8"; }
    else if i == 1 { assert s == "10.0.0.0/8"; }
    else if i == 2 { assert s == "172.16.0.0/12"; }
    else if i == 3 { assert s == "192.168.0.0/16"; }
    else if i == 4 { assert s == "100.64.0.0/10"; }
    else { assert s == "169.254.0.0/16"; }
  }

  lemma {:induction false} GuardTextsClean(infra: Infra, i: nat)
    requires PlainNames(infra) && i < |GuardTexts(infra)|
    ensures Clean(GuardTexts(infra)[i])
  {
    if i < PANEL {
      CleanPanel(infra, i);
    } else if i < PANEL + BEHIND {
      CleanClosing(infra, i - PANEL);
    } else {
      assert Clean("MATCH,DIRECT");
    }
  }

  lemma {:induction false} GuardTextClassified(infra: Infra, i: nat)
    requires PlainNames(infra) && i < |GuardTexts(infra)|
    ensures var r := Classify(infra, GuardTexts(infra)[i]);
            && !r.touches
            && (i < PANEL ==> i in r.panels)
            && (PANEL <= i < PANEL + BEHIND ==> i - PANEL in r.closings)
            && (i == PANEL + BEHIND ==> r.final)
  {
    var text := GuardTexts(infra)[i];
    GuardTextsClean(infra, i);
    CleanRule(infra, text);
    if i == PANEL + BEHIND {
      RuleText.Ends("MATCH,", "DIRECT");
      assert text == "MATCH," + "DIRECT";
    }
  }

  /** The guards alone form a usable list with the module switched off. */
  lemma {:induction false} GuardTextsAreOff(infra: Infra)
    requires PlainNames(infra)
    ensures Guarded(Lines(infra, GuardTexts(infra))) && RulesOff(Lines(infra, GuardTexts(infra)))
  {
    var rules := Lines(infra, GuardTexts(infra));
    forall i | 0 <= i < |rules|
      ensures !rules[i].touches && (i < PANEL ==> i in rules[i].panels) && (PANEL <= i < PANEL + BEHIND ==> i - PANEL in rules[i].closings)
              && (i == PANEL + BEHIND ==> rules[i].final)
    {
      GuardTextClassified(infra, i);
    }
    forall i | 0 <= i < BEHIND
      ensures ClosesAt(rules, PANEL, i)
    {
      assert i == PANEL + i - PANEL;
    }
    assert rules[PANEL + BEHIND].final;
  }

  lemma {:induction false} PlainIsNamed(s: string)
    requires PlainName(s)
    ensures TrimSpace(s) != []
  {
    assert TrimLeft(s) == s;
  }

  /** One gateway, one sniffed port, and the guards. */
  function Plain(infra: Infra): Config {
    Config([Gateway("gateway")], [443], [443], [443], GuardTexts(infra))
  }

  lemma {:induction false} PlainIsOff(infra: Infra)
    requires PlainNames(infra)
    ensures IsOff(infra, Plain(infra))
  {
    OneGateway();
    GuardTextsAreOff(infra);
    PlainIsNamed(infra.gatewayIP);
    PlainIsNamed(infra.console);
    PlainIsNamed(infra.zash);
    OnePort();
  }

  lemma {:induction false} PortFirst(infra: Infra, c: Config, on: Config)
    requires IsOff(infra, c) && c.http == [443] && on == Enabled(infra, c).(http := [PORT, 443])
    ensures IsOn(infra, on) && Disabled(infra, on) == c && Enabled(infra, c) == on.(http := [443, PORT])
  {
    EnabledIsOn(infra, c);
    EnabledParts(infra, c);
    OnePort();
    assert [443] + [PORT] == [443, PORT];
  }

  lemma {:induction false} SomethingIsOff(infra: Infra) returns (c: Config)
    requires PlainNames(infra)
    ensures IsOff(infra, c) && c.http == [443]
  {
    c := Plain(infra);
    PlainIsOff(infra);
  }

  /**
   For every choice of names there is a configuration that is on, with the
   operator's sniffed port put first, which comes back from off and on again
   with that port last.
   */
  lemma {:induction false} RearrangedPortMoves(infra: Infra) returns (off: Config, on: Config)
    requires PlainNames(infra)
    ensures IsOff(infra, off) && IsOn(infra, on) && on.http == [PORT, 443]
    ensures Disabled(infra, on) == off && Enabled(infra, off) == on.(http := [443, PORT])
  {
    off := SomethingIsOff(infra);
    on := Enabled(infra, off).(http := [PORT, 443]);
    PortFirst(infra, off, on);
  }

  lemma {:induction false} OneGateway()
    ensures Gateways([Gateway("gateway")]) == ["gateway"] && NoTouch([Gateway("gateway")])
  {
    assert [Gateway("gateway")][..0] == [];
    assert Gateways([]) == [];
  }

  lemma {:induction false} OnePort()
    ensures PortCount([443]) == 0 && PortCount([PORT, 443]) == 1 && WithoutPort([PORT, 443]) == [443]
  {
    assert [443][..0] == [] && [PORT, 443][..1] == [PORT] && [PORT][..0] == [];
    assert PortCount([PORT]) == 1 && WithoutPort([PORT]) == [];
  }

  // ---------- The loops of the source ----------

  method CollectGateways(ls: seq<Listener>) returns (ok: bool, gateways: seq<string>)
    ensures ok <==> Distinct(Gateways(ls))
    ensures ok ==> gateways == Gateways(ls)
  {
    gateways := [];
    var seen: set<string> := {};
    for i := 0 to |ls|
      invariant gateways == Gateways(ls[..i]) && Distinct(gateways)
      invariant forall g :: g in seen <==> g in gateways
    {
      assert ls[..i + 1] == ls[..i] + [ls[i]];
      GatewaysSnoc(ls[..i], ls[i]);
      if ls[i].Gateway? {
        if ls[i].name in seen {
          RepeatedGateway(ls, i);
          return false, [];
        }
        seen := seen + {ls[i].name};
        gateways := gateways + [ls[i].name];
      }
    }
    assert ls[..|ls|] == ls;
    ok := true;
  }

  lemma {:induction false} RepeatedGateway(ls: seq<Listener>, i: nat)
    requires i < |ls| && ls[i].Gateway? && ls[i].name in Gateways(ls[..i])
    ensures !Distinct(Gateways(ls))
  {
    var a, b := ls[..i], ls[i..];
    assert ls == a + b;
    TouchAppend(a, b);
    var k :| 0 <= k < |Gateways(a)| && Gateways(a)[k] == ls[i].name;
    assert b == [b[0]] + b[1..];
    TouchAppend([b[0]], b[1..]);
    assert [b[0]][..0] == [];
    assert Gateways([b[0]]) == [ls[i].name];
    assert Gateways(ls)[|Gateways(a)|] == ls[i].name == Gateways(ls)[k];
  }

  method CountListeners(ls: seq<Listener>, gateways: seq<string>) returns (occurrences: nat, exact: set<string>)
    ensures occurrences == TouchCount(ls)
    ensures forall g :: g in exact <==> g in gateways && ForGateway(g) in ls
  {
    occurrences, exact := 0, {};
    for i := 0 to |ls|
      invariant occurrences == TouchCount(ls[..i])
      invariant forall g :: g in exact <==> g in gateways && ForGateway(g) in ls[..i]
    {
      assert ls[..i + 1][..i] == ls[..i];
      if ls[i].Touches() {
        occurrences := occurrences + 1;
        if ls[i].ForGateway? && ls[i].gateway in gateways {
          exact := exact + {ls[i].gateway};
        }
      }
    }
    assert ls[..|ls|] == ls;
  }

  method CountPort(ports: seq<int>) returns (n: nat)
    ensures n == PortCount(ports)
  {
    n := 0;
    for i := 0 to |ports|
      invariant n == PortCount(ports[..i])
    {
      assert ports[..i + 1][..i] == ports[..i];
      if ports[i] == PORT {
        n := n + 1;
      }
    }
    assert ports[..|ports|] == ports;
  }

  function RuleCount(rules: seq<Rule>): nat {
    if rules == [] then 0 else RuleCount(rules[..|rules| - 1]) + (if rules[|rules| - 1].touches then 1 else 0)
  }

  lemma {:induction false} RuleCountAppend(a: seq<Rule>, b: seq<Rule>)
    ensures RuleCount(a + b) == RuleCount(a) + RuleCount(b)
  {
    if b == [] {
      assert a + b == a;
    } else {
      RuleCountAppend(a, b[..|b| - 1]);
      assert (a + b)[..|a + b| - 1] == a + b[..|b| - 1];
    }
  }

  lemma {:induction false} RuleCountZero(rules: seq<Rule>)
    ensures RuleCount(rules) == 0 <==> RulesOff(rules)
  {
    if rules != [] {
      RuleCountZero(rules[..|rules| - 1]);
    }
  }

  /** Two rules about the port in all, and both of them at the boundary. */
  lemma {:induction false} TwoAtBoundary(rules: seq<Rule>)
    requires |rules| >= PANEL + 2 && rules[PANEL].touches && rules[PANEL + 1].touches
    ensures RuleCount(rules) == 2 <==> RulesOff(rules[..PANEL]) && RulesOff(rules[PANEL + 2..])
  {
    var a, b := rules[..PANEL], rules[PANEL + 2..];
    var x, y := rules[PANEL], rules[PANEL + 1];
    assert rules == a + ([x] + [y]) + b;
    RuleCountAppend(a + ([x] + [y]), b);
    RuleCountAppend(a, [x] + [y]);
    RuleCountAppend([x], [y]);
    assert [x][..0] == [] && [y][..0] == [];
    RuleCountZero(a);
    RuleCountZero(b);
  }

  lemma {:induction false} BoundaryOnly(rules: seq<Rule>)
    requires |rules| >= PANEL + 2 && rules[PANEL].touches && rules[PANEL + 1].touches
    ensures RulesOff(rules[..PANEL]) && RulesOff(rules[PANEL + 2..]) <==>
            forall i :: 0 <= i < |rules| ==> (rules[i].touches <==> i == PANEL || i == PANEL + 1)
  {
    var a, b := rules[..PANEL], rules[PANEL + 2..];
    assert forall i :: 0 <= i < PANEL ==> a[i] == rules[i];
    assert forall i :: 0 <= i < |b| ==> b[i] == rules[i + PANEL + 2];
    assert forall i :: PANEL + 2 <= i < |rules| ==> rules[i] == b[i - PANEL - 2];
  }

  method ScanRows(rules: seq<Rule>, want: seq<string>) returns (occurrences: nat, complete: bool)
    requires AllSane(rules, want)
    ensures occurrences == 0 <==> RulesOff(rules)
    ensures complete <==> RulesOn(rules, want)
  {
    occurrences := 0;
    complete := PANEL + 2 <= |rules|;
    for i := 0 to |rules|
      invariant occurrences == RuleCount(rules[..i])
      invariant complete <==> PANEL + 2 <= |rules| && (i > PANEL ==> rules[PANEL].compact == want[0]) && (i > PANEL + 1 ==> rules[PANEL + 1].compact == want[1])
    {
      assert rules[..i + 1][..i] == rules[..i];
      if rules[i].touches {
        occurrences := occurrences + 1;
      }
      if PANEL <= i < PANEL + 2 && rules[i].compact != want[i - PANEL] {
        complete := false;
      }
    }
    assert rules[..|rules|] == rules;
    RuleCountZero(rules);
    if complete {
      TwoAtBoundary(rules);
      BoundaryOnly(rules);
    }
    if occurrences != 2 {
      complete := false;
    }
  }

  method ScanRules(infra: Infra, texts: seq<string>) returns (occurrences: nat, complete: bool)
    ensures occurrences == 0 <==> RulesOff(Lines(infra, texts))
    ensures complete <==> RulesOn(Lines(infra, texts), Want(infra))
  {
    LinesAreSane(infra, texts);
    occurrences, complete := ScanRows(Lines(infra, texts), Want(infra));
  }

  method GuardRows(rules: seq<Rule>) returns (ok: bool)
    ensures ok <==> Guarded(rules)
  {
    if |rules| < PANEL {
      return false;
    }
    for i := 0 to PANEL
      invariant forall k :: 0 <= k < i ==> k in rules[k].panels
    {
      if i !in rules[i].panels {
        return false;
      }
    }
    var cursor := PANEL;
    while cursor < |rules| && cursor < PANEL + 2 && rules[cursor].touches
      invariant PANEL <= cursor <= PANEL + 2 && cursor <= |rules|
      invariant forall k :: PANEL <= k < cursor ==> rules[k].touches
    {
      cursor := cursor + 1;
    }
    ok := ClosesBehind(rules, cursor);
  }

  method GuardBoundary(infra: Infra, texts: seq<string>) returns (ok: bool)
    ensures ok <==> Named(infra) && Guarded(Lines(infra, texts))
  {
    if !Named(infra) {
      return false;
    }
    ok := GuardRows(Lines(infra, texts));
  }

  method ClosesBehind(rules: seq<Rule>, at: nat) returns (ok: bool)
    ensures ok <==> ClosedBehind(rules, at)
  {
    for i := 0 to BEHIND
      invariant at + i <= |rules| || i == 0
      invariant forall k :: 0 <= k < i ==> ClosesAt(rules, at, k)
    {
      if !ClosesAt(rules, at, i) {
        return false;
      }
    }
    for k := at + BEHIND to |rules|
      invariant forall j :: at + BEHIND <= j < k ==> !rules[j].final
    {
      if rules[k].final {
        return true;
      }
    }
    return false;
  }

  datatype State = Unmanageable | Off | On

  lemma {:induction false} AllExact(gateways: seq<string>, exact: set<string>)
    requires Distinct(gateways) && forall g :: g in exact ==> g in gateways
    ensures |exact| == |gateways| <==> forall g :: g in gateways ==> g in exact
  {
    var all := set g | g in gateways;
    DistinctWithin(gateways, all);
    IdSetSize(gateways);
    assert |all| == |gateways|;
    if |exact| == |gateways| {
      SubsetFull(exact, all);
    } else {
      assert exact != all;
    }
  }

  lemma {:induction false} SubsetFull(a: set<string>, b: set<string>)
    requires a <= b && |a| == |b|
    ensures a == b
  {
    if a != b {
      var x :| x in b && x !in a;
      assert a <= b - {x};
      SubsetSize(a, b - {x});
    }
  }

  method AnalyzeSpeedtest(infra: Infra, c: Config) returns (s: State)
    ensures s.Off? <==> IsOff(infra, c)
    ensures s.On? <==> IsOn(infra, c)
  {
    var distinct, gateways := CollectGateways(c.listeners);
    if !distinct || gateways == [] {
      return Unmanageable;
    }
    var guarded := GuardBoundary(infra, c.rules);
    if !guarded {
      return Unmanageable;
    }
    var occurrences, exact := CountListeners(c.listeners, gateways);
    var http := CountPort(c.http);
    var tls := CountPort(c.tls);
    var quic := CountPort(c.quic);
    var ruleOccurrences, complete := ScanRules(infra, c.rules);
    NoTouchCounts(c.listeners, gateways);
    AllExact(gateways, exact);
    if occurrences == 0 && http + tls + quic == 0 && ruleOccurrences == 0 {
      return Off;
    }
    if occurrences == |gateways| && |exact| == |gateways| && http == 1 && tls == 1 && quic == 1 && complete {
      return On;
    }
    return Unmanageable;
  }
}
