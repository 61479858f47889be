module CaptureRouting {
  // Capture rules compiled from the document, and how they relate to the DNS
  // overlay compiled from the same document.

  import opened Names
  import opened Documents
  import opened RuleText
  import opened Sorting

  // ---------- Selectors of one module ----------

  function Base(host: string): string {
    if IsWildcard(host) then host[2..] else host
  }

  /** Both the apex and its wildcard are declared by the module. */
  predicate Joined(hosts: seq<string>, host: string) {
    Base(host) in hosts && "*." + Base(host) in hosts
  }

  function KindOf(hosts: seq<string>, host: string): Kind {
    if Joined(hosts, host) then DomainSuffix else if IsWildcard(host) then DomainWildcard else Domain
  }

  function ValueOf(hosts: seq<string>, host: string): string {
    if Joined(hosts, host) then Base(host) else host
  }

  /** The hosts taken care of once `host` has been compiled. */
  function Settles(hosts: seq<string>, host: string): set<string> {
    if Joined(hosts, host) then {Base(host), "*." + Base(host)} else {host}
  }

  function Handled(hosts: seq<string>, n: nat): set<string>
    requires n <= |hosts|
  {
    if n == 0 then {} else
      var before := Handled(hosts, n - 1);
      if hosts[n - 1] in before then before else before + Settles(hosts, hosts[n - 1])
  }

  function PortPair(kind: Kind, value: string): seq<Selector> {
    [Selector(kind, value, 80), Selector(kind, value, 443)]
  }

  function HostSelectors(hosts: seq<string>, n: nat): seq<Selector>
    requires n <= |hosts|
  {
    if n == 0 then [] else
      var before := HostSelectors(hosts, n - 1);
      var host := hosts[n - 1];
      if host in Handled(hosts, n - 1) then before else before + PortPair(KindOf(hosts, host), ValueOf(hosts, host))
  }

  method CaptureSelectors(hosts: seq<string>) returns (selectors: seq<Selector>)
    ensures selectors == HostSelectors(hosts, |hosts|)
  {
    var known: set<string> := {};
    for i := 0 to |hosts|
      invariant forall h :: h in known <==> h in hosts[..i]
    {
      known := known + {hosts[i]};
    }
    assert hosts[..|hosts|] == hosts;
    var handled: set<string> := {};
    selectors := [];
    for i := 0 to |hosts|
      invariant handled == Handled(hosts, i) && selectors == HostSelectors(hosts, i)
    {
      var host := hosts[i];
      if host !in handled {
        var kind, value, base := Domain, host, host;
        if IsWildcard(host) {
          base, kind := host[2..], DomainWildcard;
        }
        var wildcard := "*." + base;
        if base in known && wildcard in known {
          kind, value := DomainSuffix, base;
          handled := handled + {base, wildcard};
        } else {
          handled := handled + {host};
        }
        selectors := selectors + [Selector(kind, value, 80), Selector(kind, value, 443)];
      }
    }
  }

  // ---------- What selectors match ----------

  /** A connection's destination: a sniffed or requested host name, or an address. */
  datatype Destination = Host(name: string) | Address(quad: string)

  predicate ValueMatches(kind: Kind, value: string, dest: Destination) {
    match dest
    case Host(name) =>
      (match kind
       case Domain => name == Lower(value)
       case DomainWildcard => IsWildcard(value) && HasSuffix(name, "." + Lower(value[2..]))
       case DomainSuffix => name == Lower(value) || HasSuffix(name, "." + Lower(value))
       case IpCidr => false)
    case Address(quad) => kind.IpCidr? && value == quad + "/32"
  }

  predicate Selects(s: Selector, dest: Destination, port: nat) {
    s.port == port && ValueMatches(s.kind, s.value, dest)
  }

  predicate AnySelects(selectors: seq<Selector>, dest: Destination, port: nat) {
    exists i :: 0 <= i < |selectors| && Selects(selectors[i], dest, port)
  }

  /** A name as it arrives: lower case, no outer blanks, no empty first or last label. */
  predicate CanonicalName(name: string) {
    && name != [] && Lower(name) == name
    && name[0] != '.' && !IsSpace(name[0])
    && name[|name| - 1] != '.' && !IsSpace(name[|name| - 1])
  }

  predicate WebPort(port: nat) {
    port == 80 || port == 443
  }

  /** Some declared host, read as it is stored, covers the name. */
  predicate HostsMatch(hosts: seq<string>, name: string) {
    exists i :: 0 <= i < |hosts| && PatternMatches(Lower(hosts[i]), name)
  }

  predicate ValidHosts(hosts: seq<string>) {
    forall i :: 0 <= i < |hosts| ==> ValidHostPattern(hosts[i])
  }

  lemma {:induction false} LowerConcat(a: string, b: string)
    ensures Lower(a + b) == Lower(a) + Lower(b)
  {
  }

  lemma {:induction false} LowerWildcard(host: string)
    ensures IsWildcard(Lower(host)) <==> IsWildcard(host)
    ensures IsWildcard(host) ==> Lower(host)[2..] == Lower(host[2..])
    ensures Lower(host) == [] <==> host == []
  {
    if |host| >= 2 {
      assert host[..2] == [host[0], host[1]] && Lower(host)[..2] == [LowerChar(host[0]), LowerChar(host[1])];
    }
  }

  /** The base of a validated pattern is not itself a wildcard. */
  lemma {:induction false} BaseIsPlain(host: string)
    requires ValidHostPattern(host)
    ensures !IsWildcard(Base(host)) && Base(host) != []
  {
    HostChars(host);
    if IsWildcard(host) {
      var stripped := StripDot(host);
      assert host[0] == host[..2][0] == '*';
      assert TrimLeft(stripped) == stripped;
      var trimmed := TrimRight(stripped);
      TrimRightChars(stripped);
      assert stripped[0] in trimmed;
      var low := Lower(trimmed);
      assert low[0] == '*';
      assert IsWildcard(low);
      var domain := Lower(low[2..]);
      DomainChars(domain);
      assert domain[0] == LowerChar(LowerChar(host[2]));
      PrefixDiffers(host[2..], "*.", 0);
    }
  }

  // ---------- Compiled selectors against declared hosts ----------

  lemma {:induction false} SelectorsSound(hosts: seq<string>, n: nat, i: nat)
    requires n <= |hosts| && i < |HostSelectors(hosts, n)|
    ensures var s := HostSelectors(hosts, n)[i];
            WebPort(s.port) && exists k :: 0 <= k < n && s.kind == KindOf(hosts, hosts[k]) && s.value == ValueOf(hosts, hosts[k])
  {
    if i < |HostSelectors(hosts, n - 1)| {
      SelectorsSound(hosts, n - 1, i);
    }
  }

  predicate Emits(hosts: seq<string>, n: nat, host: string, port: nat)
    requires n <= |hosts|
  {
    Selector(KindOf(hosts, host), ValueOf(hosts, host), port) in HostSelectors(hosts, n)
  }

  lemma {:induction false} HandledEmitted(hosts: seq<string>, n: nat, host: string, port: nat)
    requires n <= |hosts| && host in Handled(hosts, n) && WebPort(port)
    ensures exists k :: 0 <= k < n && host in Settles(hosts, hosts[k]) && Emits(hosts, n, hosts[k], port)
  {
    var before := HostSelectors(hosts, n - 1);
    if host in Handled(hosts, n - 1) {
      HandledEmitted(hosts, n - 1, host, port);
      var k :| 0 <= k < n - 1 && host in Settles(hosts, hosts[k]) && Emits(hosts, n - 1, hosts[k], port);
      assert Emits(hosts, n, hosts[k], port);
    } else {
      var pair := PortPair(KindOf(hosts, hosts[n - 1]), ValueOf(hosts, hosts[n - 1]));
      assert pair[0] in HostSelectors(hosts, n) && pair[1] in HostSelectors(hosts, n);
      assert Emits(hosts, n, hosts[n - 1], port);
    }
  }

  lemma {:induction false} EveryHostHandled(hosts: seq<string>, n: nat, i: nat)
    requires i < n <= |hosts|
    ensures hosts[i] in Handled(hosts, n)
  {
    if i < n - 1 {
      EveryHostHandled(hosts, n - 1, i);
    } else {
      assert hosts[i] == Base(hosts[i]) || hosts[i] == "*." + Base(hosts[i]);
    }
  }

  lemma {:induction false} ProperSuffix(name: string, base: string)
    requires name != [] && name[0] != '.'
    ensures HasSuffix(name, "." + base) <==> Under(name, base)
  {
    if HasSuffix(name, "." + base) {
      assert name[|name| - |base| - 1] == name[|name| - (|base| + 1)..][0] == '.';
    }
  }

  /** A selector matches only what a declared host covers. */
  lemma {:induction false} SelectorWithinHosts(hosts: seq<string>, k: nat, name: string)
    requires ValidHosts(hosts) && k < |hosts| && CanonicalName(name)
    requires ValueMatches(KindOf(hosts, hosts[k]), ValueOf(hosts, hosts[k]), Host(name))
    ensures HostsMatch(hosts, name)
  {
    var host := hosts[k];
    var base := Base(host);
    BaseIsPlain(host);
    LowerWildcard(host);
    LowerWildcard(base);
    ProperSuffix(name, Lower(base));
    if Joined(hosts, host) {
      var i :| 0 <= i < |hosts| && hosts[i] == base;
      var j :| 0 <= j < |hosts| && hosts[j] == "*." + base;
      LowerWildcard(hosts[j]);
      assert hosts[j][2..] == base;
      assert PatternMatches(Lower(hosts[i]), name) || PatternMatches(Lower(hosts[j]), name);
    } else {
      assert PatternMatches(Lower(hosts[k]), name);
    }
  }

  /** What a declared host covers, the selector that settles it matches. */
  lemma {:induction false} HostWithinSelector(hosts: seq<string>, host: string, k: nat, name: string)
    requires ValidHosts(hosts) && k < |hosts| && host in Settles(hosts, hosts[k]) && host in hosts
    requires CanonicalName(name) && PatternMatches(Lower(host), name)
    ensures ValueMatches(KindOf(hosts, hosts[k]), ValueOf(hosts, hosts[k]), Host(name))
  {
    var base := Base(hosts[k]);
    BaseIsPlain(hosts[k]);
    LowerWildcard(host);
    LowerWildcard(base);
    ProperSuffix(name, Lower(base));
    if Joined(hosts, hosts[k]) && host != base {
      assert host == "*." + base && host[2..] == base;
    }
  }

  lemma {:induction false} MatchedByHosts(hosts: seq<string>, name: string, port: nat, i: nat)
    requires ValidHosts(hosts) && CanonicalName(name)
    requires i < |HostSelectors(hosts, |hosts|)| && Selects(HostSelectors(hosts, |hosts|)[i], Host(name), port)
    ensures WebPort(port) && HostsMatch(hosts, name)
  {
    SelectorsSound(hosts, |hosts|, i);
    var s := HostSelectors(hosts, |hosts|)[i];
    var k :| 0 <= k < |hosts| && s.kind == KindOf(hosts, hosts[k]) && s.value == ValueOf(hosts, hosts[k]);
    SelectorWithinHosts(hosts, k, name);
  }

  lemma {:induction false} MatchedBySelectors(hosts: seq<string>, name: string, port: nat, i: nat)
    requires ValidHosts(hosts) && CanonicalName(name) && WebPort(port)
    requires i < |hosts| && PatternMatches(Lower(hosts[i]), name)
    ensures AnySelects(HostSelectors(hosts, |hosts|), Host(name), port)
  {
    EveryHostHandled(hosts, |hosts|, i);
    HandledEmitted(hosts, |hosts|, hosts[i], port);
    var k :| 0 <= k < |hosts| && hosts[i] in Settles(hosts, hosts[k]) && Emits(hosts, |hosts|, hosts[k], port);
    HostWithinSelector(hosts, hosts[i], k, name);
    MemberSelects(HostSelectors(hosts, |hosts|), Selector(KindOf(hosts, hosts[k]), ValueOf(hosts, hosts[k]), port), Host(name));
  }

  lemma {:induction false} MemberSelects(selectors: seq<Selector>, s: Selector, dest: Destination)
    requires s in selectors && ValueMatches(s.kind, s.value, dest)
    ensures AnySelects(selectors, dest, s.port)
  {
    var j :| 0 <= j < |selectors| && selectors[j] == s;
    assert Selects(selectors[j], dest, s.port);
  }

  /** The compacted selectors of a module match exactly what its hosts cover, on both web ports. */
  lemma {:induction false} SelectorsMatchHosts(hosts: seq<string>, name: string, port: nat)
    requires ValidHosts(hosts) && CanonicalName(name)
    ensures AnySelects(HostSelectors(hosts, |hosts|), Host(name), port) <==> WebPort(port) && HostsMatch(hosts, name)
  {
    if AnySelects(HostSelectors(hosts, |hosts|), Host(name), port) {
      var i :| 0 <= i < |HostSelectors(hosts, |hosts|)| && Selects(HostSelectors(hosts, |hosts|)[i], Host(name), port);
      MatchedByHosts(hosts, name, port, i);
    }
    if WebPort(port) && HostsMatch(hosts, name) {
      var i :| 0 <= i < |hosts| && PatternMatches(Lower(hosts[i]), name);
      MatchedBySelectors(hosts, name, port, i);
    }
  }

  /** Compacted selectors are valid, so their rule texts can be read back. */
  lemma {:induction false} SelectorsValid(hosts: seq<string>, i: nat)
    requires ValidHosts(hosts) && i < |HostSelectors(hosts, |hosts|)|
    ensures var s := HostSelectors(hosts, |hosts|)[i];
            ValidSelector(s) && !s.kind.IpCidr?
  {
    SelectorsSound(hosts, |hosts|, i);
    var s := HostSelectors(hosts, |hosts|)[i];
    var k :| 0 <= k < |hosts| && s.kind == KindOf(hosts, hosts[k]) && s.value == ValueOf(hosts, hosts[k]);
    BaseIsPlain(hosts[k]);
  }

  // ---------- The capture rules of a document ----------

  /** Selectors of all given modules, module after module. */
  function AllSelectors(modules: seq<Module>): seq<Selector> {
    if modules == [] then [] else
      var n := |modules| - 1;
      AllSelectors(modules[..n]) + HostSelectors(modules[n].captureHosts, |modules[n].captureHosts|)
  }

  function Texts(selectors: seq<Selector>): (r: seq<string>)
    ensures |r| == |selectors| && forall i :: 0 <= i < |r| ==> r[i] == RenderCapture(selectors[i])
  {
    seq(|selectors|, i requires 0 <= i < |selectors| => RenderCapture(selectors[i]))
  }

  /** The modules that the compiler looks at. */
  function Active(d: Document): seq<Module> {
    if d.mitm then Enabled(Pick(ById(d.modules), d.executionOrder + Unlisted(d.modules, d.executionOrder))) else []
  }

  method RenderAll(selectors: seq<Selector>) returns (texts: seq<string>)
    ensures texts == Texts(selectors)
  {
    texts := [];
    for i := 0 to |selectors|
      invariant |texts| == i && forall k :: 0 <= k < i ==> texts[k] == RenderCapture(selectors[k])
    {
      texts := texts + [RenderCapture(selectors[i])];
    }
  }

  method CollectCapture(modules: seq<Module>) returns (texts: seq<string>)
    ensures texts == Texts(AllSelectors(modules))
  {
    texts := [];
    for i := 0 to |modules|
      invariant texts == Texts(AllSelectors(modules[..i]))
    {
      assert modules[..i + 1][..i] == modules[..i];
      var selectors := CaptureSelectors(modules[i].captureHosts);
      var more := RenderAll(selectors);
      TextsAppend(AllSelectors(modules[..i]), selectors);
      texts := texts + more;
    }
    assert modules[..|modules|] == modules;
  }

  lemma {:induction false} TextsAppend(a: seq<Selector>, b: seq<Selector>)
    ensures Texts(a + b) == Texts(a) + Texts(b)
  {
  }

  method CompileCapture(d: Document) returns (rules: seq<string>)
    ensures StrictlySorted(rules)
    ensures forall text :: text in rules <==> text in Texts(AllSelectors(Active(d)))
  {
    if !d.mitm {
      return [];
    }
    var modules := OrderedEnabledModules(d);
    var all := CollectCapture(modules);
    rules := UniqueSorted(all);
    TextsAreTrimmed(AllSelectors(modules));
    SameMembers(all, rules);
  }

  lemma {:induction false} TextsAreTrimmed(selectors: seq<Selector>)
    ensures forall i :: 0 <= i < |selectors| ==> Texts(selectors)[i] != [] && TrimSpace(Texts(selectors)[i]) == Texts(selectors)[i]
  {
    forall i | 0 <= i < |selectors|
      ensures Texts(selectors)[i] != [] && TrimSpace(Texts(selectors)[i]) == Texts(selectors)[i]
    {
      RenderedIsTrimmed(selectors[i]);
    }
  }

  lemma {:induction false} SameMembers(values: seq<string>, out: seq<string>)
    requires forall x :: x in out <==> x != [] && exists i :: 0 <= i < |values| && TrimSpace(values[i]) == x
    requires forall i :: 0 <= i < |values| ==> values[i] != [] && TrimSpace(values[i]) == values[i]
    ensures forall x :: x in out <==> x in values
  {
  }

  lemma {:induction false} RenderedIsTrimmed(s: Selector)
    ensures RenderCapture(s) != [] && TrimSpace(RenderCapture(s)) == RenderCapture(s)
  {
    var text := RenderCapture(s);
    assert text[0] == 'A';
    assert text[|text| - 1] == ProxyName[15] == 'T';
  }

  // ---------- Reading a capture rule ----------

  predicate CaptureSelector(s: Selector) {
    ValidSelector(s) && !s.kind.IpCidr?
  }

  /** Capture texts determine their selector. */
  lemma {:induction false} CaptureInjective(s: Selector, t: Selector)
    requires CaptureSelector(s) && CaptureSelector(t) && RenderCapture(s) == RenderCapture(t)
    ensures s == t
  {
    ProxyIsTarget();
    CaptureTail(s);
    CaptureTail(t);
    Ends("AND,((", Tail(s));
    Ends("AND,((", Tail(t));
    RenderInjective(s, ProxyName, t, ProxyName);
  }

  function Tail(s: Selector): string {
    MatcherText(s) + PortMarker + Itoa(s.port) + "))," + ProxyName
  }

  lemma {:induction false} Regroup(head: string, a: string, b: string, c: string, d: string, e: string)
    ensures head + a + b + c + d + e == head + (a + b + c + d + e)
  {
  }

  /** A capture rule and an egress rule to the same target differ only in their heads. */
  lemma {:induction false} CaptureTail(s: Selector)
    requires !s.kind.IpCidr?
    ensures RenderCapture(s) == "AND,((" + Tail(s)
    ensures RenderEgress(s, ProxyName) == EgressPrefix + Tail(s)
  {
    Regroup("AND,((", MatcherText(s), PortMarker, Itoa(s.port), ")),", ProxyName);
    Regroup(EgressPrefix, MatcherText(s), PortMarker, Itoa(s.port), ")),", ProxyName);
  }

  lemma {:induction false} ProxyIsTarget()
    ensures ValidTarget(ProxyName)
  {
    Utf8Bound(ProxyName);
    OuterCharsTrimmed(ProxyName);
    PrefixDiffers(ProxyName, TerminalTarget, 0);
    PlainChars(ProxyName);
  }

  lemma {:induction false} OuterCharsTrimmed(s: string)
    requires s != [] && !IsSpace(s[0]) && !IsSpace(s[|s| - 1])
    ensures TrimSpace(s) == s
  {
  }

  lemma {:induction false} PlainChars(s: string)
    requires forall i :: 0 <= i < |s| ==> s[i] == '-' || 'A' <= s[i] <= 'Z'
    ensures forall i :: 0 <= i < |s| ==> s[i] != ',' && !IsControl(s[i])
  {
  }

  lemma {:induction false} Utf8Bound(s: string)
    ensures Utf8Length(s) <= 4 * |s|
  {
    if s != [] {
      Utf8Bound(s[..|s| - 1]);
    }
  }
}
