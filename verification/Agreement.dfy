module Agreement {
  // The DNS overlay and the capture rules come from the same document by two
  // different routes. This module says exactly when they agree.

  import opened Options
  import opened Names
  import opened Documents
  import opened RuleText
  import opened CaptureRouting
  import opened MihomoRules
  import Overlay

  // ---------- Both sides as a question about the declared hosts ----------

  /** All capture hosts of the given modules. */
  function Hosts(modules: seq<Module>): seq<string> {
    if modules == [] then [] else Hosts(modules[..|modules| - 1]) + modules[|modules| - 1].captureHosts
  }

  predicate NormalMatch(hosts: seq<string>, name: string) {
    exists i :: 0 <= i < |hosts| && PatternMatches(NormalPattern(hosts[i]), name)
  }

  predicate AllValid(modules: seq<Module>) {
    forall i :: 0 <= i < |modules| ==> ValidHosts(modules[i].captureHosts)
  }

  /** An address range read as one address. */
  predicate OneAddress(range: string, quad: string) {
    range == quad + "/32"
  }

  /** What mihomo does with one rule text: it takes the connection to the interception proxy. */
  predicate TextSelects(text: string, dest: Destination, port: nat) {
    Takes(Conn(dest, port, "tcp", ""), OneAddress)(text) == Some("MODULE-INTERCEPT")
  }

  /** Some emitted capture rule matches. */
  ghost predicate RulesCapture(d: Document, name: string, port: nat) {
    exists i :: 0 <= i < |Texts(AllSelectors(Active(d)))| && TextSelects(Texts(AllSelectors(Active(d)))[i], Host(name), port)
  }

  lemma {:induction false} HostsMatchAppend(a: seq<string>, b: seq<string>, name: string)
    ensures HostsMatch(a + b, name) <==> HostsMatch(a, name) || HostsMatch(b, name)
    ensures NormalMatch(a + b, name) <==> NormalMatch(a, name) || NormalMatch(b, name)
  {
    var ab := a + b;
    assert forall i :: 0 <= i < |a| ==> ab[i] == a[i];
    assert forall i :: 0 <= i < |b| ==> ab[|a| + i] == b[i];
  }

  lemma {:induction false} AnySelectsAppend(a: seq<Selector>, b: seq<Selector>, dest: Destination, port: nat)
    ensures AnySelects(a + b, dest, port) <==> AnySelects(a, dest, port) || AnySelects(b, dest, port)
  {
    var ab := a + b;
    assert forall i :: 0 <= i < |a| ==> ab[i] == a[i];
    assert forall i :: 0 <= i < |b| ==> ab[|a| + i] == b[i];
  }

  lemma {:induction false} SelectorsOfModules(modules: seq<Module>, name: string, port: nat)
    requires AllValid(modules) && CanonicalName(name)
    ensures AnySelects(AllSelectors(modules), Host(name), port) <==> WebPort(port) && HostsMatch(Hosts(modules), name)
  {
    if modules != [] {
      var n := |modules| - 1;
      var init, hosts := modules[..n], modules[n].captureHosts;
      SelectorsOfModules(init, name, port);
      SelectorsMatchHosts(hosts, name, port);
      HostsMatchAppend(Hosts(init), hosts, name);
      AnySelectsAppend(AllSelectors(init), HostSelectors(hosts, |hosts|), Host(name), port);
    }
  }

  lemma {:induction false} AllSelectorsValid(modules: seq<Module>, i: nat)
    requires AllValid(modules) && i < |AllSelectors(modules)|
    ensures CaptureSelector(AllSelectors(modules)[i])
  {
    var n := |modules| - 1;
    var before, hosts := AllSelectors(modules[..n]), modules[n].captureHosts;
    assert AllSelectors(modules) == before + HostSelectors(hosts, |hosts|);
    if i < |before| {
      AllSelectorsValid(modules[..n], i);
    } else {
      SelectorsValid(hosts, i - |before|);
    }
  }

  /** Reading the emitted texts gives back what was compiled. */
  lemma {:induction false} TextsMatchSelectors(modules: seq<Module>, i: nat, dest: Destination, port: nat)
    requires AllValid(modules) && i < |AllSelectors(modules)|
    ensures TextSelects(Texts(AllSelectors(modules))[i], dest, port) <==> Selects(AllSelectors(modules)[i], dest, port)
  {
    var s := AllSelectors(modules)[i];
    AllSelectorsValid(modules, i);
    OneAddressIsSingle();
    CaptureIsRead(s);
    LeavesMean(s, Conn(dest, port, "tcp", ""), OneAddress);
  }

  lemma {:induction false} OneAddressIsSingle()
    ensures SingleAddresses(OneAddress)
  {
    forall quad: string, other: string
      ensures OneAddress(quad + "/32", other) <==> quad == other
    {
      Ends(quad, "/32");
      Ends(other, "/32");
    }
  }

  lemma {:induction false} RulesCaptureHosts(d: Document, name: string, port: nat)
    requires AllValid(Active(d)) && CanonicalName(name)
    ensures RulesCapture(d, name, port) <==> WebPort(port) && HostsMatch(Hosts(Active(d)), name)
  {
    var modules := Active(d);
    SelectorsOfModules(modules, name, port);
    forall i | 0 <= i < |AllSelectors(modules)|
      ensures TextSelects(Texts(AllSelectors(modules))[i], Host(name), port) <==> Selects(AllSelectors(modules)[i], Host(name), port)
    {
      TextsMatchSelectors(modules, i, Host(name), port);
    }
  }

  lemma {:induction false} ScanIsNormalMatch(modules: seq<Module>, name: string)
    ensures Overlay.Scan(modules, name).Captured? <==> NormalMatch(Hosts(Enabled(modules)), name)
  {
    if modules != [] {
      var n := |modules| - 1;
      var init, m := modules[..n], modules[n];
      ScanIsNormalMatch(init, name);
      if m.enabled {
        assert Enabled(modules) == Enabled(init) + [m];
        assert Enabled(modules)[..|Enabled(init)|] == Enabled(init);
        HostsMatchAppend(Hosts(Enabled(init)), m.captureHosts, name);
      }
    }
  }

  lemma {:induction false} OverlayCapturesHosts(d: Document, name: string)
    requires ValidDocument(d)
    ensures Overlay.Answer(d, name).Captured? <==> NormalMatch(Hosts(Active(d)), name)
  {
    CompletionIsIdle(d);
    ScanIsNormalMatch(Ordered(d), name);
  }

  // ---------- Stored and normalized patterns ----------

  lemma {:induction false} TrimLeftThenStrip(h: string)
    requires TrimLeft(StripDot(h)) != []
    ensures TrimLeft(StripDot(h)) == StripDot(TrimLeft(h))
  {
    if IsSpace(h[0]) {
      assert StripDot(h)[1..] == StripDot(h[1..]);
      TrimLeftThenStrip(h[1..]);
    }
  }

  lemma {:induction false} TrimRightEnds(s: string)
    ensures TrimRight(s) != [] ==> !IsSpace(TrimRight(s)[|TrimRight(s)| - 1])
  {
    if s != [] && IsSpace(s[|s| - 1]) {
      TrimRightEnds(s[..|s| - 1]);
    }
  }

  /** Text that ends in a blank; no query name does. */
  predicate Blank(p: string) {
    p != [] && IsSpace(p[|p| - 1])
  }

  /** The form that validation looked at. */
  function Validated(h: string): string {
    Lower(TrimSpace(StripDot(h)))
  }

  lemma {:induction false} ValidatedEnds(h: string)
    requires ValidHostPattern(h)
    ensures var v := Validated(h);
            && v != [] && v[|v| - 1] != '.' && !Blank(v) && v[0] != '.' && !IsSpace(v[0])
            && (IsWildcard(v) ==> |v| > 2 && v[2] != '.')
  {
    var v := Validated(h);
    var base := Base(v);
    var low := Lower(base);
    DomainChars(low);
    assert low[|low| - 1] == LowerChar(v[|v| - 1]);
    assert low[0] == LowerChar(base[0]);
  }

  lemma {:induction false} StripAndTrimCommute(t: string)
    requires var v := TrimRight(StripDot(t)); v != [] && v[|v| - 1] != '.'
    ensures Blank(StripDot(TrimRight(t))) || StripDot(TrimRight(t)) == TrimRight(StripDot(t))
  {
    if t[|t| - 1] == '.' {
      assert TrimRight(t) == t;
    } else {
      assert StripDot(t) == t;
    }
  }

  lemma {:induction false} LowerEnds(s: string)
    requires s != []
    ensures Lower(s)[|s| - 1] == LowerChar(s[|s| - 1]) && (Blank(Lower(s)) <==> Blank(s))
    ensures Lower(s)[|s| - 1] == '.' <==> s[|s| - 1] == '.'
  {
  }

  /** The overlay's pattern is the validated one, or ends in a blank and matches no name at all. */
  lemma {:induction false} NormalIsValidated(h: string)
    requires ValidHostPattern(h)
    ensures Blank(NormalPattern(h)) || NormalPattern(h) == Validated(h)
  {
    ValidatedEnds(h);
    var v := TrimSpace(StripDot(h));
    assert TrimLeft(StripDot(h)) != [];
    TrimLeftThenStrip(h);
    LowerEnds(v);
    StripAndTrimCommute(TrimLeft(h));
    var p := StripDot(TrimSpace(h));
    if p != [] {
      LowerEnds(p);
    }
  }

  /** Where a stored pattern matches a name, normalizing has nothing to change. */
  lemma {:induction false} MatchingIsNormal(h: string, name: string)
    requires ValidHostPattern(h) && CanonicalName(name) && PatternMatches(Lower(h), name)
    ensures NormalPattern(h) == Lower(h)
  {
    BaseIsPlain(h);
    LowerWildcard(h);
    var last := |h| - 1;
    assert Lower(h)[last] == LowerChar(h[last]) && Lower(h)[0] == LowerChar(h[0]);
    if IsWildcard(h) {
      var base := Lower(h)[2..];
      assert name[|name| - 1] == name[|name| - (|base| + 1)..][|base|] == base[|base| - 1];
      assert h[..2][0] == h[0];
    }
    assert TrimLeft(h) == h && TrimRight(h) == h && StripDot(h) == h;
  }

  // ---------- The exact condition ----------

  /** Every name that `q` matches, `p` matches. */
  predicate PatternCovers(p: string, q: string) {
    if IsWildcard(q) then IsWildcard(p) && (p[2..] == q[2..] || HasSuffix(q[2..], "." + p[2..]))
    else PatternMatches(p, q)
  }

  /** Each host's normal form is unmatchable or covered by some host as stored. */
  predicate StoredFormsSuffice(hosts: seq<string>) {
    forall i :: 0 <= i < |hosts| ==> Blank(NormalPattern(hosts[i])) || CoveredBy(hosts, NormalPattern(hosts[i]))
  }

  predicate CoveredBy(hosts: seq<string>, pattern: string) {
    exists k :: 0 <= k < |hosts| && PatternCovers(Lower(hosts[k]), pattern)
  }

  lemma {:induction false} SuffixTransitive(a: string, b: string, c: string)
    requires HasSuffix(a, b) && HasSuffix(b, c)
    ensures HasSuffix(a, c)
  {
    assert a[|a| - |b|..][|b| - |c|..] == a[|a| - |c|..];
  }

  lemma {:induction false} CoverageIsSound(p: string, q: string, name: string)
    requires PatternCovers(p, q) && PatternMatches(q, name)
    ensures PatternMatches(p, name)
  {
    if IsWildcard(q) && p[2..] != q[2..] {
      assert HasSuffix("." + q[2..], q[2..]);
      SuffixTransitive(name, "." + q[2..], q[2..]);
      SuffixTransitive(name, q[2..], "." + p[2..]);
    }
  }

  function Longest(hosts: seq<string>): (n: nat)
    ensures forall i :: 0 <= i < |hosts| ==> |hosts[i]| <= n
  {
    if hosts == [] then 0 else
      var n, k := Longest(hosts[..|hosts| - 1]), |hosts[|hosts| - 1]|;
      if k > n then k else n
  }

  /** A subdomain whose own label is longer than `n`. */
  function LongName(n: nat, base: string): (name: string)
    ensures |name| == n + 2 + |base|
    ensures forall i :: 0 <= i <= n ==> name[i] == 'a'
    ensures name[n + 1..] == "." + base
  {
    seq(n + 1, _ => 'a') + ("." + base)
  }

  /** A short pattern that covers a name with a long own label covers its base as a wildcard. */
  lemma {:induction false} LongNameNeedsWildcard(p: string, q: string, n: nat)
    requires |p| <= n && IsWildcard(q) && PatternMatches(p, LongName(n, q[2..]))
    ensures PatternCovers(p, q)
  {
    var name, base := LongName(n, q[2..]), q[2..];
    var suffix := "." + p[2..];
    var at := |name| - |suffix|;
    assert name[at] == name[at..][0] == '.';
    assert at > n;
    assert name[at..] == name[n + 1..][at - (n + 1)..];
    if at > n + 1 {
      assert ("." + base)[at - (n + 1)..] == base[at - (n + 2)..];
    } else {
      assert suffix == "." + base;
      assert suffix[1..] == base;
    }
  }

  lemma {:induction false} LongNameMatches(q: string, n: nat)
    requires IsWildcard(q)
    ensures PatternMatches(q, LongName(n, q[2..]))
  {
    var name := LongName(n, q[2..]);
    assert name[|name| - |"." + q[2..]|..] == name[n + 1..];
  }

  lemma {:induction false} LongNameCanonical(q: string, n: nat)
    requires IsWildcard(q) && |q| > 2 && Lower(q) == q && q[|q| - 1] != '.' && !Blank(q)
    ensures CanonicalName(LongName(n, q[2..]))
  {
    var name, base := LongName(n, q[2..]), q[2..];
    assert name[|name| - 1] == name[n + 1..][|base|] == base[|base| - 1] == q[|q| - 1];
    forall i | 0 <= i < |name|
      ensures LowerChar(name[i]) == name[i]
    {
      if i > n {
        assert name[i] == name[n + 1..][i - n - 1];
        if i > n + 1 {
          assert name[i] == base[i - n - 2] == q[i - n];
          assert Lower(q)[i - n] == LowerChar(q[i - n]);
        }
      }
    }
  }

  lemma {:induction false} LowerTwice(s: string)
    ensures Lower(Lower(s)) == Lower(s)
  {
  }

  /** The names that tell a host's two forms apart: itself, or a long subdomain. */
  function Probe(hosts: seq<string>, pattern: string): string {
    if IsWildcard(pattern) then LongName(Longest(hosts), pattern[2..]) else pattern
  }

  lemma {:induction false} ProbeIsFair(hosts: seq<string>, h: string)
    requires ValidHostPattern(h) && !Blank(NormalPattern(h))
    ensures var p := NormalPattern(h);
            CanonicalName(Probe(hosts, p)) && PatternMatches(p, Probe(hosts, p))
  {
    var p := NormalPattern(h);
    NormalIsValidated(h);
    ValidatedEnds(h);
    LowerTwice(StripDot(TrimSpace(h)));
    if IsWildcard(p) {
      LongNameCanonical(p, Longest(hosts));
      LongNameMatches(p, Longest(hosts));
    }
  }

  lemma {:induction false} ProbeDecides(hosts: seq<string>, pattern: string)
    requires HostsMatch(hosts, Probe(hosts, pattern))
    ensures CoveredBy(hosts, pattern)
  {
    var k :| 0 <= k < |hosts| && PatternMatches(Lower(hosts[k]), Probe(hosts, pattern));
    if IsWildcard(pattern) {
      LongNameNeedsWildcard(Lower(hosts[k]), pattern, Longest(hosts));
    }
    assert PatternCovers(Lower(hosts[k]), pattern);
  }

  /** On canonical names the rules never match more than the overlay. */
  lemma {:induction false} RulesWithinOverlay(hosts: seq<string>, name: string)
    requires ValidHosts(hosts) && CanonicalName(name) && HostsMatch(hosts, name)
    ensures NormalMatch(hosts, name)
  {
    var i :| 0 <= i < |hosts| && PatternMatches(Lower(hosts[i]), name);
    MatchingIsNormal(hosts[i], name);
    assert PatternMatches(NormalPattern(hosts[i]), name);
  }

  lemma {:induction false} BlankMatchesNothing(p: string, name: string)
    requires Blank(p) && CanonicalName(name)
    ensures !PatternMatches(p, name)
  {
    if IsWildcard(p) && |name| >= |p| {
      var base := p[2..];
      assert name[|name| - 1] == name[|name| - (|base| + 1)..][|base|];
    }
  }

  lemma {:induction false} OverlayWithinRules(hosts: seq<string>, name: string)
    requires StoredFormsSuffice(hosts) && CanonicalName(name) && NormalMatch(hosts, name)
    ensures HostsMatch(hosts, name)
  {
    var i :| 0 <= i < |hosts| && PatternMatches(NormalPattern(hosts[i]), name);
    if Blank(NormalPattern(hosts[i])) {
      BlankMatchesNothing(NormalPattern(hosts[i]), name);
    }
    var k :| 0 <= k < |hosts| && PatternCovers(Lower(hosts[k]), NormalPattern(hosts[i]));
    CoverageIsSound(Lower(hosts[k]), NormalPattern(hosts[i]), name);
  }

  /** For every name and web port, the overlay captures the name exactly when a capture rule does. */
  ghost predicate Agrees(d: Document) {
    forall name, port :: CanonicalName(name) && WebPort(port) ==>
      (RulesCapture(d, name, port) <==> Overlay.Answer(d, name).Captured?)
  }

  lemma {:induction false} HostsValid(modules: seq<Module>)
    requires AllValid(modules)
    ensures ValidHosts(Hosts(modules))
  {
    if modules != [] {
      HostsValid(modules[..|modules| - 1]);
    }
  }

  /**
   Overlay and capture rules agree on every name and web port if and only if
   the hosts, as stored, already cover their normal forms.
   */
  lemma {:induction false} AgreesIff(d: Document)
    requires ValidDocument(d) && AllValid(Active(d))
    ensures Agrees(d) <==> StoredFormsSuffice(Hosts(Active(d)))
  {
    var hosts := Hosts(Active(d));
    HostsValid(Active(d));
    if StoredFormsSuffice(hosts) {
      forall name, port | CanonicalName(name) && WebPort(port)
        ensures RulesCapture(d, name, port) <==> Overlay.Answer(d, name).Captured?
      {
        RulesCaptureHosts(d, name, port);
        OverlayCapturesHosts(d, name);
        if HostsMatch(hosts, name) { RulesWithinOverlay(hosts, name); }
        if NormalMatch(hosts, name) { OverlayWithinRules(hosts, name); }
      }
    }
    if Agrees(d) {
      forall i | 0 <= i < |hosts|
        ensures Blank(NormalPattern(hosts[i])) || CoveredBy(hosts, NormalPattern(hosts[i]))
      {
        if !Blank(NormalPattern(hosts[i])) {
          var name := Probe(hosts, NormalPattern(hosts[i]));
          ProbeIsFair(hosts, hosts[i]);
          RulesCaptureHosts(d, name, 80);
          OverlayCapturesHosts(d, name);
          ProbeDecides(hosts, NormalPattern(hosts[i]));
        }
      }
    }
  }

  /** In particular they agree when no host has outer blanks or a trailing dot. */
  lemma {:induction false} CleanHostsAgree(d: Document)
    requires ValidDocument(d) && AllValid(Active(d))
    requires forall h :: h in Hosts(Active(d)) ==> TrimSpace(h) == h && StripDot(h) == h
    ensures Agrees(d)
  {
    var hosts := Hosts(Active(d));
    HostsValid(Active(d));
    forall i | 0 <= i < |hosts|
      ensures CoveredBy(hosts, NormalPattern(hosts[i]))
    {
      assert hosts[i] in hosts;
      BaseIsPlain(hosts[i]);
      LowerWildcard(hosts[i]);
      assert PatternCovers(Lower(hosts[i]), NormalPattern(hosts[i]));
    }
    AgreesIff(d);
  }

  // ---------- Documents with one module ----------

  function Single(host: string): Document {
    Document(true, [Module("m", true, [host], "", "", [], [], [])], ["m"])
  }

  lemma {:induction false} OneModuleActive(d: Document, m: Module)
    requires d == Document(true, [m], [m.id]) && m.enabled
    ensures ValidDocument(d) && Active(d) == [m]
  {
    assert Ids(d.modules)[0] == m.id;
    OrderedIsRearrangement(d);
    assert d.modules[0] == m;
    assert Ordered(d) == [m];
    CompletionIsIdle(d);
    assert [m][..0] == [];
  }

  lemma {:induction false} SingleIsValid(host: string)
    ensures ValidDocument(Single(host)) && Hosts(Active(Single(host))) == [host]
    ensures ValidHostPattern(host) ==> AllValid(Active(Single(host)))
  {
    var m := Single(host).modules[0];
    OneModuleActive(Single(host), m);
    assert [m][..0] == [];
    assert Hosts([m]) == [] + [host];
  }

  lemma {:induction false} LowerDomain(s: string)
    requires IsDomain(s)
    ensures Lower(s) == s && '*' !in s && !IsSpace(s[0]) && !Blank(s) && !IsWildcard(s) && s[|s| - 1] != '.'
  {
    DomainChars(s);
    PrefixDiffers(s, "*.", 0);
  }
}
