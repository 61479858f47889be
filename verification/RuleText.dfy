/**
 The text form of capture and egress rules: printers, the canonical parser and
 their round trips.
 */
module RuleText {
  import opened Options
  import opened Names

  datatype Kind = Domain | DomainWildcard | DomainSuffix | IpCidr

  datatype Selector = Selector(kind: Kind, value: string, port: nat)

  // ---------- Decimal numbers ----------

  function Digit(n: nat): (c: char)
    requires n < 10
    ensures '0' <= c <= '9'
  {
    '0' + n as char
  }

  predicate IsDigit(c: char) {
    '0' <= c <= '9'
  }

  function Itoa(n: nat): (s: string)
    ensures s != [] && forall i :: 0 <= i < |s| ==> IsDigit(s[i])
  {
    if n < 10 then [Digit(n)] else Itoa(n / 10) + [Digit(n % 10)]
  }

  function DigitsValue(s: string): nat
    requires forall i :: 0 <= i < |s| ==> IsDigit(s[i])
  {
    if s == [] then 0 else
      var last := s[|s| - 1];
      assert IsDigit(last);
      10 * DigitsValue(s[..|s| - 1]) + (last as nat - '0' as nat)
  }

  /** Accepts a sign and leading zeros, as the library conversion does. */
  function Atoi(s: string): Option<int> {
    var signed := s != [] && (s[0] == '+' || s[0] == '-');
    var digits := if signed then s[1..] else s;
    if digits == [] || exists i :: 0 <= i < |digits| && !IsDigit(digits[i]) then None
    else
      var n: int := DigitsValue(digits);
      Some(if signed && s[0] == '-' then -n else n)
  }

  lemma {:induction false} ItoaValue(n: nat)
    ensures DigitsValue(Itoa(n)) == n
  {
    if n >= 10 {
      ItoaValue(n / 10);
      assert Itoa(n)[..|Itoa(n)| - 1] == Itoa(n / 10);
    } else {
      assert Itoa(n)[..0] == [];
    }
  }

  lemma {:induction false} AtoiItoa(n: nat)
    ensures Atoi(Itoa(n)) == Some(n)
  {
    ItoaValue(n);
    assert IsDigit(Itoa(n)[0]);
  }

  // ---------- String searching ----------

  /** `t` occurs in `s` at position `j`. */
  predicate At(s: string, t: string, j: nat) {
    j + |t| <= |s| && s[j..j + |t|] == t
  }

  function LastIndexBelow(s: string, t: string, n: nat): (r: int)
    ensures -1 <= r < n
    ensures r >= 0 ==> At(s, t, r)
    ensures forall j :: r < j < n && 0 <= j ==> !At(s, t, j)
  {
    if n == 0 then -1
    else if At(s, t, n - 1) then n - 1
    else LastIndexBelow(s, t, n - 1)
  }

  /** Start of the last occurrence, or -1. */
  function LastIndex(s: string, t: string): (r: int)
    ensures r >= -1
    ensures r >= 0 ==> At(s, t, r)
    ensures forall j: nat :: j > r ==> !At(s, t, j)
  {
    LastIndexBelow(s, t, |s| + 1)
  }

  function TrimPrefix(s: string, t: string): string {
    if HasPrefix(s, t) then s[|t|..] else s
  }

  function TrimSuffix(s: string, t: string): string {
    if HasSuffix(s, t) then s[..|s| - |t|] else s
  }

  lemma {:induction false} Ends(a: string, b: string)
    ensures HasPrefix(a + b, a) && TrimPrefix(a + b, a) == b
    ensures HasSuffix(a + b, b) && TrimSuffix(a + b, b) == a
  {
  }

  /** The last marker is where one was put if no other one can start later. */
  lemma {:induction false} LastIndexOf(a: string, t: string, b: string)
    requires forall j: nat :: j > 0 ==> !At(t + b, t, j)
    ensures LastIndex(a + t + b, t) == |a|
  {
    var s := a + t + b;
    var r := LastIndex(s, t);
    assert At(s, t, |a|);
    if r > |a| {
      assert s[r..r + |t|] == (t + b)[r - |a|..r - |a| + |t|];
      assert At(t + b, t, r - |a|);
    }
  }

  // ---------- Targets and selectors ----------

  const TerminalTarget := "__5GPN_TERMINAL_MATCH__"
  const ProxyName := "MODULE-INTERCEPT"

  function Utf8Length(s: string): nat {
    if s == [] then 0 else
      var c := s[|s| - 1] as int;
      Utf8Length(s[..|s| - 1]) + (if c < 0x80 then 1 else if c < 0x800 then 2 else if c < 0x10000 then 3 else 4)
  }

  predicate IsControl(c: char) {
    (c as int) < 0x20 || 0x7f <= c as int < 0xa0
  }

  /** `validateInterceptEgressGroupBinding`: the empty binding is allowed. */
  predicate ValidGroup(group: string) {
    group != [] ==>
      && group != TerminalTarget
      && TrimSpace(group) == group && Utf8Length(group) <= 128
      && forall i :: 0 <= i < |group| ==> group[i] != ',' && !IsControl(group[i])
  }

  predicate ValidTarget(target: string) {
    target != [] && (target == TerminalTarget || ValidGroup(target))
  }

  predicate IsOctet(s: string) {
    && 1 <= |s| <= 3
    && (forall i :: 0 <= i < |s| ==> IsDigit(s[i]))
    && (|s| > 1 ==> s[0] != '0')
    && DigitsValue(s) <= 255
  }

  /** `n` octets joined by dots: the canonical form of an address for n = 4. */
  predicate IsOctets(s: string, n: nat)
    decreases n
  {
    if n <= 1 then n == 1 && IsOctet(s)
    else exists k :: 0 <= k < |s| && s[k] == '.' && IsOctet(s[..k]) && IsOctets(s[k + 1..], n - 1)
  }

  predicate ValidAddress(value: string) {
    HasSuffix(value, "/32") && IsOctets(TrimSuffix(value, "/32"), 4)
  }

  predicate ValidValue(kind: Kind, value: string) {
    match kind
    case Domain => !IsWildcard(value) && ValidHostPattern(value)
    case DomainWildcard => IsWildcard(value) && ValidHostPattern(value)
    case DomainSuffix => !IsWildcard(value) && ValidHostPattern(value)
    case IpCidr => ValidAddress(value)
  }

  predicate ValidSelector(s: Selector) {
    1 <= s.port <= 65535 && ValidValue(s.kind, s.value)
  }

  // ---------- Printing ----------

  function KindText(k: Kind): string {
    match k
    case Domain => "DOMAIN,"
    case DomainWildcard => "DOMAIN-WILDCARD,"
    case DomainSuffix => "DOMAIN-SUFFIX,"
    case IpCidr => "IP-CIDR,"
  }

  /** The part between "(" and "),(DST-PORT,". */
  function MatcherText(s: Selector): string {
    KindText(s.kind) + (if s.kind.IpCidr? then s.value + ",no-resolve" else s.value)
  }

  const ListenerMatcher := "(IN-NAME,intercept-egress)"
  const EgressPrefix := "AND,(" + ListenerMatcher + ",("
  const PortMarker := "),(DST-PORT,"

  function RenderEgress(s: Selector, target: string): string {
    EgressPrefix + MatcherText(s) + PortMarker + Itoa(s.port) + "))," + target
  }

  function RenderCapture(s: Selector): string {
    "AND,((" + (KindText(s.kind) + s.value) + PortMarker + Itoa(s.port) + "))," + ProxyName
  }

  // ---------- Parsing ----------

  function RuleTarget(rule: string): (r: Option<string>)
    ensures r.Some? ==> ValidTarget(r.value)
  {
    var index := LastIndex(rule, ")),");
    if index < 0 || index + 3 >= |rule| then None else
      var target := rule[index + 3..];
      if target != TerminalTarget && !ValidGroup(target) then None else Some(target)
  }

  function ParseMatcher(matcher: string, port: nat): (r: Option<Selector>)
    ensures r.Some? ==> r.value.port == port && ValidValue(r.value.kind, r.value.value)
  {
    if HasPrefix(matcher, "DOMAIN,") then
      var value := TrimPrefix(matcher, "DOMAIN,");
      if ValidValue(Domain, value) then Some(Selector(Domain, value, port)) else None
    else if HasPrefix(matcher, "DOMAIN-WILDCARD,") then
      var value := TrimPrefix(matcher, "DOMAIN-WILDCARD,");
      if ValidValue(DomainWildcard, value) then Some(Selector(DomainWildcard, value, port)) else None
    else if HasPrefix(matcher, "DOMAIN-SUFFIX,") then
      var value := TrimPrefix(matcher, "DOMAIN-SUFFIX,");
      if ValidValue(DomainSuffix, value) then Some(Selector(DomainSuffix, value, port)) else None
    else if HasPrefix(matcher, "IP-CIDR,") && HasSuffix(matcher, ",no-resolve") then
      var value := TrimSuffix(TrimPrefix(matcher, "IP-CIDR,"), ",no-resolve");
      if ValidValue(IpCidr, value) then Some(Selector(IpCidr, value, port)) else None
    else None
  }

  function ParseBody(body: string): (r: Option<Selector>)
    ensures r.Some? ==> ValidSelector(r.value)
  {
    var portAt := LastIndex(body, PortMarker);
    if portAt < 0 || !HasSuffix(body, "))") then None else
      var portText := TrimSuffix(body[portAt + |PortMarker|..], "))");
      var port := Atoi(portText);
      if port.None? || port.value < 1 || port.value > 65535 || Itoa(port.value) != portText then None
      else ParseMatcher(body[..portAt], port.value)
  }

  function ParseEgress(rule: string): (r: Option<(Selector, string)>)
  {
    if !HasPrefix(rule, EgressPrefix) then None else
      var target := RuleTarget(rule);
      if target.None? then None else
        var selector := ParseBody(TrimSuffix(TrimPrefix(rule, EgressPrefix), "," + target.value));
        if selector.None? || RenderEgress(selector.value, target.value) != rule then None
        else Some((selector.value, target.value))
  }

  // ---------- Printing then parsing ----------

  lemma {:induction false} ValidTargetHasNoComma(target: string, i: nat)
    requires ValidTarget(target) && i < |target|
    ensures target[i] != ','
  {
  }

  /** A marker ending in a comma is not found inside a text without commas. */
  lemma {:induction false} LastBeforeTarget(head: string, sep: string, target: string)
    requires |sep| == 3 && sep[2] == ','
    requires forall i :: 0 <= i < |target| ==> target[i] != ','
    ensures LastIndex(head + sep + target, sep) == |head|
    ensures (head + sep + target)[|head| + 3..] == target
  {
    forall j: nat | j > 0
      ensures !At(sep + target, sep, j)
    {
      if j + 3 <= |sep + target| {
        assert (sep + target)[j..j + 3][2] == target[j - 1];
      }
    }
    LastIndexOf(head, sep, target);
  }

  lemma {:induction false} TargetOfRender(head: string, target: string)
    requires ValidTarget(target)
    ensures RuleTarget(head + ")),"  + target) == Some(target)
  {
    forall i | 0 <= i < |target|
      ensures target[i] != ','
    {
      ValidTargetHasNoComma(target, i);
    }
    LastBeforeTarget(head, ")),", target);
  }

  /** A marker whose first character ends up only in the last two places fits nowhere after its own. */
  lemma {:induction false} LastBeforePort(matcher: string, marker: string, digits: string, close: string)
    requires |marker| > 2 && |close| == 2
    requires forall i :: 0 < i < |marker| ==> marker[i] != marker[0]
    requires forall i :: 0 <= i < |digits| ==> digits[i] != marker[0]
    ensures LastIndex(matcher + marker + (digits + close), marker) == |matcher|
  {
    var b := digits + close;
    forall j: nat | j > 0
      ensures !At(marker + b, marker, j)
    {
      if j + |marker| <= |marker + b| {
        assert (marker + b)[j..j + |marker|][0] == (marker + b)[j];
        assert (marker + b)[j] == if j < |marker| then marker[j] else digits[j - |marker|];
      }
    }
    LastIndexOf(matcher, marker, b);
  }

  lemma {:induction false} BodyRoundTrip(matcher: string, port: nat)
    requires 1 <= port <= 65535
    ensures ParseBody(matcher + PortMarker + (Itoa(port) + "))")) == ParseMatcher(matcher, port)
  {
    var text, close := Itoa(port), "))";
    var body := matcher + PortMarker + (text + close);
    forall i | 0 <= i < |text|
      ensures text[i] != PortMarker[0]
    {
      assert IsDigit(text[i]);
    }
    LastBeforePort(matcher, PortMarker, text, close);
    Cut(matcher, PortMarker, text + close);
    Ends(text, close);
    Ends(matcher + PortMarker + text, close);
    assert body == matcher + PortMarker + text + close;
    AtoiItoa(port);
  }

  lemma {:induction false} Cut(a: string, b: string, c: string)
    ensures (a + b + c)[..|a|] == a && (a + b + c)[|a| + |b|..] == c
  {
  }

  lemma {:induction false} PrefixDiffers(s: string, t: string, i: nat)
    requires i < |s| && i < |t| && s[i] != t[i]
    ensures !HasPrefix(s, t)
  {
    if |t| <= |s| {
      assert s[..|t|][i] == s[i];
    }
  }

  lemma {:induction false} DomainRoundTrip(value: string, port: nat)
    requires ValidValue(Domain, value)
    ensures ParseMatcher("DOMAIN," + value, port) == Some(Selector(Domain, value, port))
  {
    Ends("DOMAIN,", value);
  }

  lemma {:induction false} WildcardRoundTrip(value: string, port: nat)
    requires ValidValue(DomainWildcard, value)
    ensures ParseMatcher("DOMAIN-WILDCARD," + value, port) == Some(Selector(DomainWildcard, value, port))
  {
    Ends("DOMAIN-WILDCARD,", value);
    PrefixDiffers("DOMAIN-WILDCARD," + value, "DOMAIN,", 6);
  }

  lemma {:induction false} SuffixRoundTrip(value: string, port: nat)
    requires ValidValue(DomainSuffix, value)
    ensures ParseMatcher("DOMAIN-SUFFIX," + value, port) == Some(Selector(DomainSuffix, value, port))
  {
    Ends("DOMAIN-SUFFIX,", value);
    PrefixDiffers("DOMAIN-SUFFIX," + value, "DOMAIN,", 6);
    PrefixDiffers("DOMAIN-SUFFIX," + value, "DOMAIN-WILDCARD,", 7);
  }

  lemma {:induction false} AddressRoundTrip(value: string, port: nat)
    requires ValidValue(IpCidr, value)
    ensures ParseMatcher("IP-CIDR," + (value + ",no-resolve"), port) == Some(Selector(IpCidr, value, port))
  {
    var matcher := "IP-CIDR," + (value + ",no-resolve");
    Ends("IP-CIDR,", value + ",no-resolve");
    Ends(value, ",no-resolve");
    Ends("IP-CIDR," + value, ",no-resolve");
    assert matcher == "IP-CIDR," + value + ",no-resolve";
    PrefixDiffers(matcher, "DOMAIN,", 0);
    PrefixDiffers(matcher, "DOMAIN-WILDCARD,", 0);
    PrefixDiffers(matcher, "DOMAIN-SUFFIX,", 0);
  }

  lemma {:induction false} MatcherRoundTrip(s: Selector)
    requires ValidSelector(s)
    ensures ParseMatcher(MatcherText(s), s.port) == Some(s)
  {
    match s.kind
    case Domain => DomainRoundTrip(s.value, s.port);
    case DomainWildcard => WildcardRoundTrip(s.value, s.port);
    case DomainSuffix => SuffixRoundTrip(s.value, s.port);
    case IpCidr => AddressRoundTrip(s.value, s.port);
  }

  /** Regrouping of the pieces of a rule. */
  lemma {:induction false} Pieces(prefix: string, matcher: string, marker: string, digits: string, target: string)
    ensures var rule := prefix + matcher + marker + digits + "))," + target;
            var body := matcher + marker + (digits + "))");
            && rule == (prefix + matcher + marker + digits) + "))," + target
            && HasPrefix(rule, prefix)
            && TrimSuffix(TrimPrefix(rule, prefix), "," + target) == body
  {
    var rule := prefix + matcher + marker + digits + "))," + target;
    var body := matcher + marker + (digits + "))");
    assert rule == prefix + (body + ("," + target));
    Ends(prefix, body + ("," + target));
    Ends(body, "," + target);
  }

  /** Every valid egress rule is read back as the selector and target it was printed from. */
  lemma {:induction false} ParseRender(s: Selector, target: string)
    requires ValidSelector(s) && ValidTarget(target)
    ensures ParseEgress(RenderEgress(s, target)) == Some((s, target))
  {
    Pieces(EgressPrefix, MatcherText(s), PortMarker, Itoa(s.port), target);
    TargetOfRender(EgressPrefix + MatcherText(s) + PortMarker + Itoa(s.port), target);
    BodyRoundTrip(MatcherText(s), s.port);
    MatcherRoundTrip(s);
  }

  /** Whatever the parser accepts is valid and prints back to the very same text. */
  lemma {:induction false} RenderParse(rule: string)
    requires ParseEgress(rule).Some?
    ensures var (s, target) := ParseEgress(rule).value;
            RenderEgress(s, target) == rule && ValidSelector(s) && ValidTarget(target)
  {
  }

  /** So the accepted texts are exactly the printed ones. */
  lemma {:induction false} AcceptedIffPrinted(rule: string)
    ensures ParseEgress(rule).Some? <==> exists s, target :: ValidSelector(s) && ValidTarget(target) && rule == RenderEgress(s, target)
  {
    if ParseEgress(rule).Some? {
      RenderParse(rule);
      var (s, target) := ParseEgress(rule).value;
      assert ValidSelector(s) && ValidTarget(target) && rule == RenderEgress(s, target);
    }
    if s, target :| ValidSelector(s) && ValidTarget(target) && rule == RenderEgress(s, target) {
      ParseRender(s, target);
    }
  }

  /** Rule equality is equality of selector and target. */
  lemma {:induction false} RenderInjective(s: Selector, t: string, s': Selector, t': string)
    requires ValidSelector(s) && ValidTarget(t) && ValidSelector(s') && ValidTarget(t')
    ensures RenderEgress(s, t) == RenderEgress(s', t') <==> s == s' && t == t'
  {
    ParseRender(s, t);
    ParseRender(s', t');
  }

  /** Filling in the terminal target on the text is printing with that target. */
  lemma {:induction false} MaterializeText(s: Selector, matchTarget: string)
    ensures TrimSuffix(RenderEgress(s, TerminalTarget), "," + TerminalTarget) + "," + matchTarget == RenderEgress(s, matchTarget)
  {
    var head := EgressPrefix + MatcherText(s) + PortMarker + Itoa(s.port) + "))";
    Ends(head, "," + TerminalTarget);
    assert RenderEgress(s, TerminalTarget) == head + ("," + TerminalTarget);
    assert RenderEgress(s, matchTarget) == head + "," + matchTarget;
  }
}
