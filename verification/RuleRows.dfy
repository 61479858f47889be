/**
 How the text of a rule is classified, and what the compiled
 rules are classified as.
 */
module RuleRows {
  import opened Options
  import opened Names
  import opened RuleText
  import opened CaptureRouting
  import opened RuleSplice

  const RejectText := "IN-NAME,intercept-egress,REJECT"
  const ListenerPrefix := "IN-NAME,intercept-egress,"
  const UdpMatcher := "(NETWORK,UDP)"
  const PortMatcher := "(DST-PORT,443)"
  const QuicBase := "AND,(" + UdpMatcher + "," + PortMatcher + ")"

  // ---------- The classifiers ----------

  /** `compactMihomoRule`: every blank removed. */
  function Compact(s: string): string {
    if s == [] then [] else
      var n := |s| - 1;
      if IsSpace(s[n]) then Compact(s[..n]) else Compact(s[..n]) + [s[n]]
  }

  predicate Contains(s: string, t: string) {
    exists j :: 0 <= j <= |s| && At(s, t, j)
  }

  predicate Touches(raw: string) {
    HasPrefix(raw, ListenerPrefix) || Contains(raw, ListenerMatcher)
  }

  predicate Proxied(compact: string) {
    HasSuffix(compact, "," + ProxyName)
  }

  predicate DenyQuic(compact: string) {
    compact == QuicBase + ",REJECT" || compact == QuicBase + ",REJECT-DROP"
  }

  /** Position of the first comma, or the end. */
  function FirstComma(s: string): (r: nat)
    ensures r <= |s| && (r < |s| ==> s[r] == ',') && forall i :: 0 <= i < r ==> s[i] != ','
  {
    if s == [] || s[0] == ',' then 0 else 1 + FirstComma(s[1..])
  }

  predicate IsMatch(raw: string) {
    FirstComma(raw) < |raw| && TrimSpace(raw[..FirstComma(raw)]) == "MATCH"
  }

  function MatchTarget(raw: string): Option<string> {
    if !IsMatch(raw) then None else
      var target := TrimSpace(raw[FirstComma(raw) + 1..]);
      if ',' in target || target == [] || !ValidGroup(target) then None else Some(target)
  }

  function CapturePrefix(kind: Kind): string {
    "AND,((" + KindText(kind)
  }

  function CaptureSuffix(port: nat): string {
    PortMarker + Itoa(port) + "))," + ProxyName
  }

  /** The prefixes and suffixes exclude each other, so at most one kind and port apply. */
  predicate CaptureForm(rule: string, kind: Kind, port: nat) {
    && HasPrefix(rule, CapturePrefix(kind)) && HasSuffix(rule, CaptureSuffix(port))
    && ValidValue(kind, TrimSuffix(TrimPrefix(rule, CapturePrefix(kind)), CaptureSuffix(port)))
  }

  predicate CanonicalCapture(rule: string) {
    || CaptureForm(rule, Domain, 80) || CaptureForm(rule, DomainSuffix, 80) || CaptureForm(rule, DomainWildcard, 80)
    || CaptureForm(rule, Domain, 443) || CaptureForm(rule, DomainSuffix, 443) || CaptureForm(rule, DomainWildcard, 443)
  }

  function Read(text: string): Row {
    var raw, compact := TrimSpace(text), Compact(text);
    var parsed := ParseEgress(raw);
    Row(text, raw, compact, raw == RejectText, Touches(raw), if parsed.Some? then Some(parsed.value.0) else None,
        Proxied(compact), CanonicalCapture(compact), DenyQuic(compact), IsMatch(raw), MatchTarget(raw))
  }

  // ---------- Facts about compaction and first characters ----------

  lemma {:induction false} CompactConcat(a: string, b: string)
    ensures Compact(a + b) == Compact(a) + Compact(b)
  {
    if b == [] {
      assert a + b == a;
    } else {
      var n := |b| - 1;
      CompactConcat(a, b[..n]);
      assert (a + b)[..|a + b| - 1] == a + b[..n];
    }
  }

  lemma {:induction false} CompactSame(s: string)
    requires NoBlank(s)
    ensures Compact(s) == s
  {
    if s != [] {
      CompactSame(s[..|s| - 1]);
    }
  }

  lemma {:induction false} CompactHasNoComma(s: string)
    requires ',' !in s
    ensures ',' !in Compact(s)
  {
    if s != [] {
      CompactHasNoComma(s[..|s| - 1]);
    }
  }

  /** A text that starts with a letter other than M and I is neither a MATCH rule nor about the listener. */
  lemma {:induction false} FirstLetter(t: string)
    requires t != [] && !IsSpace(t[0]) && !IsSpace(t[|t| - 1]) && t[0] != 'M' && t[0] != ','
    ensures TrimSpace(t) == t && !IsMatch(t) && MatchTarget(t).None?
    ensures t[0] != 'I' ==> t != RejectText && !HasPrefix(t, ListenerPrefix)
  {
    var kind := t[..FirstComma(t)];
    if FirstComma(t) < |t| {
      assert kind[0] == t[0];
      assert TrimLeft(kind) == kind;
      TrimRightChars(kind);
      assert kind[0] in TrimRight(kind);
      assert TrimSpace(kind)[0] == 'M' || TrimSpace(kind) != "MATCH";
    }
    if t[0] != 'I' {
      PrefixDiffers(t, ListenerPrefix, 0);
    }
  }

  /** No opening parenthesis is followed by "IN". */
  predicate OpensWell(s: string) {
    forall i :: 0 <= i < |s| && s[i] == '(' ==> i + 2 < |s| && !(s[i + 1] == 'I' && s[i + 2] == 'N')
  }

  lemma {:induction false} OpensWellConcat(a: string, b: string)
    requires OpensWell(a) && OpensWell(b)
    ensures OpensWell(a + b)
  {
    var s := a + b;
    forall i | 0 <= i < |s| && s[i] == '('
      ensures i + 2 < |s| && !(s[i + 1] == 'I' && s[i + 2] == 'N')
    {
      if i < |a| {
        assert a[i] == '(';
      } else {
        assert b[i - |a|] == '(';
      }
    }
  }

  lemma {:induction false} OpensWellNotListener(s: string)
    requires OpensWell(s)
    ensures !Contains(s, ListenerMatcher)
  {
    forall j | 0 <= j <= |s|
      ensures !At(s, ListenerMatcher, j)
    {
      if j + |ListenerMatcher| <= |s| {
        var w := s[j..j + |ListenerMatcher|];
        assert w[0] == s[j] && w[1] == s[j + 1] && w[2] == s[j + 2];
      }
    }
  }

  /** Ending in ",T" with comma-free T: the last comma is the one before T. */
  lemma {:induction false} LastPart(head: string, a: string, b: string)
    requires ',' !in a && ',' !in b
    ensures HasSuffix(head + "," + a, "," + b) <==> a == b
  {
    var s, t := head + "," + a, "," + b;
    if |a| == |b| {
      assert s[|head|..] == "," + a;
      assert ("," + a)[1..] == a && t[1..] == b;
    } else if |a| > |b| {
      var at := |s| - |t|;
      assert s[at..][0] == s[at] == a[|a| - |b| - 1];
    } else if |t| <= |s| {
      var k := |b| - |a|;
      assert s[|s| - |t|..][k] == s[|head|];
      assert t[k] == b[k - 1];
    }
  }

  // ---------- Compiled rows ----------

  lemma {:induction false} ProxyHasNoComma()
    ensures ',' !in ProxyName
  {
  }

  lemma {:induction false} TargetEnds(target: string)
    requires ValidTarget(target)
    ensures !IsSpace(target[|target| - 1]) && ',' !in target
  {
    if target == TerminalTarget {
      assert target[|target| - 1] == '_';
    } else {
      TrimEnds(target);
    }
  }

  lemma {:induction false} TrimEnds(s: string)
    requires s != [] && TrimSpace(s) == s
    ensures !IsSpace(s[|s| - 1])
  {
    var left := TrimLeft(s);
    TrimLeftChars(s);
    TrimRightChars(left);
    if IsSpace(s[|s| - 1]) {
      assert left == s;
      TrimRightChars(s[..|s| - 1]);
    }
  }

  /** Every egress rule is recognised; it passes for a capture rule exactly if its target compacts to the proxy. */
  lemma {:induction false} EgressRowFacts(s: Selector, target: string)
    requires ValidSelector(s) && ValidTarget(target)
    ensures var r := Read(RenderEgress(s, target));
            EgressRow(r) && r.raw == r.text && r.egress == Some(s) && (r.proxied <==> Compact(target) == ProxyName)
  {
    var t := RenderEgress(s, target);
    TargetEnds(target);
    EgressText(s, target);
    EgressMentionsListener(s, target);
    FirstLetter(t);
    ParseRender(s, target);
    EgressProxied(EgressPrefix + MatcherText(s) + PortMarker + Itoa(s.port) + "))", target);
  }

  lemma {:induction false} CompactLastPart(head: string, target: string)
    ensures Compact(head + ("," + target)) == Compact(head) + "," + Compact(target)
  {
    CompactConcat(head, "," + target);
    CompactConcat(",", target);
    CompactSame(",");
    assert Compact(head) + ("," + Compact(target)) == Compact(head) + "," + Compact(target);
  }

  lemma {:induction false} EgressProxied(head: string, target: string)
    requires ',' !in target
    ensures Proxied(Compact(head + ("," + target))) <==> Compact(target) == ProxyName
  {
    CompactLastPart(head, target);
    CompactHasNoComma(target);
    ProxyHasNoComma();
    LastPart(Compact(head), Compact(target), ProxyName);
  }

  lemma {:induction false} EgressText(s: Selector, target: string)
    requires target != []
    ensures var t := RenderEgress(s, target);
            && t[0] == 'A' && t[|t| - 1] == target[|target| - 1]
            && t == EgressPrefix + MatcherText(s) + PortMarker + Itoa(s.port) + "))" + ("," + target)
  {
  }

  lemma {:induction false} EgressMentionsListener(s: Selector, target: string)
    ensures Contains(RenderEgress(s, target), ListenerMatcher)
  {
    var head, rest := "AND,(", MatcherText(s) + PortMarker + Itoa(s.port) + ")),"+ target;
    Regroup(EgressPrefix, MatcherText(s), PortMarker, Itoa(s.port), ")),", target);
    Cut(head, ListenerMatcher, ",(");
    assert At(head + ListenerMatcher + ",(", ListenerMatcher, |head|);
    AtConcat(EgressPrefix, rest, ListenerMatcher, |head|);
  }

  lemma {:induction false} AtConcat(a: string, b: string, t: string, j: nat)
    requires At(a, t, j)
    ensures At(a + b, t, j)
  {
    assert (a + b)[j..j + |t|] == a[j..j + |t|];
  }

  lemma {:induction false} NoBlankConcat(a: string, b: string)
    requires NoBlank(a) && NoBlank(b)
    ensures NoBlank(a + b)
  {
  }

  lemma {:induction false} DigitsPlain(s: string)
    requires forall i :: 0 <= i < |s| ==> IsDigit(s[i])
    ensures NoBlank(s) && OpensWell(s)
  {
  }

  lemma {:induction false} KindTextPlain(kind: Kind)
    requires !kind.IpCidr?
    ensures var k := KindText(kind); |k| > 2 && k[0] == 'D' && NoBlank(k) && '(' !in k
  {
    match kind
    case Domain =>
    case DomainSuffix =>
    case DomainWildcard =>
  }

  lemma {:induction false} OpenThen(k: string)
    requires |k| > 2 && k[0] == 'D' && NoBlank(k) && '(' !in k
    ensures var t := "AND,((" + k; NoBlank(t) && OpensWell(t) && t[0] == 'A' && t[6] == 'D'
  {
    var head := "AND,((";
    var t := head + k;
    NoBlankConcat(head, k);
    assert forall i :: 6 <= i < |t| ==> t[i] == k[i - 6];
  }

  lemma {:induction false} CaptureHead(kind: Kind)
    requires !kind.IpCidr?
    ensures NoBlank(CapturePrefix(kind)) && OpensWell(CapturePrefix(kind))
    ensures CapturePrefix(kind)[0] == 'A' && |CapturePrefix(kind)| > 6 && CapturePrefix(kind)[6] == 'D'
  {
    KindTextPlain(kind);
    OpenThen(KindText(kind));
  }

  lemma {:induction false} CaptureTailPlain(port: nat)
    ensures NoBlank(CaptureSuffix(port)) && OpensWell(CaptureSuffix(port))
    ensures CaptureSuffix(port)[|CaptureSuffix(port)| - 1] == 'T'
    ensures CaptureSuffix(port) == PortMarker + Itoa(port) + "))" + "," + ProxyName
  {
    DigitsPlain(Itoa(port));
    NoBlankConcat(PortMarker, Itoa(port));
    NoBlankConcat(PortMarker + Itoa(port), ")),");
    NoBlankConcat(PortMarker + Itoa(port) + ")),", ProxyName);
    OpensWellConcat(PortMarker, Itoa(port));
    OpensWellConcat(PortMarker + Itoa(port), ")),");
    OpensWellConcat(PortMarker + Itoa(port) + ")),", ProxyName);
    assert ProxyName[15] == 'T';
  }

  lemma {:induction false} HostValuePlain(value: string)
    requires ValidHostPattern(value)
    ensures OpensWell(value)
  {
    HostChars(value);
    forall i | 0 <= i < |value|
      ensures value[i] != '('
    {
      assert IsHostChar(value[i]);
    }
  }

  lemma {:induction false} CaptureIsCanonical(s: Selector)
    requires CaptureSelector(s) && WebPort(s.port)
    ensures CanonicalCapture(CapturePrefix(s.kind) + s.value + CaptureSuffix(s.port))
  {
    var a, v, b := CapturePrefix(s.kind), s.value, CaptureSuffix(s.port);
    RuleText.Ends(a, v + b);
    RuleText.Ends(v, b);
    RuleText.Ends(a + v, b);
    assert a + v + b == a + (v + b);
    assert CaptureForm(a + v + b, s.kind, s.port);
  }

  lemma {:induction false} CaptureParts(s: Selector)
    ensures RenderCapture(s) == CapturePrefix(s.kind) + s.value + CaptureSuffix(s.port)
  {
    Regroup(CapturePrefix(s.kind) + s.value, PortMarker, Itoa(s.port), ")),", ProxyName, "");
    assert "AND,((" + (KindText(s.kind) + s.value) == CapturePrefix(s.kind) + s.value;
  }

  /** A capture rule for a host without blanks is recognised as one, and as nothing else. */
  lemma {:induction false} CaptureRowFacts(s: Selector)
    requires CaptureSelector(s) && WebPort(s.port) && NoBlank(s.value)
    ensures var r := Read(RenderCapture(s)); CaptureRow(r) && r.canonical
  {
    var a, v, b := CapturePrefix(s.kind), s.value, CaptureSuffix(s.port);
    CaptureParts(s);
    CaptureHead(s.kind);
    CaptureTailPlain(s.port);
    HostValuePlain(v);
    CaptureIsCanonical(s);
    CaptureText(a, v, b, PortMarker + Itoa(s.port) + "))");
  }

  lemma {:induction false} CaptureText(a: string, v: string, b: string, c: string)
    requires NoBlank(a) && NoBlank(v) && NoBlank(b) && OpensWell(a) && OpensWell(v) && OpensWell(b)
    requires |a| > 6 && a[0] == 'A' && a[6] == 'D' && b != [] && b[|b| - 1] == 'T'
    requires b == c + "," + ProxyName
    ensures var t := a + v + b;
            && TrimSpace(t) == t && Compact(t) == t && t != RejectText && !Touches(t) && !IsMatch(t)
            && Proxied(t) && !DenyQuic(t)
  {
    var t := a + v + b;
    NoBlankConcat(a, v);
    NoBlankConcat(a + v, b);
    CompactSame(t);
    OpensWellConcat(a, v);
    OpensWellConcat(a + v, b);
    OpensWellNotListener(t);
    FirstLetter(t);
    ProxyHasNoComma();
    LastPart(a + v + c, ProxyName, ProxyName);
    assert t == a + v + c + "," + ProxyName;
    NotDenyQuic(t);
  }

  lemma {:induction false} NotDenyQuic(t: string)
    requires |t| <= 6 || t[6] != 'N'
    ensures !DenyQuic(t)
  {
    assert (QuicBase + ",REJECT")[6] == 'N' && (QuicBase + ",REJECT-DROP")[6] == 'N';
  }

  lemma {:induction false} RejectRowFacts()
    ensures RejectRow(Read(RejectText))
  {
    assert RejectText[|RejectText| - 1] == 'T';
    FirstLetter(RejectText);
  }

  // ---------- MATCH rows ----------

  const FinalText := "MATCH" + "," + "DIRECT"

  lemma {:induction false} CommaAfter(a: string, b: string)
    requires ',' !in a
    ensures FirstComma(a + "," + b) == |a|
  {
    var s := a + "," + b;
    assert s[|a|] == ',';
    assert forall i :: 0 <= i < |a| ==> s[i] == a[i];
  }

  lemma {:induction false} MatchShape(kind: string, target: string)
    requires kind == "MATCH" && target != [] && NoBlank(target) && ',' !in target && ValidGroup(target)
    ensures var t := kind + "," + target;
            NoBlank(t) && TrimSpace(t) == t && IsMatch(t) && MatchTarget(t) == Some(target)
  {
    var t := kind + "," + target;
    CommaAfter(kind, target);
    Cut(kind, ",", target);
    OuterCharsTrimmed(kind);
    OuterCharsTrimmed(target);
    OuterCharsTrimmed(t);
  }

  lemma {:induction false} DirectIsGroup()
    ensures ValidGroup("DIRECT") && NoBlank("DIRECT")
  {
    OuterCharsTrimmed("DIRECT");
    Utf8Bound("DIRECT");
    PrefixDiffers("DIRECT", TerminalTarget, 0);
    PlainChars("DIRECT");
  }

  /** A rule that starts with M, has no parenthesis and does not end in the proxy is nothing but a final rule. */
  lemma {:induction false} FinalIsPlain(t: string, head: string, target: string)
    requires t == head + "," + target && t[0] == 'M' && NoBlank(t) && '(' !in t && ',' !in target && target != ProxyName
    ensures Compact(t) == t && t != RejectText && !Touches(t) && !Proxied(t)
  {
    CompactSame(t);
    OpensWellNotListener(t);
    PrefixDiffers(t, ListenerPrefix, 0);
    PrefixDiffers(t, RejectText, 0);
    ProxyHasNoComma();
    LastPart(head, target, ProxyName);
  }

  /** An example of the rule that closes a list. */
  lemma {:induction false} FinalTextFacts()
    ensures TrimSpace(FinalText) == FinalText && Compact(FinalText) == FinalText
    ensures IsMatch(FinalText) && MatchTarget(FinalText) == Some("DIRECT")
    ensures FinalText != RejectText && !Touches(FinalText) && !Proxied(FinalText)
  {
    DirectIsGroup();
    MatchShape("MATCH", "DIRECT");
    PrefixDiffers("DIRECT", ProxyName, 0);
    FinalIsPlain(FinalText, "MATCH", "DIRECT");
  }

  lemma {:induction false} RejectTextFacts()
    ensures TrimSpace(RejectText) == RejectText && Compact(RejectText) == RejectText && !IsMatch(RejectText) && MatchTarget(RejectText).None?
  {
    assert NoBlank(ListenerPrefix) && NoBlank("REJECT");
    NoBlankConcat(ListenerPrefix, "REJECT");
    assert RejectText == ListenerPrefix + "REJECT";
    assert RejectText[|RejectText| - 1] == 'T';
    CompactSame(RejectText);
    FirstLetter(RejectText);
  }

  lemma {:induction false} CompactFirst(s: string)
    requires TrimLeft(s) != []
    ensures Compact(s) != [] && Compact(s)[0] == TrimLeft(s)[0]
  {
    assert s == [s[0]] + s[1..];
    CompactConcat([s[0]], s[1..]);
    assert [s[0]][..0] == [];
    if IsSpace(s[0]) {
      CompactFirst(s[1..]);
    }
  }

  lemma {:induction false} TrimLeftStarts(s: string)
    ensures TrimLeft(s) != [] ==> !IsSpace(TrimLeft(s)[0])
  {
    if s != [] && IsSpace(s[0]) {
      TrimLeftStarts(s[1..]);
    }
  }

  lemma {:induction false} MatchIsNotQuic(text: string)
    requires IsMatch(TrimSpace(text))
    ensures !DenyQuic(Compact(text))
  {
    var raw := TrimSpace(text);
    TrimRightChars(TrimLeft(text));
    TrimLeftStarts(text);
    assert raw[0] == TrimLeft(text)[0];
    var kind := raw[..FirstComma(raw)];
    TrimRightChars(kind);
    assert kind != [];
    assert kind[0] == raw[0] && TrimLeft(kind) == kind;
    assert TrimSpace(kind)[0] == kind[0];
    CompactFirst(text);
    assert (QuicBase + ",REJECT")[0] == 'A' && (QuicBase + ",REJECT-DROP")[0] == 'A';
  }
}
