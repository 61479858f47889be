/**
 Declared routing rules as text, and why the analysis never
 mistakes one for something else.
 */
module PolicyText {
  import opened Names
  import opened Documents
  import opened RuleText
  import opened RuleSplice
  import opened RuleRows

  // ---------- Printing ----------

  function UpperChar(c: char): char {
    if 'a' <= c <= 'z' then c - 'a' + 'A' else c
  }

  function Upper(s: string): (r: string)
    ensures |r| == |s| && forall i :: 0 <= i < |r| ==> r[i] == UpperChar(s[i])
  {
    seq(|s|, i requires 0 <= i < |s| => UpperChar(s[i]))
  }

  function One(given: bool, matcher: string): seq<string> {
    if given then [matcher] else []
  }

  function KeywordMatcher(keyword: string): string {
    "DOMAIN-KEYWORD," + keyword
  }

  function KeywordMatchers(keywords: seq<string>): (r: seq<string>)
    ensures |r| == |keywords| && forall i :: 0 <= i < |r| ==> r[i] == KeywordMatcher(keywords[i])
  {
    seq(|keywords|, i requires 0 <= i < |keywords| => KeywordMatcher(keywords[i]))
  }

  /** Matchers in parentheses, separated by commas. */
  function Join(matchers: seq<string>): string {
    if matchers == [] then ""
    else if |matchers| == 1 then "(" + matchers[0] + ")"
    else Join(matchers[..|matchers| - 1]) + ",(" + matchers[|matchers| - 1] + ")"
  }

  function AnyOf(keywords: seq<string>): seq<string> {
    if keywords == [] then []
    else if |keywords| == 1 then KeywordMatchers(keywords)
    else ["OR,(" + Join(KeywordMatchers(keywords)) + ")"]
  }

  function CidrKind(cidr: string): string {
    if ':' in cidr then "IP-CIDR6," else "IP-CIDR,"
  }

  /** The matchers of a rule without their outer parentheses. */
  function Matchers(r: Route): seq<string> {
    One(r.domain != [], "DOMAIN," + r.domain)
    + One(r.suffix != [], "DOMAIN-SUFFIX," + r.suffix)
    + One(r.cidr != [], CidrKind(r.cidr) + r.cidr + ",no-resolve")
    + AnyOf(r.anyKeywords) + KeywordMatchers(r.allKeywords)
    + One(r.network != [], "NETWORK," + Upper(r.network))
    + One(r.port != 0, "DST-PORT," + Itoa(r.port))
  }

  function Action(r: Route): string {
    if r.reject then "REJECT" else "DIRECT"
  }

  function RenderPolicy(r: Route): string {
    var matchers := Matchers(r);
    if |matchers| == 1 then
      if r.cidr != [] then CidrKind(r.cidr) + r.cidr + "," + Action(r) + ",no-resolve"
      else matchers[0] + "," + Action(r)
    else "AND,(" + Join(matchers) + ")," + Action(r)
  }

  // ---------- Validation ----------

  predicate PlainChar(c: char) {
    'a' <= c <= 'z' || '0' <= c <= '9' || c == '.' || c == '-' || c == '_' || c == ':' || c == '/'
  }

  /** Domains, networks in CIDR form and keywords use no other characters. */
  predicate PlainValue(s: string) {
    forall i :: 0 <= i < |s| ==> PlainChar(s[i])
  }

  predicate ValidRoute(r: Route) {
    && PlainValue(r.domain) && PlainValue(r.suffix) && PlainValue(r.cidr) && PlainValue(r.network)
    && (forall i :: 0 <= i < |r.anyKeywords| ==> PlainValue(r.anyKeywords[i]))
    && (forall i :: 0 <= i < |r.allKeywords| ==> PlainValue(r.allKeywords[i]))
    && (r.domain != [] || r.suffix != [] || r.cidr != [] || r.anyKeywords != [] || r.allKeywords != [])
  }

  // ---------- Characters of the printed text ----------

  /** Text without blanks and parentheses. */
  predicate Flat(s: string) {
    NoBlank(s) && '(' !in s
  }

  predicate MatcherOk(m: string) {
    |m| > 2 && NoBlank(m) && OpensWell(m) && (m[0] == 'D' || m[0] == 'O' || m[0] == 'N' || (m[0] == 'I' && m[1] == 'P'))
  }

  predicate AllOk(matchers: seq<string>) {
    forall i :: 0 <= i < |matchers| ==> MatcherOk(matchers[i])
  }

  lemma {:induction false} FlatConcat(a: string, b: string)
    requires Flat(a) && Flat(b)
    ensures Flat(a + b) && OpensWell(a + b)
  {
  }

  lemma {:induction false} PlainIsFlat(s: string)
    requires PlainValue(s)
    ensures Flat(s) && Flat(Upper(s))
  {
    forall i | 0 <= i < |s|
      ensures s[i] != '(' && !IsSpace(s[i]) && Upper(s)[i] != '(' && !IsSpace(Upper(s)[i])
    {
      assert PlainChar(s[i]);
    }
  }

  predicate HeadOk(k: string) {
    |k| > 2 && Flat(k) && (k[0] == 'D' || k[0] == 'N' || (k[0] == 'I' && k[1] == 'P'))
  }

  lemma {:induction false} HeadValueOk(k: string, v: string)
    requires HeadOk(k) && Flat(v)
    ensures MatcherOk(k + v) && HeadOk(k + v)
  {
    FlatConcat(k, v);
  }

  lemma {:induction false} Heads()
    ensures HeadOk("DOMAIN,") && HeadOk("DOMAIN-SUFFIX,") && HeadOk("DOMAIN-KEYWORD,") && HeadOk("NETWORK,") && HeadOk("DST-PORT,")
  {
  }

  lemma {:induction false} CidrHead(cidr: string)
    ensures HeadOk(CidrKind(cidr)) && CidrKind(cidr)[0] == 'I'
  {
  }

  lemma {:induction false} CidrOk(cidr: string)
    requires PlainValue(cidr)
    ensures MatcherOk(CidrKind(cidr) + cidr + ",no-resolve") && Flat(CidrKind(cidr) + cidr)
  {
    CidrHead(cidr);
    PlainIsFlat(cidr);
    HeadValueOk(CidrKind(cidr), cidr);
    assert Flat(",no-resolve");
    HeadValueOk(CidrKind(cidr) + cidr, ",no-resolve");
  }

  lemma {:induction false} KeywordsOk(keywords: seq<string>)
    requires forall i :: 0 <= i < |keywords| ==> PlainValue(keywords[i])
    ensures AllOk(KeywordMatchers(keywords))
    ensures forall i :: 0 <= i < |keywords| ==> KeywordMatchers(keywords)[i][0] == 'D'
  {
    Heads();
    forall i | 0 <= i < |keywords|
      ensures MatcherOk(KeywordMatchers(keywords)[i]) && KeywordMatchers(keywords)[i][0] == 'D'
    {
      PlainIsFlat(keywords[i]);
      HeadValueOk("DOMAIN-KEYWORD,", keywords[i]);
    }
  }

  lemma {:induction false} ParenOk(m: string)
    requires MatcherOk(m)
    ensures var p := "(" + m + ")"; NoBlank(p) && OpensWell(p) && |p| > 4 && p[0] == '(' && p[1] == m[0]
  {
    var p := "(" + m + ")";
    assert forall i :: 1 <= i <= |m| ==> p[i] == m[i - 1];
    forall i | 0 <= i < |p| && p[i] == '('
      ensures i + 2 < |p| && !(p[i + 1] == 'I' && p[i + 2] == 'N')
    {
      assert i > 0 ==> m[i - 1] == '(';
    }
  }

  lemma {:induction false} JoinOk(matchers: seq<string>)
    requires matchers != [] && AllOk(matchers)
    ensures var j := Join(matchers); NoBlank(j) && OpensWell(j) && |j| > 4 && j[0] == '(' && j[1] == matchers[0][0]
  {
    var n := |matchers| - 1;
    ParenOk(matchers[n]);
    if n > 0 {
      var init := matchers[..n];
      JoinOk(init);
      var last := "(" + matchers[n] + ")";
      assert OpensWell(",") && NoBlank(",");
      OpensWellConcat(Join(init), ",");
      OpensWellConcat(Join(init) + ",", last);
      assert Join(matchers) == Join(init) + "," + last;
    }
  }

  /** Text around a joined list: the opening parenthesis is followed by another one. */
  lemma {:induction false} AroundJoin(head: string, j: string, tail: string)
    requires Flat(head) && Flat(tail) && NoBlank(j) && OpensWell(j) && |j| > 4 && j[0] == '('
    ensures var t := head + "(" + j + tail; NoBlank(t) && OpensWell(t)
  {
    var t := head + "(" + j + tail;
    var n := |head|;
    assert forall i :: 0 <= i < n ==> t[i] == head[i];
    assert forall i :: n + 1 <= i < n + 1 + |j| ==> t[i] == j[i - n - 1];
    assert forall i :: n + 1 + |j| <= i < |t| ==> t[i] == tail[i - n - 1 - |j|];
    forall i | 0 <= i < |t| && t[i] == '('
      ensures i + 2 < |t| && !(t[i + 1] == 'I' && t[i + 2] == 'N')
    {
      assert i >= n;
      assert i > n ==> i - n - 1 < |j| && j[i - n - 1] == '(';
    }
  }

  lemma {:induction false} AnyOfOk(keywords: seq<string>)
    requires forall i :: 0 <= i < |keywords| ==> PlainValue(keywords[i])
    ensures AllOk(AnyOf(keywords))
    ensures keywords != [] ==> |AnyOf(keywords)| == 1 && AnyOf(keywords)[0][0] != 'N'
  {
    KeywordsOk(keywords);
    if |keywords| > 1 {
      JoinOk(KeywordMatchers(keywords));
      AroundJoin("OR,", Join(KeywordMatchers(keywords)), ")");
      assert "OR,(" == "OR," + "(";
    }
  }

  lemma {:induction false} MatchersOk(r: Route)
    requires ValidRoute(r)
    ensures AllOk(Matchers(r)) && Matchers(r) != [] && Matchers(r)[0][0] != 'N'
  {
    Heads();
    PlainIsFlat(r.domain);
    PlainIsFlat(r.suffix);
    PlainIsFlat(r.network);
    HeadValueOk("DOMAIN,", r.domain);
    HeadValueOk("DOMAIN-SUFFIX,", r.suffix);
    HeadValueOk("NETWORK,", Upper(r.network));
    DigitsFlat(Itoa(r.port));
    HeadValueOk("DST-PORT,", Itoa(r.port));
    CidrOk(r.cidr);
    CidrHead(r.cidr);
    AnyOfOk(r.anyKeywords);
    KeywordsOk(r.allKeywords);
    FirstOf(One(r.domain != [], "DOMAIN," + r.domain), One(r.suffix != [], "DOMAIN-SUFFIX," + r.suffix),
            One(r.cidr != [], CidrKind(r.cidr) + r.cidr + ",no-resolve"), AnyOf(r.anyKeywords), KeywordMatchers(r.allKeywords),
            One(r.network != [], "NETWORK," + Upper(r.network)), One(r.port != 0, "DST-PORT," + Itoa(r.port)));
  }

  lemma {:induction false} DigitsFlat(s: string)
    requires forall i :: 0 <= i < |s| ==> IsDigit(s[i])
    ensures Flat(s)
  {
  }

  predicate NotN(matchers: seq<string>) {
    AllOk(matchers) && forall i :: 0 <= i < |matchers| ==> matchers[i][0] != 'N'
  }

  /** Some matcher before the network and port ones is present, so the first one is not a network matcher. */
  lemma {:induction false} FirstOf(a: seq<string>, b: seq<string>, c: seq<string>, d: seq<string>, e: seq<string>, f: seq<string>, g: seq<string>)
    requires NotN(a) && NotN(b) && NotN(c) && NotN(d) && NotN(e) && AllOk(f) && AllOk(g)
    requires a != [] || b != [] || c != [] || d != [] || e != []
    ensures var all := a + b + c + d + e + f + g; AllOk(all) && all != [] && all[0][0] != 'N'
  {
    var front := a + b + c + d + e;
    assert NotN(front) && front != [];
    var all := front + f + g;
    assert all[0] == front[0];
  }

  // ---------- Classification ----------

  predicate LastWord(w: string) {
    w == "REJECT" || w == "DIRECT" || w == "no-resolve"
  }

  lemma {:induction false} LastWordFacts(w: string)
    requires LastWord(w)
    ensures ',' !in w && w != ProxyName && Flat(w) && w != []
  {
    assert |ProxyName| == 16;
  }

  predicate PolicyStart(t: string) {
    |t| > 6 && (t[0] == 'D' || t[0] == 'O' || (t[0] == 'I' && t[1] == 'P') || (t[0] == 'A' && t[6] != 'N'))
  }

  lemma {:induction false} StartIsNotListener(t: string)
    requires PolicyStart(t)
    ensures t != RejectText && !HasPrefix(t, ListenerPrefix)
  {
    assert ListenerPrefix[0] == 'I' && ListenerPrefix[1] == 'N' && RejectText[0] == 'I' && RejectText[1] == 'N';
    PrefixDiffers(t, ListenerPrefix, if t[0] == 'I' then 1 else 0);
  }

  lemma {:induction false} StartIsNotQuic(t: string)
    requires PolicyStart(t)
    ensures !DenyQuic(t)
  {
    assert (QuicBase + ",REJECT")[0] == 'A' && (QuicBase + ",REJECT-DROP")[0] == 'A';
    if t[0] == 'A' {
      NotDenyQuic(t);
    }
  }

  lemma {:induction false} EndIsNotProxy(head: string, last: string)
    requires LastWord(last)
    ensures !Proxied(head + "," + last)
  {
    LastWordFacts(last);
    ProxyHasNoComma();
    LastPart(head, last, ProxyName);
  }

  /** What makes a text unmistakably a policy rule. */
  lemma {:induction false} PolicyRowOf(t: string, head: string, last: string)
    requires t == head + "," + last && LastWord(last) && NoBlank(t) && OpensWell(t) && PolicyStart(t)
    ensures PolicyRow(Read(t))
  {
    FirstLetter(t);
    CompactSame(t);
    OpensWellNotListener(t);
    StartIsNotListener(t);
    StartIsNotQuic(t);
    EndIsNotProxy(head, last);
  }

  lemma {:induction false} SinglePolicy(m: string, action: string)
    requires MatcherOk(m) && m[0] != 'N' && LastWord(action)
    ensures PolicyRow(Read(m + "," + action))
  {
    LastWordFacts(action);
    FlatConcat(",", action);
    OpensWellConcat(m, "," + action);
    NoBlankConcat(m, "," + action);
    assert m + ("," + action) == m + "," + action;
    PolicyRowOf(m + "," + action, m, action);
  }

  lemma {:induction false} JoinedPolicy(matchers: seq<string>, action: string)
    requires matchers != [] && AllOk(matchers) && matchers[0][0] != 'N' && LastWord(action)
    ensures PolicyRow(Read("AND,(" + Join(matchers) + ")," + action))
  {
    var j := Join(matchers);
    JoinOk(matchers);
    LastWordFacts(action);
    FlatConcat("),", action);
    AroundJoin("AND,", j, ")," + action);
    var t := "AND,(" + j + ")," + action;
    assert t == "AND," + "(" + j + (")," + action);
    assert t == "AND,(" + j + ")" + "," + action;
    assert t[6] == j[1];
    PolicyRowOf(t, "AND,(" + j + ")", action);
  }

  /** Every valid routing rule prints to a line that the analysis treats as a plain policy rule. */
  lemma {:induction false} PolicyRowFacts(r: Route)
    requires ValidRoute(r)
    ensures PolicyRow(Read(RenderPolicy(r)))
  {
    MatchersOk(r);
    var action := Action(r);
    if |Matchers(r)| != 1 {
      JoinedPolicy(Matchers(r), action);
    } else if r.cidr != [] {
      CidrPolicy(r.cidr, action);
    } else {
      SinglePolicy(Matchers(r)[0], action);
    }
  }

  lemma {:induction false} CidrPolicy(cidr: string, action: string)
    requires PlainValue(cidr) && (action == "REJECT" || action == "DIRECT")
    ensures PolicyRow(Read(CidrKind(cidr) + cidr + "," + action + ",no-resolve"))
  {
    CidrOk(cidr);
    CidrHead(cidr);
    LastWordFacts(action);
    FlatConcat(",", action);
    var k := CidrKind(cidr) + cidr;
    HeadValueOk(k, "," + action);
    assert k + ("," + action) == k + "," + action;
    var m := k + "," + action;
    SinglePolicy(m, "no-resolve");
    assert m + "," + "no-resolve" == m + ",no-resolve";
  }
}
