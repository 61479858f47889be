module RuleMeaning {
  // What mihomo does with the texts that the compiler emits, as its own reader
  // understands them: which connections each rule takes, and where it sends them.

  import opened Options
  import opened Names
  import opened Documents
  import opened RuleText
  import opened RuleRows
  import opened CaptureRouting
  import opened EgressRouting
  import opened PolicyText
  import opened RoutingUpdate
  import opened MihomoRules
  import Agreement

  // ---------- What a declared routing rule asks for ----------

  predicate Named(c: Conn, name: string) {
    c.dest.Host? && c.dest.name == name
  }

  predicate NamedWithin(c: Conn, suffix: string) {
    c.dest.Host? && (c.dest.name == suffix || HasSuffix(c.dest.name, "." + suffix))
  }

  predicate NameHas(c: Conn, keyword: string) {
    c.dest.Host? && Contains(c.dest.name, keyword)
  }

  /** The connections a routing rule speaks of; fields that are not given ask for nothing. */
  predicate RouteTakes(r: Route, c: Conn, within: (string, string) -> bool) {
    && (r.domain != [] ==> Named(c, r.domain))
    && (r.suffix != [] ==> NamedWithin(c, r.suffix))
    && (r.cidr != [] ==> c.dest.Address? && within(r.cidr, c.dest.quad))
    && (r.anyKeywords != [] ==> exists i :: 0 <= i < |r.anyKeywords| && NameHas(c, r.anyKeywords[i]))
    && (forall i :: 0 <= i < |r.allKeywords| ==> NameHas(c, r.allKeywords[i]))
    && (r.network != [] ==> c.network == r.network)
    && (r.port != 0 ==> c.port == r.port)
  }

  function Speaks(c: Conn, within: (string, string) -> bool): Route -> Option<Route> {
    (r: Route) => if RouteTakes(r, c, within) then Some(r) else None
  }

  /** The first declared rule that speaks of the connection. */
  function FirstRoute(routes: seq<Route>, c: Conn, within: (string, string) -> bool): Option<Route> {
    FirstSome(routes, Speaks(c, within))
  }

  /** All declared rules of the modules, in order. */
  function Declared(modules: seq<Module>): seq<Route> {
    if modules == [] then [] else Declared(modules[..|modules| - 1]) + modules[|modules| - 1].routes
  }

  /** Where a declared rule sends what it takes: nowhere, or out directly. */
  function Verdict(r: Option<Route>): Option<string> {
    if r.None? then None else if r.value.reject then Some("REJECT") else Some("DIRECT")
  }

  // ---------- The matchers of a routing rule, as trees ----------

  function OneTree(given: bool, m: Matcher): seq<Matcher> {
    if given then [m] else []
  }

  function KeywordTrees(keywords: seq<string>): (r: seq<Matcher>)
    ensures |r| == |keywords| && forall i :: 0 <= i < |r| ==> r[i] == Leaf(NameKeyword, keywords[i])
  {
    seq(|keywords|, i requires 0 <= i < |keywords| => Leaf(NameKeyword, keywords[i]))
  }

  function AnyTree(keywords: seq<string>): seq<Matcher> {
    if |keywords| <= 1 then KeywordTrees(keywords) else [Any(KeywordTrees(keywords))]
  }

  function Trees(r: Route): seq<Matcher> {
    OneTree(r.domain != [], Leaf(ExactName, r.domain))
    + OneTree(r.suffix != [], Leaf(NameSuffix, r.suffix))
    + OneTree(r.cidr != [], Leaf(Range, r.cidr))
    + AnyTree(r.anyKeywords) + KeywordTrees(r.allKeywords)
    + OneTree(r.network != [], Leaf(Protocol, Upper(r.network)))
    + OneTree(r.port != 0, Leaf(Port, Itoa(r.port)))
  }

  // ---------- Reading the pieces ----------

  /** The text is read as the matcher, and as the rule to `target` once that is added. */
  ghost predicate Ready(text: string, m: Matcher) {
    ReadsAs(text, m) && forall target :: Unmarked(target) ==> GoesTo(text, m, target)
  }

  predicate GoesTo(text: string, m: Matcher, target: string) {
    ReadRule(text + "," + target) == Some(Reading(m, target))
  }

  ghost predicate AllReady(texts: seq<string>, ms: seq<Matcher>) {
    |texts| == |ms| && forall i :: 0 <= i < |texts| ==> Ready(texts[i], ms[i])
  }

  lemma {:induction false} ReadyRead(texts: seq<string>, ms: seq<Matcher>)
    requires AllReady(texts, ms)
    ensures AllReadAs(texts, ms)
  {
    forall i | 0 <= i < |texts|
      ensures ReadsAs(texts[i], ms[i])
    {
      assert Ready(texts[i], ms[i]);
    }
  }

  lemma {:induction false} ReadAsConcat(a: seq<string>, x: seq<Matcher>, b: seq<string>, y: seq<Matcher>)
    requires AllReadAs(a, x) && AllReadAs(b, y)
    ensures AllReadAs(a + b, x + y)
  {
    forall i | 0 <= i < |a + b|
      ensures ReadsAs((a + b)[i], (x + y)[i])
    {
      if i < |a| {
        assert ReadsAs(a[i], x[i]);
      } else {
        assert ReadsAs(b[i - |a|], y[i - |a|]);
      }
    }
  }

  lemma {:induction false} Fields(word: string, value: string, target: string, flag: string)
    ensures word + "," + value + "," + target + flag == word + "," + (value + "," + (target + flag))
  {
  }

  lemma {:induction false} LeafGoesTo(word: string, what: What, value: string, text: string, target: string)
    requires LeafWord(word, what) && Unmarked(value) && Unmarked(target) && text == word + "," + value
    ensures GoesTo(text, Leaf(what, value), target)
  {
    LeafRuleIsRead(word, what, value, target, "");
    Fields(word, value, target, "");
    assert text + "," + target + "" == text + "," + target;
  }

  lemma {:induction false} LeafIsReady(word: string, what: What, value: string, text: string)
    requires LeafWord(word, what) && Unmarked(value) && text == word + "," + value
    ensures Ready(text, Leaf(what, value))
  {
    assert value + "" == value;
    LeafReadsAs(word, what, value, "");
    forall target | Unmarked(target)
      ensures GoesTo(text, Leaf(what, value), target)
    {
      LeafGoesTo(word, what, value, text, target);
    }
  }

  lemma {:induction false} TargetBehind(word: string, group: string, target: string, text: string)
    requires text == word + "," + group
    ensures text + "," + target == word + "," + (group + ("," + target))
  {
  }

  lemma {:induction false} UnmarkedField(target: string)
    requires Unmarked(target)
    ensures ',' !in target
  {
  }

  lemma {:induction false} LogicGoesTo(word: string, texts: seq<string>, ms: seq<Matcher>, group: string, text: string, target: string)
    requires IsLogic(word) && AllReadAs(texts, ms) && texts != [] && Unmarked(target)
    requires group == Grouped(Listed(texts)) && text == word + "," + group
    ensures GoesTo(text, Combined(word, ms), target)
  {
    UnmarkedField(target);
    TargetBehind(word, group, target, text);
    LogicRuleIsRead(word, texts, ms, target);
  }

  lemma {:induction false} LogicIsReady(word: string, texts: seq<string>, ms: seq<Matcher>, group: string, text: string)
    requires IsLogic(word) && AllReadAs(texts, ms) && texts != []
    requires group == Grouped(Listed(texts)) && text == word + "," + group
    ensures Ready(text, Combined(word, ms))
  {
    LogicReadsAs(word, texts, ms);
    forall target | Unmarked(target)
      ensures GoesTo(text, Combined(word, ms), target)
    {
      LogicGoesTo(word, texts, ms, group, text, target);
    }
  }

  lemma {:induction false} PlainUnmarked(s: string)
    requires PlainValue(s)
    ensures Unmarked(s) && Unmarked(Upper(s)) && Lower(s) == s && Lower(Upper(s)) == s
  {
    forall i | 0 <= i < |s|
      ensures LowerChar(s[i]) == s[i] && LowerChar(Upper(s)[i]) == s[i]
      ensures s[i] != ',' && s[i] != '(' && s[i] != ')' && Upper(s)[i] != ',' && Upper(s)[i] != '(' && Upper(s)[i] != ')'
    {
      assert PlainChar(s[i]);
    }
  }

  lemma {:induction false} KeywordsAreReady(keywords: seq<string>)
    requires forall i :: 0 <= i < |keywords| ==> PlainValue(keywords[i])
    ensures AllReady(KeywordMatchers(keywords), KeywordTrees(keywords))
  {
    NameWords();
    forall i | 0 <= i < |keywords|
      ensures Ready(KeywordMatchers(keywords)[i], KeywordTrees(keywords)[i])
    {
      PlainUnmarked(keywords[i]);
      assert KeywordMatcher(keywords[i]) == "DOMAIN-KEYWORD" + "," + keywords[i];
      LeafIsReady("DOMAIN-KEYWORD", NameKeyword, keywords[i], KeywordMatcher(keywords[i]));
    }
  }

  lemma {:induction false} ListedSnoc(texts: seq<string>, last: string)
    requires texts != []
    ensures Listed(texts + [last]) == Listed(texts) + ("," + Grouped(last))
    decreases |texts|
  {
    var all := texts + [last];
    assert all[1..] == texts[1..] + [last];
    if |texts| == 1 {
      assert all[1..] == [last];
    } else {
      ListedSnoc(texts[1..], last);
      ListedStep(texts);
      ListedStep(all);
      Chained(Grouped(texts[0]), Listed(texts[1..]), Grouped(last));
    }
  }

  lemma {:induction false} Chained(a: string, b: string, c: string)
    ensures a + ("," + (b + ("," + c))) == a + ("," + b) + ("," + c)
  {
  }

  lemma {:induction false} JoinIsListed(texts: seq<string>)
    ensures Join(texts) == Listed(texts)
    decreases |texts|
  {
    if |texts| > 1 {
      var n := |texts| - 1;
      JoinIsListed(texts[..n]);
      ListedSnoc(texts[..n], texts[n]);
      assert texts == texts[..n] + [texts[n]];
      assert ",(" + texts[n] + ")" == "," + Grouped(texts[n]);
      JoinStep(Listed(texts[..n]), texts[n]);
    }
  }

  lemma {:induction false} JoinStep(j: string, last: string)
    ensures j + ",(" + last + ")" == j + ("," + Grouped(last))
  {
    assert ",(" == "," + "(";
  }

  lemma {:induction false} AnyIsReady(keywords: seq<string>)
    requires forall i :: 0 <= i < |keywords| ==> PlainValue(keywords[i])
    ensures AllReady(AnyOf(keywords), AnyTree(keywords))
  {
    KeywordsAreReady(keywords);
    if |keywords| > 1 {
      var texts, trees := KeywordMatchers(keywords), KeywordTrees(keywords);
      ReadyRead(texts, trees);
      JoinIsListed(texts);
      OrText(Listed(texts));
      LogicIsReady("OR", texts, trees, Grouped(Listed(texts)), AnyOf(keywords)[0]);
    }
  }

  lemma {:induction false} OrText(j: string)
    ensures "OR,(" + j + ")" == "OR" + "," + Grouped(j)
  {
    assert "OR,(" == "OR" + "," + "(";
  }

  lemma {:induction false} OneIsReady(given: bool, word: string, what: What, value: string, text: string)
    requires LeafWord(word, what) && Unmarked(value) && text == word + "," + value
    ensures AllReady(One(given, text), OneTree(given, Leaf(what, value)))
  {
    LeafIsReady(word, what, value, text);
  }

  lemma {:induction false} CidrWord(cidr: string) returns (word: string)
    ensures LeafWord(word, Range) && CidrKind(cidr) == word + ","
  {
    OtherWords();
    word := if ':' in cidr then "IP-CIDR6" else "IP-CIDR";
  }

  lemma {:induction false} CidrIsRead(cidr: string)
    requires PlainValue(cidr)
    ensures AllReadAs(One(cidr != [], CidrKind(cidr) + cidr + ",no-resolve"), OneTree(cidr != [], Leaf(Range, cidr)))
  {
    var word := CidrWord(cidr);
    PlainUnmarked(cidr);
    LeafReadsAs(word, Range, cidr, ",no-resolve");
    assert CidrKind(cidr) + cidr + ",no-resolve" == word + "," + (cidr + ",no-resolve");
  }

  /** The pieces in front of and behind the address range. */
  function Before(r: Route): (seq<string>, seq<Matcher>) {
    (One(r.domain != [], "DOMAIN," + r.domain) + One(r.suffix != [], "DOMAIN-SUFFIX," + r.suffix),
     OneTree(r.domain != [], Leaf(ExactName, r.domain)) + OneTree(r.suffix != [], Leaf(NameSuffix, r.suffix)))
  }

  function Behind(r: Route): (seq<string>, seq<Matcher>) {
    (AnyOf(r.anyKeywords) + KeywordMatchers(r.allKeywords)
     + One(r.network != [], "NETWORK," + Upper(r.network)) + One(r.port != 0, "DST-PORT," + Itoa(r.port)),
     AnyTree(r.anyKeywords) + KeywordTrees(r.allKeywords)
     + OneTree(r.network != [], Leaf(Protocol, Upper(r.network))) + OneTree(r.port != 0, Leaf(Port, Itoa(r.port))))
  }

  lemma {:induction false} ReadyConcat(a: seq<string>, x: seq<Matcher>, b: seq<string>, y: seq<Matcher>)
    requires AllReady(a, x) && AllReady(b, y)
    ensures AllReady(a + b, x + y)
  {
    forall i | 0 <= i < |a + b|
      ensures Ready((a + b)[i], (x + y)[i])
    {
      if i < |a| {
        assert Ready(a[i], x[i]);
      } else {
        assert Ready(b[i - |a|], y[i - |a|]);
      }
    }
  }

  lemma {:induction false} BeforeIsReady(r: Route)
    requires ValidRoute(r)
    ensures AllReady(Before(r).0, Before(r).1)
  {
    NameWords();
    PlainUnmarked(r.domain);
    PlainUnmarked(r.suffix);
    assert "DOMAIN," + r.domain == "DOMAIN" + "," + r.domain;
    assert "DOMAIN-SUFFIX," + r.suffix == "DOMAIN-SUFFIX" + "," + r.suffix;
    OneIsReady(r.domain != [], "DOMAIN", ExactName, r.domain, "DOMAIN," + r.domain);
    OneIsReady(r.suffix != [], "DOMAIN-SUFFIX", NameSuffix, r.suffix, "DOMAIN-SUFFIX," + r.suffix);
    ReadyConcat(One(r.domain != [], "DOMAIN," + r.domain), OneTree(r.domain != [], Leaf(ExactName, r.domain)),
                One(r.suffix != [], "DOMAIN-SUFFIX," + r.suffix), OneTree(r.suffix != [], Leaf(NameSuffix, r.suffix)));
  }

  lemma {:induction false} EndsAreReady(r: Route)
    requires ValidRoute(r)
    ensures AllReady(One(r.network != [], "NETWORK," + Upper(r.network)), OneTree(r.network != [], Leaf(Protocol, Upper(r.network))))
    ensures AllReady(One(r.port != 0, "DST-PORT," + Itoa(r.port)), OneTree(r.port != 0, Leaf(Port, Itoa(r.port))))
  {
    OtherWords();
    PlainUnmarked(r.network);
    DigitsUnmarked(Itoa(r.port));
    assert "NETWORK," + Upper(r.network) == "NETWORK" + "," + Upper(r.network);
    assert "DST-PORT," + Itoa(r.port) == "DST-PORT" + "," + Itoa(r.port);
    OneIsReady(r.network != [], "NETWORK", Protocol, Upper(r.network), "NETWORK," + Upper(r.network));
    OneIsReady(r.port != 0, "DST-PORT", Port, Itoa(r.port), "DST-PORT," + Itoa(r.port));
  }

  lemma {:induction false} FourAreReady(a: seq<string>, w: seq<Matcher>, b: seq<string>, x: seq<Matcher>, c: seq<string>, y: seq<Matcher>, d: seq<string>, z: seq<Matcher>)
    requires AllReady(a, w) && AllReady(b, x) && AllReady(c, y) && AllReady(d, z)
    ensures AllReady(a + b + c + d, w + x + y + z)
  {
    ReadyConcat(a, w, b, x);
    ReadyConcat(a + b, w + x, c, y);
    ReadyConcat(a + b + c, w + x + y, d, z);
  }

  lemma {:induction false} BehindIsReady(r: Route)
    requires ValidRoute(r)
    ensures AllReady(Behind(r).0, Behind(r).1)
  {
    AnyIsReady(r.anyKeywords);
    KeywordsAreReady(r.allKeywords);
    EndsAreReady(r);
    FourAreReady(AnyOf(r.anyKeywords), AnyTree(r.anyKeywords), KeywordMatchers(r.allKeywords), KeywordTrees(r.allKeywords),
                 One(r.network != [], "NETWORK," + Upper(r.network)), OneTree(r.network != [], Leaf(Protocol, Upper(r.network))),
                 One(r.port != 0, "DST-PORT," + Itoa(r.port)), OneTree(r.port != 0, Leaf(Port, Itoa(r.port))));
  }

  lemma {:induction false} Regrouped<T>(a: seq<T>, b: seq<T>, c: seq<T>, d: seq<T>, e: seq<T>, f: seq<T>, g: seq<T>)
    ensures a + b + c + d + e + f + g == (a + b) + c + (d + e + f + g)
  {
  }

  lemma {:induction false} SplitsAroundCidr(r: Route)
    ensures Matchers(r) == Before(r).0 + One(r.cidr != [], CidrKind(r.cidr) + r.cidr + ",no-resolve") + Behind(r).0
    ensures Trees(r) == Before(r).1 + OneTree(r.cidr != [], Leaf(Range, r.cidr)) + Behind(r).1
  {
    Regrouped(One(r.domain != [], "DOMAIN," + r.domain), One(r.suffix != [], "DOMAIN-SUFFIX," + r.suffix),
              One(r.cidr != [], CidrKind(r.cidr) + r.cidr + ",no-resolve"), AnyOf(r.anyKeywords), KeywordMatchers(r.allKeywords),
              One(r.network != [], "NETWORK," + Upper(r.network)), One(r.port != 0, "DST-PORT," + Itoa(r.port)));
    Regrouped(OneTree(r.domain != [], Leaf(ExactName, r.domain)), OneTree(r.suffix != [], Leaf(NameSuffix, r.suffix)),
              OneTree(r.cidr != [], Leaf(Range, r.cidr)), AnyTree(r.anyKeywords), KeywordTrees(r.allKeywords),
              OneTree(r.network != [], Leaf(Protocol, Upper(r.network))), OneTree(r.port != 0, Leaf(Port, Itoa(r.port))));
  }

  lemma {:induction false} MatchersAreRead(r: Route)
    requires ValidRoute(r)
    ensures AllReadAs(Matchers(r), Trees(r))
    ensures r.cidr == [] ==> AllReady(Matchers(r), Trees(r))
  {
    BeforeIsReady(r);
    BehindIsReady(r);
    ReadyRead(Before(r).0, Before(r).1);
    ReadyRead(Behind(r).0, Behind(r).1);
    CidrIsRead(r.cidr);
    SplitsAroundCidr(r);
    var text, tree := One(r.cidr != [], CidrKind(r.cidr) + r.cidr + ",no-resolve"), OneTree(r.cidr != [], Leaf(Range, r.cidr));
    ReadAsConcat(Before(r).0, Before(r).1, text, tree);
    ReadAsConcat(Before(r).0 + text, Before(r).1 + tree, Behind(r).0, Behind(r).1);
    if r.cidr == [] {
      ReadyConcat(Before(r).0, Before(r).1, Behind(r).0, Behind(r).1);
      assert Before(r).0 + [] == Before(r).0 && Before(r).1 + [] == Before(r).1;
    }
  }

  // ---------- Reading the whole rule ----------

  function Whole(trees: seq<Matcher>): Matcher {
    if |trees| == 1 then trees[0] else All(trees)
  }

  lemma {:induction false} ActionWord(r: Route)
    ensures Unmarked(Action(r)) && Some(Action(r)) == Verdict(Some(r))
  {
  }

  lemma {:induction false} CidrRuleIsRead(cidr: string, action: string)
    requires PlainValue(cidr) && Unmarked(action)
    ensures ReadRule(CidrKind(cidr) + cidr + "," + action + ",no-resolve") == Some(Reading(Leaf(Range, cidr), action))
  {
    var word := CidrWord(cidr);
    PlainUnmarked(cidr);
    LeafRuleIsRead(word, Range, cidr, action, ",no-resolve");
    Fields(word, cidr, action, ",no-resolve");
  }

  lemma {:induction false} JoinedRuleIsRead(texts: seq<string>, trees: seq<Matcher>, action: string)
    requires AllReadAs(texts, trees) && texts != [] && Unmarked(action)
    ensures ReadRule("AND,(" + Join(texts) + ")," + action) == Some(Reading(All(trees), action))
  {
    JoinIsListed(texts);
    AndText(Listed(texts), action);
    assert ',' !in action;
    LogicRuleIsRead("AND", texts, trees, action);
  }

  lemma {:induction false} AndText(j: string, action: string)
    ensures "AND,(" + j + ")," + action == "AND" + "," + (Grouped(j) + ("," + action))
  {
    assert "AND,(" == "AND" + "," + "(" && ")," == ")" + ",";
  }

  lemma {:induction false} OnlyCidr(r: Route)
    requires |Matchers(r)| == 1 && r.cidr != []
    ensures Trees(r) == [Leaf(Range, r.cidr)]
  {
    SplitsAroundCidr(r);
  }

  /** A printed routing rule is read back as the declared matchers, going where the rule says. */
  lemma {:induction false} PolicyIsRead(r: Route)
    requires ValidRoute(r)
    ensures Trees(r) != [] && ReadRule(RenderPolicy(r)) == Some(Reading(Whole(Trees(r)), if r.reject then "REJECT" else "DIRECT"))
  {
    MatchersAreRead(r);
    MatchersOk(r);
    ActionWord(r);
    if |Matchers(r)| != 1 {
      JoinedRuleIsRead(Matchers(r), Trees(r), Action(r));
    } else if r.cidr != [] {
      OnlyCidr(r);
      CidrRuleIsRead(r.cidr, Action(r));
    } else {
      assert Ready(Matchers(r)[0], Trees(r)[0]);
      assert GoesTo(Matchers(r)[0], Trees(r)[0], Action(r));
    }
  }

  // ---------- What the trees mean ----------

  predicate AllHold(ms: seq<Matcher>, c: Conn, within: (string, string) -> bool) {
    forall i :: 0 <= i < |ms| ==> Holds(ms[i], c, within)
  }

  lemma {:induction false} AllHoldConcat(a: seq<Matcher>, b: seq<Matcher>, c: Conn, within: (string, string) -> bool)
    ensures AllHold(a + b, c, within) <==> AllHold(a, c, within) && AllHold(b, c, within)
  {
    var ab := a + b;
    assert forall i :: 0 <= i < |a| ==> ab[i] == a[i];
    assert forall i :: 0 <= i < |b| ==> ab[|a| + i] == b[i];
  }

  lemma {:induction false} WholeHolds(trees: seq<Matcher>, c: Conn, within: (string, string) -> bool)
    requires trees != []
    ensures Holds(Whole(trees), c, within) <==> AllHold(trees, c, within)
  {
  }

  lemma {:induction false} OneHolds(given: bool, m: Matcher, c: Conn, within: (string, string) -> bool)
    ensures AllHold(OneTree(given, m), c, within) <==> (given ==> Holds(m, c, within))
  {
    assert given ==> OneTree(given, m)[0] == m;
  }

  lemma {:induction false} KeywordHolds(keyword: string, c: Conn, within: (string, string) -> bool)
    requires PlainValue(keyword)
    ensures Holds(Leaf(NameKeyword, keyword), c, within) <==> NameHas(c, keyword)
  {
    PlainUnmarked(keyword);
  }

  lemma {:induction false} KeywordsHold(keywords: seq<string>, c: Conn, within: (string, string) -> bool)
    requires forall i :: 0 <= i < |keywords| ==> PlainValue(keywords[i])
    ensures AllHold(KeywordTrees(keywords), c, within) <==> forall i :: 0 <= i < |keywords| ==> NameHas(c, keywords[i])
    ensures Holds(Any(KeywordTrees(keywords)), c, within) <==> exists i :: 0 <= i < |keywords| && NameHas(c, keywords[i])
  {
    var trees := KeywordTrees(keywords);
    forall i | 0 <= i < |keywords|
      ensures Holds(trees[i], c, within) <==> NameHas(c, keywords[i])
    {
      KeywordHolds(keywords[i], c, within);
    }
  }

  lemma {:induction false} AnyHolds(keywords: seq<string>, c: Conn, within: (string, string) -> bool)
    requires forall i :: 0 <= i < |keywords| ==> PlainValue(keywords[i])
    ensures AllHold(AnyTree(keywords), c, within) <==> (keywords != [] ==> exists i :: 0 <= i < |keywords| && NameHas(c, keywords[i]))
  {
    KeywordsHold(keywords, c, within);
    if |keywords| == 1 && NameHas(c, keywords[0]) {
      assert exists i :: 0 <= i < |keywords| && NameHas(c, keywords[i]);
    }
    if |keywords| > 1 {
      OneHolds(true, Any(KeywordTrees(keywords)), c, within);
    }
  }

  lemma {:induction false} NameLeavesMean(domain: string, suffix: string, c: Conn, within: (string, string) -> bool)
    requires PlainValue(domain) && PlainValue(suffix)
    ensures Holds(Leaf(ExactName, domain), c, within) <==> Named(c, domain)
    ensures Holds(Leaf(NameSuffix, suffix), c, within) <==> NamedWithin(c, suffix)
  {
    PlainUnmarked(domain);
    PlainUnmarked(suffix);
  }

  lemma {:induction false} OtherLeavesMean(r: Route, c: Conn, within: (string, string) -> bool)
    requires PlainValue(r.network)
    ensures Holds(Leaf(Range, r.cidr), c, within) <==> c.dest.Address? && within(r.cidr, c.dest.quad)
    ensures Holds(Leaf(Protocol, Upper(r.network)), c, within) <==> c.network == r.network
    ensures Holds(Leaf(Port, Itoa(r.port)), c, within) <==> c.port == r.port
  {
    PlainUnmarked(r.network);
    PortMeans(r.port, c, within);
  }

  lemma {:induction false} SevenHold(a: seq<Matcher>, b: seq<Matcher>, d: seq<Matcher>, e: seq<Matcher>, f: seq<Matcher>, g: seq<Matcher>, h: seq<Matcher>, c: Conn, within: (string, string) -> bool)
    ensures AllHold(a + b + d + e + f + g + h, c, within) <==>
              && AllHold(a, c, within) && AllHold(b, c, within) && AllHold(d, c, within) && AllHold(e, c, within)
              && AllHold(f, c, within) && AllHold(g, c, within) && AllHold(h, c, within)
  {
    AllHoldConcat(a, b, c, within);
    AllHoldConcat(a + b, d, c, within);
    AllHoldConcat(a + b + d, e, c, within);
    AllHoldConcat(a + b + d + e, f, c, within);
    AllHoldConcat(a + b + d + e + f, g, c, within);
    AllHoldConcat(a + b + d + e + f + g, h, c, within);
  }

  /** The trees hold exactly for the connections the rule speaks of. */
  lemma {:induction false} TreesMean(r: Route, c: Conn, within: (string, string) -> bool)
    requires ValidRoute(r)
    ensures AllHold(Trees(r), c, within) <==> RouteTakes(r, c, within)
  {
    var domain, suffix, cidr := Leaf(ExactName, r.domain), Leaf(NameSuffix, r.suffix), Leaf(Range, r.cidr);
    var network, port := Leaf(Protocol, Upper(r.network)), Leaf(Port, Itoa(r.port));
    SevenHold(OneTree(r.domain != [], domain), OneTree(r.suffix != [], suffix), OneTree(r.cidr != [], cidr), AnyTree(r.anyKeywords),
              KeywordTrees(r.allKeywords), OneTree(r.network != [], network), OneTree(r.port != 0, port), c, within);
    OneHolds(r.domain != [], domain, c, within);
    OneHolds(r.suffix != [], suffix, c, within);
    OneHolds(r.cidr != [], cidr, c, within);
    AnyHolds(r.anyKeywords, c, within);
    KeywordsHold(r.allKeywords, c, within);
    OneHolds(r.network != [], network, c, within);
    OneHolds(r.port != 0, port, c, within);
    NameLeavesMean(r.domain, r.suffix, c, within);
    OtherLeavesMean(r, c, within);
  }

  /** Reading a printed routing rule gives one that takes the declared connections and sends them where declared. */
  lemma {:induction false} PolicyMeans(r: Route, c: Conn, within: (string, string) -> bool)
    requires ValidRoute(r)
    ensures ReadRule(RenderPolicy(r)).Some?
    ensures var reading := ReadRule(RenderPolicy(r)).value;
            && (Holds(reading.matcher, c, within) <==> RouteTakes(r, c, within))
            && reading.target == (if r.reject then "REJECT" else "DIRECT")
  {
    PolicyIsRead(r);
    WholeHolds(Trees(r), c, within);
    TreesMean(r, c, within);
  }

  // ---------- The compiled list from the top ----------

  /** Dropping repeated texts changes no outcome. */
  lemma {:induction false} AddTextsIsIdle<U>(policy: seq<string>, texts: seq<string>, f: string -> Option<U>)
    ensures FirstSome(AddTexts(policy, texts), f) == FirstSome(policy + texts, f)
  {
    if texts == [] {
      assert policy + texts == policy;
    } else {
      var n := |texts| - 1;
      var before := AddTexts(policy, texts[..n]);
      AddTextsIsIdle(policy, texts[..n], f);
      FirstSomeAppend(policy + texts[..n], [texts[n]], f);
      FirstSomeAppend(before, [texts[n]], f);
      FirstSomeOne(texts[n], f);
      assert policy + texts == policy + texts[..n] + [texts[n]];
      if texts[n] in before && f(texts[n]).Some? {
        RepeatedIsIdle(before, texts[n], f);
      }
    }
  }

  lemma {:induction false} PolicyTakes(r: Route, c: Conn, within: (string, string) -> bool)
    requires ValidRoute(r)
    ensures Takes(c, within)(RenderPolicy(r)) == Verdict(Speaks(c, within)(r))
  {
    PolicyMeans(r, c, within);
  }

  lemma {:induction false} SameFirst(texts: seq<string>, routes: seq<Route>, f: string -> Option<string>, g: Route -> Option<Route>)
    requires |texts| == |routes| && forall i :: 0 <= i < |texts| ==> f(texts[i]) == Verdict(g(routes[i]))
    ensures FirstSome(texts, f) == Verdict(FirstSome(routes, g))
  {
    if texts != [] {
      SameFirst(texts[..|texts| - 1], routes[..|routes| - 1], f, g);
    }
  }

  lemma {:induction false} RoutesEvaluate(routes: seq<Route>, c: Conn, within: (string, string) -> bool)
    requires forall i :: 0 <= i < |routes| ==> ValidRoute(routes[i])
    ensures FirstTarget(RouteTexts(routes), c, within) == Verdict(FirstRoute(routes, c, within))
  {
    var f, g := Takes(c, within), Speaks(c, within);
    forall i | 0 <= i < |routes|
      ensures f(RouteTexts(routes)[i]) == Verdict(g(routes[i]))
    {
      PolicyTakes(routes[i], c, within);
    }
    SameFirst(RouteTexts(routes), routes, f, g);
  }

  lemma {:induction false} PolicyEvaluates(modules: seq<Module>, c: Conn, within: (string, string) -> bool)
    requires ValidModules(modules)
    ensures FirstTarget(PolicyRules(modules), c, within) == Verdict(FirstRoute(Declared(modules), c, within))
  {
    if modules != [] {
      var n := |modules| - 1;
      var init, routes := modules[..n], modules[n].routes;
      PolicyEvaluates(init, c, within);
      RoutesEvaluate(routes, c, within);
      AddTextsIsIdle(PolicyRules(init), RouteTexts(routes), Takes(c, within));
      FirstSomeAppend(PolicyRules(init), RouteTexts(routes), Takes(c, within));
      FirstSomeAppend(Declared(init), routes, Speaks(c, within));
    }
  }

  /**
   Evaluated from the top, the compiled policy rules send a connection where
   the first declared rule that speaks of it says, modules in execution order.
   */
  lemma {:induction false} CompiledPolicyMeans(d: Document, compiled: Compiled, c: Conn, within: (string, string) -> bool)
    requires IsCompiled(d, compiled) && ValidModules(Active(d))
    ensures FirstTarget(compiled.policy, c, within) == Verdict(FirstRoute(Declared(Active(d)), c, within))
  {
    PolicyEvaluates(Active(d), c, within);
  }

  // ---------- Egress rules ----------

  lemma {:induction false} ThreeGroups(w: string, a: string, p: string, target: string)
    ensures "AND,(" + Grouped(w) + ",(" + a + PortMarker + p + "))," + target
         == "AND" + "," + (Grouped(Listed([w, a, "DST-PORT," + p])) + ("," + target))
  {
    var q := "DST-PORT," + p;
    var rest := [a, q];
    assert [w, a, q][1..] == rest && rest[1..] == [q];
    assert PortMarker == ")" + "," + "(" + "DST-PORT,";
    assert Listed(rest) == "(" + a + ")" + ("," + ("(" + q + ")"));
    assert Listed([w, a, q]) == Grouped(w) + ("," + Listed(rest));
    ThreeJoined(Grouped(w), a, q, p, target);
  }

  lemma {:induction false} ThreeJoined(g: string, a: string, q: string, p: string, target: string)
    requires q == "DST-PORT," + p
    ensures "AND,(" + g + ",(" + a + PortMarker + p + "))," + target
         == "AND" + "," + (Grouped(g + ("," + ("(" + a + ")" + ("," + ("(" + q + ")"))))) + ("," + target))
  {
    var inner := a + PortMarker + p;
    MarkerIsTwo(a, p, q, inner);
    Brackets("AND", g, inner, target, "(" + a + ")" + ("," + ("(" + q + ")")));
    assert ",(" == "," + "(" && "))," == ")" + ")" + "," && "AND,(" == "AND" + "," + "(";
    assert "AND,(" + g + ",(" + a + PortMarker + p + "))," + target == "AND,(" + g + ",(" + inner + "))," + target;
  }

  lemma {:induction false} MarkerIsTwo(a: string, p: string, q: string, inner: string)
    requires q == "DST-PORT," + p && inner == a + PortMarker + p
    ensures "(" + inner + ")" == "(" + a + ")" + ("," + ("(" + q + ")"))
  {
    assert PortMarker == ")" + "," + "(" + "DST-PORT,";
  }

  lemma {:induction false} Brackets(word: string, g: string, inner: string, target: string, both: string)
    requires both == "(" + inner + ")"
    ensures word + "," + "(" + g + "," + "(" + inner + ")" + ")" + "," + target == word + "," + (Grouped(g + ("," + both)) + ("," + target))
  {
  }

  lemma {:induction false} ThreeAreRead(texts: seq<string>, ms: seq<Matcher>, target: string, text: string)
    requires |texts| == |ms| == 3 && ReadsAs(texts[0], ms[0]) && ReadsAs(texts[1], ms[1]) && ReadsAs(texts[2], ms[2])
    requires ',' !in target && text == "AND" + "," + (Grouped(Listed(texts)) + ("," + target))
    ensures ReadRule(text) == Some(Reading(All(ms), target))
  {
    AllOfThree(texts, ms);
    LogicRuleIsRead("AND", texts, ms, target);
  }

  lemma {:induction false} AllOfThree(texts: seq<string>, ms: seq<Matcher>)
    requires |texts| == |ms| == 3 && ReadsAs(texts[0], ms[0]) && ReadsAs(texts[1], ms[1]) && ReadsAs(texts[2], ms[2])
    ensures AllReadAs(texts, ms)
  {
    forall i | 0 <= i < 3
      ensures ReadsAs(texts[i], ms[i])
    {
      if i > 0 && i != 1 {
        assert i == 2;
      }
    }
  }

  lemma {:induction false} ListenerName(w: string, name: string)
    requires w == "IN-NAME,intercept-egress" && name == "intercept-egress"
    ensures ListenerMatcher == Grouped(w) && w == "IN-NAME" + "," + name && Unmarked(name)
  {
  }

  lemma {:induction false} ListenerText(w: string, name: string)
    requires w == "IN-NAME,intercept-egress" && name == "intercept-egress"
    ensures ListenerMatcher == Grouped(w) && ReadsAs(w, Leaf(Listener, name))
  {
    OtherWords();
    ListenerName(w, name);
    LeafIsReady("IN-NAME", Listener, name, w);
  }

  lemma {:induction false} MatcherIsRead(s: Selector)
    requires ValidSelector(s)
    ensures ReadsAs(MatcherText(s), Leaf(KindWhat(s.kind), s.value))
  {
    var flag := if s.kind.IpCidr? then ",no-resolve" else "";
    ValueText(s, flag);
    assert MatcherText(s) == KindText(s.kind) + (s.value + flag);
  }

  function EgressTree(s: Selector): seq<Matcher> {
    [Leaf(Listener, "intercept-egress")] + SelectorLeaves(s)
  }

  lemma {:induction false} TargetIsOneField(target: string)
    requires ValidTarget(target)
    ensures ',' !in target
  {
    forall i | 0 <= i < |target|
      ensures target[i] != ','
    {
      ValidTargetHasNoComma(target, i);
    }
  }

  /** An egress rule is read as the listener's name, the selector's value and its port, and goes to its target. */
  lemma {:induction false} EgressIsRead(s: Selector, target: string)
    requires ValidSelector(s) && ValidTarget(target)
    ensures ReadRule(RenderEgress(s, target)) == Some(Reading(All(EgressTree(s)), target))
  {
    var w, a, p := "IN-NAME,intercept-egress", MatcherText(s), Itoa(s.port);
    ListenerText(w, "intercept-egress");
    MatcherIsRead(s);
    PortText(s.port);
    TargetIsOneField(target);
    ThreeGroups(w, a, p, target);
    EgressText(s, target, w, a, p);
    ThreeAreRead([w, a, "DST-PORT," + p], EgressTree(s), target, RenderEgress(s, target));
  }

  lemma {:induction false} EgressText(s: Selector, target: string, w: string, a: string, p: string)
    requires ListenerMatcher == Grouped(w) && a == MatcherText(s) && p == Itoa(s.port)
    ensures RenderEgress(s, target) == "AND,(" + Grouped(w) + ",(" + a + PortMarker + p + "))," + target
  {
  }

  /** What an egress rule takes, and where that goes. */
  lemma {:induction false} EgressMeans(s: Selector, target: string, c: Conn, within: (string, string) -> bool)
    requires ValidSelector(s) && ValidTarget(target) && SingleAddresses(within)
    ensures Takes(c, within)(RenderEgress(s, target)) ==
            if c.listener == "intercept-egress" && Selects(s, c.dest, c.port) then Some(target) else None
  {
    EgressIsRead(s, target);
    LeavesMean(s, c, within);
    ListenerMeans("intercept-egress", c, within);
    HeadHolds(Leaf(Listener, "intercept-egress"), SelectorLeaves(s), EgressTree(s), c, within);
  }

  lemma {:induction false} HeadHolds(m: Matcher, others: seq<Matcher>, tree: seq<Matcher>, c: Conn, within: (string, string) -> bool)
    requires tree == [m] + others
    ensures Holds(All(tree), c, within) <==> Holds(m, c, within) && Holds(All(others), c, within)
  {
    assert tree[0] == m;
    assert forall i :: 0 <= i < |others| ==> tree[1 + i] == others[i];
    assert forall i :: 0 < i < |tree| ==> tree[i] == others[i - 1];
  }

  lemma {:induction false} ListenerMeans(name: string, c: Conn, within: (string, string) -> bool)
    ensures Holds(Leaf(Listener, name), c, within) <==> c.listener == name
  {
  }

  lemma {:induction false} FirstOfSelected(rules: seq<Rule>, texts: seq<string>, c: Conn, f: string -> Option<string>)
    requires |texts| == |rules|
    requires forall i :: 0 <= i < |rules| ==> f(texts[i]) == if Selects(rules[i].selector, c.dest, c.port) then Some(rules[i].target) else None
    ensures FirstSome(texts, f) == FirstMatch(rules, c.dest, c.port)
  {
    if rules != [] {
      FirstOfSelected(rules[1..], texts[1..], c, f);
      FirstSomeAppend([texts[0]], texts[1..], f);
      FirstSomeOne(texts[0], f);
      assert texts == [texts[0]] + texts[1..];
    }
  }

  lemma {:induction false} NoneTaken(texts: seq<string>, f: string -> Option<string>)
    requires forall i :: 0 <= i < |texts| ==> f(texts[i]).None?
    ensures FirstSome(texts, f).None?
  {
    if texts != [] {
      NoneTaken(texts[..|texts| - 1], f);
    }
  }

  lemma {:induction false} EgressEvaluates(rules: seq<Rule>, c: Conn, within: (string, string) -> bool)
    requires ValidRules(rules) && SingleAddresses(within)
    ensures FirstTarget(EgressTexts(rules), c, within) ==
            if c.listener == "intercept-egress" then FirstMatch(rules, c.dest, c.port) else None
  {
    var texts, f := EgressTexts(rules), Takes(c, within);
    forall i | 0 <= i < |rules|
      ensures f(texts[i]) == if c.listener == "intercept-egress" && Selects(rules[i].selector, c.dest, c.port) then Some(rules[i].target) else None
    {
      assert ValidRule(rules[i]);
      EgressMeans(rules[i].selector, rules[i].target, c, within);
    }
    if c.listener == "intercept-egress" {
      FirstOfSelected(rules, texts, c, f);
    } else {
      NoneTaken(texts, f);
    }
  }

  /** Where the modules want a connection of the egress listener to go, if `final` is the operator's last target. */
  function Destined(modules: seq<Module>, final: string, dest: Destination, port: nat): Option<string> {
    var owner := FirstCovering(modules, true, dest, port);
    if owner.Some? then Some(owner.value.egressGroup)
    else if FirstCovering(modules, false, dest, port).Some? then Some(final)
    else None
  }

  lemma {:induction false} ModulesAllValid(modules: seq<Module>)
    requires ValidModules(modules)
    ensures Agreement.AllValid(modules)
  {
    forall i | 0 <= i < |modules|
      ensures ValidHosts(modules[i].captureHosts)
    {
      assert ValidModule(modules[i]);
    }
  }

  lemma {:induction false} OwnerIsNamed(modules: seq<Module>, dest: Destination, port: nat)
    requires ValidModules(modules)
    ensures var owner := FirstCovering(modules, true, dest, port);
            owner.Some? ==> owner.value.egressGroup != TerminalTarget
  {
    OwnerIsFirst(modules, true, dest, port);
    assert forall i :: 0 <= i < |modules| ==> ValidModule(modules[i]);
  }

  /**
   Evaluated from the top, the egress rules as they are written leave other
   listeners alone, and send a connection of their own to the group of the first
   bound module that covers it, else to the final target if an unbound one does.
   */
  lemma {:induction false} CompiledEgressMeans(d: Document, compiled: Compiled, final: string, c: Conn, within: (string, string) -> bool)
    requires IsCompiled(d, compiled) && ValidModules(Active(d)) && ValidTarget(final)
    requires SingleAddresses(within) && Fair(c.dest)
    ensures FirstTarget(EgressTexts(Materialize(compiled.egress, final)), c, within) ==
            if c.listener == "intercept-egress" then Destined(Active(d), final, c.dest, c.port) else None
  {
    var modules := Active(d);
    EgressRulesValid(modules);
    MaterializedValid(compiled.egress, final);
    EgressEvaluates(Materialize(compiled.egress, final), c, within);
    ModulesAllValid(modules);
    MaterializedOutcome(compiled.egress, final, c.dest, c.port);
    EvaluationMeetsSpec(d, c.dest, c.port);
    OwnerIsNamed(modules, c.dest, c.port);
  }

  // ---------- Capture rules ----------

  lemma {:induction false} CaptureMeans(s: Selector, c: Conn, within: (string, string) -> bool)
    requires ValidSelector(s) && SingleAddresses(within)
    ensures Takes(c, within)(RenderCapture(s)) == if Selects(s, c.dest, c.port) then Some(ProxyName) else None
  {
    CaptureIsRead(s);
    LeavesMean(s, c, within);
  }

  lemma {:induction false} TextOfSelector(modules: seq<Module>, text: string) returns (i: nat)
    requires text in Texts(AllSelectors(modules))
    ensures i < |AllSelectors(modules)| && text == RenderCapture(AllSelectors(modules)[i])
  {
    i :| 0 <= i < |Texts(AllSelectors(modules))| && Texts(AllSelectors(modules))[i] == text;
  }

  lemma {:induction false} CapturedBySelector(modules: seq<Module>, text: string, c: Conn, within: (string, string) -> bool)
    requires Agreement.AllValid(modules) && SingleAddresses(within) && text in Texts(AllSelectors(modules))
    ensures Takes(c, within)(text).Some? ==> Takes(c, within)(text) == Some(ProxyName) && AnySelects(AllSelectors(modules), c.dest, c.port)
  {
    var i := TextOfSelector(modules, text);
    Agreement.AllSelectorsValid(modules, i);
    CaptureMeans(AllSelectors(modules)[i], c, within);
  }

  lemma {:induction false} SelectorCaptures(modules: seq<Module>, i: nat, c: Conn, within: (string, string) -> bool)
    requires Agreement.AllValid(modules) && SingleAddresses(within)
    requires i < |AllSelectors(modules)| && Selects(AllSelectors(modules)[i], c.dest, c.port)
    ensures Texts(AllSelectors(modules))[i] in Texts(AllSelectors(modules))
    ensures Takes(c, within)(Texts(AllSelectors(modules))[i]).Some?
  {
    Agreement.AllSelectorsValid(modules, i);
    CaptureMeans(AllSelectors(modules)[i], c, within);
  }

  lemma {:induction false} SomeTaken(texts: seq<string>, f: string -> Option<string>) returns (text: string)
    requires FirstSome(texts, f).Some?
    ensures text in texts && FirstSome(texts, f) == f(text)
  {
    var n := |texts| - 1;
    if FirstSome(texts[..n], f).Some? {
      text := SomeTaken(texts[..n], f);
    } else {
      text := texts[n];
    }
  }

  /**
   The compiled capture rules send a named connection, on whatever listener and
   network, to the interception proxy exactly if an active module declares the
   name and the port is a web port; other connections they leave alone.
   */
  lemma {:induction false} CompiledCaptureMeans(d: Document, compiled: Compiled, c: Conn, within: (string, string) -> bool)
    requires IsCompiled(d, compiled) && ValidModules(Active(d)) && SingleAddresses(within)
    requires c.dest.Host? && CanonicalName(c.dest.name)
    ensures FirstTarget(compiled.capture, c, within) ==
            if WebPort(c.port) && HostsMatch(Agreement.Hosts(Active(d)), c.dest.name) then Some("MODULE-INTERCEPT") else None
  {
    var modules, texts, f := Active(d), compiled.capture, Takes(c, within);
    ModulesAllValid(modules);
    Agreement.SelectorsOfModules(modules, c.dest.name, c.port);
    if AnySelects(AllSelectors(modules), c.dest, c.port) {
      var i :| 0 <= i < |AllSelectors(modules)| && Selects(AllSelectors(modules)[i], c.dest, c.port);
      SelectorCaptures(modules, i, c, within);
      RepeatedIsIdle(texts, Texts(AllSelectors(modules))[i], f);
    }
    if FirstSome(texts, f).Some? {
      var text := SomeTaken(texts, f);
      CapturedBySelector(modules, text, c, within);
    }
  }
}
