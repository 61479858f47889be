/**
 Reading mihomo rules: a text becomes a matcher and a target, whoever
 wrote the text.
 */
module MihomoRules {
  // The reader knows mihomo's rule grammar and nothing of the printers: a word, a
  // comma, then a value or, behind AND and OR, a parenthesised list of matchers.
  // What an address range contains is left to the parameter `within`.

  import opened Options
  import opened Names
  import opened RuleText
  import opened RuleRows
  import opened CaptureRouting

  datatype What = ExactName | NameSuffix | NameWildcard | NameKeyword | Range | Protocol | Port | Listener

  datatype Matcher = Leaf(what: What, value: string) | All(parts: seq<Matcher>) | Any(parts: seq<Matcher>)

  datatype Reading = Reading(matcher: Matcher, target: string)

  /** A connection as mihomo sees it. */
  datatype Conn = Conn(dest: Destination, port: nat, network: string, listener: string)

  // ---------- What a matcher means ----------

  predicate LeafHolds(what: What, value: string, c: Conn, within: (string, string) -> bool) {
    match what
    case ExactName => c.dest.Host? && c.dest.name == Lower(value)
    case NameSuffix => c.dest.Host? && (c.dest.name == Lower(value) || HasSuffix(c.dest.name, "." + Lower(value)))
    case NameWildcard => c.dest.Host? && IsWildcard(value) && HasSuffix(c.dest.name, "." + Lower(value[2..]))
    case NameKeyword => c.dest.Host? && Contains(c.dest.name, Lower(value))
    case Range => c.dest.Address? && within(value, c.dest.quad)
    case Protocol => c.network == Lower(value)
    case Port => Atoi(value) == Some(c.port)
    case Listener => c.listener == value
  }

  predicate Holds(m: Matcher, c: Conn, within: (string, string) -> bool) {
    match m
    case Leaf(what, value) => LeafHolds(what, value, c, within)
    case All(parts) => forall i :: 0 <= i < |parts| ==> Holds(parts[i], c, within)
    case Any(parts) => exists i :: 0 <= i < |parts| && Holds(parts[i], c, within)
  }

  /** The first item for which `f` gives something. */
  function FirstSome<T, U>(items: seq<T>, f: T -> Option<U>): Option<U> {
    if items == [] then None
    else
      var earlier := FirstSome(items[..|items| - 1], f);
      if earlier.Some? then earlier else f(items[|items| - 1])
  }

  lemma {:induction false} FirstSomeAppend<T, U>(a: seq<T>, b: seq<T>, f: T -> Option<U>)
    ensures FirstSome(a + b, f) == if FirstSome(a, f).Some? then FirstSome(a, f) else FirstSome(b, f)
  {
    if b == [] {
      assert a + b == a;
    } else {
      var n := |b| - 1;
      FirstSomeAppend(a, b[..n], f);
      assert (a + b)[..|a + b| - 1] == a + b[..n];
    }
  }

  lemma {:induction false} FirstSomeOne<T, U>(item: T, f: T -> Option<U>)
    ensures FirstSome([item], f) == f(item)
  {
    assert [item][..0] == [];
  }

  lemma {:induction false} RepeatedIsIdle<T, U>(items: seq<T>, item: T, f: T -> Option<U>)
    requires item in items && f(item).Some?
    ensures FirstSome(items, f).Some?
  {
    var i :| 0 <= i < |items| && items[i] == item;
    FirstSomeAppend(items[..i], items[i..], f);
    FirstSomeAppend([item], items[i + 1..], f);
    FirstSomeOne(item, f);
    assert items == items[..i] + items[i..] && items[i..] == [item] + items[i + 1..];
  }

  /** Where the rule sends the connection, if it takes it. */
  function Takes(c: Conn, within: (string, string) -> bool): string -> Option<string> {
    (text: string) =>
      var r := ReadRule(text);
      if r.Some? && Holds(r.value.matcher, c, within) then Some(r.value.target) else None
  }

  /** The target of the first rule that holds. */
  function FirstTarget(texts: seq<string>, c: Conn, within: (string, string) -> bool): Option<string> {
    FirstSome(texts, Takes(c, within))
  }

  // ---------- The reader ----------

  function WordFor(word: string): Option<What> {
    if word == "DOMAIN" then Some(ExactName)
    else if word == "DOMAIN-SUFFIX" then Some(NameSuffix)
    else if word == "DOMAIN-WILDCARD" then Some(NameWildcard)
    else if word == "DOMAIN-KEYWORD" then Some(NameKeyword)
    else if word == "IP-CIDR" || word == "IP-CIDR6" then Some(Range)
    else if word == "NETWORK" then Some(Protocol)
    else if word == "DST-PORT" then Some(Port)
    else if word == "IN-NAME" then Some(Listener)
    else None
  }

  predicate IsLogic(word: string) {
    word == "AND" || word == "OR"
  }

  function Combined(word: string, parts: seq<Matcher>): Matcher {
    if word == "AND" then All(parts) else Any(parts)
  }

  predicate NoFlag(tail: string) {
    tail == "" || tail == ",no-resolve"
  }

  function Later(r: Option<nat>, n: nat): Option<nat> {
    if r.None? then None else Some(r.value + n)
  }

  /** Length of the part up to the parenthesis that closes what `depth` opening ones have opened. */
  function GroupEnd(s: string, depth: nat): (r: Option<nat>)
    ensures r.Some? ==> 1 <= r.value <= |s| && (s[0] == '(' ==> r.value >= 2)
  {
    if s == [] then None
    else if s[0] == '(' then Later(GroupEnd(s[1..], depth + 1), 1)
    else if s[0] == ')' then (if depth <= 1 then Some(1) else Later(GroupEnd(s[1..], depth - 1), 1))
    else Later(GroupEnd(s[1..], depth), 1)
  }

  function ReadLeaf(word: string, rest: string): Option<Matcher> {
    var n := FirstComma(rest);
    if WordFor(word).None? || !NoFlag(rest[n..]) then None else Some(Leaf(WordFor(word).value, rest[..n]))
  }

  function ReadMatcher(s: string): Option<Matcher>
    decreases |s|
  {
    var n := FirstComma(s);
    if n == |s| then None
    else
      var word, rest := s[..n], s[n + 1..];
      if !IsLogic(word) then ReadLeaf(word, rest)
      else if rest == [] || rest[0] != '(' || GroupEnd(rest, 0) != Some(|rest|) then None
      else
        var parts := ReadParts(rest[1..|rest| - 1]);
        if parts.None? then None else Some(Combined(word, parts.value))
  }

  /** Matchers in parentheses, separated by commas. */
  function ReadParts(s: string): Option<seq<Matcher>>
    decreases |s|
  {
    if s == [] || s[0] != '(' || GroupEnd(s, 0).None? then None
    else
      var e := GroupEnd(s, 0).value;
      if e == |s| then Put(ReadMatcher(s[1..e - 1]), Some([]))
      else if s[e] != ',' then None
      else Put(ReadMatcher(s[1..e - 1]), ReadParts(s[e + 1..]))
  }

  function Put(first: Option<Matcher>, others: Option<seq<Matcher>>): Option<seq<Matcher>> {
    if first.None? || others.None? then None else Some([first.value] + others.value)
  }

  function ReadLogicRule(word: string, rest: string): Option<Reading> {
    if rest == [] || rest[0] != '(' || GroupEnd(rest, 0).None? then None
    else
      var e := GroupEnd(rest, 0).value;
      if e == |rest| || rest[e] != ',' || ',' in rest[e + 1..] then None
      else
        var parts := ReadParts(rest[1..e - 1]);
        if parts.None? then None else Some(Reading(Combined(word, parts.value), rest[e + 1..]))
  }

  function ReadLeafRule(word: string, rest: string): Option<Reading> {
    var n := FirstComma(rest);
    if WordFor(word).None? || n == |rest| then None
    else
      var after := rest[n + 1..];
      var m := FirstComma(after);
      if !NoFlag(after[m..]) then None else Some(Reading(Leaf(WordFor(word).value, rest[..n]), after[..m]))
  }

  function ReadRule(text: string): Option<Reading> {
    var n := FirstComma(text);
    if n == |text| then None
    else
      var word, rest := text[..n], text[n + 1..];
      if IsLogic(word) then ReadLogicRule(word, rest) else ReadLeafRule(word, rest)
  }

  // ---------- Text without marks, and balanced text ----------

  predicate Unmarked(s: string) {
    forall i :: 0 <= i < |s| ==> s[i] != ',' && s[i] != '(' && s[i] != ')'
  }

  predicate Skips(s: string, depth: nat, after: string) {
    GroupEnd(s + after, depth) == Later(GroupEnd(after, depth), |s|)
  }

  /** Text that leaves the depth as it was, whatever follows. */
  ghost predicate Neutral(s: string) {
    forall depth: nat, after :: depth >= 1 ==> Skips(s, depth, after)
  }

  lemma {:induction false} PlainSkips(s: string, depth: nat, after: string)
    requires depth >= 1 && forall i :: 0 <= i < |s| ==> s[i] != '(' && s[i] != ')'
    ensures Skips(s, depth, after)
  {
    if s == [] {
      assert s + after == after;
    } else {
      PlainSkips(s[1..], depth, after);
      assert (s + after)[1..] == s[1..] + after;
    }
  }

  lemma {:induction false} PlainIsNeutral(s: string)
    requires forall i :: 0 <= i < |s| ==> s[i] != '(' && s[i] != ')'
    ensures Neutral(s)
  {
    forall depth: nat, after | depth >= 1
      ensures Skips(s, depth, after)
    {
      PlainSkips(s, depth, after);
    }
  }

  lemma {:induction false} NeutralConcat(a: string, b: string)
    requires Neutral(a) && Neutral(b)
    ensures Neutral(a + b)
  {
    forall depth: nat, after | depth >= 1
      ensures Skips(a + b, depth, after)
    {
      assert Skips(a, depth, b + after) && Skips(b, depth, after);
      assert a + b + after == a + (b + after);
    }
  }

  lemma {:induction false} OpenStep(s: string, depth: nat)
    ensures GroupEnd("(" + s, depth) == Later(GroupEnd(s, depth + 1), 1)
  {
    assert ("(" + s)[1..] == s;
  }

  lemma {:induction false} CloseStep(s: string, depth: nat)
    ensures GroupEnd(")" + s, depth) == if depth <= 1 then Some(1) else Later(GroupEnd(s, depth - 1), 1)
  {
    assert (")" + s)[1..] == s;
  }

  function Grouped(s: string): string {
    "(" + s + ")"
  }

  lemma {:induction false} GroupSteps(s: string, depth: nat, after: string)
    requires Neutral(s)
    ensures GroupEnd(Grouped(s) + after, depth) == if depth == 0 then Some(|s| + 2) else Later(GroupEnd(after, depth), |s| + 2)
  {
    assert Skips(s, depth + 1, ")" + after);
    OpenStep(s + (")" + after), depth);
    CloseStep(after, depth + 1);
    assert Grouped(s) + after == "(" + (s + (")" + after));
  }

  lemma {:induction false} GroupIsNeutral(s: string)
    requires Neutral(s)
    ensures Neutral(Grouped(s))
  {
    forall depth: nat, after | depth >= 1
      ensures Skips(Grouped(s), depth, after)
    {
      GroupSteps(s, depth, after);
    }
  }

  lemma {:induction false} CommaAt(word: string, rest: string)
    requires Unmarked(word)
    ensures FirstComma(word + "," + rest) == |word|
  {
    var s := word + "," + rest;
    var n := FirstComma(s);
    assert s[|word|] == ',';
    assert forall i :: 0 <= i < |word| ==> s[i] == word[i];
  }

  lemma {:induction false} NoCommaInside(word: string)
    requires Unmarked(word)
    ensures FirstComma(word) == |word|
  {
  }

  // ---------- Reading leaves ----------

  /** A word that stands for a kind of leaf. */
  predicate LeafWord(word: string, what: What) {
    Unmarked(word) && !IsLogic(word) && WordFor(word) == Some(what)
  }

  lemma {:induction false} NameWords()
    ensures LeafWord("DOMAIN", ExactName) && LeafWord("DOMAIN-SUFFIX", NameSuffix)
    ensures LeafWord("DOMAIN-WILDCARD", NameWildcard) && LeafWord("DOMAIN-KEYWORD", NameKeyword)
  {
  }

  lemma {:induction false} OtherWords()
    ensures LeafWord("IP-CIDR", Range) && LeafWord("IP-CIDR6", Range)
    ensures LeafWord("NETWORK", Protocol) && LeafWord("DST-PORT", Port) && LeafWord("IN-NAME", Listener)
  {
  }

  lemma {:induction false} SplitAt(word: string, rest: string)
    ensures (word + "," + rest)[..|word|] == word && (word + "," + rest)[|word| + 1..] == rest
  {
  }

  lemma {:induction false} LeafIsRead(word: string, what: What, value: string, flag: string)
    requires LeafWord(word, what) && Unmarked(value) && NoFlag(flag)
    ensures ReadMatcher(word + "," + (value + flag)) == Some(Leaf(what, value))
  {
    CommaAt(word, value + flag);
    SplitAt(word, value + flag);
    ValueEnds(value, flag);
  }

  lemma {:induction false} ValueEnds(value: string, tail: string)
    requires Unmarked(value) && (tail == "" || tail[0] == ',')
    ensures FirstComma(value + tail) == |value| && (value + tail)[..|value|] == value && (value + tail)[|value|..] == tail
  {
    var s := value + tail;
    var n := FirstComma(s);
    assert forall i :: 0 <= i < |value| ==> s[i] == value[i];
    if tail != "" {
      assert s[|value|] == tail[0];
    }
  }

  lemma {:induction false} LeafRuleIsRead(word: string, what: What, value: string, target: string, flag: string)
    requires LeafWord(word, what) && Unmarked(value) && Unmarked(target) && NoFlag(flag)
    ensures ReadRule(word + "," + (value + "," + (target + flag))) == Some(Reading(Leaf(what, value), target))
  {
    var rest := value + "," + (target + flag);
    CommaAt(word, rest);
    SplitAt(word, rest);
    CommaAt(value, target + flag);
    SplitAt(value, target + flag);
    ValueEnds(target, flag);
  }

  // ---------- Reading lists ----------

  /** The text is balanced and read as this matcher. */
  ghost predicate ReadsAs(text: string, m: Matcher) {
    Neutral(text) && ReadMatcher(text) == Some(m)
  }

  ghost predicate AllReadAs(texts: seq<string>, ms: seq<Matcher>) {
    |texts| == |ms| && forall i :: 0 <= i < |texts| ==> ReadsAs(texts[i], ms[i])
  }

  /** Texts in parentheses, separated by commas. */
  function Listed(texts: seq<string>): string {
    if texts == [] then ""
    else if |texts| == 1 then Grouped(texts[0])
    else Grouped(texts[0]) + ("," + Listed(texts[1..]))
  }

  lemma {:induction false} UnmarkedNeutral(s: string)
    requires Unmarked(s)
    ensures Neutral(s)
  {
    PlainIsNeutral(s);
  }

  lemma {:induction false} ListedIsNeutral(texts: seq<string>, ms: seq<Matcher>)
    requires AllReadAs(texts, ms)
    ensures Neutral(Listed(texts))
    decreases |texts|
  {
    if texts == [] {
      PlainIsNeutral("");
    } else {
      assert ReadsAs(texts[0], ms[0]);
      GroupIsNeutral(texts[0]);
      if |texts| > 1 {
        RestReads(texts, ms);
        ListedIsNeutral(texts[1..], ms[1..]);
        PlainIsNeutral(",");
        NeutralConcat(",", Listed(texts[1..]));
        NeutralConcat(Grouped(texts[0]), "," + Listed(texts[1..]));
      }
    }
  }

  lemma {:induction false} RestReads(texts: seq<string>, ms: seq<Matcher>)
    requires AllReadAs(texts, ms) && texts != []
    ensures AllReadAs(texts[1..], ms[1..])
  {
    forall i | 0 <= i < |texts| - 1
      ensures ReadsAs(texts[1..][i], ms[1..][i])
    {
      assert ReadsAs(texts[i + 1], ms[i + 1]);
    }
  }

  lemma {:induction false} GroupParts(s: string, after: string)
    ensures var t := Grouped(s) + after;
            && t != [] && t[0] == '(' && |t| == |s| + 2 + |after| && t[1..|s| + 1] == s
            && (after != [] ==> t[|s| + 2] == after[0] && t[|s| + 3..] == after[1..])
  {
  }

  lemma {:induction false} OnlyPart(text: string, m: Matcher)
    requires ReadsAs(text, m)
    ensures ReadParts(Grouped(text)) == Some([m])
  {
    GroupSteps(text, 0, "");
    GroupParts(text, "");
    assert Grouped(text) + "" == Grouped(text);
    assert [m] + [] == [m];
  }

  lemma {:induction false} PartsUnfold(s: string, e: nat)
    requires s != [] && s[0] == '(' && GroupEnd(s, 0) == Some(e) && e < |s| && s[e] == ','
    ensures ReadParts(s) == Put(ReadMatcher(s[1..e - 1]), ReadParts(s[e + 1..]))
  {
  }

  lemma {:induction false} FirstGroup(text: string, more: string, all: string)
    requires Neutral(text) && all == Grouped(text) + ("," + more)
    ensures var e := |text| + 2;
            && e < |all| && all[0] == '(' && all[e] == ',' && GroupEnd(all, 0) == Some(e)
            && all[1..e - 1] == text && all[e + 1..] == more
  {
    GroupSteps(text, 0, "," + more);
    GroupParts(text, "," + more);
    assert ("," + more)[1..] == more;
  }

  lemma {:induction false} FirstPart(text: string, m: Matcher, more: string, ms: seq<Matcher>, all: string)
    requires ReadsAs(text, m) && ReadParts(more) == Some(ms) && all == Grouped(text) + ("," + more)
    ensures ReadParts(all) == Some([m] + ms)
  {
    FirstGroup(text, more, all);
    PartsUnfold(all, |text| + 2);
  }

  lemma {:induction false} ListedStep(texts: seq<string>)
    requires |texts| > 1
    ensures Listed(texts) == Grouped(texts[0]) + ("," + Listed(texts[1..]))
  {
  }

  lemma {:induction false} HeadReads(texts: seq<string>, ms: seq<Matcher>)
    requires AllReadAs(texts, ms) && texts != []
    ensures ms != [] && ReadsAs(texts[0], ms[0]) && ms == [ms[0]] + ms[1..]
  {
  }

  lemma {:induction false} ListIsRead(texts: seq<string>, ms: seq<Matcher>)
    requires AllReadAs(texts, ms) && texts != []
    ensures ReadParts(Listed(texts)) == Some(ms)
    decreases |texts|
  {
    HeadReads(texts, ms);
    if |texts| == 1 {
      OnlyPart(texts[0], ms[0]);
      assert ms == [ms[0]];
    } else {
      RestReads(texts, ms);
      ListIsRead(texts[1..], ms[1..]);
      ListedStep(texts);
      FirstPart(texts[0], ms[0], Listed(texts[1..]), ms[1..], Listed(texts));
    }
  }

  lemma {:induction false} LogicIsRead(word: string, texts: seq<string>, ms: seq<Matcher>)
    requires IsLogic(word) && AllReadAs(texts, ms) && texts != []
    ensures ReadMatcher(word + "," + Grouped(Listed(texts))) == Some(Combined(word, ms))
  {
    var rest := Grouped(Listed(texts));
    LogicWord(word);
    CommaAt(word, rest);
    SplitAt(word, rest);
    ListedIsNeutral(texts, ms);
    GroupSteps(Listed(texts), 0, "");
    GroupParts(Listed(texts), "");
    assert rest + "" == rest;
    ListIsRead(texts, ms);
  }

  lemma {:induction false} LogicWord(word: string)
    requires IsLogic(word)
    ensures Unmarked(word)
  {
  }

  lemma {:induction false} LogicRuleIsRead(word: string, texts: seq<string>, ms: seq<Matcher>, target: string)
    requires IsLogic(word) && AllReadAs(texts, ms) && texts != [] && ',' !in target
    ensures ReadRule(word + "," + (Grouped(Listed(texts)) + ("," + target))) == Some(Reading(Combined(word, ms), target))
  {
    var rest := Grouped(Listed(texts)) + ("," + target);
    LogicWord(word);
    CommaAt(word, rest);
    SplitAt(word, rest);
    ListedIsNeutral(texts, ms);
    GroupSteps(Listed(texts), 0, "," + target);
    GroupParts(Listed(texts), "," + target);
    assert ("," + target)[1..] == target;
    ListIsRead(texts, ms);
  }

  lemma {:induction false} LogicReadsAs(word: string, texts: seq<string>, ms: seq<Matcher>)
    requires IsLogic(word) && AllReadAs(texts, ms) && texts != []
    ensures ReadsAs(word + "," + Grouped(Listed(texts)), Combined(word, ms))
  {
    LogicIsRead(word, texts, ms);
    LogicWord(word);
    ListedIsNeutral(texts, ms);
    GroupIsNeutral(Listed(texts));
    UnmarkedNeutral(word);
    PlainIsNeutral(",");
    NeutralConcat(word, ",");
    NeutralConcat(word + ",", Grouped(Listed(texts)));
  }

  lemma {:induction false} LeafReadsAs(word: string, what: What, value: string, flag: string)
    requires LeafWord(word, what) && Unmarked(value) && NoFlag(flag)
    ensures ReadsAs(word + "," + (value + flag), Leaf(what, value))
  {
    LeafIsRead(word, what, value, flag);
    FlagIsPlain(flag);
    var s := word + "," + (value + flag);
    forall i | 0 <= i < |s|
      ensures s[i] != '(' && s[i] != ')'
    {
      assert s[i] == if i < |word| then word[i] else if i == |word| then ',' else if i <= |word| + |value| then value[i - |word| - 1] else flag[i - |word| - 1 - |value|];
    }
    PlainIsNeutral(s);
  }

  lemma {:induction false} FlagIsPlain(flag: string)
    requires NoFlag(flag)
    ensures forall i :: 0 <= i < |flag| ==> flag[i] != '(' && flag[i] != ')'
  {
  }

  // ---------- Compiled selectors ----------

  /** The range that is one address holds that address and no other. */
  ghost predicate SingleAddresses(within: (string, string) -> bool) {
    forall quad: string, other: string :: within(quad + "/32", other) <==> quad == other
  }

  function KindWord(k: Kind): string {
    match k
    case Domain => "DOMAIN"
    case DomainWildcard => "DOMAIN-WILDCARD"
    case DomainSuffix => "DOMAIN-SUFFIX"
    case IpCidr => "IP-CIDR"
  }

  function KindWhat(k: Kind): What {
    match k
    case Domain => ExactName
    case DomainWildcard => NameWildcard
    case DomainSuffix => NameSuffix
    case IpCidr => Range
  }

  lemma {:induction false} KindWords(k: Kind)
    ensures LeafWord(KindWord(k), KindWhat(k)) && KindText(k) == KindWord(k) + ","
  {
    NameWords();
    OtherWords();
  }

  lemma {:induction false} OctetsUnmarked(s: string, n: nat)
    requires IsOctets(s, n)
    ensures Unmarked(s)
    decreases n
  {
    if n > 1 {
      var k :| 0 <= k < |s| && s[k] == '.' && IsOctet(s[..k]) && IsOctets(s[k + 1..], n - 1);
      OctetsUnmarked(s[k + 1..], n - 1);
      DigitsUnmarked(s[..k]);
      forall i | 0 <= i < |s|
        ensures s[i] != ',' && s[i] != '(' && s[i] != ')'
      {
        assert i < k ==> s[i] == s[..k][i];
        assert i > k ==> s[i] == s[k + 1..][i - k - 1];
      }
    }
  }

  lemma {:induction false} DigitsUnmarked(s: string)
    requires forall i :: 0 <= i < |s| ==> IsDigit(s[i])
    ensures Unmarked(s)
  {
  }

  lemma {:induction false} HostUnmarked(value: string)
    requires ValidHostPattern(value)
    ensures Unmarked(value)
  {
    HostChars(value);
    forall i | 0 <= i < |value|
      ensures value[i] != ',' && value[i] != '(' && value[i] != ')'
    {
      assert IsHostChar(value[i]);
    }
  }

  lemma {:induction false} ValueUnmarked(s: Selector)
    requires ValidSelector(s)
    ensures Unmarked(s.value)
  {
    if s.kind.IpCidr? {
      var quad := TrimSuffix(s.value, "/32");
      OctetsUnmarked(quad, 4);
      assert s.value == quad + "/32";
    } else {
      HostUnmarked(s.value);
    }
  }

  function SelectorLeaves(s: Selector): seq<Matcher> {
    [Leaf(KindWhat(s.kind), s.value), Leaf(Port, Itoa(s.port))]
  }

  lemma {:induction false} PortText(port: nat)
    ensures ReadsAs("DST-PORT," + Itoa(port), Leaf(Port, Itoa(port)))
  {
    OtherWords();
    DigitsUnmarked(Itoa(port));
    LeafReadsAs("DST-PORT", Port, Itoa(port), "");
    assert Itoa(port) + "" == Itoa(port);
    assert "DST-PORT" + "," + Itoa(port) == "DST-PORT," + Itoa(port);
  }

  lemma {:induction false} ValueText(s: Selector, flag: string)
    requires ValidSelector(s) && NoFlag(flag)
    ensures ReadsAs(KindText(s.kind) + (s.value + flag), Leaf(KindWhat(s.kind), s.value))
  {
    KindWords(s.kind);
    ValueUnmarked(s);
    LeafReadsAs(KindWord(s.kind), KindWhat(s.kind), s.value, flag);
  }

  lemma {:induction false} TwoGroups(a: string, p: string, target: string)
    ensures "AND,((" + a + PortMarker + p + "))," + target == "AND" + "," + (Grouped(Listed([a, "DST-PORT," + p])) + ("," + target))
  {
    var q := "DST-PORT," + p;
    assert [a, q][1..] == [q];
    assert PortMarker == ")" + "," + "(" + "DST-PORT,";
    assert Grouped(Listed([a, q])) == "(" + ("(" + a + ")" + ("," + ("(" + q + ")"))) + ")";
    assert "AND,((" == "AND" + "," + "(" + "(" && "))," == ")" + ")" + ",";
  }

  lemma {:induction false} TwoAreRead(text: string, a: string, x: Matcher, b: string, y: Matcher, target: string)
    requires ReadsAs(a, x) && ReadsAs(b, y) && ',' !in target
    requires text == "AND" + "," + (Grouped(Listed([a, b])) + ("," + target))
    ensures ReadRule(text) == Some(Reading(All([x, y]), target))
  {
    assert AllReadAs([a, b], [x, y]);
    LogicRuleIsRead("AND", [a, b], [x, y], target);
  }

  lemma {:induction false} CaptureShape(s: Selector, a: string, b: string)
    requires a == KindText(s.kind) + s.value && b == "DST-PORT," + Itoa(s.port)
    ensures RenderCapture(s) == "AND" + "," + (Grouped(Listed([a, b])) + ("," + ProxyName))
  {
    TwoGroups(a, Itoa(s.port), ProxyName);
  }

  lemma {:induction false} ProxyIsOneField()
    ensures ',' !in ProxyName
  {
  }

  /** A capture rule is read as its selector's value and port, and goes to the proxy. */
  lemma {:induction false} CaptureIsRead(s: Selector)
    requires ValidSelector(s)
    ensures ReadRule(RenderCapture(s)) == Some(Reading(All(SelectorLeaves(s)), ProxyName))
  {
    var a, b := KindText(s.kind) + s.value, "DST-PORT," + Itoa(s.port);
    CaptureShape(s, a, b);
    ValueText(s, "");
    assert s.value + "" == s.value;
    PortText(s.port);
    ProxyIsOneField();
    TwoAreRead(RenderCapture(s), a, Leaf(KindWhat(s.kind), s.value), b, Leaf(Port, Itoa(s.port)), ProxyName);
  }

  lemma {:induction false} BothHold(x: Matcher, y: Matcher, c: Conn, within: (string, string) -> bool)
    ensures Holds(All([x, y]), c, within) <==> Holds(x, c, within) && Holds(y, c, within)
  {
    var parts := [x, y];
    assert parts[0] == x && parts[1] == y;
  }

  lemma {:induction false} PortMeans(port: nat, c: Conn, within: (string, string) -> bool)
    ensures Holds(Leaf(Port, Itoa(port)), c, within) <==> port == c.port
  {
    AtoiItoa(port);
  }

  lemma {:induction false} LeavesMean(s: Selector, c: Conn, within: (string, string) -> bool)
    requires ValidSelector(s) && SingleAddresses(within)
    ensures Holds(All(SelectorLeaves(s)), c, within) <==> Selects(s, c.dest, c.port)
  {
    BothHold(Leaf(KindWhat(s.kind), s.value), Leaf(Port, Itoa(s.port)), c, within);
    PortMeans(s.port, c, within);
    ValueMeans(s.kind, s.value, c, within);
  }

  lemma {:induction false} AddressMeans(value: string, quad: string, other: string, within: (string, string) -> bool)
    requires SingleAddresses(within) && value == quad + "/32"
    ensures within(value, other) <==> value == other + "/32"
  {
    assert within(quad + "/32", other) <==> quad == other;
    Ends(quad, "/32");
    Ends(other, "/32");
  }

  lemma {:induction false} ValueMeans(kind: Kind, value: string, c: Conn, within: (string, string) -> bool)
    requires SingleAddresses(within) && (kind.IpCidr? ==> HasSuffix(value, "/32"))
    ensures Holds(Leaf(KindWhat(kind), value), c, within) <==> ValueMatches(kind, value, c.dest)
  {
    if kind.IpCidr? && c.dest.Address? {
      var quad := value[..|value| - 3];
      assert value == quad + "/32";
      AddressMeans(value, quad, c.dest.quad, within);
    }
  }
}
