/**
 The switch that blocks QUIC on port 443 by one rule right
 after the egress terminator.
 */
module QuicToggle {
  import opened Options
  import opened Names
  import opened RuleText
  import opened RuleRows
  import opened CaptureRouting

  predicate TouchesQuic(compact: string) {
    HasPrefix(compact, "AND,(") && Contains(compact, UdpMatcher) && Contains(compact, PortMatcher)
  }

  /** A rule text with the answers the toggle needs. */
  datatype Line = Line(text: string, isMatch: bool, terminal: Option<string>, terminator: bool, touches: bool, deny: bool) {
    /** Holds of every text. */
    predicate Sane() {
      deny ==> touches && !terminator && !isMatch
    }
  }

  function LineOf(text: string): Line {
    var raw, compact := TrimSpace(text), Compact(text);
    Line(text, IsMatch(raw), MatchTarget(raw), compact == RejectText, TouchesQuic(compact), DenyQuic(compact))
  }

  predicate AllSane(lines: seq<Line>) {
    forall i :: 0 <= i < |lines| ==> lines[i].Sane()
  }

  predicate Disjoint(lines: seq<Line>) {
    forall i :: 0 <= i < |lines| ==> !(lines[i].terminator && lines[i].isMatch)
  }

  function Lines(texts: seq<string>): (r: seq<Line>)
    ensures |r| == |texts|
  {
    Mapped(LineOf, texts)
  }

  function Mapped<T, U>(f: T -> U, items: seq<T>): (r: seq<U>)
    ensures |r| == |items|
  {
    if items == [] then [] else Mapped(f, items[..|items| - 1]) + [f(items[|items| - 1])]
  }

  lemma {:induction false} MappedAppend<T, U>(f: T -> U, a: seq<T>, b: seq<T>)
    ensures Mapped(f, a + b) == Mapped(f, a) + Mapped(f, b)
  {
    if b == [] {
      assert a + b == a;
    } else {
      var n := |b| - 1;
      MappedAppend(f, a, b[..n]);
      assert (a + b)[..|a + b| - 1] == a + b[..n];
    }
  }

  lemma {:induction false} MappedAt<T, U>(f: T -> U, items: seq<T>, i: nat)
    requires i < |items|
    ensures Mapped(f, items)[i] == f(items[i])
  {
    var n := |items| - 1;
    if i < n {
      MappedAt(f, items[..n], i);
    }
  }

  // ---------- Every text is sane ----------

  const WrittenRule := QuicBase + ",REJECT"
  const DropRule := QuicBase + ",REJECT-DROP"

  lemma {:induction false} DenyTouches(compact: string, tail: string)
    requires compact == QuicBase + tail
    ensures HasPrefix(compact, "AND,(") && Contains(compact, UdpMatcher) && Contains(compact, PortMatcher) && compact != RejectText
  {
    Regroup("AND,(", UdpMatcher, ",", PortMatcher, ")", tail);
    PlacedInside("AND,(", UdpMatcher, ",", PortMatcher, ")" + tail);
    assert compact == "AND,(" + UdpMatcher + "," + PortMatcher + (")" + tail);
    assert compact[0] == 'A';
  }

  lemma {:induction false} PlacedInside(a: string, b: string, c: string, d: string, e: string)
    ensures var s := a + b + c + d + e; HasPrefix(s, a) && Contains(s, b) && Contains(s, d)
  {
    var s := a + b + c + d + e;
    assert s[..|a|] == a;
    assert s == a + b + (c + d + e);
    Cut(a, b, c + d + e);
    assert s[|a|..|a| + |b|] == b;
    assert At(s, b, |a|);
    assert s == a + b + c + d + e;
    assert s[|a + b + c|..|a + b + c| + |d|] == d;
    assert At(s, d, |a + b + c|);
  }

  lemma {:induction false} LineIsSane(text: string)
    ensures LineOf(text).Sane()
    ensures !(LineOf(text).terminator && LineOf(text).isMatch)
  {
    var compact := Compact(text);
    if compact == WrittenRule {
      DenyTouches(compact, ",REJECT");
    } else if compact == DropRule {
      DenyTouches(compact, ",REJECT-DROP");
    }
    if IsMatch(TrimSpace(text)) {
      MatchIsNotQuic(text);
      MatchStartsWithM(text);
    }
  }

  lemma {:induction false} MatchStartsWithM(text: string)
    requires IsMatch(TrimSpace(text))
    ensures Compact(text) != RejectText
  {
    var raw := TrimSpace(text);
    TrimRightChars(TrimLeft(text));
    TrimLeftStarts(text);
    var kind := raw[..FirstComma(raw)];
    TrimRightChars(kind);
    assert kind != [];
    assert kind[0] == raw[0] == TrimLeft(text)[0] && TrimLeft(kind) == kind;
    CompactFirst(text);
    assert RejectText[0] == 'I';
  }

  /** A deny rule counts as touching QUIC, and is neither the terminator nor a MATCH rule; the terminator is no MATCH rule. */
  lemma {:induction false} LinesAreSane(texts: seq<string>)
    ensures AllSane(Lines(texts)) && Disjoint(Lines(texts))
  {
    var lines := Lines(texts);
    forall i | 0 <= i < |lines|
      ensures lines[i].Sane() && !(lines[i].terminator && lines[i].isMatch)
    {
      MappedAt(LineOf, texts, i);
      LineIsSane(texts[i]);
    }
  }

  lemma {:induction false} PlainIsDeny(text: string)
    requires NoBlank(text) && DenyQuic(text)
    ensures DenyQuic(Compact(text))
  {
    CompactSame(text);
  }

  lemma {:induction false} WrittenIsDeny()
    ensures IsDeny(WrittenRule)
  {
    assert NoBlank(QuicBase) && NoBlank(",REJECT");
    NoBlankConcat(QuicBase, ",REJECT");
    PlainIsDeny(WrittenRule);
  }

  lemma {:induction false} DropIsDeny()
    ensures IsDeny(DropRule) && DropRule != WrittenRule
  {
    assert NoBlank(QuicBase) && NoBlank(",REJECT-DROP");
    NoBlankConcat(QuicBase, ",REJECT-DROP");
    PlainIsDeny(DropRule);
    assert |DropRule| == |WrittenRule| + 5;
  }

  // ---------- States ----------

  predicate EndsInMatch(lines: seq<Line>) {
    && lines != [] && lines[|lines| - 1].terminal.Some?
    && forall i :: 0 <= i < |lines| ==> (lines[i].isMatch <==> i == |lines| - 1)
  }

  /** One terminator, at `at`, and a single final MATCH rule. */
  predicate Managed(lines: seq<Line>, at: nat) {
    && EndsInMatch(lines) && at < |lines|
    && forall i :: 0 <= i < |lines| ==> (lines[i].terminator <==> i == at)
  }

  predicate IsOff(lines: seq<Line>, at: nat) {
    Managed(lines, at) && forall i :: 0 <= i < |lines| ==> !lines[i].touches
  }

  predicate IsOn(lines: seq<Line>, at: nat) {
    && Managed(lines, at) && at + 1 < |lines| && lines[at + 1].deny
    && forall i :: 0 <= i < |lines| ==> (lines[i].touches <==> i == at + 1)
  }

  datatype State = Unmanageable | Off(at: nat) | On(at: nat)

  predicate Describes(s: State, lines: seq<Line>) {
    match s
    case Off(at) => IsOff(lines, at)
    case On(at) => IsOn(lines, at)
    case Unmanageable => forall at: nat | at < |lines| :: !IsOff(lines, at) && !IsOn(lines, at)
  }

  // ---------- The loops of the source ----------

  method FinalMatch(lines: seq<Line>) returns (ok: bool)
    ensures ok <==> EndsInMatch(lines)
  {
    var found := -1;
    for i := 0 to |lines|
      invariant found == -1 || (found == |lines| - 1 == i - 1 && lines[found].isMatch && lines[found].terminal.Some?)
      invariant forall j :: 0 <= j < i ==> (lines[j].isMatch <==> j == found)
    {
      if lines[i].isMatch {
        if found != -1 || i != |lines| - 1 || lines[i].terminal.None? {
          return false;
        }
        found := i;
      }
    }
    ok := found >= 0;
  }

  /** With one terminator and some touching rule, only one state is left to check. */
  lemma {:induction false} OnlyPlace(lines: seq<Line>, terminator: nat, first: nat)
    requires Managed(lines, terminator) && first < |lines| && lines[first].touches
    ensures forall at: nat :: at < |lines| ==> !IsOff(lines, at)
    ensures forall at: nat :: at < |lines| && IsOn(lines, at) ==>
              at == terminator && first == at + 1 && lines[first].deny && forall j :: 0 <= j < |lines| && j != first ==> !lines[j].touches
  {
    assert lines[terminator].terminator;
  }

  lemma {:induction false} NoTerminator(lines: seq<Line>)
    requires forall i :: 0 <= i < |lines| ==> !lines[i].terminator
    ensures Describes(Unmanageable, lines)
  {
    forall at: nat | at < |lines|
      ensures !Managed(lines, at)
    {
      assert !lines[at].terminator;
    }
  }

  lemma {:induction false} TwoTerminators(lines: seq<Line>, i: nat, j: nat)
    requires i < j < |lines| && lines[i].terminator && lines[j].terminator
    ensures Describes(Unmanageable, lines)
  {
  }

  /** Counting stops mattering at two, so the count is kept as what it says about positions. */
  method AnalyzeLines(lines: seq<Line>) returns (s: State)
    requires AllSane(lines)
    ensures Describes(s, lines)
  {
    var ok := FinalMatch(lines);
    if !ok {
      return Unmanageable;
    }
    var terminator, canonical, touching := -1, -1, 0;
    ghost var first := -1;
    for i := 0 to |lines|
      invariant -1 <= terminator < i && touching >= 0 && -1 <= first < i
      invariant forall j :: 0 <= j < i ==> (lines[j].terminator <==> j == terminator)
      invariant touching == 0 <==> first == -1
      invariant first >= 0 ==> lines[first].touches && (touching == 1 <==> forall j :: 0 <= j < i && j != first ==> !lines[j].touches)
      invariant first == -1 ==> forall j :: 0 <= j < i ==> !lines[j].touches
      invariant canonical == -1 || (0 <= canonical < i && lines[canonical].deny)
      invariant touching == 1 ==> (canonical == if lines[first].deny then first else -1)
    {
      if lines[i].terminator {
        if terminator != -1 {
          TwoTerminators(lines, terminator, i);
          return Unmanageable;
        }
        terminator := i;
      }
      if lines[i].touches {
        if touching == 0 {
          first := i;
        }
        touching := touching + 1;
        if lines[i].deny {
          canonical := i;
        }
      }
    }
    if terminator < 0 {
      NoTerminator(lines);
      return Unmanageable;
    }
    if touching == 0 {
      return Off(terminator);
    }
    OnlyPlace(lines, terminator, first);
    if touching == 1 && canonical == terminator + 1 {
      return On(terminator);
    }
    return Unmanageable;
  }

  method AnalyzeQuic(texts: seq<string>) returns (s: State)
    ensures Describes(s, Lines(texts))
  {
    LinesAreSane(texts);
    s := AnalyzeLines(Lines(texts));
  }

  // ---------- Switching, on lines ----------

  function Enabled<T>(items: seq<T>, at: nat, rule: T): seq<T>
    requires at < |items|
  {
    items[..at + 1] + [rule] + items[at + 1..]
  }

  function WithoutDeny(lines: seq<Line>): seq<Line> {
    if lines == [] then [] else
      var n := |lines| - 1;
      if lines[n].deny then WithoutDeny(lines[..n]) else WithoutDeny(lines[..n]) + [lines[n]]
  }

  predicate DenyLine(l: Line) {
    l.Sane() && l.deny
  }

  lemma {:induction false} WithoutAppend(a: seq<Line>, b: seq<Line>)
    ensures WithoutDeny(a + b) == WithoutDeny(a) + WithoutDeny(b)
  {
    if b == [] {
      assert a + b == a;
    } else {
      var n := |b| - 1;
      WithoutAppend(a, b[..n]);
      assert (a + b)[..|a + b| - 1] == a + b[..n];
    }
  }

  lemma {:induction false} NothingToRemove(lines: seq<Line>)
    requires forall i :: 0 <= i < |lines| ==> !lines[i].deny
    ensures WithoutDeny(lines) == lines
  {
    if lines != [] {
      NothingToRemove(lines[..|lines| - 1]);
    }
  }

  lemma {:induction false} WithoutOne(l: Line)
    requires l.deny
    ensures WithoutDeny([l]) == []
  {
    assert [l][..0] == [];
  }

  lemma {:induction false} FinalIsAfter(lines: seq<Line>, at: nat)
    requires Managed(lines, at) && Disjoint(lines)
    ensures at + 1 < |lines|
  {
    assert lines[at].terminator;
  }

  lemma {:induction false} SwitchedOn(lines: seq<Line>, at: nat, rule: Line)
    requires AllSane(lines) && Disjoint(lines) && IsOff(lines, at) && DenyLine(rule)
    ensures IsOn(Enabled(lines, at, rule), at)
  {
    FinalIsAfter(lines, at);
    var out := Enabled(lines, at, rule);
    assert forall i :: 0 <= i < |out| ==> out[i] == if i <= at then lines[i] else if i == at + 1 then rule else lines[i - 1];
  }

  lemma {:induction false} LinesOnThenOff(lines: seq<Line>, at: nat, rule: Line)
    requires AllSane(lines) && Disjoint(lines) && IsOff(lines, at) && DenyLine(rule)
    ensures IsOn(Enabled(lines, at, rule), at)
    ensures WithoutDeny(Enabled(lines, at, rule)) == lines
  {
    SwitchedOn(lines, at, rule);
    var a, b := lines[..at + 1], lines[at + 1..];
    WithoutAppend(a + [rule], b);
    WithoutAppend(a, [rule]);
    WithoutOne(rule);
    NothingToRemove(a);
    NothingToRemove(b);
    assert a + b == lines;
  }

  lemma {:induction false} OnSplits(lines: seq<Line>, at: nat)
    requires AllSane(lines) && IsOn(lines, at)
    ensures WithoutDeny(lines) == lines[..at + 1] + lines[at + 2..]
  {
    var a, b := lines[..at + 1], lines[at + 2..];
    assert lines == a + [lines[at + 1]] + b;
    WithoutAppend(a + [lines[at + 1]], b);
    WithoutAppend(a, [lines[at + 1]]);
    WithoutOne(lines[at + 1]);
    NothingToRemove(a);
    NothingToRemove(b);
  }

  lemma {:induction false} SwitchedOff(lines: seq<Line>, at: nat)
    requires AllSane(lines) && IsOn(lines, at)
    ensures IsOff(lines[..at + 1] + lines[at + 2..], at)
  {
    var out := lines[..at + 1] + lines[at + 2..];
    assert forall i :: 0 <= i < |out| ==> out[i] == if i <= at then lines[i] else lines[i + 1];
    assert !lines[at + 1].isMatch;
  }

  lemma {:induction false} LinesOffThenOnIff(lines: seq<Line>, at: nat, rule: Line)
    requires AllSane(lines) && IsOn(lines, at)
    ensures IsOff(WithoutDeny(lines), at)
    ensures Enabled(WithoutDeny(lines), at, rule) == lines <==> lines[at + 1] == rule
  {
    OnSplits(lines, at);
    SwitchedOff(lines, at);
    var out := lines[..at + 1] + lines[at + 2..];
    assert out[..at + 1] == lines[..at + 1] && out[at + 1..] == lines[at + 2..];
    var back := Enabled(out, at, rule);
    assert back[at + 1] == rule;
    assert lines == lines[..at + 1] + [lines[at + 1]] + lines[at + 2..];
  }

  // ---------- Switching, on texts ----------

  predicate IsDeny(text: string) {
    DenyQuic(Compact(text))
  }

  function Disabled(texts: seq<string>): seq<string> {
    if texts == [] then [] else
      var n := |texts| - 1;
      if IsDeny(texts[n]) then Disabled(texts[..n]) else Disabled(texts[..n]) + [texts[n]]
  }

  method RemoveDeny(texts: seq<string>) returns (out: seq<string>)
    ensures out == Disabled(texts)
  {
    out := [];
    for i := 0 to |texts|
      invariant out == Disabled(texts[..i])
    {
      assert texts[..i + 1][..i] == texts[..i];
      if !IsDeny(texts[i]) {
        out := out + [texts[i]];
      }
    }
    assert texts[..|texts|] == texts;
  }

  lemma {:induction false} LinesAppend(a: seq<string>, b: seq<string>)
    ensures Lines(a + b) == Lines(a) + Lines(b)
  {
    MappedAppend(LineOf, a, b);
  }

  lemma {:induction false} LinesOne(text: string)
    ensures Lines([text]) == [LineOf(text)]
  {
    assert [text][..0] == [];
  }

  lemma {:induction false} LinesEnabled(texts: seq<string>, at: nat, rule: string)
    requires at < |texts|
    ensures Lines(Enabled(texts, at, rule)) == Enabled(Lines(texts), at, LineOf(rule))
  {
    var a, b := texts[..at + 1], texts[at + 1..];
    LinesAppend(a, b);
    assert texts == a + b;
    LinesAppend(a + [rule], b);
    LinesAppend(a, [rule]);
    LinesOne(rule);
    EnabledAround(Lines(a), Lines(b), at, LineOf(rule));
  }

  lemma {:induction false} EnabledAround(a: seq<Line>, b: seq<Line>, at: nat, rule: Line)
    requires |a| == at + 1
    ensures Enabled(a + b, at, rule) == a + [rule] + b
  {
  }

  lemma {:induction false} LinesDisabled(texts: seq<string>)
    ensures Lines(Disabled(texts)) == WithoutDeny(Lines(texts))
  {
    if texts != [] {
      var n := |texts| - 1;
      LinesDisabled(texts[..n]);
      assert Lines(texts)[..n] == Lines(texts[..n]);
      LinesAppend(Disabled(texts[..n]), [texts[n]]);
      LinesOne(texts[n]);
    }
  }

  lemma {:induction false} LineAt(texts: seq<string>, i: nat)
    requires i < |texts|
    ensures Lines(texts)[i] == LineOf(texts[i])
  {
    MappedAt(LineOf, texts, i);
  }

  /** A line carries its text, so equal lines mean equal texts. */
  lemma {:induction false} LinesInjective(a: seq<string>, b: seq<string>)
    requires Lines(a) == Lines(b)
    ensures a == b
  {
    forall i | 0 <= i < |a|
      ensures a[i] == b[i]
    {
      LineAt(a, i);
      LineAt(b, i);
      SameText(a[i], b[i]);
    }
  }

  lemma {:induction false} SameText(a: string, b: string)
    requires LineOf(a) == LineOf(b)
    ensures a == b
  {
    assert LineOf(a).text == a && LineOf(b).text == b;
  }

  lemma {:induction false} DenyIsDenyLine(text: string)
    requires IsDeny(text)
    ensures DenyLine(LineOf(text))
  {
    LineIsSane(text);
  }

  /** Switching on is recognised as on, and switching off again gives the very same list. */
  lemma {:induction false} OnThenOff(texts: seq<string>, at: nat, rule: string)
    requires IsOff(Lines(texts), at) && IsDeny(rule)
    ensures IsOn(Lines(Enabled(texts, at, rule)), at)
    ensures Disabled(Enabled(texts, at, rule)) == texts
  {
    LinesAreSane(texts);
    DenyIsDenyLine(rule);
    LinesOnThenOff(Lines(texts), at, LineOf(rule));
    LinesEnabled(texts, at, rule);
    LinesDisabled(Enabled(texts, at, rule));
    LinesInjective(Disabled(Enabled(texts, at, rule)), texts);
  }

  lemma {:induction false} SwitchedOffTexts(texts: seq<string>, at: nat)
    requires IsOn(Lines(texts), at)
    ensures IsOff(Lines(Disabled(texts)), at)
  {
    LinesAreSane(texts);
    LinesDisabled(texts);
    LinesOffThenOnIff(Lines(texts), at, Lines(texts)[at + 1]);
  }

  lemma {:induction false} WrittenComesBack(texts: seq<string>, at: nat)
    requires IsOn(Lines(texts), at)
    ensures at < |Disabled(texts)| && Enabled(Disabled(texts), at, texts[at + 1]) == texts
  {
    SwitchedOffTexts(texts, at);
    LinesAreSane(texts);
    LinesDisabled(texts);
    LineAt(texts, at + 1);
    LinesOffThenOnIff(Lines(texts), at, Lines(texts)[at + 1]);
    LinesEnabled(Disabled(texts), at, texts[at + 1]);
    LinesInjective(Enabled(Disabled(texts), at, texts[at + 1]), texts);
  }

  /**
   Switching off is recognised as off. Switching on again restores the list if
   and only if the removed rule was the one the switch writes: an operator's
   REJECT-DROP comes back as REJECT.
   */
  lemma {:induction false} OffThenOnIff(texts: seq<string>, at: nat, rule: string)
    requires IsOn(Lines(texts), at)
    ensures IsOff(Lines(Disabled(texts)), at)
    ensures Enabled(Disabled(texts), at, rule) == texts <==> texts[at + 1] == rule
  {
    SwitchedOffTexts(texts, at);
    if texts[at + 1] == rule {
      WrittenComesBack(texts, at);
    } else {
      assert Enabled(Disabled(texts), at, rule)[at + 1] == rule;
    }
  }

  /** A list that is off has no deny rule to take out. */
  lemma {:induction false} OffIsDisabled(texts: seq<string>, at: nat)
    requires IsOff(Lines(texts), at)
    ensures Disabled(texts) == texts
  {
    LinesAreSane(texts);
    LinesDisabled(texts);
    NothingToRemove(Lines(texts));
    LinesInjective(Disabled(texts), texts);
  }

  lemma {:induction false} WrittenSwitchesOn(texts: seq<string>, at: nat)
    requires IsOff(Lines(texts), at)
    ensures Describes(On(at), Lines(Enabled(texts, at, WrittenRule)))
    ensures Disabled(Enabled(texts, at, WrittenRule)) == Disabled(texts)
  {
    WrittenIsDeny();
    OnThenOff(texts, at, WrittenRule);
    OffIsDisabled(texts, at);
  }

  lemma {:induction false} RemovalSwitchesOff(texts: seq<string>, at: nat)
    requires IsOn(Lines(texts), at)
    ensures Describes(Off(at), Lines(Disabled(texts))) && Disabled(Disabled(texts)) == Disabled(texts)
  {
    SwitchedOffTexts(texts, at);
    OffIsDisabled(Disabled(texts), at);
  }

  /**
   `renderBlockQUICModule`, for a state that analysis has reported: the result
   is in the wanted state and has the same other rules in the same order.
   */
  method Switch(texts: seq<string>, s: State, enabled: bool) returns (out: seq<string>)
    requires !s.Unmanageable? && Describes(s, Lines(texts))
    ensures Describes(if enabled then On(s.at) else Off(s.at), Lines(out))
    ensures Disabled(out) == Disabled(texts)
    ensures enabled == s.On? ==> out == texts
    ensures enabled && s.Off? ==> out == Enabled(texts, s.at, WrittenRule)
  {
    if enabled == s.On? {
      return texts;
    }
    if enabled {
      out := Enabled(texts, s.at, WrittenRule);
      WrittenSwitchesOn(texts, s.at);
    } else {
      out := RemoveDeny(texts);
      RemovalSwitchesOff(texts, s.at);
    }
  }

  // ---------- A rule that does not come back ----------

  predicate Terminates(text: string) {
    LineOf(text).terminator && !LineOf(text).touches && !LineOf(text).isMatch
  }

  predicate Finishes(text: string) {
    LineOf(text).isMatch && LineOf(text).terminal.Some? && !LineOf(text).terminator && !LineOf(text).touches
  }

  /** The list is on, and switching off and on makes another list of it. */
  predicate ComesBackAs(texts: seq<string>, at: nat, rule: string, back: seq<string>) {
    IsOn(Lines(texts), at) && at < |Disabled(texts)| && Enabled(Disabled(texts), at, rule) == back != texts
  }

  lemma {:induction false} RejectTerminates()
    ensures Terminates(RejectText)
  {
    RejectTextFacts();
    PrefixDiffers(RejectText, "AND,(", 0);
    LineIsSane(RejectText);
  }

  lemma {:induction false} FinalFinishes()
    ensures Finishes(FinalText)
  {
    FinalTextFacts();
    PrefixDiffers(FinalText, "AND,(", 0);
    LineIsSane(FinalText);
  }

  lemma {:induction false} LinesOfThree(a: string, b: string, c: string)
    ensures Lines([a, b, c]) == [LineOf(a), LineOf(b), LineOf(c)]
  {
    LineAt([a, b, c], 0);
    LineAt([a, b, c], 1);
    LineAt([a, b, c], 2);
  }

  lemma {:induction false} ThreeAreOn(lines: seq<Line>, a: Line, b: Line, c: Line)
    requires lines == [a, b, c] && DenyLine(b)
    requires a.terminator && !a.touches && !a.isMatch && c.isMatch && c.terminal.Some? && !c.terminator && !c.touches
    ensures IsOn(lines, 0)
  {
  }

  lemma {:induction false} MiddleRemoved(a: string, b: string, c: string)
    requires !IsDeny(a) && IsDeny(b) && !IsDeny(c)
    ensures Disabled([a, b, c]) == [a, c]
  {
    assert [a, b, c][..2] == [a, b] && [a, b][..1] == [a] && [a][..0] == [];
    assert Disabled([a]) == [a] && Disabled([a, b]) == [a];
  }

  lemma {:induction false} OtherDenyComesBack(terminator: string, custom: string, final: string, rule: string)
    requires Terminates(terminator) && IsDeny(custom) && Finishes(final) && custom != rule
    ensures ComesBackAs([terminator, custom, final], 0, rule, [terminator, rule, final])
  {
    LinesOfThree(terminator, custom, final);
    DenyIsDenyLine(custom);
    LineIsSane(terminator);
    LineIsSane(final);
    ThreeAreOn(Lines([terminator, custom, final]), LineOf(terminator), LineOf(custom), LineOf(final));
    MiddleRemoved(terminator, custom, final);
    assert [terminator, rule, final][1] != [terminator, custom, final][1];
  }

  /** An operator's REJECT-DROP is recognised as the switch being on, and comes back as REJECT. */
  lemma {:induction false} DropComesBackAsReject()
    ensures ComesBackAs([RejectText, DropRule, FinalText], 0, WrittenRule, [RejectText, WrittenRule, FinalText])
  {
    RejectTerminates();
    DropIsDeny();
    FinalFinishes();
    OtherDenyComesBack(RejectText, DropRule, FinalText, WrittenRule);
  }
}
