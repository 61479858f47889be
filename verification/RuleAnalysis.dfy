module RuleAnalysis {
  // The loops that analyse and render a rule list, proved against the layout
  // specification.

  import opened Options
  import opened Sorting
  import opened RuleText
  import opened RuleSplice

  // ---------- Positions of marked rows ----------

  predicate Marked(r: Row, egress: bool) {
    if egress then MarksEgress(r) else MarksCapture(r)
  }

  function Positions(rules: seq<Row>, egress: bool, n: nat): seq<nat>
    requires n <= |rules|
  {
    if n == 0 then []
    else if Marked(rules[n - 1], egress) then Positions(rules, egress, n - 1) + [n - 1]
    else Positions(rules, egress, n - 1)
  }

  predicate Consecutive(at: seq<nat>, start: int) {
    forall k :: 0 <= k < |at| ==> at[k] == start + k
  }

  lemma {:induction false} PositionsExact(rules: seq<Row>, egress: bool, n: nat)
    requires n <= |rules|
    ensures forall i :: i in Positions(rules, egress, n) <==> 0 <= i < n && Marked(rules[i], egress)
  {
    if n > 0 {
      PositionsExact(rules, egress, n - 1);
    }
  }

  /** Marked rows filling an interval are found one after the other. */
  lemma {:induction false} PositionsOfInterval(rules: seq<Row>, egress: bool, n: nat, a: nat, b: nat)
    requires n <= |rules| && a <= b
    requires forall i :: 0 <= i < n ==> (Marked(rules[i], egress) <==> a <= i < b)
    ensures |Positions(rules, egress, n)| == if n <= a then 0 else if n <= b then n - a else b - a
    ensures Consecutive(Positions(rules, egress, n), a)
  {
    if n > 0 {
      PositionsOfInterval(rules, egress, n - 1, a, b);
    }
  }

  /** Consecutive positions mean that exactly an interval is marked. */
  lemma {:induction false} IntervalOfPositions(rules: seq<Row>, egress: bool, a: nat)
    requires Consecutive(Positions(rules, egress, |rules|), a)
    ensures forall i :: 0 <= i < |rules| ==> (Marked(rules[i], egress) <==> a <= i < a + |Positions(rules, egress, |rules|)|)
  {
    var at := Positions(rules, egress, |rules|);
    PositionsExact(rules, egress, |rules|);
    forall i | 0 <= i < |rules|
      ensures Marked(rules[i], egress) <==> a <= i < a + |at|
    {
      if a <= i < a + |at| {
        assert at[i - a] == i;
      }
      if Marked(rules[i], egress) {
        var k :| 0 <= k < |at| && at[k] == i;
      }
    }
  }

  /** The first terminator, or the end. */
  function RejectAt(rules: seq<Row>): (r: nat)
    ensures r <= |rules| && (r < |rules| ==> rules[r].isReject)
    ensures forall i :: 0 <= i < r ==> !rules[i].isReject
  {
    if rules == [] then 0 else
      var n := |rules| - 1;
      var r := RejectAt(rules[..n]);
      if r < n || rules[n].isReject then r else n + 1
  }

  /** The only layout a list can have. */
  function Candidate(rules: seq<Row>): Layout {
    var n, r := |rules|, RejectAt(rules);
    var e, c := |Positions(rules, true, n)|, |Positions(rules, false, n)|;
    Layout(if e <= r then r - e else 0, r, AfterQuic(rules, r + 1), if c < n then n - 1 - c else 0)
  }

  lemma {:induction false} LayoutIsCandidate(rules: seq<Row>, l: Layout)
    requires Shaped(rules, l)
    ensures l == Candidate(rules)
  {
    assert rules[l.reject].isReject;
    PositionsOfInterval(rules, true, |rules|, l.egress, l.reject);
    PositionsOfInterval(rules, false, |rules|, l.capture, |rules| - 1);
  }

  lemma {:induction false} CandidateDecides(rules: seq<Row>, expected: Expected)
    ensures Reconcileable(rules, expected) <==> Fits(rules, Candidate(rules), expected)
    ensures Ready(rules, expected) <==> Synced(rules, Candidate(rules), expected)
  {
    if l :| Fits(rules, l, expected) {
      LayoutIsCandidate(rules, l);
    }
    if l :| Synced(rules, l, expected) {
      LayoutIsCandidate(rules, l);
    }
  }

  // ---------- The scans ----------

  method TerminalMatch(rules: seq<Row>) returns (ok: bool, target: string)
    ensures ok <==> EndsInMatch(rules)
    ensures ok ==> rules[|rules| - 1].terminal == Some(target)
  {
    var found := -1;
    target := [];
    for i := 0 to |rules|
      invariant found == -1 || (found == |rules| - 1 == i - 1 && rules[found].isMatch && rules[found].terminal == Some(target))
      invariant forall j :: 0 <= j < i ==> (rules[j].isMatch <==> j == found)
    {
      if rules[i].isMatch {
        if found != -1 || i != |rules| - 1 || rules[i].terminal.None? {
          return false, [];
        }
        found, target := i, rules[i].terminal.value;
      }
    }
    ok := found >= 0;
  }

  /** No second terminator, and every row that mentions the listener is canonical. */
  predicate Collectable(rules: seq<Row>, n: nat)
    requires n <= |rules|
  {
    && (forall i, j :: 0 <= i < j < n ==> !(rules[i].isReject && rules[j].isReject))
    && forall i :: 0 <= i < n && MarksEgress(rules[i]) ==> rules[i].egress.Some?
  }

  method Collect(rules: seq<Row>) returns (ok: bool, reject: int, egressAt: seq<nat>, captureAt: seq<nat>)
    ensures ok <==> Collectable(rules, |rules|)
    ensures ok ==> reject == if RejectAt(rules) < |rules| then RejectAt(rules) else -1
    ensures ok ==> egressAt == Positions(rules, true, |rules|) && captureAt == Positions(rules, false, |rules|)
  {
    reject, egressAt, captureAt := -1, [], [];
    for i := 0 to |rules|
      invariant Collectable(rules, i)
      invariant if reject < 0 then reject == -1 && forall j :: 0 <= j < i ==> !rules[j].isReject
                else reject < i && rules[reject].isReject
      invariant egressAt == Positions(rules, true, i) && captureAt == Positions(rules, false, i)
    {
      if rules[i].isReject {
        if reject != -1 {
          return false, -1, [], [];
        }
        reject := i;
      } else {
        if rules[i].touches {
          if rules[i].egress.None? {
            return false, -1, [], [];
          }
          egressAt := egressAt + [i];
        }
        if rules[i].proxied {
          captureAt := captureAt + [i];
        }
      }
    }
    ok := true;
  }

  method InRow(at: seq<nat>, start: int) returns (ok: bool)
    ensures ok <==> Consecutive(at, start)
  {
    for k := 0 to |at|
      invariant forall j :: 0 <= j < k ==> at[j] == start + j
    {
      if at[k] != start + k {
        return false;
      }
    }
    return true;
  }

  method PolicyMatches(rows: seq<Row>, policy: seq<string>) returns (ok: bool)
    ensures ok <==> IsPrefix(Compacts(rows), policy)
  {
    if |rows| > |policy| {
      return false;
    }
    for i := 0 to |rows|
      invariant forall j :: 0 <= j < i ==> rows[j].compact == policy[j]
    {
      if rows[i].compact != policy[i] {
        assert Compacts(rows)[i] != policy[..|rows|][i];
        return false;
      }
    }
    assert Compacts(rows) == policy[..|rows|];
    return true;
  }

  lemma {:induction false} SortedSnoc(s: seq<string>, x: string)
    requires StrictlySorted(s) && (s != [] ==> Less(s[|s| - 1], x))
    ensures StrictlySorted(s + [x])
  {
    forall i | 0 <= i < |s|
      ensures Less(s[i], x)
    {
      if i < |s| - 1 {
        LessTransitive(s[i], s[|s| - 1], x);
      }
    }
  }

  method CapturesCanonical(rows: seq<Row>) returns (ok: bool)
    ensures ok <==> CanonicalCaptures(rows)
  {
    var seen: set<string> := {};
    ghost var texts := Compacts(rows);
    for i := 0 to |rows|
      invariant forall j :: 0 <= j < i ==> rows[j].canonical
      invariant StrictlySorted(texts[..i])
      invariant forall x :: x in seen <==> x in texts[..i]
    {
      var text := rows[i].compact;
      assert text == texts[i];
      if !rows[i].canonical {
        return false;
      }
      if text in seen {
        ghost var k :| 0 <= k < i && texts[..i][k] == text;
        LessTrichotomy(texts[k], texts[i]);
        return false;
      }
      if i > 0 && Less(text, rows[i - 1].compact) {
        LessTrichotomy(texts[i - 1], texts[i]);
        return false;
      }
      if i > 0 {
        LessTrichotomy(text, rows[i - 1].compact);
        assert texts[..i][i - 1] in seen;
      }
      SortedSnoc(texts[..i], text);
      assert texts[..i + 1] == texts[..i] + [text];
      seen := seen + {text};
    }
    assert texts[..|rows|] == texts;
    return true;
  }

  method SelectorsDistinct(rows: seq<Row>) returns (ok: bool)
    ensures ok <==> DistinctEgress(rows)
  {
    var seen: set<Selector> := {};
    for i := 0 to |rows|
      invariant DistinctEgress(rows[..i])
      invariant forall s :: s in seen <==> exists j :: 0 <= j < i && rows[j].egress == Some(s)
    {
      if rows[i].egress.None? {
        return false;
      }
      if rows[i].egress.value in seen {
        return false;
      }
      seen := seen + {rows[i].egress.value};
    }
    assert rows[..|rows|] == rows;
    return true;
  }

  method SubsetScan(current: seq<string>, allowed: seq<string>) returns (ok: bool)
    ensures ok <==> OrderedSubset(current, allowed)
  {
    var at := 0;
    for i := 0 to |current|
      invariant 0 <= at <= |allowed|
      invariant OrderedSubset(current, allowed) <==> OrderedSubset(current[i..], allowed[at..])
    {
      while at < |allowed| && allowed[at] != current[i]
        invariant 0 <= at <= |allowed|
        invariant OrderedSubset(current, allowed) <==> OrderedSubset(current[i..], allowed[at..])
      {
        assert allowed[at..][1..] == allowed[at + 1..];
        at := at + 1;
      }
      if at == |allowed| {
        return false;
      }
      assert current[i..][1..] == current[i + 1..];
      assert allowed[at..][1..] == allowed[at + 1..];
      at := at + 1;
    }
    return true;
  }

  // ---------- Analysis ----------

  datatype Analysis = Refused | Found(layout: Layout, target: string, ready: bool)

  /** The positions agree with the candidate layout exactly when the rows are placed as it says. */
  lemma {:induction false} PlacedIff(rules: seq<Row>)
    requires EndsInMatch(rules) && Collectable(rules, |rules|)
    ensures var l := Candidate(rules);
            Bounds(rules, l) ==>
              (Placed(rules, l) <==>
               && Consecutive(Positions(rules, true, |rules|), l.reject - |Positions(rules, true, |rules|)|)
               && Consecutive(Positions(rules, false, |rules|), |rules| - 1 - |Positions(rules, false, |rules|)|))
  {
    var l, n := Candidate(rules), |rules|;
    var e, c := Positions(rules, true, n), Positions(rules, false, n);
    if Bounds(rules, l) {
      if Placed(rules, l) {
        PositionsOfInterval(rules, true, n, l.egress, l.reject);
        PositionsOfInterval(rules, false, n, l.capture, n - 1);
      }
      if Consecutive(e, l.reject - |e|) && Consecutive(c, n - 1 - |c|) {
        StartsInside(rules, true, l.reject - |e|);
        StartsInside(rules, false, n - 1 - |c|);
        IntervalOfPositions(rules, true, l.egress);
        IntervalOfPositions(rules, false, l.capture);
      }
    }
  }

  lemma {:induction false} StartsInside(rules: seq<Row>, egress: bool, start: int)
    requires Consecutive(Positions(rules, egress, |rules|), start)
    ensures Positions(rules, egress, |rules|) != [] ==> start >= 0
  {
    var at := Positions(rules, egress, |rules|);
    if at != [] {
      assert at[0] == start;
    }
  }

  /** A marked row without a canonical selector, or a second terminator, leaves no layout. */
  lemma {:induction false} ShapedIsCollectable(rules: seq<Row>, l: Layout)
    requires Shaped(rules, l)
    ensures Collectable(rules, |rules|)
  {
    forall i | 0 <= i < |rules| && MarksEgress(rules[i])
      ensures rules[i].egress.Some?
    {
      assert rules[l.egress..l.reject][i - l.egress] == rules[i];
    }
  }

  lemma {:induction false} ShapedCounts(rules: seq<Row>)
    requires Shaped(rules, Candidate(rules))
    ensures |Positions(rules, true, |rules|)| <= RejectAt(rules) < |rules|
    ensures AfterQuic(rules, RejectAt(rules) + 1) <= |rules| - 1 - |Positions(rules, false, |rules|)|
  {
    var l := Candidate(rules);
    PositionsOfInterval(rules, true, |rules|, l.egress, l.reject);
    PositionsOfInterval(rules, false, |rules|, l.capture, |rules| - 1);
  }

  /** The checks on a candidate layout, in the order of the source. */
  method Inspect(rules: seq<Row>, l: Layout, expected: Expected, target: string, egressAt: seq<nat>, captureAt: seq<nat>)
    returns (a: Analysis)
    requires Bounds(rules, l) && EndsInMatch(rules)
    requires Placed(rules, l) <==> Consecutive(egressAt, l.egress) && Consecutive(captureAt, l.capture)
    ensures a == if Fits(rules, l, expected) then Found(l, target, Synced(rules, l, expected)) else Refused
  {
    var last := |rules| - 1;
    var egressRow := InRow(egressAt, l.egress);
    if !egressRow {
      return Refused;
    }
    var policyOk := PolicyMatches(rules[l.policy..l.capture], expected.policy);
    if !policyOk {
      return Refused;
    }
    var captureRow := InRow(captureAt, l.capture);
    if !captureRow {
      return Refused;
    }
    var canonical := CapturesCanonical(rules[l.capture..last]);
    if !canonical {
      return Refused;
    }
    var distinct := SelectorsDistinct(rules[l.egress..l.reject]);
    if !distinct {
      return Refused;
    }
    var egress, captures := EgressOf(rules, l), CapturesOf(rules, l);
    var egressSubset := SubsetScan(egress, expected.egress);
    if !egressSubset {
      return Refused;
    }
    var captureSubset := SubsetScan(captures, expected.capture);
    if !captureSubset {
      return Refused;
    }
    PrefixFull(PolicyOf(rules, l), expected.policy);
    a := Found(l, target, captures == expected.capture && l.capture - l.policy == |expected.policy| && egress == expected.egress);
  }

  lemma {:induction false} PrefixFull(s: seq<string>, t: seq<string>)
    requires IsPrefix(s, t)
    ensures |s| == |t| <==> s == t
  {
  }

  /** Where the stretches would have to be, or nothing when no layout is possible. */
  method Locate(rules: seq<Row>) returns (l: Option<Layout>, egressAt: seq<nat>, captureAt: seq<nat>)
    requires EndsInMatch(rules)
    ensures l.None? ==> !Shaped(rules, Candidate(rules))
    ensures l.Some? ==> l.value == Candidate(rules) && Bounds(rules, l.value)
    ensures l.Some? ==> (Placed(rules, l.value) <==> Consecutive(egressAt, l.value.egress) && Consecutive(captureAt, l.value.capture))
  {
    var collected, reject;
    collected, reject, egressAt, captureAt := Collect(rules);
    if Shaped(rules, Candidate(rules)) {
      ShapedIsCollectable(rules, Candidate(rules));
      ShapedCounts(rules);
    }
    if !collected || reject < 0 {
      return None, [], [];
    }
    var policyAt, captureStart := AfterQuic(rules, reject + 1), |rules| - 1 - |captureAt|;
    if reject - |egressAt| < 0 || captureStart < policyAt {
      return None, [], [];
    }
    PlacedIff(rules);
    l := Some(Layout(reject - |egressAt|, reject, policyAt, captureStart));
  }

  method Analyze(rules: seq<Row>, expected: Expected) returns (a: Analysis)
    ensures a.Found? <==> Reconcileable(rules, expected)
    ensures a.Found? ==> Fits(rules, a.layout, expected) && rules[|rules| - 1].terminal == Some(a.target)
    ensures a.Found? ==> (a.ready <==> Ready(rules, expected))
  {
    CandidateDecides(rules, expected);
    var ok, target := TerminalMatch(rules);
    if !ok {
      return Refused;
    }
    var l, egressAt, captureAt := Locate(rules);
    if l.None? {
      return Refused;
    }
    a := Inspect(rules, l.value, expected, target, egressAt, captureAt);
  }

  // ---------- Rendering ----------

  /** Rows that rendering drops before it inserts the new ones. */
  predicate Dropped(rules: seq<Row>, l: Layout, i: nat)
    requires i < |rules|
  {
    rules[i].isReject || rules[i].touches || rules[i].proxied || l.policy <= i < l.capture
  }

  function Insert(rows: seq<Row>, at: nat, more: seq<Row>): seq<Row>
    requires at <= |rows|
  {
    rows[..at] + more + rows[at..]
  }

  function KeptUpTo(rules: seq<Row>, l: Layout, i: nat): seq<Row>
    requires Bounds(rules, l) && i <= |rules|
  {
    var prefix, quic := rules[..l.egress], rules[l.reject + 1..l.policy];
    if i <= l.egress then rules[..i]
    else if i <= l.reject + 1 then prefix
    else if i <= l.policy then prefix + rules[l.reject + 1..i]
    else if i < |rules| then prefix + quic
    else prefix + quic + [rules[|rules| - 1]]
  }

  lemma {:induction false} KeptStep(rules: seq<Row>, l: Layout, i: nat)
    requires Shaped(rules, l) && i < |rules|
    ensures KeptUpTo(rules, l, i + 1) == KeptUpTo(rules, l, i) + (if Dropped(rules, l, i) then [] else [rules[i]])
  {
    var r := rules[i];
    assert r.isReject <==> i == l.reject;
    assert MarksEgress(r) <==> l.egress <= i < l.reject;
    assert MarksCapture(r) <==> l.capture <= i < |rules| - 1;
    assert l.policy <= l.reject + 2;
  }

  method KeepOperator(rules: seq<Row>, l: Layout) returns (kept: seq<Row>)
    requires Shaped(rules, l)
    ensures kept == rules[..l.egress] + (rules[l.reject + 1..l.policy] + [rules[|rules| - 1]])
  {
    kept := [];
    for i := 0 to |rules|
      invariant kept == KeptUpTo(rules, l, i)
    {
      KeptStep(rules, l, i);
      if !Dropped(rules, l, i) {
        kept := kept + [rules[i]];
      }
    }
  }

  method InsertModules(head: seq<Row>, ghost quic: seq<Row>, final: Row, rest: seq<Row>, next: Next) returns (out: seq<Row>)
    requires rest == head + (quic + [final]) && !final.denyQuic
    requires |quic| <= 1 && (quic != [] ==> quic[0].denyQuic)
    ensures out == head + quic + next.policy + next.capture + [final]
  {
    var at := |head|;
    assert rest[at] == (quic + [final])[0];
    if rest[at].denyQuic {
      at := at + 1;
    }
    assert rest == head + quic + [final];
    InsertAfter(head + quic, next.policy, [final]);
    out := Insert(rest, at, next.policy);
    InsertAfter(head + quic + next.policy, next.capture, [final]);
    out := Insert(out, at + |next.policy|, next.capture);
  }

  method Render(rules: seq<Row>, l: Layout, next: Next, reject: Row) returns (out: seq<Row>)
    requires Shaped(rules, l) && !rules[|rules| - 1].denyQuic
    ensures out == Spliced(rules, l, next, reject)
  {
    var kept := KeepOperator(rules, l);
    ghost var quic := rules[l.reject + 1..l.policy];
    var egress := next.egress + [reject];
    InsertAfter(rules[..l.egress], egress, quic + [rules[|rules| - 1]]);
    var rest := Insert(kept, l.egress, egress);
    assert quic != [] ==> quic[0] == rules[l.reject + 1];
    out := InsertModules(rules[..l.egress] + egress, quic, rules[|rules| - 1], rest, next);
    assert rules[..l.egress] + egress == rules[..l.egress] + next.egress + [reject];
  }

  lemma {:induction false} InsertAfter(front: seq<Row>, more: seq<Row>, back: seq<Row>)
    ensures Insert(front + back, |front|, more) == front + more + back
  {
  }
}
