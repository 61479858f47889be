module RuleSplice {
  // Splicing module rules into an operator-owned list. Each line of the list is a
  // `Row`: its text together with the answers that the classifiers give for it.
  // The analysis recovers where the module-owned stretches are, and rendering
  // replaces exactly those.

  import opened Options
  import opened Sorting
  import opened RuleText

  datatype Row = Row(
    text: string,
    raw: string,                  // without outer blanks
    compact: string,              // without any blank
    isReject: bool,               // the egress terminator
    touches: bool,                // mentions the egress listener
    egress: Option<Selector>,     // selector, when it is a canonical egress rule
    proxied: bool,                // ends in the interception proxy
    canonical: bool,              // a canonical capture rule
    denyQuic: bool,               // the optional QUIC deny rule
    isMatch: bool,                // a MATCH rule
    terminal: Option<string>)     // its target, when well formed

  /** What the current document asks for, as the texts that are compared. */
  datatype Expected = Expected(egress: seq<string>, policy: seq<string>, capture: seq<string>)

  /** Starts of the module-owned stretches; the final MATCH rule closes the list. */
  datatype Layout = Layout(egress: nat, reject: nat, policy: nat, capture: nat)

  function Raws(rows: seq<Row>): (r: seq<string>)
    ensures |r| == |rows| && forall i :: 0 <= i < |r| ==> r[i] == rows[i].raw
  {
    seq(|rows|, i requires 0 <= i < |rows| => rows[i].raw)
  }

  function Compacts(rows: seq<Row>): (r: seq<string>)
    ensures |r| == |rows| && forall i :: 0 <= i < |r| ==> r[i] == rows[i].compact
  {
    seq(|rows|, i requires 0 <= i < |rows| => rows[i].compact)
  }

  function TextsOf(rows: seq<Row>): (r: seq<string>)
    ensures |r| == |rows| && forall i :: 0 <= i < |r| ==> r[i] == rows[i].text
  {
    seq(|rows|, i requires 0 <= i < |rows| => rows[i].text)
  }

  // ---------- Shape ----------

  predicate EndsInMatch(rules: seq<Row>) {
    && rules != [] && rules[|rules| - 1].terminal.Some?
    && forall i :: 0 <= i < |rules| ==> (rules[i].isMatch <==> i == |rules| - 1)
  }

  predicate MarksEgress(r: Row) {
    r.touches && !r.isReject
  }

  predicate MarksCapture(r: Row) {
    r.proxied && !r.isReject
  }

  predicate Bounds(rules: seq<Row>, l: Layout) {
    l.egress <= l.reject < l.policy <= l.capture < |rules|
  }

  /** The one terminator, egress rules right before it, captures right before the final rule. */
  predicate Placed(rules: seq<Row>, l: Layout)
    requires Bounds(rules, l)
  {
    && (forall i :: 0 <= i < |rules| ==> (rules[i].isReject <==> i == l.reject))
    && (forall i :: 0 <= i < |rules| ==> (MarksEgress(rules[i]) <==> l.egress <= i < l.reject))
    && (forall i :: 0 <= i < |rules| ==> (MarksCapture(rules[i]) <==> l.capture <= i < |rules| - 1))
    && l.policy == AfterQuic(rules, l.reject + 1)
  }

  function AfterQuic(rules: seq<Row>, at: nat): nat {
    if at < |rules| - 1 && rules[at].denyQuic then at + 1 else at
  }

  predicate DistinctEgress(rows: seq<Row>) {
    && (forall i :: 0 <= i < |rows| ==> rows[i].egress.Some?)
    && forall i, j :: 0 <= i < j < |rows| ==> rows[i].egress != rows[j].egress
  }

  predicate CanonicalCaptures(rows: seq<Row>) {
    && (forall i :: 0 <= i < |rows| ==> rows[i].canonical)
    && StrictlySorted(Compacts(rows))
  }

  predicate Shaped(rules: seq<Row>, l: Layout) {
    && Bounds(rules, l) && EndsInMatch(rules) && Placed(rules, l)
    && DistinctEgress(rules[l.egress..l.reject])
    && CanonicalCaptures(rules[l.capture..|rules| - 1])
  }

  function EgressOf(rules: seq<Row>, l: Layout): seq<string>
    requires Bounds(rules, l)
  {
    Raws(rules[l.egress..l.reject])
  }

  function PolicyOf(rules: seq<Row>, l: Layout): seq<string>
    requires Bounds(rules, l)
  {
    Compacts(rules[l.policy..l.capture])
  }

  function CapturesOf(rules: seq<Row>, l: Layout): seq<string>
    requires Bounds(rules, l)
  {
    Compacts(rules[l.capture..|rules| - 1])
  }

  /** The greedy scan of `interceptRuleOrderedSubset`. */
  predicate OrderedSubset(current: seq<string>, allowed: seq<string>) {
    if current == [] then true
    else if allowed == [] then false
    else if current[0] == allowed[0] then OrderedSubset(current[1..], allowed[1..])
    else OrderedSubset(current, allowed[1..])
  }

  predicate IsPrefix(s: seq<string>, t: seq<string>) {
    |s| <= |t| && t[..|s|] == s
  }

  predicate Fits(rules: seq<Row>, l: Layout, expected: Expected) {
    && Shaped(rules, l)
    && IsPrefix(PolicyOf(rules, l), expected.policy)
    && OrderedSubset(EgressOf(rules, l), expected.egress)
    && OrderedSubset(CapturesOf(rules, l), expected.capture)
  }

  predicate Synced(rules: seq<Row>, l: Layout, expected: Expected) {
    && Shaped(rules, l)
    && EgressOf(rules, l) == expected.egress
    && PolicyOf(rules, l) == expected.policy
    && CapturesOf(rules, l) == expected.capture
  }

  ghost predicate Reconcileable(rules: seq<Row>, expected: Expected) {
    exists l :: Fits(rules, l, expected)
  }

  ghost predicate Ready(rules: seq<Row>, expected: Expected) {
    exists l :: Synced(rules, l, expected)
  }

  /** A list has at most one layout. */
  lemma {:induction false} LayoutUnique(rules: seq<Row>, l: Layout, m: Layout)
    requires Shaped(rules, l) && Shaped(rules, m)
    ensures l == m
  {
    assert rules[l.reject].isReject;
    assert l.reject == m.reject;
    assert l.egress < l.reject ==> MarksEgress(rules[l.egress]);
    assert m.egress < m.reject ==> MarksEgress(rules[m.egress]);
    assert l.capture < |rules| - 1 ==> MarksCapture(rules[l.capture]);
    assert m.capture < |rules| - 1 ==> MarksCapture(rules[m.capture]);
  }

  lemma {:induction false} OrderedSubsetReflexive(s: seq<string>)
    ensures OrderedSubset(s, s)
  {
    if s != [] {
      OrderedSubsetReflexive(s[1..]);
    }
  }

  lemma {:induction false} SyncedFits(rules: seq<Row>, l: Layout, expected: Expected)
    requires Synced(rules, l, expected)
    ensures Fits(rules, l, expected)
  {
    OrderedSubsetReflexive(expected.egress);
    OrderedSubsetReflexive(expected.capture);
  }

  // ---------- Rendering ----------

  /** The rows a document compiles to, ready to be inserted. */
  datatype Next = Next(egress: seq<Row>, policy: seq<Row>, capture: seq<Row>)

  const Nothing := Next([], [], [])

  function Wanted(next: Next): Expected {
    Expected(Raws(next.egress), Compacts(next.policy), TextsOf(next.capture))
  }

  function Spliced(rules: seq<Row>, l: Layout, next: Next, reject: Row): seq<Row>
    requires Bounds(rules, l)
  {
    rules[..l.egress] + next.egress + [reject] + rules[l.reject + 1..l.policy] + next.policy + next.capture + [rules[|rules| - 1]]
  }

  function SplicedLayout(l: Layout, next: Next): Layout
    requires l.reject < l.policy
  {
    var reject := l.egress + |next.egress|;
    var policy := reject + (l.policy - l.reject);
    Layout(l.egress, reject, policy, policy + |next.policy|)
  }

  /** Everything the operator wrote. */
  function OperatorRows(rules: seq<Row>, l: Layout): seq<Row>
    requires Bounds(rules, l)
  {
    rules[..l.egress] + rules[l.reject + 1..l.policy] + [rules[|rules| - 1]]
  }

  predicate EgressRow(r: Row) {
    r.touches && !r.isReject && !r.isMatch
  }

  predicate PolicyRow(r: Row) {
    !r.touches && !r.isReject && !r.isMatch && !r.proxied && !r.denyQuic
  }

  predicate CaptureRow(r: Row) {
    r.proxied && !r.touches && !r.isReject && !r.isMatch && !r.denyQuic && r.compact == r.text
  }

  predicate RejectRow(r: Row) {
    r.isReject && !r.isMatch
  }

  predicate WellFormed(next: Next) {
    && (forall i :: 0 <= i < |next.egress| ==> EgressRow(next.egress[i]))
    && (forall i :: 0 <= i < |next.policy| ==> PolicyRow(next.policy[i]))
    && (forall i :: 0 <= i < |next.capture| ==> CaptureRow(next.capture[i]))
    && DistinctEgress(next.egress) && CanonicalCaptures(next.capture)
  }

  /** No egress rule is mistaken for a capture rule. */
  predicate Unproxied(next: Next) {
    forall i :: 0 <= i < |next.egress| ==> !next.egress[i].proxied
  }

  // ---------- The spliced list, stretch by stretch ----------

  /** Row `i` of the spliced list. */
  lemma {:induction false} SplicedRow(rules: seq<Row>, l: Layout, next: Next, reject: Row, i: nat)
    requires Bounds(rules, l) && i < |Spliced(rules, l, next, reject)|
    ensures var out, m := Spliced(rules, l, next, reject), SplicedLayout(l, next);
            && |out| == m.capture + |next.capture| + 1
            && out[i] == (if i < m.egress then rules[i]
                          else if i < m.reject then next.egress[i - m.egress]
                          else if i == m.reject then reject
                          else if i < m.policy then rules[i - m.reject + l.reject]
                          else if i < m.capture then next.policy[i - m.policy]
                          else if i < |out| - 1 then next.capture[i - m.capture]
                          else rules[|rules| - 1])
  {
  }

  predicate RowPlaced(r: Row, m: Layout, last: nat, i: nat) {
    && (r.isReject <==> i == m.reject)
    && (MarksEgress(r) <==> m.egress <= i < m.reject)
    && (MarksCapture(r) <==> m.capture <= i < last)
    && (r.isMatch <==> i == last)
  }

  lemma {:induction false} SplicedRowPlaced(rules: seq<Row>, l: Layout, next: Next, reject: Row, i: nat)
    requires Shaped(rules, l) && WellFormed(next) && Unproxied(next) && RejectRow(reject)
    requires i < |Spliced(rules, l, next, reject)|
    ensures var out := Spliced(rules, l, next, reject);
            RowPlaced(out[i], SplicedLayout(l, next), |out| - 1, i)
  {
    SplicedRow(rules, l, next, reject, i);
  }

  lemma {:induction false} SplicedQuic(rules: seq<Row>, l: Layout, next: Next, reject: Row)
    requires Shaped(rules, l) && WellFormed(next)
    ensures var out, m := Spliced(rules, l, next, reject), SplicedLayout(l, next);
            m.reject + 1 < |out| && AfterQuic(out, m.reject + 1) == m.policy
  {
    var out, m := Spliced(rules, l, next, reject), SplicedLayout(l, next);
    SplicedRow(rules, l, next, reject, m.reject + 1);
  }

  lemma {:induction false} Middle(a: seq<Row>, b: seq<Row>, c: seq<Row>)
    ensures (a + b + c)[..|a|] == a
    ensures (a + b + c)[|a|..|a| + |b|] == b
    ensures (a + b + c)[|a| + |b|..] == c
  {
  }

  lemma {:induction false} FrontStretches(rules: seq<Row>, l: Layout, next: Next, reject: Row)
    requires Bounds(rules, l)
    ensures var out, m := Spliced(rules, l, next, reject), SplicedLayout(l, next);
            && Bounds(out, m)
            && out[..m.egress] == rules[..l.egress]
            && out[m.egress..m.reject] == next.egress
            && out[m.reject + 1..m.policy] == rules[l.reject + 1..l.policy]
  {
    var a, q := rules[..l.egress], rules[l.reject + 1..l.policy];
    var back := next.policy + next.capture + [rules[|rules| - 1]];
    Middle(a, next.egress, [reject] + q + back);
    assert Spliced(rules, l, next, reject) == a + next.egress + ([reject] + q + back);
    Middle(a + next.egress + [reject], q, back);
    assert Spliced(rules, l, next, reject) == a + next.egress + [reject] + q + back;
  }

  lemma {:induction false} BackStretches(rules: seq<Row>, l: Layout, next: Next, reject: Row)
    requires Bounds(rules, l)
    ensures var out, m := Spliced(rules, l, next, reject), SplicedLayout(l, next);
            && Bounds(out, m)
            && out[m.policy..m.capture] == next.policy
            && out[m.capture..|out| - 1] == next.capture
            && out[|out| - 1] == rules[|rules| - 1]
  {
    var front := rules[..l.egress] + next.egress + [reject] + rules[l.reject + 1..l.policy];
    var last := [rules[|rules| - 1]];
    Middle(front, next.policy, next.capture + last);
    assert Spliced(rules, l, next, reject) == front + next.policy + (next.capture + last);
    Middle(front + next.policy, next.capture, last);
  }

  lemma {:induction false} SplicedStretches(rules: seq<Row>, l: Layout, next: Next, reject: Row)
    requires Bounds(rules, l)
    ensures var out, m := Spliced(rules, l, next, reject), SplicedLayout(l, next);
            && Bounds(out, m)
            && out[..m.egress] == rules[..l.egress]
            && out[m.egress..m.reject] == next.egress
            && out[m.reject + 1..m.policy] == rules[l.reject + 1..l.policy]
            && out[m.policy..m.capture] == next.policy
            && out[m.capture..|out| - 1] == next.capture
            && out[|out| - 1] == rules[|rules| - 1]
  {
    FrontStretches(rules, l, next, reject);
    BackStretches(rules, l, next, reject);
  }

  lemma {:induction false} SplicedShaped(rules: seq<Row>, l: Layout, next: Next, reject: Row)
    requires Shaped(rules, l) && WellFormed(next) && Unproxied(next) && RejectRow(reject)
    ensures Shaped(Spliced(rules, l, next, reject), SplicedLayout(l, next))
  {
    var out, m := Spliced(rules, l, next, reject), SplicedLayout(l, next);
    SplicedStretches(rules, l, next, reject);
    SplicedQuic(rules, l, next, reject);
    forall i | 0 <= i < |out|
      ensures RowPlaced(out[i], m, |out| - 1, i)
    {
      SplicedRowPlaced(rules, l, next, reject, i);
    }
  }

  lemma {:induction false} CaptureTextsAreCompact(next: Next)
    requires WellFormed(next)
    ensures Compacts(next.capture) == TextsOf(next.capture)
  {
  }

  /** A spliced list is in sync with the document it was spliced for. */
  lemma {:induction false} SplicedSynced(rules: seq<Row>, l: Layout, next: Next, reject: Row)
    requires Shaped(rules, l) && WellFormed(next) && Unproxied(next) && RejectRow(reject)
    ensures Synced(Spliced(rules, l, next, reject), SplicedLayout(l, next), Wanted(next))
  {
    SplicedShaped(rules, l, next, reject);
    SplicedStretches(rules, l, next, reject);
    CaptureTextsAreCompact(next);
  }

  /** If an egress row is taken for a capture rule, the spliced list has no layout at all. */
  lemma {:induction false} ProxiedBreaksShape(rules: seq<Row>, l: Layout, next: Next, reject: Row, m: Layout)
    requires Shaped(rules, l) && WellFormed(next) && RejectRow(reject)
    requires Shaped(Spliced(rules, l, next, reject), m)
    ensures Unproxied(next)
  {
    var out, at := Spliced(rules, l, next, reject), SplicedLayout(l, next);
    SplicedStretches(rules, l, next, reject);
    SplicedRow(rules, l, next, reject, at.reject);
    assert out[at.reject].isReject;
    assert m.reject == at.reject;
    forall i | 0 <= i < |next.egress|
      ensures !next.egress[i].proxied
    {
      assert out[at.egress + i] == out[at.egress..at.reject][i];
    }
  }

  // ---------- Main results ----------

  /**
   From any list that is reconcileable for the old document, rendering the new
   one yields a list that re-analyses as ready, exactly when no egress rule
   ends in the interception proxy. Otherwise it is not even reconcileable.
   */
  lemma {:induction false} RenderedReadyIff(rules: seq<Row>, l: Layout, before: Expected, next: Next, reject: Row)
    requires Fits(rules, l, before) && WellFormed(next) && RejectRow(reject)
    ensures Ready(Spliced(rules, l, next, reject), Wanted(next)) <==> Unproxied(next)
    ensures Reconcileable(Spliced(rules, l, next, reject), Wanted(next)) <==> Unproxied(next)
  {
    var out := Spliced(rules, l, next, reject);
    if Unproxied(next) {
      SplicedSynced(rules, l, next, reject);
      SyncedFits(out, SplicedLayout(l, next), Wanted(next));
    }
    if m :| Synced(out, m, Wanted(next)) {
      ProxiedBreaksShape(rules, l, next, reject, m);
    }
    if m :| Fits(out, m, Wanted(next)) {
      ProxiedBreaksShape(rules, l, next, reject, m);
    }
  }

  /** The re-analysis can only find the stretches that were just written. */
  lemma {:induction false} FoundLayout(rules: seq<Row>, l: Layout, next: Next, reject: Row, m: Layout)
    requires Shaped(rules, l) && WellFormed(next) && RejectRow(reject)
    requires Shaped(Spliced(rules, l, next, reject), m)
    ensures m == SplicedLayout(l, next)
  {
    ProxiedBreaksShape(rules, l, next, reject, m);
    SplicedShaped(rules, l, next, reject);
    LayoutUnique(Spliced(rules, l, next, reject), m, SplicedLayout(l, next));
  }

  lemma {:induction false} StretchesKeepOperator(rules: seq<Row>, l: Layout, next: Next, reject: Row)
    requires Bounds(rules, l)
    ensures var out, m := Spliced(rules, l, next, reject), SplicedLayout(l, next);
            && Bounds(out, m) && OperatorRows(out, m) == OperatorRows(rules, l)
            && Spliced(out, m, Nothing, reject) == Spliced(rules, l, Nothing, reject)
  {
    SplicedStretches(rules, l, next, reject);
  }

  /** Operator-owned rules keep their content and order. */
  lemma {:induction false} OperatorRulesKept(rules: seq<Row>, l: Layout, next: Next, reject: Row, m: Layout)
    requires Shaped(rules, l) && WellFormed(next) && RejectRow(reject)
    requires Shaped(Spliced(rules, l, next, reject), m)
    ensures OperatorRows(Spliced(rules, l, next, reject), m) == OperatorRows(rules, l)
  {
    FoundLayout(rules, l, next, reject, m);
    StretchesKeepOperator(rules, l, next, reject);
  }

  /** A list that carries nothing for any module. */
  predicate ModuleFree(rules: seq<Row>, l: Layout) {
    Shaped(rules, l) && l.egress == l.reject && l.policy == l.capture == |rules| - 1
  }

  lemma {:induction false} NothingIsWellFormed()
    ensures WellFormed(Nothing) && Unproxied(Nothing)
  {
    assert Compacts([]) == [];
  }

  /** Rendering the empty set after any document restores the module-free list. */
  lemma {:induction false} EmptyRestores(rules: seq<Row>, l: Layout, next: Next, reject: Row, m: Layout)
    requires Shaped(rules, l) && WellFormed(next) && RejectRow(reject)
    requires Shaped(Spliced(rules, l, next, reject), m)
    ensures Spliced(Spliced(rules, l, next, reject), m, Nothing, reject) == Spliced(rules, l, Nothing, reject)
  {
    FoundLayout(rules, l, next, reject, m);
    StretchesKeepOperator(rules, l, next, reject);
  }

  lemma {:induction false} EmptyIsModuleFree(rules: seq<Row>, l: Layout, reject: Row)
    requires Shaped(rules, l) && RejectRow(reject)
    ensures ModuleFree(Spliced(rules, l, Nothing, reject), SplicedLayout(l, Nothing))
  {
    NothingIsWellFormed();
    SplicedShaped(rules, l, Nothing, reject);
    SplicedRow(rules, l, Nothing, reject, 0);
  }

  /** So installing modules into a module-free list and removing them again gives that list back. */
  lemma {:induction false} FreeListUnchanged(rules: seq<Row>, l: Layout, reject: Row)
    requires ModuleFree(rules, l) && rules[l.reject] == reject
    ensures Spliced(rules, l, Nothing, reject) == rules
  {
    var out := Spliced(rules, l, Nothing, reject);
    assert |out| == |rules|;
    forall i | 0 <= i < |out|
      ensures out[i] == rules[i]
    {
      SplicedRow(rules, l, Nothing, reject, i);
    }
  }
}
