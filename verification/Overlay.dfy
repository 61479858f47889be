module Overlay {
  // The DNS overlay compiled from an interception document: a map of exact hosts
  // plus a list of wildcard suffixes, looked up with an early break.

  import opened Options
  import opened Names
  import opened Documents

  datatype Binding = Binding(moduleID: string, captureDNS: string, order: nat)

  datatype Wildcard = Wildcard(suffix: string, binding: Binding)

  datatype Snapshot = Snapshot(exact: map<string, Binding>, wildcard: seq<Wildcard>)

  datatype Entry = Entry(pattern: string, binding: Binding)

  // ---------- The snapshot as a fold over the declared patterns ----------

  const Empty := Snapshot(map[], [])

  function Suffixes(wildcard: seq<Wildcard>): set<string> {
    set w | w in wildcard :: w.suffix
  }

  function Insert(s: Snapshot, e: Entry): Snapshot {
    if IsWildcard(e.pattern) then
      if e.pattern[2..] in Suffixes(s.wildcard) then s
      else s.(wildcard := s.wildcard + [Wildcard(e.pattern[2..], e.binding)])
    else if e.pattern == [] || e.pattern in s.exact then s
    else s.(exact := s.exact[e.pattern := e.binding])
  }

  function Fold(entries: seq<Entry>): Snapshot {
    if entries == [] then Empty else Insert(Fold(entries[..|entries| - 1]), entries[|entries| - 1])
  }

  function BindingOf(m: Module, order: nat): Binding {
    Binding(m.id, m.captureDNS, order)
  }

  function HostEntries(hosts: seq<string>, binding: Binding): (r: seq<Entry>)
    ensures |r| == |hosts|
    ensures forall i :: 0 <= i < |hosts| ==> r[i] == Entry(NormalPattern(hosts[i]), binding)
  {
    seq(|hosts|, i requires 0 <= i < |hosts| => Entry(NormalPattern(hosts[i]), binding))
  }

  /** All patterns of the enabled modules, module after module. */
  function Entries(modules: seq<Module>): seq<Entry> {
    if modules == [] then [] else
      var n := |modules| - 1;
      Entries(modules[..n]) +
      (if modules[n].enabled then HostEntries(modules[n].captureHosts, BindingOf(modules[n], n)) else [])
  }

  function Built(d: Document): Snapshot {
    if d.mitm then Fold(Entries(Ordered(d))) else Empty
  }

  // ---------- The loops of the source ----------

  method AddPattern(s0: Snapshot, seen0: set<string>, pattern: string, binding: Binding)
    returns (s: Snapshot, seen: set<string>)
    requires seen0 == Suffixes(s0.wildcard)
    ensures s == Insert(s0, Entry(pattern, binding)) && seen == Suffixes(s.wildcard)
  {
    s, seen := s0, seen0;
    if IsWildcard(pattern) {
      var suffix := pattern[2..];
      if suffix !in seen {
        seen := seen + {suffix};
        s := s.(wildcard := s.wildcard + [Wildcard(suffix, binding)]);
      }
    } else if pattern != [] {
      if pattern !in s.exact {
        s := s.(exact := s.exact[pattern := binding]);
      }
    }
  }

  function AddAll(s: Snapshot, hosts: seq<string>, binding: Binding): Snapshot {
    if hosts == [] then s else
      var n := |hosts| - 1;
      Insert(AddAll(s, hosts[..n], binding), Entry(NormalPattern(hosts[n]), binding))
  }

  lemma {:induction false} FoldAppend(entries: seq<Entry>, e: Entry)
    ensures Fold(entries + [e]) == Insert(Fold(entries), e)
  {
    assert (entries + [e])[..|entries|] == entries;
  }

  lemma {:induction false} HostEntriesAppend(before: seq<Entry>, hosts: seq<string>, binding: Binding)
    requires hosts != []
    ensures var n := |hosts| - 1;
            before + HostEntries(hosts, binding) == before + HostEntries(hosts[..n], binding) + [Entry(NormalPattern(hosts[n]), binding)]
  {
  }

  lemma {:induction false} AddAllIsFold(before: seq<Entry>, hosts: seq<string>, binding: Binding)
    ensures AddAll(Fold(before), hosts, binding) == Fold(before + HostEntries(hosts, binding))
  {
    if hosts == [] {
      assert before + HostEntries(hosts, binding) == before;
    } else {
      var n := |hosts| - 1;
      AddAllIsFold(before, hosts[..n], binding);
      HostEntriesAppend(before, hosts, binding);
      FoldAppend(before + HostEntries(hosts[..n], binding), Entry(NormalPattern(hosts[n]), binding));
    }
  }

  method AddHosts(s0: Snapshot, seen0: set<string>, hosts: seq<string>, binding: Binding)
    returns (s: Snapshot, seen: set<string>)
    requires seen0 == Suffixes(s0.wildcard)
    ensures s == AddAll(s0, hosts, binding) && seen == Suffixes(s.wildcard)
  {
    s, seen := s0, seen0;
    for i := 0 to |hosts|
      invariant s == AddAll(s0, hosts[..i], binding) && seen == Suffixes(s.wildcard)
    {
      assert hosts[..i + 1][..i] == hosts[..i];
      s, seen := AddPattern(s, seen, NormalPattern(hosts[i]), binding);
    }
    assert hosts[..|hosts|] == hosts;
  }

  method NewSnapshot(d: Document) returns (s: Snapshot)
    ensures s == Built(d)
  {
    s := Empty;
    if !d.mitm {
      return;
    }
    var ordered := OrderedModules(d);
    var seen: set<string> := {};
    for order := 0 to |ordered|
      invariant s == Fold(Entries(ordered[..order])) && seen == Suffixes(s.wildcard)
    {
      var m := ordered[order];
      assert ordered[..order + 1][..order] == ordered[..order];
      if m.enabled {
        AddAllIsFold(Entries(ordered[..order]), m.captureHosts, BindingOf(m, order));
        s, seen := AddHosts(s, seen, m.captureHosts, BindingOf(m, order));
      } else {
        assert Entries(ordered[..order]) + [] == Entries(ordered[..order]);
      }
    }
    assert ordered[..|ordered|] == ordered;
  }

  datatype Capture = NoCapture | Captured(captureDNS: string, moduleID: string)

  function CaptureOf(b: Binding): Capture {
    Captured(b.captureDNS, b.moduleID)
  }

  /** Position of the first wildcard covering the name, or the end. */
  function FirstWildcard(wildcard: seq<Wildcard>, name: string): (r: nat)
    ensures r <= |wildcard|
    ensures r < |wildcard| ==> Under(name, wildcard[r].suffix)
    ensures forall i :: 0 <= i < r ==> !Under(name, wildcard[i].suffix)
  {
    if wildcard == [] then 0 else
      var n := |wildcard| - 1;
      var r := FirstWildcard(wildcard[..n], name);
      if r < n || Under(name, wildcard[n].suffix) then r else n + 1
  }

  /** The lookup without its early break, on a name already lowered and stripped. */
  function Lookup(s: Snapshot, name: string): Capture {
    var w := FirstWildcard(s.wildcard, name);
    if w < |s.wildcard| && (name in s.exact ==> s.wildcard[w].binding.order < s.exact[name].order) then CaptureOf(s.wildcard[w].binding)
    else if name in s.exact then CaptureOf(s.exact[name])
    else NoCapture
  }

  /** Wildcards stand in execution order; this is what makes the early break sound. */
  predicate InOrder(wildcard: seq<Wildcard>) {
    forall i, j :: 0 <= i < j < |wildcard| ==> wildcard[i].binding.order <= wildcard[j].binding.order
  }

  method CaptureDNS(s: Snapshot, raw: string) returns (r: Capture)
    requires InOrder(s.wildcard)
    ensures r == Lookup(s, NormalName(raw))
  {
    var name := NormalName(raw);
    for i := 0 to |s.wildcard|
      invariant forall j :: 0 <= j < i ==> !Under(name, s.wildcard[j].suffix)
      invariant i <= FirstWildcard(s.wildcard, name)
    {
      var w := s.wildcard[i];
      if name in s.exact && w.binding.order >= s.exact[name].order {
        break;
      }
      if Under(name, w.suffix) {
        return CaptureOf(w.binding);
      }
    }
    if name in s.exact {
      return CaptureOf(s.exact[name]);
    }
    return NoCapture;
  }

  // ---------- The simple scan ----------

  predicate Captures(m: Module, name: string) {
    m.enabled && exists i :: 0 <= i < |m.captureHosts| && PatternMatches(NormalPattern(m.captureHosts[i]), name)
  }

  /** The first enabled module with any pattern matching the name. */
  function Scan(modules: seq<Module>, name: string): (r: Capture) {
    if modules == [] then NoCapture else
      var n := |modules| - 1;
      var r := Scan(modules[..n], name);
      if r.NoCapture? && Captures(modules[n], name) then Captured(modules[n].captureDNS, modules[n].id) else r
  }

  function Answer(d: Document, name: string): Capture {
    if d.mitm then Scan(Ordered(d), name) else NoCapture
  }

  // ---------- The fast lookup is the simple scan ----------

  /** Position of the first declared pattern matching the name, or the end. */
  function FirstEntry(entries: seq<Entry>, name: string): (r: nat)
    ensures r <= |entries|
    ensures r < |entries| ==> PatternMatches(entries[r].pattern, name)
    ensures forall i :: 0 <= i < r ==> !PatternMatches(entries[i].pattern, name)
  {
    if entries == [] then 0 else
      var n := |entries| - 1;
      var r := FirstEntry(entries[..n], name);
      if r < n || PatternMatches(entries[n].pattern, name) then r else n + 1
  }

  predicate EntriesInOrder(entries: seq<Entry>) {
    forall i, j :: 0 <= i < j < |entries| ==> entries[i].binding.order <= entries[j].binding.order
  }

  /** Entries with the same position belong to the same module. */
  predicate SameModule(entries: seq<Entry>) {
    forall i, j :: 0 <= i < j < |entries| && entries[i].binding.order == entries[j].binding.order ==> entries[i].binding == entries[j].binding
  }

  predicate FromEntries(s: Snapshot, entries: seq<Entry>) {
    && (forall p :: p in s.exact ==> exists i :: 0 <= i < |entries| && entries[i].binding == s.exact[p])
    && (forall k :: 0 <= k < |s.wildcard| ==> exists i :: 0 <= i < |entries| && entries[i].binding == s.wildcard[k].binding)
  }

  lemma {:induction false} FoldFromEntries(entries: seq<Entry>)
    ensures FromEntries(Fold(entries), entries)
  {
    if entries != [] {
      var n := |entries| - 1;
      var init, e := entries[..n], entries[n];
      FoldFromEntries(init);
      var s, s' := Fold(init), Fold(entries);
      forall p | p in s'.exact
        ensures exists i :: 0 <= i < |entries| && entries[i].binding == s'.exact[p]
      {
        if p in s.exact {
          var i :| 0 <= i < |init| && init[i].binding == s.exact[p];
          assert entries[i] == init[i];
        } else {
          assert entries[n].binding == s'.exact[p];
        }
      }
      forall k | 0 <= k < |s'.wildcard|
        ensures exists i :: 0 <= i < |entries| && entries[i].binding == s'.wildcard[k].binding
      {
        if k < |s.wildcard| {
          var i :| 0 <= i < |init| && init[i].binding == s.wildcard[k].binding;
          assert entries[i] == init[i];
        } else {
          assert entries[n].binding == s'.wildcard[k].binding;
        }
      }
    }
  }

  lemma {:induction false} FoldInOrder(entries: seq<Entry>)
    requires EntriesInOrder(entries)
    ensures InOrder(Fold(entries).wildcard)
  {
    if entries != [] {
      var n := |entries| - 1;
      FoldInOrder(entries[..n]);
      FoldFromEntries(entries[..n]);
    }
  }

  lemma {:induction false} FirstWildcardGrows(wildcard: seq<Wildcard>, w: Wildcard, name: string)
    ensures FirstWildcard(wildcard + [w], name) ==
            var r := FirstWildcard(wildcard, name);
            if r < |wildcard| || Under(name, w.suffix) then r else r + 1
  {
    assert (wildcard + [w])[..|wildcard|] == wildcard;
  }

  /** The snapshot's two candidates for a name. */
  function WildAnswer(s: Snapshot, name: string): Option<Binding> {
    var w := FirstWildcard(s.wildcard, name);
    if w < |s.wildcard| then Some(s.wildcard[w].binding) else None
  }

  function ExactAnswer(s: Snapshot, name: string): Option<Binding> {
    if name in s.exact then Some(s.exact[name]) else None
  }

  /** What one more pattern changes for one name: it is a candidate only if its kind had none yet. */
  lemma {:induction false} InsertAnswers(s: Snapshot, e: Entry, name: string)
    ensures var s' := Insert(s, e);
            var hit := PatternMatches(e.pattern, name);
            && WildAnswer(s', name) == (if WildAnswer(s, name).None? && hit && IsWildcard(e.pattern) then Some(e.binding) else WildAnswer(s, name))
            && ExactAnswer(s', name) == (if ExactAnswer(s, name).None? && hit && !IsWildcard(e.pattern) then Some(e.binding) else ExactAnswer(s, name))
  {
    if IsWildcard(e.pattern) {
      var suffix := e.pattern[2..];
      if suffix in Suffixes(s.wildcard) {
        var k :| 0 <= k < |s.wildcard| && s.wildcard[k].suffix == suffix;
        assert Under(name, suffix) ==> FirstWildcard(s.wildcard, name) <= k;
      } else {
        FirstWildcardGrows(s.wildcard, Wildcard(suffix, e.binding), name);
      }
    }
  }

  predicate Earlier(o: Option<Binding>, order: nat) {
    o.Some? ==> order <= o.value.order
  }

  /** The first matching pattern is one of the two candidates, and neither is earlier. */
  lemma {:induction false} CandidatesOfFirst(entries: seq<Entry>, name: string)
    requires EntriesInOrder(entries)
    ensures var s := Fold(entries);
            var r := FirstEntry(entries, name);
            if r == |entries| then WildAnswer(s, name).None? && ExactAnswer(s, name).None?
            else
              var b := entries[r].binding;
              && (WildAnswer(s, name) == Some(b) || ExactAnswer(s, name) == Some(b))
              && Earlier(WildAnswer(s, name), b.order) && Earlier(ExactAnswer(s, name), b.order)
  {
    if entries != [] {
      var n := |entries| - 1;
      CandidatesOfFirst(entries[..n], name);
      InsertAnswers(Fold(entries[..n]), entries[n], name);
    }
  }

  lemma {:induction false} CandidatesAreEntries(entries: seq<Entry>, name: string)
    ensures var s := Fold(entries);
            && (WildAnswer(s, name).Some? ==> exists i :: 0 <= i < |entries| && entries[i].binding == WildAnswer(s, name).value)
            && (ExactAnswer(s, name).Some? ==> exists i :: 0 <= i < |entries| && entries[i].binding == ExactAnswer(s, name).value)
  {
    FoldFromEntries(entries);
  }

  /** The lookup returns the binding of the first declared pattern that matches. */
  lemma {:induction false} LookupFindsFirst(entries: seq<Entry>, name: string)
    requires EntriesInOrder(entries) && SameModule(entries)
    ensures var r := FirstEntry(entries, name);
            Lookup(Fold(entries), name) == if r < |entries| then CaptureOf(entries[r].binding) else NoCapture
  {
    CandidatesOfFirst(entries, name);
    CandidatesAreEntries(entries, name);
    var r := FirstEntry(entries, name);
    if r < |entries| && Fold(entries).exact != map[] && ExactAnswer(Fold(entries), name).Some? {
      var e := ExactAnswer(Fold(entries), name).value;
      var i :| 0 <= i < |entries| && entries[i].binding == e;
      assert e.order == entries[r].binding.order ==> e == entries[r].binding;
    }
  }

  lemma {:induction false} EntriesShape(modules: seq<Module>)
    ensures EntriesInOrder(Entries(modules)) && SameModule(Entries(modules))
    ensures forall i :: 0 <= i < |Entries(modules)| ==> Entries(modules)[i].binding.order < |modules|
  {
    if modules != [] {
      EntriesShape(modules[..|modules| - 1]);
    }
  }

  lemma {:induction false} FirstEntryAppend(a: seq<Entry>, b: seq<Entry>, name: string)
    ensures FirstEntry(a + b, name) ==
            if FirstEntry(a, name) < |a| then FirstEntry(a, name) else |a| + FirstEntry(b, name)
  {
    var ab := a + b;
    var r, ra, rb := FirstEntry(ab, name), FirstEntry(a, name), FirstEntry(b, name);
    assert forall i :: 0 <= i < |a| ==> ab[i] == a[i];
    assert forall i :: |a| <= i < |ab| ==> ab[i] == b[i - |a|];
    if ra == |a| && rb < |b| {
      assert ab[|a| + rb] == b[rb];
    }
  }

  lemma {:induction false} FirstEntryIsScan(modules: seq<Module>, name: string)
    ensures var es := Entries(modules);
            var r := FirstEntry(es, name);
            Scan(modules, name) == if r < |es| then CaptureOf(es[r].binding) else NoCapture
  {
    if modules != [] {
      var n := |modules| - 1;
      var m := modules[n];
      FirstEntryIsScan(modules[..n], name);
      var added := if m.enabled then HostEntries(m.captureHosts, BindingOf(m, n)) else [];
      FirstEntryAppend(Entries(modules[..n]), added, name);
      if Captures(m, name) {
        var i :| 0 <= i < |m.captureHosts| && PatternMatches(NormalPattern(m.captureHosts[i]), name);
        assert added[i].pattern == NormalPattern(m.captureHosts[i]);
      }
    }
  }

  /**
   The map-and-list lookup with its early break answers every name with the
   first enabled module in execution order that has any matching pattern.
   */
  lemma {:induction false} LookupRefinesScan(d: Document, name: string)
    ensures InOrder(Built(d).wildcard)
    ensures Lookup(Built(d), name) == Answer(d, name)
  {
    if d.mitm {
      var es := Entries(Ordered(d));
      EntriesShape(Ordered(d));
      FoldInOrder(es);
      LookupFindsFirst(es, name);
      FirstEntryIsScan(Ordered(d), name);
    }
  }

  /** The scan result, spelled out: the owner captures the name and nobody before it does. */
  lemma {:induction false} ScanFindsOwner(modules: seq<Module>, name: string)
    ensures Scan(modules, name).NoCapture? <==> forall i :: 0 <= i < |modules| ==> !Captures(modules[i], name)
    ensures Scan(modules, name).Captured? ==>
              exists i :: 0 <= i < |modules| && Captures(modules[i], name)
                          && (forall j :: 0 <= j < i ==> !Captures(modules[j], name))
                          && Scan(modules, name) == Captured(modules[i].captureDNS, modules[i].id)
  {
    if modules != [] {
      var n := |modules| - 1;
      var init := modules[..n];
      ScanFindsOwner(init, name);
      assert forall i :: 0 <= i < n ==> init[i] == modules[i];
    }
  }

  /** Building and querying in one go, as the resolver does for a raw query name. */
  method Resolve(d: Document, raw: string) returns (r: Capture)
    ensures r == Answer(d, NormalName(raw))
    ensures r.Captured? ==>
              exists i :: 0 <= i < |Ordered(d)| && d.mitm && Captures(Ordered(d)[i], NormalName(raw))
                          && (forall j :: 0 <= j < i ==> !Captures(Ordered(d)[j], NormalName(raw)))
                          && r == Captured(Ordered(d)[i].captureDNS, Ordered(d)[i].id)
  {
    var s := NewSnapshot(d);
    LookupRefinesScan(d, NormalName(raw));
    r := CaptureDNS(s, raw);
    ScanFindsOwner(Ordered(d), NormalName(raw));
  }
}
