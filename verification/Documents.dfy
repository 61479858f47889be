/**
 The interception document: ordered modules, and the helpers over their
 execution order.
 */
module Documents {
  import opened Options

  /** Where a mapped host goes: a host name, or an IPv4 address already in dotted form. */
  datatype Target = HostTarget(name: string) | AddressTarget(quad: string)

  datatype Mapping = Mapping(pattern: string, target: Target)

  /** A network origin already taken apart into host and port. */
  datatype Origin = Origin(host: string, port: nat)

  /** A declared routing rule; absent fields are empty, and port 0 means any. */
  datatype Route = Route(
    domain: string,
    suffix: string,
    cidr: string,
    anyKeywords: seq<string>,
    allKeywords: seq<string>,
    network: string,
    port: nat,
    reject: bool)

  datatype Module = Module(
    id: string,
    enabled: bool,
    captureHosts: seq<string>,
    captureDNS: string,
    egressGroup: string,
    origins: seq<Origin>,
    mappings: seq<Mapping>,
    routes: seq<Route>)

  datatype Document = Document(mitm: bool, modules: seq<Module>, executionOrder: seq<string>)

  // ---------- Specifications ----------

  function Ids(modules: seq<Module>): (r: seq<string>)
    ensures |r| == |modules| && forall i :: 0 <= i < |r| ==> r[i] == modules[i].id
  {
    seq(|modules|, i requires 0 <= i < |modules| => modules[i].id)
  }

  predicate Distinct<T(==)>(s: seq<T>) {
    forall i, j :: 0 <= i < j < |s| ==> s[i] != s[j]
  }

  /** The map a loop over the modules builds: the last module of an id wins. */
  function ById(modules: seq<Module>): (r: map<string, Module>)
    ensures forall id :: id in r <==> id in Ids(modules)
    ensures forall id :: id in r ==> r[id].id == id && r[id] in modules
  {
    if modules == [] then map[] else
      var m := modules[|modules| - 1];
      assert modules == modules[..|modules| - 1] + [m];
      assert Ids(modules) == Ids(modules[..|modules| - 1]) + [m.id];
      ById(modules[..|modules| - 1])[m.id := m]
  }

  /** The modules named by `order`, in that order; unknown ids are skipped. */
  function Pick(byId: map<string, Module>, order: seq<string>): seq<Module> {
    if order == [] then [] else
      var init, id := order[..|order| - 1], order[|order| - 1];
      if id in byId then Pick(byId, init) + [byId[id]] else Pick(byId, init)
  }

  function Ordered(d: Document): seq<Module> {
    Pick(ById(d.modules), d.executionOrder)
  }

  function Enabled(modules: seq<Module>): seq<Module> {
    if modules == [] then [] else
      var init, m := modules[..|modules| - 1], modules[|modules| - 1];
      if m.enabled then Enabled(init) + [m] else Enabled(init)
  }

  function Without(ids: seq<string>, id: string): seq<string> {
    if ids == [] then [] else
      var init, last := ids[..|ids| - 1], ids[|ids| - 1];
      if last != id then Without(init, id) + [last] else Without(init, id)
  }

  /** What validation establishes about ids and order. */
  predicate ValidDocument(d: Document) {
    Distinct(Ids(d.modules)) && OrderCovers(d.modules, d.executionOrder)
  }

  predicate OrderCovers(modules: seq<Module>, order: seq<string>) {
    && |order| == |modules|
    && (forall i :: 0 <= i < |order| ==> order[i] in Ids(modules))
    && Distinct(order)
  }

  // ---------- The loops of the source ----------

  method ValidateExecutionOrder(modules: seq<Module>, order: Option<seq<string>>) returns (ok: bool)
    ensures ok <==> order.Some? && OrderCovers(modules, order.value)
  {
    if order.None? || |order.value| != |modules| {
      return false;
    }
    var ids: set<string> := {};
    for i := 0 to |modules|
      invariant forall id :: id in ids <==> id in Ids(modules)[..i]
    {
      ids := ids + {modules[i].id};
    }
    assert Ids(modules)[..|modules|] == Ids(modules);
    var seen: set<string> := {};
    var list := order.value;
    for i := 0 to |list|
      invariant forall id :: id in seen <==> id in list[..i]
      invariant forall j :: 0 <= j < i ==> list[j] in Ids(modules)
      invariant forall j, k :: 0 <= j < k < i ==> list[j] != list[k]
    {
      if list[i] !in ids {
        return false;
      }
      if list[i] in seen {
        assert exists j :: 0 <= j < i && list[j] == list[i];
        return false;
      }
      seen := seen + {list[i]};
    }
    return true;
  }

  method IndexById(modules: seq<Module>) returns (byId: map<string, Module>)
    ensures byId == ById(modules)
  {
    byId := map[];
    for i := 0 to |modules|
      invariant byId == ById(modules[..i])
    {
      assert modules[..i + 1][..i] == modules[..i];
      byId := byId[modules[i].id := modules[i]];
    }
    assert modules[..|modules|] == modules;
  }

  method OrderedModules(d: Document) returns (ordered: seq<Module>)
    ensures ordered == Ordered(d)
  {
    var byId := IndexById(d.modules);
    ordered := [];
    for i := 0 to |d.executionOrder|
      invariant ordered == Pick(byId, d.executionOrder[..i])
    {
      var id := d.executionOrder[i];
      assert d.executionOrder[..i + 1][..i] == d.executionOrder[..i];
      if id in byId {
        ordered := ordered + [byId[id]];
      }
    }
    assert d.executionOrder[..|d.executionOrder|] == d.executionOrder;
  }

  method RemoveModuleId(ids: seq<string>, id: string) returns (result: seq<string>)
    ensures result == Without(ids, id)
  {
    result := [];
    for i := 0 to |ids|
      invariant result == Without(ids[..i], id)
    {
      assert ids[..i + 1][..i] == ids[..i];
      if ids[i] != id {
        result := result + [ids[i]];
      }
    }
    assert ids[..|ids|] == ids;
  }

  /** Ids of modules that the order does not mention. */
  function Unlisted(modules: seq<Module>, order: seq<string>): seq<string> {
    if modules == [] then [] else
      var init, m := modules[..|modules| - 1], modules[|modules| - 1];
      Unlisted(init, order) + (if m.id in order then [] else [m.id])
  }

  /** The order completed with the modules it does not mention, then filtered to enabled ones. */
  method OrderedEnabledModules(d: Document) returns (ordered: seq<Module>)
    ensures ordered == Enabled(Pick(ById(d.modules), d.executionOrder + Unlisted(d.modules, d.executionOrder)))
  {
    var byId := IndexById(d.modules);
    var order := CompleteOrder(d.modules, d.executionOrder);
    ordered := [];
    for i := 0 to |order|
      invariant ordered == Enabled(Pick(byId, order[..i]))
    {
      assert order[..i + 1] == order[..i] + [order[i]];
      EnabledPick(byId, order[..i], order[i]);
      if order[i] in byId && byId[order[i]].enabled {
        ordered := ordered + [byId[order[i]]];
      }
    }
    assert order[..|order|] == order;
  }

  method CompleteOrder(modules: seq<Module>, order: seq<string>) returns (full: seq<string>)
    ensures full == order + Unlisted(modules, order)
  {
    var seen: set<string> := {};
    for i := 0 to |order|
      invariant forall id :: id in seen <==> id in order[..i]
    {
      seen := seen + {order[i]};
    }
    assert order[..|order|] == order;
    full := order;
    for i := 0 to |modules|
      invariant full == order + Unlisted(modules[..i], order)
    {
      assert modules[..i + 1][..i] == modules[..i];
      if modules[i].id !in seen {
        full := full + [modules[i].id];
      }
    }
    assert modules[..|modules|] == modules;
  }

  lemma {:induction false} NothingUnlisted(modules: seq<Module>, order: seq<string>)
    requires forall m :: m in modules ==> m.id in order
    ensures Unlisted(modules, order) == []
  {
    if modules != [] {
      NothingUnlisted(modules[..|modules| - 1], order);
    }
  }

  /** For a valid document the completion adds nothing: the compiler sees the enabled modules in execution order. */
  lemma {:induction false} CompletionIsIdle(d: Document)
    requires ValidDocument(d)
    ensures Enabled(Pick(ById(d.modules), d.executionOrder + Unlisted(d.modules, d.executionOrder))) == Enabled(Ordered(d))
  {
    OrderIsPermutation(d);
    forall m | m in d.modules
      ensures m.id in d.executionOrder
    {
      var i :| 0 <= i < |d.modules| && d.modules[i] == m;
      assert Ids(d.modules)[i] == m.id;
    }
    NothingUnlisted(d.modules, d.executionOrder);
    assert d.executionOrder + [] == d.executionOrder;
  }

  lemma {:induction false} EnabledPick(byId: map<string, Module>, order: seq<string>, id: string)
    ensures Enabled(Pick(byId, order + [id])) ==
            Enabled(Pick(byId, order)) + (if id in byId && byId[id].enabled then [byId[id]] else [])
  {
    assert (order + [id])[..|order|] == order;
    if id in byId {
      assert (Pick(byId, order) + [byId[id]])[..|Pick(byId, order)|] == Pick(byId, order);
    }
  }

  // ---------- What a valid order means ----------

  lemma {:induction false} DistinctWithin(s: seq<string>, within: set<string>)
    requires Distinct(s) && forall i :: 0 <= i < |s| ==> s[i] in within
    ensures |s| <= |within|
    ensures |s| == |within| ==> forall x :: x in within ==> x in s
    decreases |s|
  {
    if s != [] {
      var last := s[|s| - 1];
      var init := s[..|s| - 1];
      assert s == init + [last];
      DistinctWithin(init, within - {last});
      assert |within| == |within - {last}| + 1;
    }
  }

  function IdSet(modules: seq<Module>): set<string> {
    set id | id in Ids(modules)
  }

  lemma {:induction false} IdSetSize(s: seq<string>)
    ensures |set x | x in s| <= |s|
  {
    if s != [] {
      var init, last := s[..|s| - 1], s[|s| - 1];
      IdSetSize(init);
      assert s == init + [last];
      assert (set x | x in s) == (set x | x in init) + {last};
    }
  }

  /** A valid execution order mentions every module, so it is a permutation of the module ids. */
  lemma {:induction false} OrderIsPermutation(d: Document)
    requires ValidDocument(d)
    ensures forall id :: id in Ids(d.modules) <==> id in d.executionOrder
    ensures multiset(d.executionOrder) == multiset(Ids(d.modules))
  {
    var ids := Ids(d.modules);
    var all := IdSet(d.modules);
    DistinctWithin(d.executionOrder, all);
    IdSetSize(ids);
    DistinctWithin(ids, all);
    forall id
      ensures multiset(d.executionOrder)[id] == multiset(ids)[id]
    {
      DistinctCount(d.executionOrder, id);
      DistinctCount(ids, id);
    }
  }

  lemma {:induction false} RepeatCounts(s: seq<string>, i: nat, j: nat)
    requires i < j < |s| && s[i] == s[j]
    ensures multiset(s)[s[i]] >= 2
  {
    assert s == s[..j] + s[j..];
    assert s[i] == s[..j][i] && s[j] == s[j..][0];
    assert s[i] in multiset(s[..j]) && s[i] in multiset(s[j..]);
  }

  /** The accepted orders are exactly the permutations of the module ids. */
  lemma {:induction false} AcceptedOrdersArePermutations(modules: seq<Module>, order: seq<string>)
    requires Distinct(Ids(modules))
    ensures OrderCovers(modules, order) <==> multiset(order) == multiset(Ids(modules))
  {
    var ids := Ids(modules);
    if OrderCovers(modules, order) {
      OrderIsPermutation(Document(false, modules, order));
    }
    if multiset(order) == multiset(ids) {
      forall i, j | 0 <= i < j < |order|
        ensures order[i] != order[j]
      {
        if order[i] == order[j] {
          RepeatCounts(order, i, j);
          DistinctCount(ids, order[i]);
        }
      }
      assert |multiset(order)| == |multiset(ids)|;
      forall i | 0 <= i < |order|
        ensures order[i] in ids
      {
        assert order[i] in multiset(order);
      }
    }
  }

  lemma {:induction false} DistinctCount(s: seq<string>, x: string)
    requires Distinct(s)
    ensures multiset(s)[x] == if x in s then 1 else 0
  {
    if s != [] {
      var init, last := s[..|s| - 1], s[|s| - 1];
      assert s == init + [last];
      DistinctCount(init, x);
    }
  }

  lemma {:induction false} PickKnown(byId: map<string, Module>, order: seq<string>)
    requires forall i :: 0 <= i < |order| ==> order[i] in byId
    ensures |Pick(byId, order)| == |order|
    ensures forall i :: 0 <= i < |order| ==> Pick(byId, order)[i] == byId[order[i]]
  {
    if order != [] {
      PickKnown(byId, order[..|order| - 1]);
    }
  }

  lemma {:induction false} ByIdFinds(modules: seq<Module>, i: nat)
    requires Distinct(Ids(modules)) && i < |modules|
    ensures modules[i].id in ById(modules) && ById(modules)[modules[i].id] == modules[i]
  {
    var n := |modules| - 1;
    if i < n {
      var init := modules[..n];
      assert forall j :: 0 <= j < n ==> Ids(init)[j] == Ids(modules)[j];
      ByIdFinds(init, i);
      assert Ids(modules)[i] != Ids(modules)[n];
    }
  }

  /**
   For a valid document the ordered modules are exactly the stored ones, each
   once, with ids in execution order.
   */
  lemma {:induction false} OrderedIsRearrangement(d: Document)
    requires ValidDocument(d)
    ensures Ids(Ordered(d)) == d.executionOrder
    ensures forall m :: m in Ordered(d) <==> m in d.modules
    ensures |Ordered(d)| == |d.modules|
  {
    var byId := ById(d.modules);
    PickKnown(byId, d.executionOrder);
    OrderIsPermutation(d);
    var o := Ordered(d);
    forall m | m in d.modules
      ensures m in o
    {
      var i :| 0 <= i < |d.modules| && d.modules[i] == m;
      ByIdFinds(d.modules, i);
      assert Ids(d.modules)[i] == m.id;
      var k :| 0 <= k < |d.executionOrder| && d.executionOrder[k] == m.id;
      assert o[k] == m;
    }
  }

  lemma {:induction false} WithoutMembers(ids: seq<string>, id: string)
    ensures forall x :: x in Without(ids, id) <==> x in ids && x != id
    ensures Distinct(ids) ==> Distinct(Without(ids, id))
    ensures Distinct(ids) ==> |Without(ids, id)| == |ids| - (if id in ids then 1 else 0)
  {
    if ids != [] {
      var init, last := ids[..|ids| - 1], ids[|ids| - 1];
      assert ids == init + [last];
      WithoutMembers(init, id);
      if Distinct(ids) && last != id {
        assert last !in init;
        AppendDistinct(Without(init, id), last);
      }
    }
  }

  lemma {:induction false} AppendDistinct(s: seq<string>, x: string)
    requires Distinct(s) && x !in s
    ensures Distinct(s + [x])
  {
  }

  /** Removing a module and its id from the order leaves a valid document. */
  lemma {:induction false} CutIds(modules: seq<Module>, i: nat, ids: seq<string>)
    requires Distinct(Ids(modules)) && i < |modules| && ids == Ids(modules[..i] + modules[i + 1..])
    ensures Distinct(ids) && |ids| == |modules| - 1
    ensures forall id :: id in Ids(modules) && id != modules[i].id ==> id in ids
  {
    var all := Ids(modules);
    assert ids == all[..i] + all[i + 1..];
    assert forall j :: 0 <= j < |ids| ==> ids[j] == all[if j < i then j else j + 1];
    forall id | id in all && id != modules[i].id
      ensures id in ids
    {
      var j :| 0 <= j < |all| && all[j] == id;
      assert ids[if j < i then j else j - 1] == id;
    }
  }

  lemma {:induction false} DeleteKeepsValid(d: Document, i: nat)
    requires ValidDocument(d) && i < |d.modules|
    ensures ValidDocument(Document(d.mitm, d.modules[..i] + d.modules[i + 1..], Without(d.executionOrder, d.modules[i].id)))
  {
    var id := d.modules[i].id;
    CutIds(d.modules, i, Ids(d.modules[..i] + d.modules[i + 1..]));
    OrderIsPermutation(d);
    assert Ids(d.modules)[i] == id;
    WithoutMembers(d.executionOrder, id);
  }

  /** Importing appends the module and its id. */
  lemma {:induction false} AppendKeepsValid(d: Document, m: Module)
    requires ValidDocument(d) && m.id !in Ids(d.modules)
    ensures ValidDocument(Document(d.mitm, d.modules + [m], d.executionOrder + [m.id]))
  {
    OrderIsPermutation(d);
    assert Ids(d.modules + [m]) == Ids(d.modules) + [m.id];
  }
}
