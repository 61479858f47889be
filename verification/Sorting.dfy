/**
 Lexicographic order on text, and the sorted list of distinct
 trimmed values.
 */
module Sorting {
  import opened Names

  predicate Less(a: string, b: string)
    decreases |a|
  {
    b != [] && (a == [] || a[0] < b[0] || (a[0] == b[0] && Less(a[1..], b[1..])))
  }

  lemma {:induction false} LessTrichotomy(a: string, b: string)
    ensures Less(a, b) || a == b || Less(b, a)
    ensures !(Less(a, b) && Less(b, a)) && !Less(a, a)
    decreases |a|
  {
    if a != [] {
      LessTrichotomy(a[1..], a[1..]);
      if b != [] && a[0] == b[0] {
        LessTrichotomy(a[1..], b[1..]);
        if a[1..] == b[1..] {
          assert a == [a[0]] + a[1..] && b == [b[0]] + b[1..];
        }
      }
    }
  }

  lemma {:induction false} LessTransitive(a: string, b: string, c: string)
    requires Less(a, b) && Less(b, c)
    ensures Less(a, c)
    decreases |a|
  {
    if a != [] && a[0] == b[0] == c[0] {
      LessTransitive(a[1..], b[1..], c[1..]);
    }
  }

  predicate StrictlySorted(s: seq<string>) {
    forall i, j :: 0 <= i < j < |s| ==> Less(s[i], s[j])
  }

  function Insert(s: seq<string>, x: string): (r: seq<string>)
    ensures forall y :: y in r <==> y in s || y == x
  {
    if s == [] || Less(x, s[0]) then [x] + s else [s[0]] + Insert(s[1..], x)
  }

  lemma {:induction false} InsertSorted(s: seq<string>, x: string)
    requires StrictlySorted(s) && x !in s
    ensures StrictlySorted(Insert(s, x))
  {
    if s != [] {
      LessTrichotomy(x, s[0]);
      if Less(x, s[0]) {
        forall i | 1 <= i < |s|
          ensures Less(x, s[i])
        {
          LessTransitive(x, s[0], s[i]);
        }
      } else {
        InsertSorted(s[1..], x);
        var tail := Insert(s[1..], x);
        forall i | 0 <= i < |tail|
          ensures Less(s[0], tail[i])
        {
          assert tail[i] in tail;
          if tail[i] != x {
            var k :| 0 <= k < |s[1..]| && s[1..][k] == tail[i];
            assert s[k + 1] == tail[i];
          }
        }
      }
    }
  }

  /** The distinct non-empty trimmed values, sorted. */
  function SortedValues(values: seq<string>): (r: seq<string>)
    ensures StrictlySorted(r)
    ensures forall x :: x in r <==> x != [] && exists i :: 0 <= i < |values| && TrimSpace(values[i]) == x
  {
    if values == [] then [] else
      var n := |values| - 1;
      var init, value := SortedValues(values[..n]), TrimSpace(values[n]);
      if value == [] || value in init then init
      else
        InsertSorted(init, value);
        Insert(init, value)
  }

  /** Trimmed, non-empty, first occurrences only; then sorted. */
  method UniqueSorted(values: seq<string>) returns (out: seq<string>)
    ensures StrictlySorted(out)
    ensures forall x :: x in out <==> x != [] && exists i :: 0 <= i < |values| && TrimSpace(values[i]) == x
  {
    var seen: set<string> := {};
    var kept: seq<string> := [];
    for i := 0 to |values|
      invariant forall x :: x in seen <==> x in kept
      invariant forall x :: x in kept <==> x != [] && exists k :: 0 <= k < i && TrimSpace(values[k]) == x
      invariant forall a, b :: 0 <= a < b < |kept| ==> kept[a] != kept[b]
    {
      var value := TrimSpace(values[i]);
      if value != [] && value !in seen {
        seen := seen + {value};
        kept := kept + [value];
      }
    }
    out := [];
    for i := 0 to |kept|
      invariant StrictlySorted(out)
      invariant forall x :: x in out <==> x in kept[..i]
    {
      assert kept[i] !in kept[..i];
      InsertSorted(out, kept[i]);
      out := Insert(out, kept[i]);
    }
    assert kept[..|kept|] == kept;
  }

  /** The result depends only on which values occur. */
  lemma {:induction false} SortedListsAgree(a: seq<string>, b: seq<string>)
    requires StrictlySorted(a) && StrictlySorted(b)
    requires forall x :: x in a <==> x in b
    ensures a == b
  {
    assert a != [] ==> a[0] in b;
    assert b != [] ==> b[0] in a;
    if a != [] {
      HeadsAgree(a, b);
      HeadsAgree(b, a);
      LessTrichotomy(a[0], b[0]);
      forall x
        ensures x in a[1..] <==> x in b[1..]
      {
        LessTrichotomy(x, x);
        assert x in a[1..] ==> Less(a[0], x);
        assert x in b[1..] ==> Less(b[0], x);
        assert x in a <==> x == a[0] || x in a[1..];
        assert x in b <==> x == b[0] || x in b[1..];
      }
      SortedListsAgree(a[1..], b[1..]);
      assert a == [a[0]] + a[1..] && b == [b[0]] + b[1..];
    }
  }

  lemma {:induction false} HeadsAgree(a: seq<string>, b: seq<string>)
    requires StrictlySorted(a) && a != [] && b != [] && b[0] in a
    ensures a[0] == b[0] || Less(a[0], b[0])
  {
  }
}
