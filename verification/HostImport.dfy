module HostImport {
  // How capture hosts get into the document (`normalizeHostList`): each pattern is
  // normalized and validated, then the list is trimmed once more, sorted and freed
  // of duplicates. Normalizing takes one trailing dot away and validation forgives
  // another one, and blanks before it; both may therefore be stored.

  import opened Options
  import opened Names
  import opened Documents
  import opened Sorting
  import opened CaptureRouting
  import opened Agreement

  // ---------- The list step ----------

  /** `normalizeInterceptHostPattern`. */
  function NormalizeHost(raw: string): Option<string> {
    var host := StripDot(Lower(TrimSpace(raw)));
    if ValidHostPattern(host) then Some(host) else None
  }

  predicate AllNormal(raws: seq<string>) {
    forall i :: 0 <= i < |raws| ==> NormalizeHost(raws[i]).Some?
  }

  function Normalized(raws: seq<string>): (r: seq<string>)
    requires AllNormal(raws)
    ensures |r| == |raws| && forall i :: 0 <= i < |r| ==> NormalizeHost(raws[i]) == Some(r[i])
  {
    seq(|raws|, i requires 0 <= i < |raws| => NormalizeHost(raws[i]).value)
  }

  /** What is stored for a list of patterns, unless one is invalid or there is none. */
  function NormalizeList(raws: seq<string>): Option<seq<string>> {
    if !AllNormal(raws) then None
    else
      var hosts := SortedValues(Normalized(raws));
      if hosts == [] then None else Some(hosts)
  }

  method NormalizeHosts(raws: seq<string>) returns (out: Option<seq<string>>)
    ensures out == NormalizeList(raws)
  {
    var hosts: seq<string> := [];
    for i := 0 to |raws|
      invariant AllNormal(raws[..i]) && hosts == Normalized(raws[..i])
    {
      assert raws[..i + 1] == raws[..i] + [raws[i]];
      var host := NormalizeHost(raws[i]);
      if host.None? {
        assert !AllNormal(raws);
        return None;
      }
      hosts := hosts + [host.value];
    }
    assert raws[..|raws|] == raws;
    var sorted := UniqueSorted(hosts);
    SortedListsAgree(sorted, SortedValues(hosts));
    out := if sorted == [] then None else Some(sorted);
  }

  // ---------- What one pattern is stored as ----------

  /** The stored form of an accepted pattern. */
  function StoredForm(raw: string): string
    requires NormalizeHost(raw).Some?
  {
    TrimSpace(NormalizeHost(raw).value)
  }

  /** Written with two trailing dots. */
  predicate TwoDots(raw: string) {
    var r := TrimSpace(raw);
    |r| >= 2 && r[|r| - 1] == '.' && r[|r| - 2] == '.'
  }

  /** Written with a blank before two trailing dots. */
  predicate BlankAndTwoDots(raw: string) {
    var r := TrimSpace(raw);
    TwoDots(raw) && |r| >= 3 && IsSpace(r[|r| - 3])
  }

  lemma {:induction false} TrimLeftBegins(s: string)
    ensures TrimLeft(s) != [] ==> !IsSpace(TrimLeft(s)[0])
  {
    if s != [] && IsSpace(s[0]) {
      TrimLeftBegins(s[1..]);
    }
  }

  lemma {:induction false} TrimmedEnds(s: string)
    requires TrimSpace(s) != []
    ensures !IsSpace(TrimSpace(s)[0]) && !IsSpace(TrimSpace(s)[|TrimSpace(s)| - 1])
  {
    TrimLeftBegins(s);
    TrimRightEnds(TrimLeft(s));
    TrimRightChars(TrimLeft(s));
  }

  lemma {:induction false} ValidatedNoBlank(h: string)
    requires ValidHostPattern(h)
    ensures NoBlank(Validated(h))
  {
    var v := Validated(h);
    var low := Lower(Base(v));
    DomainChars(low);
    forall i | 0 <= i < |v|
      ensures !IsSpace(v[i])
    {
      if IsWildcard(v) {
        assert i < 2 ==> v[i] == v[..2][i];
        assert i >= 2 ==> low[i - 2] == LowerChar(v[i]);
      } else {
        assert low[i] == LowerChar(v[i]);
      }
    }
  }

  /** A pattern that keeps a dot is stored as it was normalized, blanks before the dot included. */
  lemma {:induction false} DottedForm(h: string)
    requires ValidHostPattern(h) && h[|h| - 1] == '.' && !IsSpace(h[0])
    ensures TrimSpace(h) == h && |h| >= 2 && (NoBlank(h) <==> !IsSpace(h[|h| - 2]))
  {
    OuterCharsTrimmed(h);
    ValidatedEnds(h);
    ValidatedNoBlank(h);
    var g := StripDot(h);
    assert g != [];
    if !IsSpace(g[|g| - 1]) {
      assert g[0] == h[0];
      OuterCharsTrimmed(g);
      forall i | 0 <= i < |h|
        ensures !IsSpace(h[i])
      {
        assert i < |g| ==> Validated(h)[i] == LowerChar(h[i]);
      }
    }
  }

  /** Any other pattern loses its outer blanks and is then clean. */
  lemma {:induction false} PlainForm(h: string)
    requires ValidHostPattern(h) && h[|h| - 1] != '.'
    ensures var t := TrimSpace(h); t != [] && NoBlank(t) && StripDot(t) == t && TrimSpace(t) == t && ValidHostPattern(t)
  {
    var t := TrimSpace(h);
    assert StripDot(h) == h && Validated(h) == Lower(t);
    ValidatedEnds(h);
    ValidatedNoBlank(h);
    forall i | 0 <= i < |t|
      ensures !IsSpace(t[i])
    {
      assert Lower(t)[i] == LowerChar(t[i]);
    }
    LowerEnds(t);
    OuterCharsTrimmed(t);
  }

  lemma {:induction false} NormalizedShape(raw: string)
    requires NormalizeHost(raw).Some?
    ensures var r, h := TrimSpace(raw), NormalizeHost(raw).value;
            && h != [] && |h| <= |r| && !IsSpace(h[0]) && (forall i :: 0 <= i < |h| ==> h[i] == LowerChar(r[i]))
            && |h| == (if r[|r| - 1] == '.' then |r| - 1 else |r|)
            && (h[|h| - 1] == '.' <==> TwoDots(raw))
  {
    var r, h := TrimSpace(raw), NormalizeHost(raw).value;
    ValidatedEnds(h);
    assert StripDot(h) != [];
    TrimmedEnds(raw);
    LowerEnds(r);
  }

  /**
   An accepted pattern is stored in a form that validation accepts again. It
   keeps a dot exactly if it was written with two, and a blank exactly if one
   stood before those two.
   */
  lemma {:induction false} StoredFormIff(raw: string)
    requires NormalizeHost(raw).Some?
    ensures var t := StoredForm(raw);
            && t != [] && ValidHostPattern(t) && TrimSpace(t) == t
            && (StripDot(t) == t <==> !TwoDots(raw)) && (NoBlank(t) <==> !BlankAndTwoDots(raw))
  {
    var h := NormalizeHost(raw).value;
    NormalizedShape(raw);
    if TwoDots(raw) {
      DottedForm(h);
    } else {
      PlainForm(h);
    }
  }

  // ---------- What a list is stored as ----------

  /** The stored list: sorted, without repetition, holding exactly the stored forms. */
  lemma {:induction false} ListHoldsForms(raws: seq<string>)
    requires NormalizeList(raws).Some?
    ensures var hosts := NormalizeList(raws).value;
            && StrictlySorted(hosts) && AllNormal(raws)
            && (forall i :: 0 <= i < |raws| ==> StoredForm(raws[i]) in hosts)
            && (forall x :: x in hosts ==> exists i :: 0 <= i < |raws| && StoredForm(raws[i]) == x)
  {
    var values, hosts := Normalized(raws), NormalizeList(raws).value;
    forall i | 0 <= i < |raws|
      ensures StoredForm(raws[i]) in hosts
    {
      StoredFormIff(raws[i]);
      assert TrimSpace(values[i]) == StoredForm(raws[i]);
    }
    forall x | x in hosts
      ensures exists i :: 0 <= i < |raws| && StoredForm(raws[i]) == x
    {
      var i :| 0 <= i < |values| && TrimSpace(values[i]) == x;
      assert StoredForm(raws[i]) == x;
    }
  }

  predicate NoneWith(raws: seq<string>, p: string -> bool) {
    forall i :: 0 <= i < |raws| ==> !p(raws[i])
  }

  predicate AllUnblanked(hosts: seq<string>) {
    forall i :: 0 <= i < |hosts| ==> NoBlank(hosts[i])
  }

  lemma {:induction false} HostHasSource(raws: seq<string>, hosts: seq<string>, k: nat) returns (i: nat)
    requires NormalizeList(raws) == Some(hosts) && k < |hosts|
    ensures i < |raws| && NormalizeHost(raws[i]).Some? && StoredForm(raws[i]) == hosts[k]
  {
    ListHoldsForms(raws);
    assert hosts[k] in hosts;
    i :| 0 <= i < |raws| && StoredForm(raws[i]) == hosts[k];
  }

  /** Every imported host is valid and trimmed; a list without two-dot entries is stored clean. */
  lemma {:induction false} ImportedAreValid(raws: seq<string>, hosts: seq<string>)
    requires NormalizeList(raws) == Some(hosts)
    ensures ValidHosts(hosts)
    ensures NoneWith(raws, TwoDots) ==> forall h :: h in hosts ==> TrimSpace(h) == h && StripDot(h) == h
  {
    forall k | 0 <= k < |hosts|
      ensures ValidHostPattern(hosts[k]) && TrimSpace(hosts[k]) == hosts[k]
      ensures NoneWith(raws, TwoDots) ==> StripDot(hosts[k]) == hosts[k]
    {
      var i := HostHasSource(raws, hosts, k);
      StoredFormIff(raws[i]);
    }
  }

  /** The stored list has a blank if and only if some entry was written with one before two dots. */
  lemma {:induction false} ImportedUnblankedIff(raws: seq<string>, hosts: seq<string>)
    requires NormalizeList(raws) == Some(hosts)
    ensures AllUnblanked(hosts) <==> NoneWith(raws, BlankAndTwoDots)
  {
    if NoneWith(raws, BlankAndTwoDots) {
      forall k | 0 <= k < |hosts|
        ensures NoBlank(hosts[k])
      {
        var i := HostHasSource(raws, hosts, k);
        StoredFormIff(raws[i]);
      }
    }
    if AllUnblanked(hosts) {
      ListHoldsForms(raws);
      forall i | 0 <= i < |raws|
        ensures !BlankAndTwoDots(raws[i])
      {
        StoredFormIff(raws[i]);
        assert StoredForm(raws[i]) in hosts;
      }
    }
  }

  // ---------- Documents made by imports ----------

  /** The capture hosts of each module came from a list of patterns. */
  predicate Imported(modules: seq<Module>, raws: seq<seq<string>>) {
    |raws| == |modules| && forall i :: 0 <= i < |modules| ==> NormalizeList(raws[i]) == Some(modules[i].captureHosts)
  }

  lemma {:induction false} HostsOf(modules: seq<Module>, h: string)
    requires h in Hosts(modules)
    ensures exists i :: 0 <= i < |modules| && h in modules[i].captureHosts
  {
    var n := |modules| - 1;
    if h in modules[n].captureHosts {
    } else {
      HostsOf(modules[..n], h);
      var i :| 0 <= i < n && h in modules[..n][i].captureHosts;
      assert h in modules[i].captureHosts;
    }
  }

  /** A document whose modules were imported without two-dot entries: overlay and capture rules agree. */
  lemma {:induction false} CleanImportsAgree(d: Document, raws: seq<seq<string>>)
    requires ValidDocument(d) && Imported(Active(d), raws)
    requires forall i :: 0 <= i < |raws| ==> NoneWith(raws[i], TwoDots)
    ensures AllValid(Active(d)) && Agrees(d)
  {
    var modules := Active(d);
    forall i | 0 <= i < |modules|
      ensures ValidHosts(modules[i].captureHosts)
      ensures forall h :: h in modules[i].captureHosts ==> TrimSpace(h) == h && StripDot(h) == h
    {
      ImportedAreValid(raws[i], modules[i].captureHosts);
    }
    forall h | h in Hosts(modules)
      ensures TrimSpace(h) == h && StripDot(h) == h
    {
      HostsOf(modules, h);
    }
    CleanHostsAgree(d);
  }

  // ---------- Entries that do not come out clean ----------

  lemma {:induction false} OneEntry(raw: string, host: string)
    requires NormalizeHost(raw) == Some(host) && TrimSpace(host) == host
    ensures NormalizeList([raw]) == Some([host])
  {
    StoredFormIff(raw);
    assert Normalized([raw]) == [host];
    OneSorted(host);
  }

  lemma {:induction false} OneSorted(value: string)
    requires TrimSpace(value) == value != []
    ensures SortedValues([value]) == [value]
  {
    assert [value][..0] == [];
    assert SortedValues([]) == [];
    assert Insert([], value) == [value];
  }

  /** What becomes of a domain with something behind it and two dots. */
  lemma {:induction false} DomainWithDots(s: string, gap: string)
    requires IsDomain(s) && |s| <= 253 && (gap == "" || gap == " ")
    ensures NormalizeHost(s + gap + "..") == Some(s + gap + ".") && TrimSpace(s + gap + ".") == s + gap + "."
  {
    LowerDomain(s);
    var host, raw := s + gap + ".", s + gap + "..";
    assert raw == host + "." && raw[0] == host[0] == s[0];
    OuterCharsTrimmed(raw);
    OuterCharsTrimmed(host);
    LowerConcat(s, gap);
    LowerConcat(s + gap, "..");
    assert Lower(gap) == gap && Lower("..") == "..";
    assert StripDot(raw) == host && StripDot(host) == s + gap;
    GapIsTrimmed(s, gap);
  }

  lemma {:induction false} GapIsTrimmed(s: string, gap: string)
    requires IsDomain(s) && (gap == "" || gap == " ")
    ensures TrimSpace(s + gap) == s
  {
    LowerDomain(s);
    DomainChars(s);
    OuterCharsTrimmed(s);
    var t := s + gap;
    assert t[0] == s[0] && TrimLeft(t) == t;
    if gap == "" {
      assert t == s;
    } else {
      assert t[..|t| - 1] == s && TrimRight(s) == s;
    }
  }

  lemma {:induction false} DottedHost(s: string)
    requires IsDomain(s) && |s| <= 253
    ensures ValidHostPattern(s + ".") && NormalPattern(s + ".") == s && Lower(s + ".") == s + "."
  {
    LowerDomain(s);
    LowerConcat(s, ".");
    assert Lower(".") == ".";
    assert TrimSpace(s + ".") == s + ".";
    assert StripDot(s + ".") == s && TrimSpace(s) == s;
  }

  lemma {:induction false} OneHostOnly(host: string, normal: string)
    requires NormalPattern(host) == normal && Lower(host) == host && host != normal
    requires !Blank(normal) && !IsWildcard(host) && !IsWildcard(normal)
    ensures !StoredFormsSuffice([host])
  {
    assert [host][0] == host;
    assert !PatternCovers(host, normal);
    assert !CoveredBy([host], normal);
  }

  /**
   Any domain imported with two trailing dots is stored with one: the overlay
   answers it, and no capture rule ever matches it.
   */
  lemma {:induction false} DoubleDotHostDisagrees(s: string)
    requires IsDomain(s) && |s| <= 253
    ensures NormalizeList([s + ".."]) == Some([s + "."])
    ensures ValidDocument(Single(s + ".")) && AllValid(Active(Single(s + ".")))
    ensures !Agrees(Single(s + "."))
  {
    var host := s + ".";
    DomainWithDots(s, "");
    assert s + "" == s;
    OneEntry(s + "..", host);
    DottedHost(s);
    LowerDomain(s);
    SingleIsValid(host);
    AgreesIff(Single(host));
    assert host[0] == s[0] && host[..2][0] == s[0];
    OneHostOnly(host, s);
  }

  lemma {:induction false} GapJoins(s: string)
    ensures s + " " + ".." == s + " .." && s + " " + "." == s + " ."
    ensures !NoBlank(s + " .")
  {
    assert IsSpace((s + " .")[|s|]);
  }

  /** Any domain imported with a blank and two trailing dots is stored with the blank and one dot. */
  lemma {:induction false} BlankIsStored(s: string)
    requires IsDomain(s) && |s| <= 253
    ensures NormalizeList([s + " .."]) == Some([s + " ."])
    ensures ValidHostPattern(s + " .") && !NoBlank(s + " .")
  {
    DomainWithDots(s, " ");
    GapJoins(s);
    OneStored(s + " ..", s + " .");
  }

  lemma {:induction false} OneStored(raw: string, host: string)
    requires NormalizeHost(raw) == Some(host) && TrimSpace(host) == host
    ensures NormalizeList([raw]) == Some([host]) && ValidHostPattern(host)
  {
    OneEntry(raw, host);
    StoredFormIff(raw);
  }
}
