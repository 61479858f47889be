/**
 Host names and capture patterns as the program normalizes
 and compares them.
 */
module Names {
  /** White space among the first 256 code points. */
  predicate IsSpace(c: char) {
    c == ' ' || '\t' <= c <= '\r' || c == '\U{85}' || c == '\U{A0}'
  }

  predicate NoBlank(s: string) {
    forall i :: 0 <= i < |s| ==> !IsSpace(s[i])
  }

  function LowerChar(c: char): (r: char)
    ensures IsSpace(c) <==> IsSpace(r)
    ensures r == '.' <==> c == '.'
    ensures r == '*' <==> c == '*'
  {
    if 'A' <= c <= 'Z' then c - 'A' + 'a' else c
  }

  function Lower(s: string): (r: string)
    ensures |r| == |s|
  {
    seq(|s|, i requires 0 <= i < |s| => LowerChar(s[i]))
  }

  function TrimLeft(s: string): string {
    if s != [] && IsSpace(s[0]) then TrimLeft(s[1..]) else s
  }

  function TrimRight(s: string): string {
    if s != [] && IsSpace(s[|s| - 1]) then TrimRight(s[..|s| - 1]) else s
  }

  function TrimSpace(s: string): string {
    TrimRight(TrimLeft(s))
  }

  /** Without one trailing dot. */
  function StripDot(s: string): string {
    if s != [] && s[|s| - 1] == '.' then s[..|s| - 1] else s
  }

  predicate HasPrefix(s: string, t: string) {
    |t| <= |s| && s[..|t|] == t
  }

  predicate HasSuffix(s: string, t: string) {
    |t| <= |s| && s[|s| - |t|..] == t
  }

  predicate IsWildcard(pattern: string) {
    HasPrefix(pattern, "*.")
  }

  /** A proper subdomain of `base`: at least one character before the dot. */
  predicate Under(name: string, base: string) {
    |name| > |base| + 1 && HasSuffix(name, "." + base)
  }

  /** What a normalized capture pattern stands for. */
  predicate PatternMatches(pattern: string, name: string) {
    if IsWildcard(pattern) then Under(name, pattern[2..]) else pattern != [] && pattern == name
  }

  function NormalPattern(pattern: string): string {
    Lower(StripDot(TrimSpace(pattern)))
  }

  function NormalName(name: string): string {
    Lower(StripDot(name))
  }

  // ---------- Validation ----------

  predicate IsLabelChar(c: char) {
    'a' <= c <= 'z' || '0' <= c <= '9'
  }

  predicate IsLabel(s: string) {
    && 1 <= |s| <= 63
    && IsLabelChar(s[0]) && IsLabelChar(s[|s| - 1])
    && forall i :: 0 <= i < |s| ==> IsLabelChar(s[i]) || s[i] == '-'
  }

  predicate IsTopLevel(s: string) {
    2 <= |s| <= 63 && forall i :: 0 <= i < |s| ==> 'a' <= s[i] <= 'z'
  }

  /** Labels, each closed by a dot, then an alphabetic top level. */
  predicate IsDomain(s: string)
    decreases |s|
  {
    exists k :: 0 <= k < |s| && s[k] == '.' && IsLabel(s[..k]) && (IsTopLevel(s[k + 1..]) || IsDomain(s[k + 1..]))
  }

  predicate ValidDomain(s: string) {
    1 <= |s| <= 253 && IsDomain(Lower(s))
  }

  /** Validation normalizes a copy; the raw pattern is what the document keeps. */
  predicate ValidHostPattern(raw: string) {
    var host := Lower(TrimSpace(StripDot(raw)));
    if IsWildcard(host) then ValidDomain(host[2..]) && '.' in host[2..]
    else '*' !in host && ValidDomain(host)
  }

  // ---------- Facts about characters ----------

  predicate IsDomainChar(c: char) {
    IsLabelChar(c) || c == '-' || c == '.'
  }

  lemma {:induction false} DomainChars(s: string)
    requires IsDomain(s)
    ensures |s| >= 4 && IsLabelChar(s[0]) && 'a' <= s[|s| - 1] <= 'z'
    ensures forall i :: 0 <= i < |s| ==> IsDomainChar(s[i])
    decreases |s|
  {
    var k :| 0 <= k < |s| && s[k] == '.' && IsLabel(s[..k]) && (IsTopLevel(s[k + 1..]) || IsDomain(s[k + 1..]));
    var rest := s[k + 1..];
    if !IsTopLevel(rest) {
      DomainChars(rest);
    }
    assert s[0] == s[..k][0];
    assert s[|s| - 1] == rest[|rest| - 1];
    forall i | 0 <= i < |s|
      ensures IsDomainChar(s[i])
    {
      if i < k {
        assert s[i] == s[..k][i];
      } else if i > k {
        assert s[i] == rest[i - k - 1];
      }
    }
  }

  lemma {:induction false} TrimLeftChars(s: string)
    ensures forall i :: 0 <= i < |s| ==> IsSpace(s[i]) || s[i] in TrimLeft(s)
    ensures |TrimLeft(s)| <= |s| && TrimLeft(s) == s[|s| - |TrimLeft(s)|..]
  {
    if s != [] && IsSpace(s[0]) {
      TrimLeftChars(s[1..]);
      assert forall i :: 0 < i < |s| ==> s[i] == s[1..][i - 1];
    }
  }

  lemma {:induction false} TrimRightChars(s: string)
    ensures forall i :: 0 <= i < |s| ==> IsSpace(s[i]) || s[i] in TrimRight(s)
    ensures |TrimRight(s)| <= |s| && TrimRight(s) == s[..|TrimRight(s)|]
  {
    if s != [] && IsSpace(s[|s| - 1]) {
      var init := s[..|s| - 1];
      TrimRightChars(init);
      assert forall i :: 0 <= i < |init| ==> s[i] == init[i];
    }
  }

  /** Characters a validated host can have before normalization. */
  predicate IsHostChar(c: char) {
    IsSpace(c) || IsDomainChar(LowerChar(c)) || c == '*'
  }

  lemma {:induction false} HostChars(raw: string)
    requires ValidHostPattern(raw)
    ensures raw != [] && forall i :: 0 <= i < |raw| ==> IsHostChar(raw[i])
  {
    var stripped := StripDot(raw);
    var left := TrimLeft(stripped);
    var trimmed := TrimRight(left);
    var host := Lower(trimmed);
    TrimLeftChars(stripped);
    TrimRightChars(left);
    LoweredHostChars(host);
    forall i | 0 <= i < |raw|
      ensures IsHostChar(raw[i])
    {
      if i < |stripped| && !IsSpace(stripped[i]) {
        assert stripped[i] in left;
        assert stripped[i] in trimmed;
        var k :| 0 <= k < |trimmed| && trimmed[k] == stripped[i];
        assert host[k] == LowerChar(stripped[i]);
      }
    }
  }

  lemma {:induction false} LoweredHostChars(host: string)
    requires if IsWildcard(host) then ValidDomain(host[2..]) else ValidDomain(host)
    ensures forall i :: 0 <= i < |host| ==> host[i] == '*' || IsDomainChar(LowerChar(host[i]))
    ensures host != []
  {
    var base := if IsWildcard(host) then host[2..] else host;
    var low := Lower(base);
    DomainChars(low);
    forall i | 0 <= i < |host|
      ensures host[i] == '*' || IsDomainChar(LowerChar(host[i]))
    {
      var k := i - (|host| - |base|);
      if k >= 0 {
        assert low[k] == LowerChar(host[i]);
      } else {
        assert host[..2] == "*.";
        assert host[i] == host[..2][i];
      }
    }
  }
}
