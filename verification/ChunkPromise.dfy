/**
 For which texts every page keeps the promise, whatever the page size.
 */
module ChunkPromise {
  import opened Options
  import opened Names
  import opened ChunkText
  import opened ChunkReading

  /** A page that can be sent: closed, not too long, and properly nested if the whole text is. */
  predicate GoodPage(page: seq<Token>, limit: nat, nested: bool) {
    Walk(page, []) == [] && |Seen(page, [])| <= limit && (nested ==> Nested(page, []))
  }

  /** Every page text, as the strict reader sees it, is such a page. */
  predicate KeepsPromise(text: string, size: int, unescapes: string -> bool) {
    var pages, nested := Readings(ChunkOf(text, size, unescapes), Strict(unescapes)), Nested(Lex(text, 0, Strict(unescapes)), []);
    forall k :: 0 <= k < |pages| ==> GoodPage(pages[k], AtLeastOne(size), nested)
  }

  lemma {:induction false} CleanKeepsPromise(text: string, size: int, unescapes: string -> bool)
    requires Standard(unescapes) && CleanText(text, unescapes)
    ensures KeepsPromise(text, size, unescapes)
  {
    ChunksKeepPromise(text, size, unescapes);
  }

  // ---------- Reading a stretch inside a text ----------

  predicate ClosedAt(w: string, i: nat)
    requires i < |w|
  {
    w[i] == '<' ==> IndexOf(w, '>', i, |w|) < |w|
  }

  /** Every angle bracket of the stretch is closed inside it. */
  predicate Contained(w: string) {
    forall i: nat :: i < |w| ==> ClosedAt(w, i)
  }

  predicate SameChar(text: string, n: nat, w: string, k: nat)
    requires n + |w| <= |text| && k < |w|
  {
    text[n + k] == w[k]
  }

  /** `w` stands in the text at position `n`. */
  predicate Occurs(text: string, n: nat, w: string) {
    n + |w| <= |text| && forall k: nat :: k < |w| ==> SameChar(text, n, w, k)
  }

  lemma {:induction false} OccursPart(text: string, n: nat, w: string, i: nat, j: nat)
    requires Occurs(text, n, w) && i <= j <= |w|
    ensures text[n + i..n + j] == w[i..j]
  {
    forall k: nat | k < j - i
      ensures text[n + i..n + j][k] == w[i..j][k]
    {
      assert SameChar(text, n, w, i + k);
    }
  }

  lemma {:induction false} OccursSplit(text: string, n: nat, a: string, b: string, w: string)
    requires w == a + b && Occurs(text, n, w)
    ensures Occurs(text, n, a) && Occurs(text, n + |a|, b)
  {
    forall k: nat | k < |a|
      ensures SameChar(text, n, a, k)
    {
      assert SameChar(text, n, w, k);
    }
    var m := n + |a|;
    forall k: nat | k < |b|
      ensures SameChar(text, m, b, k)
    {
      assert SameChar(text, n, w, |a| + k);
    }
  }

  lemma {:induction false} ShiftIndex(text: string, n: nat, w: string, c: char, i: nat, end: nat)
    requires Occurs(text, n, w) && i < |w| && IndexOf(w, c, i, |w|) < |w| && n + |w| <= end <= |text|
    ensures IndexOf(text, c, n + i, end) == n + IndexOf(w, c, i, |w|)
  {
    var r := IndexOf(w, c, i, |w|);
    assert SameChar(text, n, w, r);
    forall k | n + i <= k < n + r
      ensures text[k] != c
    {
      assert SameChar(text, n, w, k - n) && w[k - n] != c;
    }
    IndexIs(text, c, n + i, end, n + r);
  }

  type Reader = nat -> (Token, nat)

  function ReaderOf(text: string, unescapes: string -> bool): Reader {
    (i: nat) => if i < |text| then LexOne(text, i, unescapes) else (Void(""), i)
  }

  predicate Gives(step: Reader, i: nat, t: Token, end: nat) {
    i < end && step(i) == (t, end)
  }

  lemma {:induction false} LexGives(text: string, i: nat, unescapes: string -> bool, t: Token, end: nat)
    requires i < |text| && LexOne(text, i, unescapes) == (t, end)
    ensures Gives(ReaderOf(text, unescapes), i, t, end) && end <= |text|
  {
  }

  /** What becomes of an angle bracket closed by the end of `raw`, and how much of it. */
  predicate Makes(raw: string, t: Token, length: nat) {
    if TagOf(raw).Some? then t == TagOf(raw).value && length == |raw| else t == Visible("<", "&lt;") && length == 1
  }

  lemma {:induction false} Made(raw: string) returns (t: Token, length: nat)
    ensures Makes(raw, t, length)
  {
    if TagOf(raw).Some? {
      t, length := TagOf(raw).value, |raw|;
    } else {
      t, length := Visible("<", "&lt;"), 1;
    }
  }

  lemma {:induction false} TagTaken(text: string, i: nat, raw: string, unescapes: string -> bool)
    requires i < |text| && text[i] == '<' && TagOf(raw).Some?
    requires var close := IndexOf(text, '>', i, |text|); close < |text| && raw == text[i..close + 1]
    ensures LexOne(text, i, unescapes) == (TagOf(raw).value, i + |raw|)
  {
    LexTag(text, i, i + |raw| - 1, TagOf(raw).value, unescapes);
  }

  lemma {:induction false} BracketShown(text: string, i: nat, raw: string, unescapes: string -> bool)
    requires i < |text| && text[i] == '<' && TagOf(raw).None?
    requires var close := IndexOf(text, '>', i, |text|); close < |text| && raw == text[i..close + 1]
    ensures LexOne(text, i, unescapes) == (Visible("<", "&lt;"), i + 1)
  {
    assert text[i..i + 1] == "<";
  }

  lemma {:induction false} TagTried(text: string, i: nat, raw: string, t: Token, length: nat, unescapes: string -> bool)
    requires i < |text| && text[i] == '<' && Makes(raw, t, length)
    requires var close := IndexOf(text, '>', i, |text|); close < |text| && raw == text[i..close + 1]
    ensures LexOne(text, i, unescapes) == (t, i + length)
  {
    if TagOf(raw).Some? {
      TagTaken(text, i, raw, unescapes);
    } else {
      BracketShown(text, i, raw, unescapes);
    }
  }

  lemma {:induction false} TagGives(text: string, i: nat, raw: string, t: Token, length: nat, end: nat, unescapes: string -> bool)
    requires i < |text| && text[i] == '<' && Makes(raw, t, length) && end == i + length
    requires var close := IndexOf(text, '>', i, |text|); close < |text| && raw == text[i..close + 1]
    ensures Gives(ReaderOf(text, unescapes), i, t, end)
  {
    TagTried(text, i, raw, t, length, unescapes);
    LexGives(text, i, unescapes, t, end);
  }

  lemma {:induction false} SameBracket(text: string, n: nat, w: string, i: nat) returns (raw: string)
    requires Occurs(text, n, w) && i < |w| && w[i] == '<' && IndexOf(w, '>', i, |w|) < |w|
    ensures var close := IndexOf(w, '>', i, |w|);
            && raw == w[i..close + 1] == text[n + i..n + close + 1] && text[n + i] == '<'
            && IndexOf(text, '>', n + i, |text|) == n + close
  {
    ShiftIndex(text, n, w, '>', i, |text|);
    raw := w[i..IndexOf(w, '>', i, |w|) + 1];
    OccursPart(text, n, w, i, IndexOf(w, '>', i, |w|) + 1);
    assert SameChar(text, n, w, i);
  }

  lemma {:induction false} GivesWithin(text: string, i: nat, t: Token, end: nat, unescapes: string -> bool)
    requires i < |text| && Gives(ReaderOf(text, unescapes), i, t, end)
    ensures end <= |text|
  {
  }

  lemma {:induction false} ShiftTag(text: string, n: nat, w: string, i: nat, unescapes: string -> bool) returns (t: Token, end: nat)
    requires Occurs(text, n, w) && i < |w| && w[i] == '<' && IndexOf(w, '>', i, |w|) < |w|
    ensures Gives(ReaderOf(w, unescapes), i, t, end) && Gives(ReaderOf(text, unescapes), n + i, t, n + end) && end <= |w|
  {
    var raw := SameBracket(text, n, w, i);
    var length;
    t, length := Made(raw);
    end := i + length;
    TagGives(w, i, raw, t, length, end, unescapes);
    TagGives(text, n + i, raw, t, length, n + end, unescapes);
    GivesWithin(w, i, t, end, unescapes);
  }

  lemma {:induction false} LastIsFound(w: string, i: nat)
    requires i < |w| && w[|w| - 1] == ';'
    ensures IndexOf(w, ';', i, |w|) < |w|
  {
  }

  lemma {:induction false} ShiftEntityEnd(text: string, n: nat, w: string, i: nat, unescapes: string -> bool)
    requires Occurs(text, n, w) && i < |w| <= 34 && w[|w| - 1] == ';'
    ensures EntityEnd(text, n + i, unescapes) == n + EntityEnd(w, i, unescapes)
  {
    var end := if n + i + 34 > |text| then |text| else n + i + 34;
    LastIsFound(w, i);
    ShiftIndex(text, n, w, ';', i, end);
    OccursPart(text, n, w, i, IndexOf(w, ';', i, |w|) + 1);
  }

  lemma {:induction false} PlainAlike(text: string, n: nat, w: string, i: nat, unescapes: string -> bool) returns (t: Token, end: nat)
    requires Occurs(text, n, w) && i < |w| <= 34 && w[|w| - 1] == ';' && w[i] != '<'
    ensures end <= |w| && LexOne(w, i, unescapes) == (t, end) && LexOne(text, n + i, unescapes) == (t, n + end)
  {
    assert SameChar(text, n, w, i);
    OccursPart(text, n, w, i, i + 1);
    if w[i] == '&' {
      ShiftEntityEnd(text, n, w, i, unescapes);
      if EntityEnd(w, i, unescapes) > i {
        OccursPart(text, n, w, i, EntityEnd(w, i, unescapes));
      }
    }
    t, end := LexOne(w, i, unescapes).0, LexOne(w, i, unescapes).1;
  }

  lemma {:induction false} ShiftPlain(text: string, n: nat, w: string, i: nat, unescapes: string -> bool) returns (t: Token, end: nat)
    requires Occurs(text, n, w) && i < |w| <= 34 && w[|w| - 1] == ';' && w[i] != '<'
    ensures Gives(ReaderOf(w, unescapes), i, t, end) && Gives(ReaderOf(text, unescapes), n + i, t, n + end) && end <= |w|
  {
    t, end := PlainAlike(text, n, w, i, unescapes);
    LexGives(w, i, unescapes, t, end);
    LexGives(text, n + i, unescapes, t, n + end);
  }

  lemma {:induction false} ShiftOne(text: string, n: nat, w: string, i: nat, unescapes: string -> bool) returns (t: Token, end: nat)
    requires Occurs(text, n, w) && i < |w| <= 34 && w[|w| - 1] == ';' && Contained(w)
    ensures Gives(ReaderOf(w, unescapes), i, t, end) && Gives(ReaderOf(text, unescapes), n + i, t, n + end) && end <= |w|
  {
    assert ClosedAt(w, i);
    if w[i] == '<' {
      t, end := ShiftTag(text, n, w, i, unescapes);
    } else {
      t, end := ShiftPlain(text, n, w, i, unescapes);
    }
  }

  // ---------- Reading, one step at a time ----------

  /** Reading from `i` gives these tokens and gets to `end`. */
  predicate Reads(step: Reader, i: nat, tokens: seq<Token>, end: nat)
    decreases |tokens|
  {
    if tokens == [] then i == end
    else step(i).0 == tokens[0] && i < step(i).1 <= end && Reads(step, step(i).1, tokens[1..], end)
  }

  lemma {:induction false} ReadsForward(step: Reader, i: nat, tokens: seq<Token>, end: nat)
    requires Reads(step, i, tokens, end)
    ensures i <= end
  {
  }

  lemma {:induction false} ReadsCons(step: Reader, i: nat, rest: seq<Token>, end: nat)
    requires i < step(i).1 && Reads(step, step(i).1, rest, end)
    ensures Reads(step, i, [step(i).0] + rest, end)
  {
    ReadsForward(step, step(i).1, rest, end);
    assert ([step(i).0] + rest)[1..] == rest;
  }

  lemma {:induction false} ReadsAppend(step: Reader, i: nat, a: seq<Token>, mid: nat, b: seq<Token>, end: nat)
    requires Reads(step, i, a, mid) && Reads(step, mid, b, end)
    ensures Reads(step, i, a + b, end)
    decreases |a|
  {
    if a == [] {
      assert a + b == b;
    } else {
      ReadsForward(step, mid, b, end);
      ReadsAppend(step, step(i).1, a[1..], mid, b, end);
      ReadsCons(step, i, a[1..] + b, end);
      assert [a[0]] + (a[1..] + b) == a + b;
    }
  }

  /** From `n + i`, one reader does what the other does from `i`. */
  predicate Alike(step: Reader, n: nat, inner: Reader, len: nat, i: nat) {
    i < inner(i).1 <= len && step(n + i) == (inner(i).0, n + inner(i).1)
  }

  predicate Follows(step: Reader, n: nat, inner: Reader, len: nat) {
    forall i: nat :: i < len ==> Alike(step, n, inner, len, i)
  }

  lemma {:induction false} FollowsReads(step: Reader, n: nat, inner: Reader, len: nat, i: nat, tokens: seq<Token>)
    requires Follows(step, n, inner, len) && Reads(inner, i, tokens, len)
    ensures Reads(step, n + i, tokens, n + len)
    decreases |tokens|
  {
    if tokens != [] {
      assert Alike(step, n, inner, len, i);
      FollowsReads(step, n, inner, len, inner(i).1, tokens[1..]);
      ReadsCons(step, n + i, tokens[1..], n + len);
      assert [tokens[0]] + tokens[1..] == tokens;
    }
  }

  lemma {:induction false} FollowsAll(step: Reader, n: nat, inner: Reader, len: nat, tokens: seq<Token>, end: nat)
    requires Follows(step, n, inner, len) && Reads(inner, 0, tokens, len) && end == n + len
    ensures Reads(step, n, tokens, end)
  {
    FollowsReads(step, n, inner, len, 0, tokens);
  }

  /** From `n` on, the reader gives what the tokens are read back as. */
  predicate Writes(step: Reader, n: nat, tokens: seq<Token>)
    decreases |tokens|
  {
    tokens == [] ||
    (Written(tokens[0]) != [] && step(n) == (Canon(tokens[0]), n + |Written(tokens[0])|)
     && Writes(step, n + |Written(tokens[0])|, tokens[1..]))
  }

  lemma {:induction false} WritesReadsTo(step: Reader, n: nat, tokens: seq<Token>, end: nat)
    requires Writes(step, n, tokens) && end == n + |Text(tokens)|
    ensures Reads(step, n, Canons(tokens), end)
  {
    WritesReads(step, n, tokens);
  }

  lemma {:induction false} WritesReads(step: Reader, n: nat, tokens: seq<Token>)
    requires Writes(step, n, tokens)
    ensures Reads(step, n, Canons(tokens), n + |Text(tokens)|)
    decreases |tokens|
  {
    if tokens != [] {
      var w := Written(tokens[0]);
      WritesReads(step, n + |w|, tokens[1..]);
      ReadsCons(step, n, Canons(tokens[1..]), n + |Text(tokens)|);
      CanonsCons(tokens);
    }
  }

  // ---------- The reader of a text ----------

  lemma {:induction false} LexReads(text: string, i: nat, unescapes: string -> bool)
    requires i <= |text|
    ensures Reads(ReaderOf(text, unescapes), i, Lex(text, i, unescapes), |text|)
    decreases |text| - i
  {
    if i < |text| {
      var (t, next) := LexOne(text, i, unescapes);
      LexReads(text, next, unescapes);
      LexStep(text, i, t, next, unescapes);
      ReadsCons(ReaderOf(text, unescapes), i, Lex(text, next, unescapes), |text|);
    }
  }

  lemma {:induction false} ReadsIsLex(text: string, i: nat, tokens: seq<Token>, unescapes: string -> bool)
    requires Reads(ReaderOf(text, unescapes), i, tokens, |text|)
    ensures i <= |text| && Lex(text, i, unescapes) == tokens
    decreases |tokens|
  {
    if tokens != [] {
      var (t, next) := LexOne(text, i, unescapes);
      ReadsIsLex(text, next, tokens[1..], unescapes);
      LexStep(text, i, t, next, unescapes);
      assert [t] + tokens[1..] == tokens;
    }
  }

  /** A contained stretch is read the same way wherever it stands. */
  lemma {:induction false} StretchReads(text: string, n: nat, w: string, end: nat, unescapes: string -> bool)
    requires Occurs(text, n, w) && 1 <= |w| <= 34 && w[|w| - 1] == ';' && Contained(w) && end == n + |w|
    ensures Reads(ReaderOf(text, unescapes), n, Lex(w, 0, unescapes), end)
  {
    StretchFollows(text, n, w, unescapes);
    LexReads(w, 0, unescapes);
    FollowsAll(ReaderOf(text, unescapes), n, ReaderOf(w, unescapes), |w|, Lex(w, 0, unescapes), end);
  }

  lemma {:induction false} GivesAlike(step: Reader, n: nat, inner: Reader, len: nat, i: nat, t: Token, end: nat)
    requires Gives(inner, i, t, end) && Gives(step, n + i, t, n + end) && end <= len
    ensures Alike(step, n, inner, len, i)
  {
  }

  lemma {:induction false} StretchAlike(text: string, n: nat, w: string, i: nat, unescapes: string -> bool)
    requires Occurs(text, n, w) && i < |w| <= 34 && w[|w| - 1] == ';' && Contained(w)
    ensures Alike(ReaderOf(text, unescapes), n, ReaderOf(w, unescapes), |w|, i)
  {
    var t, end := ShiftOne(text, n, w, i, unescapes);
    GivesAlike(ReaderOf(text, unescapes), n, ReaderOf(w, unescapes), |w|, i, t, end);
  }

  lemma {:induction false} StretchFollows(text: string, n: nat, w: string, unescapes: string -> bool)
    requires Occurs(text, n, w) && 1 <= |w| <= 34 && w[|w| - 1] == ';' && Contained(w)
    ensures Follows(ReaderOf(text, unescapes), n, ReaderOf(w, unescapes), |w|)
  {
    forall i: nat | i < |w|
      ensures Alike(ReaderOf(text, unescapes), n, ReaderOf(w, unescapes), |w|, i)
    {
      StretchAlike(text, n, w, i, unescapes);
    }
  }

  lemma {:induction false} WholeSlice(w: string)
    ensures w[0..|w|] == w
  {
  }

  lemma {:induction false} HeadWritten(text: string, n: nat, t: Token, unescapes: string -> bool)
    requires Canonical(t, unescapes) && Occurs(text, n, Written(t))
    ensures Gives(ReaderOf(text, unescapes), n, Canon(t), n + |Written(t)|)
  {
    OccursPart(text, n, Written(t), 0, |Written(t)|);
    WholeSlice(Written(t));
    ReadOne(text, n, t, unescapes);
    LexGives(text, n, unescapes, Canon(t), n + |Written(t)|);
  }

  lemma {:induction false} WritesCons(step: Reader, n: nat, tokens: seq<Token>)
    requires tokens != [] && Gives(step, n, Canon(tokens[0]), n + |Written(tokens[0])|)
    requires Writes(step, n + |Written(tokens[0])|, tokens[1..])
    ensures Writes(step, n, tokens)
  {
  }

  /** Wherever such a token is written, the reader gives what it is read back as. */
  ghost predicate ReadsBackAll(step: Reader, text: string, p: Token -> bool) {
    forall n: nat, t :: p(t) && Occurs(text, n, Written(t)) ==> Gives(step, n, Canon(t), n + |Written(t)|)
  }

  lemma {:induction false} TokensWritten(step: Reader, text: string, n: nat, tokens: seq<Token>, p: Token -> bool)
    requires ReadsBackAll(step, text, p) && (forall i :: 0 <= i < |tokens| ==> p(tokens[i])) && Occurs(text, n, Text(tokens))
    ensures Writes(step, n, tokens)
    decreases |tokens|
  {
    if tokens != [] {
      OccursSplit(text, n, Written(tokens[0]), Text(tokens[1..]), Text(tokens));
      TokensWritten(step, text, n + |Written(tokens[0])|, tokens[1..], p);
      WritesCons(step, n, tokens);
    }
  }

  lemma {:induction false} ReaderReadsBack(text: string, unescapes: string -> bool)
    ensures ReadsBackAll(ReaderOf(text, unescapes), text, (t: Token) => Canonical(t, unescapes))
  {
    forall n: nat, t: Token | Canonical(t, unescapes) && Occurs(text, n, Written(t))
      ensures Gives(ReaderOf(text, unescapes), n, Canon(t), n + |Written(t)|)
    {
      HeadWritten(text, n, t, unescapes);
    }
  }

  /** Canonical tokens are read back wherever they are written. */
  lemma {:induction false} ReadThrough(text: string, n: nat, tokens: seq<Token>, end: nat, unescapes: string -> bool)
    requires AllCanonical(tokens, unescapes) && Occurs(text, n, Text(tokens)) && end == n + |Text(tokens)|
    ensures Reads(ReaderOf(text, unescapes), n, Canons(tokens), end)
  {
    ReaderReadsBack(text, unescapes);
    TokensWritten(ReaderOf(text, unescapes), text, n, tokens, (t: Token) => Canonical(t, unescapes));
    WritesReadsTo(ReaderOf(text, unescapes), n, tokens, end);
  }

  // ---------- A swallowed stretch shows at least two characters ----------

  lemma {:induction false} EndsVisible(w: string, i: nat, unescapes: string -> bool)
    requires i < |w| && w[|w| - 1] == ';'
    ensures var tokens := Lex(w, i, unescapes); tokens != [] && tokens[|tokens| - 1].Visible?
    decreases |w| - i
  {
    var (t, end) := LexOne(w, i, unescapes);
    LexStep(w, i, t, end, unescapes);
    if end < |w| {
      EndsVisible(w, end, unescapes);
    } else {
      assert Source(t) == w[i..] && w[i..][|w| - 1 - i] == ';';
      assert Lex(w, end, unescapes) == [];
    }
  }

  lemma {:induction false} LastIsSeen(tokens: seq<Token>, stack: Stack)
    requires tokens != [] && tokens[|tokens| - 1].Visible?
    ensures |Seen(tokens, stack)| >= 1
  {
  }

  lemma {:induction false} SwallowedShowsTwo(w: string, stack: Stack, unescapes: string -> bool)
    requires Entity(w, unescapes) && !Proper(w)
    ensures |Seen(Lex(w, 0, Strict(unescapes)), stack)| >= 2
  {
    var bare, rest := Visible("&", "&amp;"), Lex(w, 1, Strict(unescapes));
    BareAmpersand(w, "", unescapes);
    assert w + "" == w;
    LexStep(w, 0, bare, 1, Strict(unescapes));
    EndsVisible(w, 1, Strict(unescapes));
    LastIsSeen(rest, stack);
    First(bare, rest, stack);
  }

  // ---------- At size one, nothing else fits on the page ----------

  predicate NoneVisible(tokens: seq<Token>) {
    forall i :: 0 <= i < |tokens| ==> !tokens[i].Visible?
  }

  lemma {:induction false} NothingSeen(tokens: seq<Token>, stack: Stack)
    requires Seen(tokens, stack) == []
    ensures NoneVisible(tokens)
  {
    if tokens != [] {
      NothingSeen(tokens[..|tokens| - 1], stack);
    }
  }

  lemma {:induction false} OneVisible(a: seq<Token>, x: Token, b: seq<Token>)
    requires x.Visible? && |Seen(a + [x] + b, [])| <= 1
    ensures NoneVisible(a) && NoneVisible(b)
  {
    Append(a + [x], b, []);
    Append(a, [x], []);
    Single(x, Walk(a, []));
    NothingSeen(a, []);
    NothingSeen(b, Walk(a + [x], []));
  }

  /** Tags are read by every reader alike. */
  lemma {:induction false} TagsStayCanonical(tokens: seq<Token>, unescapes: string -> bool, other: string -> bool)
    requires AllCanonical(tokens, unescapes) && NoneVisible(tokens)
    ensures AllCanonical(tokens, other)
  {
  }

  lemma {:induction false} ThreeParts(step: Reader, a: seq<Token>, n: nat, w: seq<Token>, m: nat, b: seq<Token>, end: nat)
    requires Reads(step, 0, a, n) && Reads(step, n, w, m) && Reads(step, m, b, end)
    ensures Reads(step, 0, a + (w + b), end)
  {
    ReadsAppend(step, n, w, m, b, end);
    ReadsAppend(step, 0, a, n, w + b, end);
  }

  lemma {:induction false} PartsOccur(text: string, a: string, w: string, b: string)
    requires text == a + (w + b)
    ensures Occurs(text, 0, a) && Occurs(text, |a|, w) && Occurs(text, |a| + |w|, b) && |text| == |a| + |w| + |b|
  {
    assert forall k: nat :: k < |text| ==> SameChar(text, 0, text, k);
    OccursSplit(text, 0, a, w + b, text);
    OccursSplit(text, |a|, w, b, w + b);
  }

  lemma {:induction false} PageReads(text: string, a: seq<Token>, w: string, b: seq<Token>, unescapes: string -> bool)
    requires AllCanonical(a, unescapes) && AllCanonical(b, unescapes)
    requires 1 <= |w| <= 34 && w[|w| - 1] == ';' && Contained(w)
    requires text == Text(a) + (w + Text(b))
    ensures Reads(ReaderOf(text, unescapes), 0, Canons(a) + (Lex(w, 0, unescapes) + Canons(b)), |text|)
  {
    PartsOccur(text, Text(a), w, Text(b));
    var n, m := |Text(a)|, |Text(a)| + |w|;
    ReadThrough(text, 0, a, n, unescapes);
    StretchReads(text, n, w, m, unescapes);
    ReadThrough(text, m, b, |text|, unescapes);
    ThreeParts(ReaderOf(text, unescapes), Canons(a), n, Lex(w, 0, unescapes), m, Canons(b), |text|);
  }

  lemma {:induction false} PageReading(text: string, a: seq<Token>, w: string, b: seq<Token>, unescapes: string -> bool)
    requires AllCanonical(a, unescapes) && AllCanonical(b, unescapes)
    requires 1 <= |w| <= 34 && w[|w| - 1] == ';' && Contained(w)
    requires text == Text(a) + (w + Text(b))
    ensures Lex(text, 0, unescapes) == Canons(a) + (Lex(w, 0, unescapes) + Canons(b))
  {
    PageReads(text, a, w, b, unescapes);
    ReadsIsLex(text, 0, Canons(a) + (Lex(w, 0, unescapes) + Canons(b)), unescapes);
  }

  lemma {:induction false} MiddleIsSeen(a: seq<Token>, m: seq<Token>, b: seq<Token>)
    ensures |Seen(a + (m + b), [])| >= |Seen(m, Walk(a, []))|
  {
    Append(a, m + b, []);
    Append(m, b, Walk(a, []));
  }

  lemma {:induction false} TextAround(a: seq<Token>, x: Token, b: seq<Token>)
    ensures Text(a + [x] + b) == Text(a) + (Written(x) + Text(b))
  {
    TextAppend(a + [x], b);
    TextAppend(a, [x]);
    TextOne(x);
  }

  lemma {:induction false} AllInParts<T>(all: seq<T>, a: seq<T>, x: T, b: seq<T>, p: T -> bool)
    requires all == a + [x] + b && forall i :: 0 <= i < |all| ==> p(all[i])
    ensures p(x) && (forall i :: 0 <= i < |a| ==> p(a[i])) && forall i :: 0 <= i < |b| ==> p(b[i])
  {
    assert all[|a|] == x;
    assert forall i :: 0 <= i < |a| ==> all[i] == a[i];
    assert forall i :: 0 <= i < |b| ==> all[|a| + 1 + i] == b[i];
  }

  lemma {:induction false} CanonicalParts(page: seq<Token>, a: seq<Token>, x: Token, b: seq<Token>, unescapes: string -> bool)
    requires AllCanonical(page, unescapes) && page == a + [x] + b
    ensures AllCanonical(a, unescapes) && AllCanonical(b, unescapes) && Canonical(x, unescapes)
  {
    AllInParts(page, a, x, b, (t: Token) => Canonical(t, unescapes));
  }

  lemma {:induction false} StretchOverfills(text: string, a: seq<Token>, w: string, b: seq<Token>, unescapes: string -> bool)
    requires AllCanonical(a, Strict(unescapes)) && AllCanonical(b, Strict(unescapes))
    requires Entity(w, unescapes) && !Proper(w) && Contained(w) && text == Text(a) + (w + Text(b))
    ensures |Seen(Lex(text, 0, Strict(unescapes)), [])| >= 2
  {
    PageReading(text, a, w, b, Strict(unescapes));
    MiddleIsSeen(Canons(a), Lex(w, 0, Strict(unescapes)), Canons(b));
    SwallowedShowsTwo(w, Walk(Canons(a), []), unescapes);
  }

  lemma {:induction false} SwallowedIsEntity(x: Token, unescapes: string -> bool)
    requires IsSwallowed(x) && Canonical(x, unescapes)
    ensures Entity(x.shown, unescapes) && !Proper(x.shown)
  {
  }

  lemma {:induction false} AroundIsTooLong(page: seq<Token>, a: seq<Token>, x: Token, b: seq<Token>, unescapes: string -> bool)
    requires AllCanonical(page, unescapes) && page == a + [x] + b && IsSwallowed(x) && Contained(x.shown) && |Seen(page, [])| <= 1
    ensures |Seen(Lex(Text(page), 0, Strict(unescapes)), [])| >= 2
  {
    CanonicalParts(page, a, x, b, unescapes);
    SwallowedIsEntity(x, unescapes);
    OneVisible(a, x, b);
    TagsStayCanonical(a, unescapes, Strict(unescapes));
    TagsStayCanonical(b, unescapes, Strict(unescapes));
    TextAround(a, x, b);
    StretchOverfills(Text(page), a, x.shown, b, unescapes);
  }

  lemma {:induction false} Around(page: seq<Token>, x: Token) returns (a: seq<Token>, b: seq<Token>)
    requires x in page
    ensures page == a + [x] + b
  {
    var j :| 0 <= j < |page| && page[j] == x;
    a, b := page[..j], page[j + 1..];
  }

  lemma {:induction false} SwallowedPageIsTooLong(page: seq<Token>, x: Token, unescapes: string -> bool)
    requires AllCanonical(page, unescapes) && x in page && IsSwallowed(x) && Contained(x.shown) && |Seen(page, [])| <= 1
    ensures |Seen(Lex(Text(page), 0, Strict(unescapes)), [])| >= 2
  {
    var a, b := Around(page, x);
    AroundIsTooLong(page, a, x, b, unescapes);
  }

  // ---------- The condition ----------

  /** No swallowed stretch leaves an angle bracket to be closed by what follows it. */
  predicate SwallowsContained(text: string, unescapes: string -> bool) {
    forall t :: t in Lex(text, 0, unescapes) && IsSwallowed(t) ==> Contained(t.shown)
  }

  lemma {:induction false} OverfullPage(text: string, unescapes: string -> bool) returns (k: nat)
    requires Standard(unescapes) && SwallowsContained(text, unescapes) && !CleanText(text, unescapes)
    ensures k < |ChunkOf(text, 1, unescapes)|
    ensures |Seen(Lex(ChunkOf(text, 1, unescapes)[k], 0, Strict(unescapes)), [])| >= 2
  {
    var tokens := Lex(text, 0, unescapes);
    var x := UncleanHasSwallowed(text, 0, unescapes);
    k := EveryTokenIsOnAPage(tokens, 1, x);
    PagesOfAreGood(tokens, 1);
    LexIsCanonical(text, 0, unescapes);
    PagesAreCanonical(tokens, 1, unescapes, k);
    SwallowedPageIsTooLong(PagesOf(tokens, 1)[k], x, unescapes);
  }

  /** Size one already shows any swallowed stretch. */
  lemma {:induction false} UncleanBreaksSizeOne(text: string, unescapes: string -> bool)
    requires Standard(unescapes) && SwallowsContained(text, unescapes) && !CleanText(text, unescapes)
    ensures !KeepsPromise(text, 1, unescapes)
  {
    var k := OverfullPage(text, unescapes);
    LongPageBreaks(text, 1, unescapes, k);
  }

  lemma {:induction false} LongPageBreaks(text: string, size: int, unescapes: string -> bool, k: nat)
    requires k < |ChunkOf(text, size, unescapes)|
    requires |Seen(Lex(ChunkOf(text, size, unescapes)[k], 0, Strict(unescapes)), [])| > AtLeastOne(size)
    ensures !KeepsPromise(text, size, unescapes)
  {
    assert Readings(ChunkOf(text, size, unescapes), Strict(unescapes))[k] == Lex(ChunkOf(text, size, unescapes)[k], 0, Strict(unescapes));
  }

  /**
   The promise holds at every size if and only if the text is clean, as long as
   no swallowed stretch leaves an angle bracket open: such a stretch always
   shows at least two characters where one is counted.
   */
  lemma {:induction false} PromiseAtEverySizeIff(text: string, unescapes: string -> bool)
    requires Standard(unescapes) && SwallowsContained(text, unescapes)
    ensures (forall size :: KeepsPromise(text, size, unescapes)) <==> CleanText(text, unescapes)
  {
    if CleanText(text, unescapes) {
      forall size
        ensures KeepsPromise(text, size, unescapes)
      {
        CleanKeepsPromise(text, size, unescapes);
      }
    } else {
      UncleanBreaksSizeOne(text, unescapes);
    }
  }

  // ---------- A stretch that opens an angle bracket ----------

  lemma {:induction false} OnePageAnySize(v: Token, t: Token, size: int)
    requires v.Visible? && t.Void?
    ensures PagesOf([v, t], size) == [[v, t]]
  {
    var limit := AtLeastOne(size);
    PutFirst(v, limit);
    PutStep([v], t, limit);
    assert [v] + [t] == [v, t];
    assert PutAll([v, t], limit) == Paging([], [v, t], 1, []);
    assert [v, t] + Closers([]) == [v, t];
  }

  lemma {:induction false} StandsAlone(v: Token, t: Token, limit: nat, nested: bool)
    requires v.Visible? && t.Void? && limit >= 1
    ensures GoodPage([v, t], limit, nested)
  {
    assert [v, t] == [v] + [t];
    First(v, [t], []);
    Single(t, []);
  }

  lemma {:induction false} OneIsAll(t: Token, unescapes: string -> bool, other: string -> bool)
    requires t.Void? && Canonical(t, unescapes)
    ensures AllCanonical([t], other)
  {
  }

  lemma {:induction false} JoinedText(w: string, rest: string, joined: string)
    requires w != [] && w[0] == '&' && joined == w[1..] + rest
    ensures w + rest == "&" + Text([Void(joined)]) && Canons([Void(joined)]) == [Void(joined)]
  {
    TextOne(Void(joined));
    assert w == "&" + w[1..] && w + rest == "&" + joined;
  }

  lemma {:induction false} JoinedReading(w: string, rest: string, joined: string, unescapes: string -> bool)
    requires Entity(w, unescapes) && !Proper(w) && joined == w[1..] + rest && Canonical(Void(joined), unescapes)
    ensures Lex(w + rest, 0, Strict(unescapes)) == [Visible("&", "&amp;"), Void(joined)]
  {
    JoinedText(w, rest, joined);
    OneIsAll(Void(joined), unescapes, Strict(unescapes));
    StrictlyRead(w, rest, [Void(joined)], unescapes);
  }

  lemma {:induction false} UnjoinedPages(w: string, rest: string, size: int, unescapes: string -> bool)
    requires Entity(w, unescapes) && Canonical(Void(rest), unescapes)
    ensures ChunkOf(w + rest, size, unescapes) == [w + rest]
  {
    var v, t := Visible(w, w), Void(rest);
    assert [v, t] == [v] + [t];
    TextAppend([v], [t]);
    TextOne(v);
    TextOne(t);
    assert AllCanonical([v, t], unescapes);
    TextReadsBack([v, t], unescapes);
    assert Canons([v, t]) == [v, t];
    OnePageAnySize(v, t, size);
  }

  /**
   Why the condition on angle brackets is there: when the bracket that the
   stretch leaves open makes one self-closing tag of it and what follows, the
   text is not clean, and every page is good all the same.
   */
  lemma {:induction false} OpenBracketMayKeepPromise(w: string, rest: string, joined: string, size: int, unescapes: string -> bool)
    requires Entity(w, unescapes) && !Proper(w) && Canonical(Void(rest), unescapes)
    requires joined == w[1..] + rest && Canonical(Void(joined), unescapes)
    ensures KeepsPromise(w + rest, size, unescapes) && !CleanText(w + rest, unescapes)
  {
    BareAmpersand(w, rest, unescapes);
    UnjoinedPages(w, rest, size, unescapes);
    JoinedReading(w, rest, joined, unescapes);
    OnlyPageIsGood(w + rest, size, unescapes, Visible("&", "&amp;"), Void(joined));
  }

  lemma {:induction false} OnlyPageIsGood(text: string, size: int, unescapes: string -> bool, v: Token, t: Token)
    requires ChunkOf(text, size, unescapes) == [text] && Lex(text, 0, Strict(unescapes)) == [v, t] && v.Visible? && t.Void?
    ensures KeepsPromise(text, size, unescapes)
  {
    StandsAlone(v, t, AtLeastOne(size), Nested(Lex(text, 0, Strict(unescapes)), []));
  }

  lemma {:induction false} FirstWordOf(name: string, after: string)
    requires PlainTagName(name) && (after == [] || after[0] == ' ')
    ensures FirstWord(name + after) == name
  {
    var s := name + after;
    assert s[1..] == name[1..] + after;
    if |name| > 1 {
      FirstWordOf(name[1..], after);
    } else {
      assert name[1..] == [] && s[1..] == after;
      assert name == [name[0]] + [];
    }
  }

  lemma {:induction false} VoidParts(raw: string, inner: string, name: string)
    requires |raw| >= 2 && raw[1..|raw| - 1] == inner + "/" && TrimSpace(inner + "/") == inner + "/"
    requires TrimSpace(inner) == inner && !HasPrefix(inner + "/", "/") && FirstWord(inner) == name && Lower(name) == name
    ensures TagParts(raw) == (false, true, name)
  {
    assert (inner + "/")[..|inner + "/"| - 1] == inner;
    assert HasSuffix(inner + "/", "/");
  }

  lemma {:induction false} InnerTrimmed(inner: string)
    requires inner != [] && !IsSpace(inner[0]) && inner[0] != '/' && !IsSpace(inner[|inner| - 1])
    ensures TrimSpace(inner) == inner && TrimSpace(inner + "/") == inner + "/" && !HasPrefix(inner + "/", "/")
  {
    assert (inner + "/")[..1][0] == inner[0];
  }

  lemma {:induction false} VoidShape(raw: string, inner: string)
    requires raw == "<" + inner + "/>" && '>' !in inner
    ensures |raw| >= 3 && raw[0] == '<' && raw[|raw| - 1] == '>' && raw[1..|raw| - 1] == inner + "/" && OneClose(raw)
  {
    assert forall k :: 1 <= k <= |inner| ==> raw[k] == inner[k - 1];
  }

  lemma {:induction false} VoidFromParts(raw: string, name: string)
    requires |raw| >= 3 && raw[0] == '<' && raw[|raw| - 1] == '>' && TagParts(raw) == (false, true, name) && name in TagNames
    ensures TagOf(raw) == Some(Void(raw))
  {
  }

  lemma {:induction false} InnerFacts(name: string, after: string, inner: string)
    requires PlainTagName(name) && inner == name + after && '>' !in after
    requires after == [] || (after[0] == ' ' && !IsSpace(after[|after| - 1]))
    ensures TrimSpace(inner) == inner && TrimSpace(inner + "/") == inner + "/" && !HasPrefix(inner + "/", "/")
    ensures FirstWord(inner) == name && Lower(name) == name && '>' !in inner
  {
    PlainLower(name);
    FirstWordOf(name, after);
    InnerEnds(name, after, inner);
    InnerTrimmed(inner);
  }

  lemma {:induction false} InnerEnds(name: string, after: string, inner: string)
    requires name != [] && inner == name + after && '>' !in name && '>' !in after
    ensures inner[0] == name[0] && inner[|inner| - 1] == (if after == [] then name[|name| - 1] else after[|after| - 1])
    ensures '>' !in inner
  {
  }

  /** A supported self-closing tag, with or without attributes. */
  lemma {:induction false} VoidTag(raw: string, name: string, after: string, inner: string, unescapes: string -> bool)
    requires name in TagNames && inner == name + after && '>' !in after && raw == "<" + inner + "/>"
    requires after == [] || (after[0] == ' ' && !IsSpace(after[|after| - 1]))
    ensures Canonical(Void(raw), unescapes)
  {
    TagNamesArePlain(name);
    InnerFacts(name, after, inner);
    VoidShape(raw, inner);
    VoidParts(raw, inner, name);
    VoidFromParts(raw, name);
  }

  const OpenStretch := "&<b &amp;"
  const VoidBold := "<b/>"
  const JoinedBold := "<b &amp;<b/>"

  lemma {:induction false} OpenStretchShape(unescapes: string -> bool)
    requires unescapes(OpenStretch)
    ensures Entity(OpenStretch, unescapes) && !Proper(OpenStretch) && JoinedBold == OpenStretch[1..] + VoidBold
  {
    assert OpenStretch[1] == '<';
  }

  lemma {:induction false} VoidBoldIsTag(unescapes: string -> bool)
    ensures Canonical(Void(VoidBold), unescapes)
  {
    assert "b" + "" == "b";
    VoidTag(VoidBold, "b", "", "b", unescapes);
  }

  lemma {:induction false} JoinedBoldIsTag(unescapes: string -> bool)
    ensures Canonical(Void(JoinedBold), unescapes)
  {
    VoidTag(JoinedBold, "b", " &amp;<b", "b &amp;<b", unescapes);
  }

  /** The text `&<b &amp;<b/>` is such a text. */
  lemma {:induction false} OpenBracketExample(size: int, unescapes: string -> bool)
    requires unescapes(OpenStretch)
    ensures KeepsPromise(OpenStretch + VoidBold, size, unescapes) && !CleanText(OpenStretch + VoidBold, unescapes)
  {
    OpenStretchShape(unescapes);
    VoidBoldIsTag(unescapes);
    JoinedBoldIsTag(unescapes);
    OpenBracketMayKeepPromise(OpenStretch, VoidBold, JoinedBold, size, unescapes);
  }
}
