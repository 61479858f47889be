/**
 Reading tagged text into tokens, and pages back from the texts they are sent as.
 */
module ChunkReading {
  // The reader is the source's own, with `unescapes` standing for "unescaping this
  // stretch changes it". The strict reader takes for an entity only what is one:
  // an ampersand, a name or number, and a semicolon. What `chunkText` promises
  // about its page texts is judged by the strict reader.

  import opened Options
  import opened Names
  import opened ChunkText

  // ---------- Reading the text ----------

  const TagNames := {"a", "b", "strong", "i", "em", "u", "ins", "s", "strike", "del", "code", "pre", "blockquote", "tg-spoiler"}

  /** The part before the first blank of an HTML tag body. */
  function FirstWord(s: string): string {
    if s == [] || s[0] == ' ' || s[0] == '\t' || s[0] == '\r' || s[0] == '\n' then [] else [s[0]] + FirstWord(s[1..])
  }

  /** A tag's text taken apart: whether it closes, whether it stands alone, and its name. */
  function TagParts(raw: string): (bool, bool, string)
    requires |raw| >= 2
  {
    var body := TrimSpace(raw[1..|raw| - 1]);
    var closing := HasPrefix(body, "/");
    var inner := if closing then TrimSpace(body[1..]) else body;
    var alone := HasSuffix(inner, "/");
    (closing, alone, Lower(FirstWord(if alone then TrimSpace(inner[..|inner| - 1]) else inner)))
  }

  function TagOf(raw: string): (r: Option<Token>)
    ensures r.Some? ==> Source(r.value) == raw
  {
    if |raw| < 3 || raw[0] != '<' || raw[|raw| - 1] != '>' then None else
      var (closing, alone, name) := TagParts(raw);
      if name !in TagNames then None
      else Some(if closing then Close(name, raw) else if alone then Void(raw) else Open(Tag(name, raw)))
  }

  /** First position of `c` in `text[i..end]`, or `end`. */
  function IndexOf(text: string, c: char, i: nat, end: nat): (r: nat)
    requires i <= end <= |text|
    ensures i <= r <= end && (r < end ==> text[r] == c) && forall k :: i <= k < r ==> text[k] != c
    decreases end - i
  {
    if i == end || text[i] == c then i else IndexOf(text, c, i + 1, end)
  }

  /** End of the entity at `i`, or `i` if there is none; `unescapes` says whether unescaping changes a text. */
  function EntityEnd(text: string, i: nat, unescapes: string -> bool): (r: nat)
    requires i < |text|
    ensures r == i || i < r <= |text|
  {
    var end := if i + 34 > |text| then |text| else i + 34;
    var semi := IndexOf(text, ';', i, end);
    if semi == end || !unescapes(text[i..semi + 1]) then i else semi + 1
  }

  function LexOne(text: string, i: nat, unescapes: string -> bool): (r: (Token, nat))
    requires i < |text|
    ensures i < r.1 <= |text| && Source(r.0) == text[i..r.1]
  {
    if text[i] == '<' then
      var close := IndexOf(text, '>', i, |text|);
      if close < |text| && TagOf(text[i..close + 1]).Some? then (TagOf(text[i..close + 1]).value, close + 1)
      else (Visible(text[i..i + 1], "&lt;"), i + 1)
    else if text[i] == '&' then
      var end := EntityEnd(text, i, unescapes);
      if end == i then (Visible(text[i..i + 1], "&amp;"), i + 1) else (Visible(text[i..end], text[i..end]), end)
    else (Visible(text[i..i + 1], text[i..i + 1]), i + 1)
  }

  /** The tokens of `text[i..]`. */
  function Lex(text: string, i: nat, unescapes: string -> bool): seq<Token>
    requires i <= |text|
    decreases |text| - i
  {
    if i == |text| then [] else
      var (t, end) := LexOne(text, i, unescapes);
      [t] + Lex(text, end, unescapes)
  }

  function Source(t: Token): string {
    match t
    case Open(tag) => tag.raw
    case Close(_, raw) => raw
    case Void(raw) => raw
    case Visible(source, _) => source
  }

  function Written(t: Token): string {
    if t.Visible? then t.shown else Source(t)
  }

  function Sources(tokens: seq<Token>): string {
    if tokens == [] then [] else Source(tokens[0]) + Sources(tokens[1..])
  }

  /** What a page is sent as. */
  function Text(tokens: seq<Token>): string {
    if tokens == [] then [] else Written(tokens[0]) + Text(tokens[1..])
  }

  function Texts(pages: seq<seq<Token>>): (r: seq<string>)
    ensures |r| == |pages| && forall i :: 0 <= i < |r| ==> r[i] == Text(pages[i])
  {
    seq(|pages|, i requires 0 <= i < |pages| => Text(pages[i]))
  }

  lemma {:induction false} SourcesCons(text: string, i: nat, end: nat, t: Token, rest: seq<Token>)
    requires i < end <= |text| && Source(t) == text[i..end] && Sources(rest) == text[end..]
    ensures Sources([t] + rest) == text[i..]
  {
    assert ([t] + rest)[1..] == rest;
    assert text[i..] == text[i..end] + text[end..];
  }

  /** Reading loses nothing: the tokens spell the text. */
  lemma {:induction false} LexCoversText(text: string, i: nat, unescapes: string -> bool)
    requires i <= |text|
    ensures Sources(Lex(text, i, unescapes)) == text[i..]
    decreases |text| - i
  {
    if i < |text| {
      var (t, end) := LexOne(text, i, unescapes);
      LexCoversText(text, end, unescapes);
      SourcesCons(text, i, end, t, Lex(text, end, unescapes));
    }
  }

  /** The texts `chunkText` returns. */
  function ChunkOf(text: string, size: int, unescapes: string -> bool): seq<string> {
    Texts(PagesOf(Lex(text, 0, unescapes), size))
  }

  method Chunk(text: string, size: int, unescapes: string -> bool) returns (out: seq<string>)
    ensures out == ChunkOf(text, size, unescapes)
  {
    var tokens: seq<Token> := [];
    var i := 0;
    while i < |text|
      invariant 0 <= i <= |text|
      invariant tokens + Lex(text, i, unescapes) == Lex(text, 0, unescapes)
    {
      var (t, end) := LexOne(text, i, unescapes);
      assert tokens + ([t] + Lex(text, end, unescapes)) == tokens + [t] + Lex(text, end, unescapes);
      tokens, i := tokens + [t], end;
    }
    assert tokens + [] == tokens;
    var pages := Paginate(tokens, size);
    out := Texts(pages);
  }

  // ---------- Texts that read back ----------

  /** A stretch that a reader takes for an entity: its first semicolon is its last character. */
  predicate Entity(w: string, unescapes: string -> bool) {
    && 2 <= |w| <= 34 && w[0] == '&' && w[|w| - 1] == ';'
    && (forall k :: 0 <= k < |w| - 1 ==> w[k] != ';')
    && unescapes(w)
  }

  predicate OneClose(raw: string) {
    forall k :: 0 <= k < |raw| - 1 ==> raw[k] != '>'
  }

  /** A token whose written form is what the reader would make that token of. */
  predicate Canonical(t: Token, unescapes: string -> bool) {
    if t.Visible? then (|t.shown| == 1 && t.shown[0] != '<' && t.shown[0] != '&') || Entity(t.shown, unescapes)
    else TagOf(Source(t)) == Some(t) && OneClose(Source(t))
  }

  predicate AllCanonical(tokens: seq<Token>, unescapes: string -> bool) {
    forall i :: 0 <= i < |tokens| ==> Canonical(tokens[i], unescapes)
  }

  /** The token as it is read from what was written. */
  function Canon(t: Token): Token {
    if t.Visible? then Visible(t.shown, t.shown) else t
  }

  function Canons(tokens: seq<Token>): (r: seq<Token>)
    ensures |r| == |tokens| && forall i :: 0 <= i < |r| ==> r[i] == Canon(tokens[i])
  {
    seq(|tokens|, i requires 0 <= i < |tokens| => Canon(tokens[i]))
  }

  /** What the source substitutes for a bare "<" and a bare "&" are entities. */
  predicate Standard(unescapes: string -> bool) {
    unescapes("&lt;") && unescapes("&amp;")
  }

  lemma {:induction false} IndexIs(text: string, c: char, i: nat, end: nat, r: nat)
    requires i <= r < end <= |text| && text[r] == c && forall k :: i <= k < r ==> text[k] != c
    ensures IndexOf(text, c, i, end) == r
  {
  }

  lemma {:induction false} SliceAt(text: string, i: nat, w: string, k: nat)
    requires i + |w| <= |text| && text[i..i + |w|] == w && k < |w|
    ensures text[i + k] == w[k]
  {
    assert text[i..i + |w|][k] == text[i + k];
  }

  lemma {:induction false} TagCloses(text: string, i: nat, w: string)
    requires w != [] && i + |w| <= |text| && text[i..i + |w|] == w
    requires w[|w| - 1] == '>' && forall k :: 0 <= k < |w| - 1 ==> w[k] != '>'
    ensures text[i] == w[0] && IndexOf(text, '>', i, |text|) == i + |w| - 1
  {
    var last := i + |w| - 1;
    SliceAt(text, i, w, 0);
    SliceAt(text, i, w, |w| - 1);
    forall k | i <= k < last
      ensures text[k] != '>'
    {
      SliceAt(text, i, w, k - i);
    }
    IndexIs(text, '>', i, |text|, last);
  }

  lemma {:induction false} TagShape(w: string, t: Token)
    requires TagOf(w) == Some(t)
    ensures |w| >= 3 && w[0] == '<' && w[|w| - 1] == '>'
  {
  }

  /** A tag stands for itself wherever it is written. */
  lemma {:induction false} ReadTag(text: string, i: nat, t: Token, w: string, unescapes: string -> bool)
    requires TagOf(w) == Some(t) && OneClose(w) && i + |w| <= |text| && text[i..i + |w|] == w
    ensures LexOne(text, i, unescapes) == (t, i + |w|)
  {
    TagShape(w, t);
    TagCloses(text, i, w);
    LexTag(text, i, i + |w| - 1, t, unescapes);
  }

  lemma {:induction false} LexTag(text: string, i: nat, close: nat, t: Token, unescapes: string -> bool)
    requires i <= close < |text| && text[i] == '<' && IndexOf(text, '>', i, |text|) == close
    requires TagOf(text[i..close + 1]) == Some(t)
    ensures LexOne(text, i, unescapes) == (t, close + 1)
  {
  }

  lemma {:induction false} ReadEntity(text: string, i: nat, w: string, unescapes: string -> bool)
    requires Entity(w, unescapes) && i + |w| <= |text| && text[i..i + |w|] == w
    ensures LexOne(text, i, unescapes) == (Visible(w, w), i + |w|)
  {
    var last := i + |w| - 1;
    var end := if i + 34 > |text| then |text| else i + 34;
    SliceAt(text, i, w, 0);
    SliceAt(text, i, w, |w| - 1);
    forall k | i <= k < last
      ensures text[k] != ';'
    {
      SliceAt(text, i, w, k - i);
    }
    IndexIs(text, ';', i, end, last);
  }

  lemma {:induction false} ReadCharacter(text: string, i: nat, w: string, unescapes: string -> bool)
    requires |w| == 1 && w[0] != '<' && w[0] != '&' && i + |w| <= |text| && text[i..i + |w|] == w
    ensures LexOne(text, i, unescapes) == (Visible(w, w), i + |w|)
  {
    SliceAt(text, i, w, 0);
  }

  lemma {:induction false} ReadVisible(text: string, i: nat, t: Token, unescapes: string -> bool)
    requires t.Visible? && Canonical(t, unescapes) && i + |t.shown| <= |text| && text[i..i + |t.shown|] == t.shown
    ensures t.shown != [] && LexOne(text, i, unescapes) == (Canon(t), i + |t.shown|)
  {
    if Entity(t.shown, unescapes) {
      ReadEntity(text, i, t.shown, unescapes);
    } else {
      ReadCharacter(text, i, t.shown, unescapes);
    }
  }

  lemma {:induction false} ReadTagWritten(text: string, i: nat, t: Token, unescapes: string -> bool)
    requires !t.Visible? && Canonical(t, unescapes) && i + |Written(t)| <= |text| && text[i..i + |Written(t)|] == Written(t)
    ensures Written(t) != [] && LexOne(text, i, unescapes) == (Canon(t), i + |Written(t)|)
  {
    var w := Written(t);
    assert w == Source(t) && Canon(t) == t;
    TagShape(w, t);
    ReadTag(text, i, t, w, unescapes);
  }

  lemma {:induction false} ReadOne(text: string, i: nat, t: Token, unescapes: string -> bool)
    requires Canonical(t, unescapes) && i + |Written(t)| <= |text| && text[i..i + |Written(t)|] == Written(t)
    ensures Written(t) != [] && LexOne(text, i, unescapes) == (Canon(t), i + |Written(t)|)
  {
    if t.Visible? {
      ReadVisible(text, i, t, unescapes);
    } else {
      ReadTagWritten(text, i, t, unescapes);
    }
  }

  lemma {:induction false} TextSplits(before: string, tokens: seq<Token>)
    requires tokens != []
    ensures var w, text := Written(tokens[0]), before + Text(tokens);
            && |before| + |w| <= |text| && text[|before|..|before| + |w|] == w
            && text == before + w + Text(tokens[1..])
  {
  }

  lemma {:induction false} HeadReads(before: string, t: Token, after: string, unescapes: string -> bool)
    requires Canonical(t, unescapes)
    ensures var text := before + Written(t) + after;
            |before| < |text| && LexOne(text, |before|, unescapes) == (Canon(t), |before| + |Written(t)|)
  {
    var w := Written(t);
    var text := before + w + after;
    assert text[|before|..|before| + |w|] == w;
    ReadOne(text, |before|, t, unescapes);
  }

  lemma {:induction false} CanonsCons(tokens: seq<Token>)
    requires tokens != []
    ensures Canons(tokens) == [Canon(tokens[0])] + Canons(tokens[1..])
  {
  }

  lemma {:induction false} TailCanonical(tokens: seq<Token>, unescapes: string -> bool)
    requires tokens != [] && AllCanonical(tokens, unescapes)
    ensures AllCanonical(tokens[1..], unescapes)
  {
  }

  /** A list of canonical tokens, written behind any text, is read back from there. */
  lemma {:induction false} ReadsBack(before: string, tokens: seq<Token>, unescapes: string -> bool)
    requires AllCanonical(tokens, unescapes)
    ensures Lex(before + Text(tokens), |before|, unescapes) == Canons(tokens)
    decreases |tokens|
  {
    if tokens == [] {
      assert before + Text(tokens) == before;
    } else {
      var next := before + Written(tokens[0]);
      HeadReads(before, tokens[0], Text(tokens[1..]), unescapes);
      TextSplits(before, tokens);
      TailCanonical(tokens, unescapes);
      ReadsBack(next, tokens[1..], unescapes);
      LexStep(before + Text(tokens), |before|, Canon(tokens[0]), |next|, unescapes);
      CanonsCons(tokens);
    }
  }

  lemma {:induction false} LexStep(text: string, i: nat, t: Token, end: nat, unescapes: string -> bool)
    requires i < |text| && LexOne(text, i, unescapes) == (t, end)
    ensures end <= |text| && Lex(text, i, unescapes) == [t] + Lex(text, end, unescapes)
  {
  }

  lemma {:induction false} TextReadsBack(tokens: seq<Token>, unescapes: string -> bool)
    requires AllCanonical(tokens, unescapes)
    ensures Lex(Text(tokens), 0, unescapes) == Canons(tokens)
  {
    ReadsBack("", tokens, unescapes);
    assert "" + Text(tokens) == Text(tokens);
  }

  // ---------- What is read is canonical ----------

  lemma {:induction false} StandardShown(unescapes: string -> bool)
    requires Standard(unescapes)
    ensures Entity("&lt;", unescapes) && Entity("&amp;", unescapes)
  {
  }

  lemma {:induction false} TagsAreCanonical(text: string, i: nat, close: nat, unescapes: string -> bool)
    requires i < |text| && text[i] == '<' && close == IndexOf(text, '>', i, |text|) && close < |text| && TagOf(text[i..close + 1]).Some?
    ensures Canonical(TagOf(text[i..close + 1]).value, unescapes)
  {
    var raw := text[i..close + 1];
    assert forall k :: 0 <= k < |raw| - 1 ==> raw[k] == text[i + k];
  }

  lemma {:induction false} EntitiesAreCanonical(text: string, i: nat, end: nat, unescapes: string -> bool)
    requires i < |text| && text[i] == '&' && end == EntityEnd(text, i, unescapes) && end > i
    ensures Entity(text[i..end], unescapes)
  {
    var w := text[i..end];
    var limit := if i + 34 > |text| then |text| else i + 34;
    var semi := IndexOf(text, ';', i, limit);
    assert end == semi + 1 && text[semi] == ';';
    assert forall k :: 0 <= k < |w| ==> w[k] == text[i + k];
    assert w[0] != ';';
  }

  lemma {:induction false} OneIsCanonical(text: string, i: nat, unescapes: string -> bool)
    requires i < |text| && Standard(unescapes)
    ensures Canonical(LexOne(text, i, unescapes).0, unescapes)
  {
    StandardShown(unescapes);
    if text[i] == '<' {
      var close := IndexOf(text, '>', i, |text|);
      if close < |text| && TagOf(text[i..close + 1]).Some? {
        TagsAreCanonical(text, i, close, unescapes);
      }
    } else if text[i] == '&' {
      var end := EntityEnd(text, i, unescapes);
      if end > i {
        EntitiesAreCanonical(text, i, end, unescapes);
      }
    }
  }

  lemma {:induction false} LexIsCanonical(text: string, i: nat, unescapes: string -> bool)
    requires i <= |text| && Standard(unescapes)
    ensures AllCanonical(Lex(text, i, unescapes), unescapes)
    decreases |text| - i
  {
    if i < |text| {
      var (t, end) := LexOne(text, i, unescapes);
      OneIsCanonical(text, i, unescapes);
      LexIsCanonical(text, end, unescapes);
      LexStep(text, i, t, end, unescapes);
    }
  }

  // ---------- Pages are canonical ----------

  predicate PlainTagName(name: string) {
    name != [] && forall i :: 0 <= i < |name| ==> 'a' <= name[i] <= 'z' || name[i] == '-'
  }

  lemma {:induction false} TagNamesArePlain(name: string)
    requires name in TagNames
    ensures PlainTagName(name)
  {
  }

  lemma {:induction false} WordOf(name: string)
    requires PlainTagName(name)
    ensures FirstWord(name) == name
  {
    if |name| > 1 {
      WordOf(name[1..]);
    }
  }

  lemma {:induction false} PlainLower(name: string)
    requires PlainTagName(name)
    ensures Lower(name) == name && TrimSpace(name) == name && TrimSpace("/" + name) == "/" + name && !HasSuffix(name, "/")
  {
    assert name[|name| - 1] != '/';
    var slashed := "/" + name;
    assert slashed[|slashed| - 1] == name[|name| - 1];
    assert name[|name| - 1..][0] == name[|name| - 1];
  }

  lemma {:induction false} ClosingParts(raw: string, body: string, name: string)
    requires |raw| >= 2 && raw[1..|raw| - 1] == body && TrimSpace(body) == body
    requires HasPrefix(body, "/") && body[1..] == name && TrimSpace(name) == name && !HasSuffix(name, "/")
    requires FirstWord(name) == name && Lower(name) == name
    ensures TagParts(raw) == (true, false, name)
  {
  }

  lemma {:induction false} CloserShape(name: string)
    requires PlainTagName(name)
    ensures var raw := "</" + name + ">";
            && |raw| > 3 && raw[0] == '<' && raw[|raw| - 1] == '>' && OneClose(raw)
            && raw[1..|raw| - 1] == "/" + name && HasPrefix("/" + name, "/") && ("/" + name)[1..] == name
  {
    var raw := "</" + name + ">";
    assert forall k :: 2 <= k < |raw| - 1 ==> raw[k] == name[k - 2];
  }

  lemma {:induction false} CloserParts(name: string)
    requires PlainTagName(name)
    ensures TagParts("</" + name + ">") == (true, false, name)
  {
    WordOf(name);
    PlainLower(name);
    CloserShape(name);
    ClosingParts("</" + name + ">", "/" + name, name);
  }

  /** The closing tag that the paginator writes is read as that closing tag. */
  lemma {:induction false} CloserCanonical(name: string, unescapes: string -> bool)
    requires name in TagNames
    ensures Canonical(Closer(name), unescapes)
  {
    TagNamesArePlain(name);
    CloserShape(name);
    CloserParts(name);
  }

  lemma {:induction false} OpenTagName(t: Token, unescapes: string -> bool)
    requires t.Open? && Canonical(t, unescapes)
    ensures t.tag.name in TagNames
  {
  }

  lemma {:induction false} KnownIsCanonical(t: Token, tokens: seq<Token>, unescapes: string -> bool)
    requires AllCanonical(tokens, unescapes) && Known(t, tokens)
    ensures Canonical(t, unescapes)
  {
    if t in tokens {
      var i :| 0 <= i < |tokens| && tokens[i] == t;
    } else {
      var i :| 0 <= i < |tokens| && tokens[i].Open? && t == Closer(tokens[i].tag.name);
      OpenTagName(tokens[i], unescapes);
      CloserCanonical(tokens[i].tag.name, unescapes);
    }
  }

  lemma {:induction false} PagesAreCanonical(tokens: seq<Token>, size: int, unescapes: string -> bool, k: nat)
    requires AllCanonical(tokens, unescapes) && k < |PagesOf(tokens, size)|
    ensures AllCanonical(PagesOf(tokens, size)[k], unescapes)
  {
    var page := PagesOf(tokens, size)[k];
    PagesKnown(tokens, size, k);
    forall i | 0 <= i < |page|
      ensures Canonical(page[i], unescapes)
    {
      KnownIsCanonical(page[i], tokens, unescapes);
    }
  }

  /** Every page text is read back by the source's own reader as the page it was written from. */
  lemma {:induction false} PagesReadBack(text: string, size: int, unescapes: string -> bool, k: nat)
    requires Standard(unescapes) && k < |ChunkOf(text, size, unescapes)|
    ensures Lex(ChunkOf(text, size, unescapes)[k], 0, unescapes) == Canons(PagesOf(Lex(text, 0, unescapes), size)[k])
  {
    var tokens := Lex(text, 0, unescapes);
    LexIsCanonical(text, 0, unescapes);
    PagesAreCanonical(tokens, size, unescapes, k);
    TextReadsBack(PagesOf(tokens, size)[k], unescapes);
  }

  // ---------- The strict reader ----------

  predicate NameChar(c: char) {
    'a' <= c <= 'z' || 'A' <= c <= 'Z' || '0' <= c <= '9' || c == '#'
  }

  /** The shape of a character reference. */
  predicate Proper(w: string) {
    |w| >= 3 && w[0] == '&' && w[|w| - 1] == ';' && forall k :: 1 <= k < |w| - 1 ==> NameChar(w[k])
  }

  function Strict(unescapes: string -> bool): string -> bool {
    w => Proper(w) && unescapes(w)
  }

  lemma {:induction false} StrictIsStandard(unescapes: string -> bool)
    requires Standard(unescapes)
    ensures Standard(Strict(unescapes))
  {
    assert Proper("&lt;") && Proper("&amp;");
  }

  /** An ampersand here makes one visible token of a stretch that is no character reference. */
  predicate Swallows(text: string, i: nat, unescapes: string -> bool) {
    i < |text| && text[i] == '&' && EntityEnd(text, i, unescapes) > i && !Proper(text[i..EntityEnd(text, i, unescapes)])
  }

  /** No token of the strict reading, from position `i` on, starts at a swallowing ampersand. */
  predicate CleanFrom(text: string, i: nat, unescapes: string -> bool)
    requires i <= |text|
    decreases |text| - i
  {
    i == |text| || (!Swallows(text, i, unescapes) && CleanFrom(text, LexOne(text, i, Strict(unescapes)).1, unescapes))
  }

  predicate CleanText(text: string, unescapes: string -> bool) {
    CleanFrom(text, 0, unescapes)
  }

  /** A simpler test that is enough: no ampersand anywhere swallows, tags included. */
  lemma {:induction false} NowhereSwallowsIsClean(text: string, i: nat, unescapes: string -> bool)
    requires i <= |text| && forall k: nat :: !Swallows(text, k, unescapes)
    ensures CleanFrom(text, i, unescapes)
    decreases |text| - i
  {
    if i < |text| {
      NowhereSwallowsIsClean(text, LexOne(text, i, Strict(unescapes)).1, unescapes);
    }
  }

  lemma {:induction false} StrictEntityEnd(text: string, i: nat, unescapes: string -> bool)
    requires i < |text|
    ensures var end := EntityEnd(text, i, unescapes);
            EntityEnd(text, i, Strict(unescapes)) == if end > i && Proper(text[i..end]) then end else i
  {
  }

  /** Where nothing is swallowed the two readers take the same token; otherwise they differ on the spot. */
  lemma {:induction false} OneAgreesIff(text: string, i: nat, unescapes: string -> bool)
    requires i < |text|
    ensures LexOne(text, i, unescapes) == LexOne(text, i, Strict(unescapes)) <==> !Swallows(text, i, unescapes)
    ensures Swallows(text, i, unescapes) ==> LexOne(text, i, unescapes).0 != LexOne(text, i, Strict(unescapes)).0
  {
    StrictEntityEnd(text, i, unescapes);
    if text[i] == '&' && EntityEnd(text, i, unescapes) > i {
      EntitiesAreCanonical(text, i, EntityEnd(text, i, unescapes), unescapes);
    }
  }

  /** The source reads a text as the strict reader does if and only if the text is clean. */
  lemma {:induction false} ReadingsAgreeIff(text: string, i: nat, unescapes: string -> bool)
    requires i <= |text|
    ensures Lex(text, i, unescapes) == Lex(text, i, Strict(unescapes)) <==> CleanFrom(text, i, unescapes)
    decreases |text| - i
  {
    if i < |text| {
      var (t, end) := LexOne(text, i, unescapes);
      var (t', end') := LexOne(text, i, Strict(unescapes));
      LexStep(text, i, t, end, unescapes);
      LexStep(text, i, t', end', Strict(unescapes));
      OneAgreesIff(text, i, unescapes);
      if !Swallows(text, i, unescapes) {
        ReadingsAgreeIff(text, end, unescapes);
        SameTails(t, Lex(text, end, unescapes), Lex(text, end, Strict(unescapes)));
      } else {
        assert Lex(text, i, unescapes)[0] == t && Lex(text, i, Strict(unescapes))[0] == t';
      }
    }
  }

  lemma {:induction false} SameTails(t: Token, a: seq<Token>, b: seq<Token>)
    ensures [t] + a == [t] + b <==> a == b
  {
    if [t] + a == [t] + b {
      assert ([t] + a)[1..] == a && ([t] + b)[1..] == b;
    }
  }

  // ---------- What the page texts keep ----------

  lemma {:induction false} CanonsKeepMeaning(tokens: seq<Token>, stack: Stack)
    ensures Walk(Canons(tokens), stack) == Walk(tokens, stack)
    ensures Seen(Canons(tokens), stack) == Seen(tokens, stack)
    ensures Nested(Canons(tokens), stack) <==> Nested(tokens, stack)
  {
    if tokens != [] {
      var n := |tokens| - 1;
      CanonsKeepMeaning(tokens[..n], stack);
      assert Canons(tokens)[..n] == Canons(tokens[..n]);
    }
  }

  function Readings(texts: seq<string>, unescapes: string -> bool): (r: seq<seq<Token>>)
    ensures |r| == |texts| && forall i :: 0 <= i < |r| ==> r[i] == Lex(texts[i], 0, unescapes)
  {
    seq(|texts|, i requires 0 <= i < |texts| => Lex(texts[i], 0, unescapes))
  }

  /** The strict reader finds in every page text what the paginator meant to write there. */
  predicate ReadAsWritten(text: string, size: int, unescapes: string -> bool) {
    forall k :: 0 <= k < |PagesOf(Lex(text, 0, unescapes), size)| ==>
      Lex(ChunkOf(text, size, unescapes)[k], 0, Strict(unescapes)) == Canons(PagesOf(Lex(text, 0, unescapes), size)[k])
  }

  lemma {:induction false} CleanIsReadAsWritten(text: string, size: int, unescapes: string -> bool)
    requires Standard(unescapes) && CleanText(text, unescapes)
    ensures ReadAsWritten(text, size, unescapes)
  {
    var tokens := Lex(text, 0, unescapes);
    StrictIsStandard(unescapes);
    ReadingsAgreeIff(text, 0, unescapes);
    LexIsCanonical(text, 0, Strict(unescapes));
    forall k | 0 <= k < |PagesOf(tokens, size)|
      ensures Lex(ChunkOf(text, size, unescapes)[k], 0, Strict(unescapes)) == Canons(PagesOf(tokens, size)[k])
    {
      PagesAreCanonical(tokens, size, Strict(unescapes), k);
      TextReadsBack(PagesOf(tokens, size)[k], Strict(unescapes));
    }
  }

  predicate IsSwallowed(t: Token) {
    t.Visible? && |t.shown| > 1 && !Proper(t.shown)
  }

  /** An unclean text has a token that swallows. */
  lemma {:induction false} UncleanHasSwallowed(text: string, i: nat, unescapes: string -> bool) returns (x: Token)
    requires i <= |text| && !CleanFrom(text, i, unescapes)
    ensures x in Lex(text, i, unescapes) && IsSwallowed(x)
    decreases |text| - i
  {
    var (t, end) := LexOne(text, i, unescapes);
    LexStep(text, i, t, end, unescapes);
    if Swallows(text, i, unescapes) {
      EntitiesAreCanonical(text, i, end, unescapes);
      x := t;
    } else {
      OneAgreesIff(text, i, unescapes);
      x := UncleanHasSwallowed(text, end, unescapes);
    }
  }

  lemma {:induction false} StrictNeverSwallows(text: string, x: Token, unescapes: string -> bool)
    requires Standard(unescapes) && x in Lex(text, 0, Strict(unescapes))
    ensures !IsSwallowed(x)
  {
    StrictIsStandard(unescapes);
    LexIsCanonical(text, 0, Strict(unescapes));
    var tokens := Lex(text, 0, Strict(unescapes));
    var i :| 0 <= i < |tokens| && tokens[i] == x;
    assert Canonical(tokens[i], Strict(unescapes));
  }

  /**
   At any size, the strict reader finds on every page what the paginator meant
   to write there if and only if no ampersand of the text, where a token
   starts, swallows a stretch that is no character reference.
   */
  lemma {:induction false} ReadAsWrittenIff(text: string, size: int, unescapes: string -> bool)
    requires Standard(unescapes)
    ensures ReadAsWritten(text, size, unescapes) <==> CleanText(text, unescapes)
  {
    if CleanText(text, unescapes) {
      CleanIsReadAsWritten(text, size, unescapes);
    } else {
      var tokens := Lex(text, 0, unescapes);
      var x := UncleanHasSwallowed(text, 0, unescapes);
      var k := EveryTokenIsOnAPage(tokens, size, x);
      var page := PagesOf(tokens, size)[k];
      var j :| 0 <= j < |page| && page[j] == x;
      assert Canons(page)[j] == Canon(x) && IsSwallowed(Canon(x));
      if Lex(ChunkOf(text, size, unescapes)[k], 0, Strict(unescapes)) == Canons(page) {
        StrictNeverSwallows(ChunkOf(text, size, unescapes)[k], Canon(x), unescapes);
      }
    }
  }

  lemma {:induction false} SameSeen(a: seq<seq<Token>>, b: seq<seq<Token>>)
    requires |a| == |b| && forall i :: 0 <= i < |a| ==> a[i] == Canons(b[i])
    ensures SeenAll(a) == SeenAll(b)
  {
    if a != [] {
      var n := |a| - 1;
      SameSeen(a[..n], b[..n]);
      CanonsKeepMeaning(b[n], []);
    }
  }

  lemma {:induction false} CanonPages(a: seq<seq<Token>>, b: seq<seq<Token>>, limit: nat, tokens: seq<Token>)
    requires |a| == |b| && forall i :: 0 <= i < |a| ==> a[i] == Canons(b[i])
    requires Pages(b, limit, tokens)
    ensures Pages(a, limit, tokens)
  {
    SameSeen(a, b);
    forall i | 0 <= i < |a|
      ensures Walk(a[i], []) == Walk(b[i], []) && Seen(a[i], []) == Seen(b[i], []) && (Nested(a[i], []) <==> Nested(b[i], []))
    {
      CanonsKeepMeaning(b[i], []);
    }
    assert forall i :: 0 <= i < |a| - 1 ==> a[..|a| - 1][i] == a[i] && b[..|b| - 1][i] == b[i];
  }

  /**
   The promise, on texts: for a clean text, the page texts as the strict reader
   sees them are good pages of the text as the strict reader sees it - closed,
   within the size, the same visible content under the same tags, and all well
   nested exactly if the text never closes a tag out of turn.
   */
  lemma {:induction false} ChunksKeepPromise(text: string, size: int, unescapes: string -> bool)
    requires Standard(unescapes) && CleanText(text, unescapes)
    ensures var strict := Strict(unescapes);
            Pages(Readings(ChunkOf(text, size, unescapes), strict), AtLeastOne(size), Lex(text, 0, strict))
  {
    var tokens := Lex(text, 0, unescapes);
    ReadingsAgreeIff(text, 0, unescapes);
    CleanIsReadAsWritten(text, size, unescapes);
    PagesOfAreGood(tokens, size);
    CanonPages(Readings(ChunkOf(text, size, unescapes), Strict(unescapes)), PagesOf(tokens, size), AtLeastOne(size), tokens);
  }

  /** So each page of a clean and properly nested text can be sent on its own. */
  lemma {:induction false} EveryChunkIsWellNested(text: string, size: int, unescapes: string -> bool, k: nat)
    requires Standard(unescapes) && CleanText(text, unescapes) && Nested(Lex(text, 0, Strict(unescapes)), [])
    requires k < |ChunkOf(text, size, unescapes)|
    ensures var page := Lex(ChunkOf(text, size, unescapes)[k], 0, Strict(unescapes));
            WellNested(page) && |Seen(page, [])| <= AtLeastOne(size)
  {
    ChunksKeepPromise(text, size, unescapes);
    assert Readings(ChunkOf(text, size, unescapes), Strict(unescapes))[k] == Lex(ChunkOf(text, size, unescapes)[k], 0, Strict(unescapes));
  }

  // ---------- Texts for which the promise fails ----------

  lemma {:induction false} BareAmpersand(w: string, rest: string, unescapes: string -> bool)
    requires Entity(w, unescapes) && !Proper(w)
    ensures LexOne(w + rest, 0, Strict(unescapes)) == (Visible("&", "&amp;"), 1)
    ensures Swallows(w + rest, 0, unescapes)
  {
    var text := w + rest;
    assert text[0..|w|] == w;
    ReadEntity(text, 0, w, unescapes);
    StrictEntityEnd(text, 0, unescapes);
    assert text[0..1] == "&";
  }

  /** What the strict reader makes of a swallowed stretch: the ampersand, then whatever follows it. */
  lemma {:induction false} StrictlyRead(w: string, rest: string, tokens: seq<Token>, unescapes: string -> bool)
    requires Entity(w, unescapes) && !Proper(w) && w + rest == "&" + Text(tokens)
    requires AllCanonical(tokens, Strict(unescapes))
    ensures Lex(w + rest, 0, Strict(unescapes)) == [Visible("&", "&amp;")] + Canons(tokens)
  {
    BareAmpersand(w, rest, unescapes);
    ReadsBack("&", tokens, Strict(unescapes));
    LexStep(w + rest, 0, Visible("&", "&amp;"), 1, Strict(unescapes));
  }

  function Char(c: char): Token {
    Visible([c], [c])
  }

  lemma {:induction false} PutStep(tokens: seq<Token>, t: Token, limit: nat)
    ensures PutAll(tokens + [t], limit) == Put(PutAll(tokens, limit), t, limit)
  {
    assert (tokens + [t])[..|tokens|] == tokens;
  }

  lemma {:induction false} PutFirst(v: Token, limit: nat)
    requires v.Visible? && limit > 0
    ensures PutAll([v], limit) == Paging([], [v], 1, [])
  {
    PutStep([], v, limit);
    assert [] + [v] == [v];
  }

  lemma {:induction false} PutSecond(v: Token, y: Token)
    requires y.Visible?
    ensures Put(Paging([], [v], 1, []), y, 1) == Paging([[v]], [y], 1, [])
  {
    assert [v] + Closers([]) == [v];
    assert Openers([]) + [y] == [y];
  }

  lemma {:induction false} PutClose(out: seq<seq<Token>>, y: Token, c: Token)
    requires c.Close?
    ensures Put(Paging(out, [y], 1, []), c, 1) == Paging(out, [y, c], 1, [])
  {
    assert [y] + [c] == [y, c];
  }

  lemma {:induction false} PutOn(tokens: seq<Token>, t: Token, p: Paging, longer: seq<Token>)
    requires PutAll(tokens, 1) == p && longer == tokens + [t]
    ensures PutAll(longer, 1) == Put(p, t, 1)
  {
    PutStep(tokens, t, 1);
  }

  lemma {:induction false} PutThree(v: Token, y: Token, c: Token)
    requires v.Visible? && y.Visible? && c.Close?
    ensures PutAll([v] + [y] + [c], 1) == Paging([[v]], [y, c], 1, [])
  {
    var two := [v] + [y];
    PutFirst(v, 1);
    PutSecond(v, y);
    PutOn([v], y, Paging([], [v], 1, []), two);
    PutClose([[v]], y, c);
    PutOn(two, c, Paging([[v]], [y], 1, []), two + [c]);
  }

  lemma {:induction false} TwoPages(v: Token, y: Token, c: Token)
    requires v.Visible? && y.Visible? && c.Close?
    ensures PagesOf([v, y, c], 1) == [[v], [y, c]]
  {
    PutThree(v, y, c);
    assert [v] + [y] + [c] == [v, y, c];
    assert [y, c] + Closers([]) == [y, c];
  }

  /** "&", an opening tag, a character and an entity: one stretch up to the first semicolon. */
  function SwallowedStretch(tag: Tag): string {
    "&" + tag.raw + "x" + "&amp;"
  }

  lemma {:induction false} SwallowedStretchShape(tag: Tag, unescapes: string -> bool)
    requires Canonical(Open(tag), unescapes) && |tag.raw| <= 27 && ';' !in tag.raw && unescapes(SwallowedStretch(tag))
    ensures Entity(SwallowedStretch(tag), unescapes) && !Proper(SwallowedStretch(tag))
  {
    var w := SwallowedStretch(tag);
    assert w[1] == tag.raw[0] == '<';
    assert forall k :: 1 <= k < 1 + |tag.raw| ==> w[k] == tag.raw[k - 1];
  }

  /** The tokens of the strict reading behind the bare ampersand. */
  function BehindAmpersand(tag: Tag): seq<Token> {
    [Open(tag), Char('x'), Visible("&amp;", "&amp;")]
  }

  function Ending(tag: Tag): seq<Token> {
    [Char('y'), Closer(tag.name)]
  }

  lemma {:induction false} TextAppend(a: seq<Token>, b: seq<Token>)
    ensures Text(a + b) == Text(a) + Text(b)
  {
    if a == [] {
      assert a + b == b;
    } else {
      assert (a + b)[1..] == a[1..] + b;
      TextAppend(a[1..], b);
    }
  }

  lemma {:induction false} TextOne(t: Token)
    ensures Text([t]) == Written(t)
  {
    assert [t][1..] == [];
    assert Written(t) + [] == Written(t);
  }

  lemma {:induction false} Joined(a: string, b: string, c: string, d: string)
    ensures a + (b + (c + d)) == a + b + c + d
  {
  }

  lemma {:induction false} TextOfThree(a: Token, b: Token, c: Token)
    ensures Text([a, b, c]) == Written(a) + (Written(b) + Written(c))
  {
    assert [a, b, c] == [a] + ([b] + [c]);
    TextAppend([a], [b] + [c]);
    TextAppend([b], [c]);
    TextOne(a);
    TextOne(b);
    TextOne(c);
  }

  lemma {:induction false} BehindText(tag: Tag)
    ensures "&" + Text(BehindAmpersand(tag)) == SwallowedStretch(tag)
  {
    TextOfThree(Open(tag), Char('x'), Visible("&amp;", "&amp;"));
    Joined("&", tag.raw, "x", "&amp;");
  }

  lemma {:induction false} EndingText(tag: Tag)
    ensures Text(Ending(tag)) == "y" + Closer(tag.name).raw
  {
    assert Ending(tag) == [Char('y')] + [Closer(tag.name)];
    TextAppend([Char('y')], [Closer(tag.name)]);
    TextOne(Char('y'));
    TextOne(Closer(tag.name));
  }

  lemma {:induction false} BehindCanonical(tag: Tag, unescapes: string -> bool)
    requires Standard(unescapes) && Canonical(Open(tag), unescapes)
    ensures AllCanonical(BehindAmpersand(tag), Strict(unescapes))
  {
    StrictIsStandard(unescapes);
    StandardShown(Strict(unescapes));
  }

  lemma {:induction false} EndingCanonical(tag: Tag, unescapes: string -> bool)
    requires tag.name in TagNames
    ensures AllCanonical(Ending(tag), unescapes)
  {
    CloserCanonical(tag.name, unescapes);
  }

  lemma {:induction false} First(t: Token, rest: seq<Token>, stack: Stack)
    ensures Walk([t] + rest, stack) == Walk(rest, Enter(stack, t))
    ensures |Seen([t] + rest, stack)| == (if t.Visible? then 1 else 0) + |Seen(rest, Enter(stack, t))|
    ensures Nested([t] + rest, stack) <==> (t.Close? ==> Closes(stack, t.name)) && Nested(rest, Enter(stack, t))
  {
    Append([t], rest, stack);
    Single(t, stack);
  }

  lemma {:induction false} FourMeaning(a: Token, tag: Tag, x: Token, y: Token)
    requires a.Visible? && x.Visible? && y.Visible?
    ensures var page := [a] + ([Open(tag)] + ([x] + [y]));
            Walk(page, []) == [tag] && |Seen(page, [])| == 3 && Nested(page, [])
  {
    First(a, [Open(tag)] + ([x] + [y]), []);
    First(Open(tag), [x] + [y], []);
    First(x, [y], [tag]);
    Single(y, [tag]);
  }

  lemma {:induction false} OpenedMeaning(tag: Tag, bare: Token)
    requires bare.Visible?
    ensures var page := [bare] + Canons(BehindAmpersand(tag));
            Walk(page, []) == [tag] && |Seen(page, [])| == 3 && Nested(page, [])
  {
    var x, amp := Char('x'), Visible("&amp;", "&amp;");
    assert Canons(BehindAmpersand(tag)) == [Open(tag)] + ([x] + [amp]);
    FourMeaning(bare, tag, x, amp);
  }

  lemma {:induction false} EndingMeaning(tag: Tag)
    ensures Canons(Ending(tag)) == Ending(tag)
    ensures Nested(Ending(tag), [tag]) && Walk(Ending(tag), [tag]) == [] && !Nested(Ending(tag), [])
  {
    var e := Ending(tag);
    assert e[..1] == [Char('y')] && e[..1][..0] == [];
    assert Walk([Char('y')], [tag]) == [tag] && Walk([Char('y')], []) == [];
    assert Canons(e) == e;
  }

  lemma {:induction false} CanonsAppend(a: seq<Token>, b: seq<Token>)
    ensures Canons(a + b) == Canons(a) + Canons(b)
  {
  }

  lemma {:induction false} Regrouped(a: string, b: string, c: string)
    ensures a + (b + c) == a + b + c
  {
  }

  lemma {:induction false} WholeText(tag: Tag)
    ensures SwallowedStretch(tag) + ("y" + Closer(tag.name).raw) == "&" + Text(BehindAmpersand(tag) + Ending(tag))
  {
    var behind, ending := Text(BehindAmpersand(tag)), Text(Ending(tag));
    BehindText(tag);
    EndingText(tag);
    TextAppend(BehindAmpersand(tag), Ending(tag));
    Regrouped("&", behind, ending);
  }

  lemma {:induction false} WholeCanonical(tag: Tag, unescapes: string -> bool)
    requires Standard(unescapes) && Canonical(Open(tag), unescapes)
    ensures AllCanonical(BehindAmpersand(tag) + Ending(tag), Strict(unescapes))
  {
    BehindCanonical(tag, unescapes);
    OpenTagName(Open(tag), unescapes);
    EndingCanonical(tag, Strict(unescapes));
  }

  lemma {:induction false} WholeReading(tag: Tag, unescapes: string -> bool)
    requires Standard(unescapes) && Canonical(Open(tag), unescapes) && |tag.raw| <= 27 && ';' !in tag.raw
    requires unescapes(SwallowedStretch(tag))
    ensures Lex(SwallowedStretch(tag) + ("y" + Closer(tag.name).raw), 0, Strict(unescapes))
         == [Visible("&", "&amp;")] + Canons(BehindAmpersand(tag)) + Ending(tag)
  {
    SwallowedStretchShape(tag, unescapes);
    WholeText(tag);
    WholeCanonical(tag, unescapes);
    StrictlyRead(SwallowedStretch(tag), "y" + Closer(tag.name).raw, BehindAmpersand(tag) + Ending(tag), unescapes);
    CanonsAppend(BehindAmpersand(tag), Ending(tag));
    EndingMeaning(tag);
  }

  /** The text reads strictly as an ampersand, an opened tag with content, and its close: properly nested. */
  lemma {:induction false} WholeIsWellNested(tag: Tag, unescapes: string -> bool)
    requires Standard(unescapes) && Canonical(Open(tag), unescapes) && |tag.raw| <= 27 && ';' !in tag.raw
    requires unescapes(SwallowedStretch(tag))
    ensures WellNested(Lex(SwallowedStretch(tag) + ("y" + Closer(tag.name).raw), 0, Strict(unescapes)))
  {
    var bare := Visible("&", "&amp;");
    WholeReading(tag, unescapes);
    OpenedMeaning(tag, bare);
    EndingMeaning(tag);
    Append([bare] + Canons(BehindAmpersand(tag)), Ending(tag), []);
  }

  /** The paginator, at size one, writes the stretch as the whole first page. */
  lemma {:induction false} SwallowedPages(tag: Tag, unescapes: string -> bool)
    requires Standard(unescapes) && Canonical(Open(tag), unescapes) && |tag.raw| <= 27 && ';' !in tag.raw
    requires unescapes(SwallowedStretch(tag))
    ensures var w, rest := SwallowedStretch(tag), "y" + Closer(tag.name).raw;
            ChunkOf(w + rest, 1, unescapes) == [w, rest]
  {
    var w, rest := SwallowedStretch(tag), "y" + Closer(tag.name).raw;
    var v := Visible(w, w);
    SwallowedStretchShape(tag, unescapes);
    OpenTagName(Open(tag), unescapes);
    EndingCanonical(tag, unescapes);
    EndingText(tag);
    EndingMeaning(tag);
    var tokens := [v] + Ending(tag);
    assert tokens[1..] == Ending(tag);
    assert AllCanonical(tokens, unescapes);
    TextReadsBack(tokens, unescapes);
    CanonsAppend([v], Ending(tag));
    assert Canons([v]) == [v];
    assert Text(tokens) == w + rest;
    assert tokens == [v, Char('y'), Closer(tag.name)];
    TwoPages(v, Char('y'), Closer(tag.name));
    PageTexts(v, w, Ending(tag), rest);
  }

  lemma {:induction false} PageTexts(v: Token, w: string, ending: seq<Token>, rest: string)
    requires v == Visible(w, w) && Text(ending) == rest
    ensures Texts([[v], ending]) == [w, rest]
  {
    TextOne(v);
  }

  /**
   A properly nested text whose bare ampersand is followed by a tag and a real
   entity: the tag is swallowed. The first page then shows three characters at
   size one and leaves the tag open; the second closes a tag it never opened.
   */
  lemma {:induction false} SwallowedTagBreaksPages(tag: Tag, unescapes: string -> bool)
    requires Standard(unescapes) && Canonical(Open(tag), unescapes) && |tag.raw| <= 27 && ';' !in tag.raw
    requires unescapes(SwallowedStretch(tag))
    ensures var strict := Strict(unescapes);
            var w, rest := SwallowedStretch(tag), "y" + Closer(tag.name).raw;
            && WellNested(Lex(w + rest, 0, strict)) && !CleanText(w + rest, unescapes)
            && ChunkOf(w + rest, 1, unescapes) == [w, rest]
            && |Seen(Lex(w, 0, strict), [])| == 3 && Walk(Lex(w, 0, strict), []) == [tag] && !Nested(Lex(rest, 0, strict), [])
  {
    var strict := Strict(unescapes);
    var w, rest := SwallowedStretch(tag), "y" + Closer(tag.name).raw;
    WholeIsWellNested(tag, unescapes);
    SwallowedPages(tag, unescapes);
    SwallowedStretchShape(tag, unescapes);
    BareAmpersand(w, rest, unescapes);
    FirstPageMeaning(tag, unescapes);
    OpenTagName(Open(tag), unescapes);
    EndingCanonical(tag, strict);
    EndingText(tag);
    EndingMeaning(tag);
    TextReadsBack(Ending(tag), strict);
  }

  lemma {:induction false} FirstPageMeaning(tag: Tag, unescapes: string -> bool)
    requires Standard(unescapes) && Canonical(Open(tag), unescapes) && |tag.raw| <= 27 && ';' !in tag.raw
    requires unescapes(SwallowedStretch(tag))
    ensures var page := Lex(SwallowedStretch(tag), 0, Strict(unescapes));
            |Seen(page, [])| == 3 && Walk(page, []) == [tag]
  {
    var w := SwallowedStretch(tag);
    SwallowedStretchShape(tag, unescapes);
    BehindText(tag);
    BehindCanonical(tag, unescapes);
    assert w + "" == w;
    StrictlyRead(w, "", BehindAmpersand(tag), unescapes);
    OpenedMeaning(tag, Visible("&", "&amp;"));
  }

  lemma {:induction false} OpeningParts(raw: string, name: string)
    requires |raw| >= 2 && raw[1..|raw| - 1] == name && TrimSpace(name) == name
    requires !HasPrefix(name, "/") && !HasSuffix(name, "/") && FirstWord(name) == name && Lower(name) == name
    ensures TagParts(raw) == (false, false, name)
  {
  }

  lemma {:induction false} OpenerShape(raw: string, name: string)
    requires PlainTagName(name) && raw == "<" + name + ">"
    ensures |raw| > 2 && raw[0] == '<' && raw[|raw| - 1] == '>' && OneClose(raw) && raw[1..|raw| - 1] == name
    ensures !HasPrefix(name, "/")
  {
    assert forall k :: 1 <= k < |raw| - 1 ==> raw[k] == name[k - 1];
    assert name[0] != '/' && name[..1][0] == name[0];
  }

  /** A supported tag without attributes. */
  lemma {:induction false} BareTag(tag: Tag, unescapes: string -> bool)
    requires tag.name in TagNames && tag.raw == "<" + tag.name + ">"
    ensures Canonical(Open(tag), unescapes)
  {
    TagNamesArePlain(tag.name);
    WordOf(tag.name);
    PlainLower(tag.name);
    OpenerShape(tag.raw, tag.name);
    OpeningParts(tag.raw, tag.name);
  }

  /** The text is properly nested and cut, at size one, into two pages that are not. */
  predicate CutBadly(w: string, rest: string, unescapes: string -> bool) {
    && WellNested(Lex(w + rest, 0, Strict(unescapes))) && ChunkOf(w + rest, 1, unescapes) == [w, rest]
    && !WellNested(Lex(w, 0, Strict(unescapes))) && !WellNested(Lex(rest, 0, Strict(unescapes)))
  }

  const Bold := Tag("b", "<b>")
  const BoldStretch := "&<b>x&amp;"
  const BoldEnd := "y</b>"

  lemma {:induction false} BoldTexts()
    ensures SwallowedStretch(Bold) == BoldStretch && "y" + Closer(Bold.name).raw == BoldEnd
  {
  }

  lemma {:induction false} BoldIsTag(unescapes: string -> bool)
    ensures Canonical(Open(Bold), unescapes) && |Bold.raw| <= 27 && ';' !in Bold.raw
  {
    assert "b" in TagNames && "<" + "b" + ">" == "<b>";
    BareTag(Bold, unescapes);
  }

  lemma {:induction false} SwallowedTagCutsBadly(tag: Tag, unescapes: string -> bool)
    requires Standard(unescapes) && Canonical(Open(tag), unescapes) && |tag.raw| <= 27 && ';' !in tag.raw
    requires unescapes(SwallowedStretch(tag))
    ensures CutBadly(SwallowedStretch(tag), "y" + Closer(tag.name).raw, unescapes)
  {
    SwallowedTagBreaksPages(tag, unescapes);
  }

  /** The plainest such text. */
  lemma {:induction false} BoldIsSwallowed(unescapes: string -> bool)
    requires Standard(unescapes) && unescapes(BoldStretch)
    ensures CutBadly(BoldStretch, BoldEnd, unescapes)
  {
    BoldTexts();
    BoldIsTag(unescapes);
    SwallowedTagCutsBadly(Bold, unescapes);
  }

  // ---------- Stretches that only count too little ----------

  function Chars(s: string): seq<Token> {
    if s == [] then [] else [Char(s[0])] + Chars(s[1..])
  }

  lemma {:induction false} CharsFacts(s: string, unescapes: string -> bool)
    requires '<' !in s && '&' !in s
    ensures Text(Chars(s)) == s && AllCanonical(Chars(s), unescapes) && Canons(Chars(s)) == Chars(s)
    ensures |Chars(s)| == |s| && forall i :: 0 <= i < |s| ==> Chars(s)[i].Visible?
  {
    if s != [] {
      CharsFacts(s[1..], unescapes);
      assert Chars(s)[1..] == Chars(s[1..]);
      assert s == [s[0]] + s[1..];
    }
  }

  lemma {:induction false} AllVisibleSeen(tokens: seq<Token>, stack: Stack)
    requires forall i :: 0 <= i < |tokens| ==> tokens[i].Visible?
    ensures |Seen(tokens, stack)| == |tokens|
  {
    if tokens != [] {
      AllVisibleSeen(tokens[..|tokens| - 1], stack);
    }
  }

  lemma {:induction false} LooseReading(w: string, unescapes: string -> bool)
    requires Entity(w, unescapes) && !Proper(w) && '<' !in w && '&' !in w[1..]
    ensures Lex(w, 0, Strict(unescapes)) == [Visible("&", "&amp;")] + Chars(w[1..])
  {
    CharsFacts(w[1..], Strict(unescapes));
    assert w + "" == w && w == "&" + w[1..];
    StrictlyRead(w, "", Chars(w[1..]), unescapes);
  }

  lemma {:induction false} OnePage(v: Token)
    requires v.Visible?
    ensures PagesOf([v], 1) == [[v]]
  {
    PutFirst(v, 1);
    LastPage([v], v);
  }

  lemma {:induction false} LastPage(tokens: seq<Token>, v: Token)
    requires PutAll(tokens, 1) == Paging([], [v], 1, [])
    ensures PagesOf(tokens, 1) == [[v]]
  {
    assert [v] + Closers([]) == [v];
  }

  lemma {:induction false} EntityAlone(w: string, unescapes: string -> bool)
    requires Entity(w, unescapes)
    ensures ChunkOf(w, 1, unescapes) == [w]
  {
    var v := Visible(w, w);
    TextOne(v);
    assert AllCanonical([v], unescapes);
    TextReadsBack([v], unescapes);
    assert Canons([v]) == [v];
    OnePage(v);
  }

  /** A stretch such as "&copy foo;" counts as one character and shows as many as it has. */
  lemma {:induction false} LooseStretchOverfillsPage(w: string, unescapes: string -> bool)
    requires Entity(w, unescapes) && !Proper(w) && '<' !in w && '&' !in w[1..]
    ensures ChunkOf(w, 1, unescapes) == [w] && |Seen(Lex(w, 0, Strict(unescapes)), [])| == |w| > 1
  {
    LooseReading(w, unescapes);
    CharsFacts(w[1..], unescapes);
    AllVisibleSeen([Visible("&", "&amp;")] + Chars(w[1..]), []);
    EntityAlone(w, unescapes);
  }
}
