/**
 Pagination of tagged text, on tokens: formatting tags are closed at the end of
 a page and opened again on the next.
 */
module ChunkText {
  datatype Tag = Tag(name: string, raw: string)

  type Stack = seq<Tag>

  datatype Token =
    | Open(tag: Tag)
    | Close(name: string, raw: string)
    | Void(raw: string)                      // a self-closing tag
    | Visible(source: string, shown: string) // one character or entity, as read and as written

  // ---------- Meaning: visible tokens and the tags around them ----------

  predicate Closes(stack: Stack, name: string) {
    stack != [] && stack[|stack| - 1].name == name
  }

  /** The open tags after a token; a close that matches nothing is ignored. */
  function Enter(stack: Stack, t: Token): Stack {
    match t
    case Open(tag) => stack + [tag]
    case Close(name, _) => if Closes(stack, name) then stack[..|stack| - 1] else stack
    case Void(_) => stack
    case Visible(_, _) => stack
  }

  function Walk(tokens: seq<Token>, stack: Stack): Stack {
    if tokens == [] then stack else Enter(Walk(tokens[..|tokens| - 1], stack), tokens[|tokens| - 1])
  }

  /** Every close matches the innermost open tag. */
  predicate Nested(tokens: seq<Token>, stack: Stack) {
    tokens != [] ==>
      var n := |tokens| - 1;
      Nested(tokens[..n], stack) && (tokens[n].Close? ==> Closes(Walk(tokens[..n], stack), tokens[n].name))
  }

  datatype Shown = Shown(text: string, around: Stack)

  /** What a reader sees, each piece with its enclosing tags. */
  function Seen(tokens: seq<Token>, stack: Stack): seq<Shown> {
    if tokens == [] then [] else
      var n := |tokens| - 1;
      Seen(tokens[..n], stack) + (if tokens[n].Visible? then [Shown(tokens[n].shown, Walk(tokens[..n], stack))] else [])
  }

  function SeenAll(pages: seq<seq<Token>>): seq<Shown> {
    if pages == [] then [] else SeenAll(pages[..|pages| - 1]) + Seen(pages[|pages| - 1], [])
  }

  predicate AllNested(pages: seq<seq<Token>>) {
    forall i :: 0 <= i < |pages| ==> Nested(pages[i], [])
  }

  /** A page that can be sent on its own. */
  predicate WellNested(page: seq<Token>) {
    Nested(page, []) && Walk(page, []) == []
  }

  // ---------- Closing and reopening ----------

  function Openers(stack: Stack): seq<Token> {
    if stack == [] then [] else Openers(stack[..|stack| - 1]) + [Open(stack[|stack| - 1])]
  }

  function Closer(name: string): Token {
    Close(name, "</" + name + ">")
  }

  function Closers(stack: Stack): seq<Token> {
    if stack == [] then [] else
      var n := |stack| - 1;
      [Closer(stack[n].name)] + Closers(stack[..n])
  }

  lemma {:induction false} Append(a: seq<Token>, b: seq<Token>, stack: Stack)
    ensures Walk(a + b, stack) == Walk(b, Walk(a, stack))
    ensures Seen(a + b, stack) == Seen(a, stack) + Seen(b, Walk(a, stack))
    ensures Nested(a + b, stack) <==> Nested(a, stack) && Nested(b, Walk(a, stack))
  {
    if b == [] {
      assert a + b == a;
    } else {
      var n := |b| - 1;
      Append(a, b[..n], stack);
      assert (a + b)[..|a + b| - 1] == a + b[..n];
    }
  }

  lemma {:induction false} Single(t: Token, stack: Stack)
    ensures Walk([t], stack) == Enter(stack, t)
    ensures Seen([t], stack) == if t.Visible? then [Shown(t.shown, stack)] else []
    ensures Nested([t], stack) <==> (t.Close? ==> Closes(stack, t.name))
  {
    assert [t][..0] == [];
  }

  lemma {:induction false} Reopened(stack: Stack)
    ensures Walk(Openers(stack), []) == stack && Seen(Openers(stack), []) == [] && Nested(Openers(stack), [])
  {
    if stack != [] {
      var n := |stack| - 1;
      var init, last := stack[..n], Open(stack[n]);
      Reopened(init);
      Append(Openers(init), [last], []);
      Single(last, init);
      assert init + [stack[n]] == stack;
    }
  }

  lemma {:induction false} Closed(stack: Stack)
    ensures Walk(Closers(stack), stack) == [] && Seen(Closers(stack), stack) == [] && Nested(Closers(stack), stack)
  {
    if stack != [] {
      var n := |stack| - 1;
      Closed(stack[..n]);
      Append([Closer(stack[n].name)], Closers(stack[..n]), stack);
      Single(Closer(stack[n].name), stack);
    }
  }

  lemma {:induction false} SeenAllAppend(pages: seq<seq<Token>>, page: seq<Token>)
    ensures SeenAll(pages + [page]) == SeenAll(pages) + Seen(page, [])
  {
    assert (pages + [page])[..|pages|] == pages;
  }

  /** Closing what is open turns a chunk into a page with the same visible content. */
  lemma {:induction false} ClosedPage(chunk: seq<Token>)
    ensures var page := chunk + Closers(Walk(chunk, []));
            && Walk(page, []) == [] && Seen(page, []) == Seen(chunk, [])
            && (Nested(page, []) <==> Nested(chunk, []))
  {
    Append(chunk, Closers(Walk(chunk, [])), []);
    Closed(Walk(chunk, []));
  }

  // ---------- The loop ----------

  /** Pages so far and the chunk in progress stand for the tokens read so far. */
  predicate Stands(out: seq<seq<Token>>, chunk: seq<Token>, done: seq<Token>) {
    && Walk(chunk, []) == Walk(done, [])
    && SeenAll(out) + Seen(chunk, []) == Seen(done, [])
    && (AllNested(out) && Nested(chunk, []) <==> Nested(done, []))
  }

  predicate FullPages(pages: seq<seq<Token>>, size: nat) {
    forall i :: 0 <= i < |pages| ==> |Seen(pages[i], [])| == size && Walk(pages[i], []) == []
  }

  lemma {:induction false} FlushStands(out: seq<seq<Token>>, chunk: seq<Token>, done: seq<Token>, stack: Stack)
    requires Stands(out, chunk, done) && stack == Walk(done, [])
    ensures Stands(out + [chunk + Closers(stack)], Openers(stack), done)
    ensures Walk(chunk + Closers(stack), []) == [] && Seen(chunk + Closers(stack), []) == Seen(chunk, [])
    ensures Seen(Openers(stack), []) == []
  {
    ClosedPage(chunk);
    Reopened(stack);
    SeenAllAppend(out, chunk + Closers(stack));
    var longer := out + [chunk + Closers(stack)];
    assert AllNested(longer) <==> AllNested(out) && Nested(chunk, []) by {
      assert forall i :: 0 <= i < |out| ==> longer[i] == out[i];
      assert longer[|out|] == chunk + Closers(stack);
    }
  }

  lemma {:induction false} WriteStands(out: seq<seq<Token>>, chunk: seq<Token>, done: seq<Token>, t: Token)
    requires Stands(out, chunk, done)
    ensures Stands(out, chunk + [t], done + [t])
    ensures |Seen(chunk + [t], [])| == |Seen(chunk, [])| + (if t.Visible? then 1 else 0)
  {
    Append(chunk, [t], []);
    Append(done, [t], []);
    Single(t, Walk(done, []));
  }

  function AtLeastOne(size: int): nat {
    if size <= 0 then 1 else size
  }

  /** The loop's variables after reading `done`. */
  predicate Progress(out: seq<seq<Token>>, chunk: seq<Token>, visible: nat, open: Stack, limit: nat, done: seq<Token>) {
    && open == Walk(done, []) && Stands(out, chunk, done)
    && visible == |Seen(chunk, [])| <= limit
    && FullPages(out, limit)
  }

  lemma {:induction false} FlushProgress(out: seq<seq<Token>>, chunk: seq<Token>, open: Stack, limit: nat, done: seq<Token>)
    requires Progress(out, chunk, limit, open, limit, done)
    ensures Progress(out + [chunk + Closers(open)], Openers(open), 0, open, limit, done)
  {
    FlushStands(out, chunk, done, open);
  }

  lemma {:induction false} WriteProgress(out: seq<seq<Token>>, chunk: seq<Token>, visible: nat, open: Stack, limit: nat, done: seq<Token>, t: Token)
    requires Progress(out, chunk, visible, open, limit, done) && (t.Visible? ==> visible < limit)
    ensures Progress(out, chunk + [t], visible + (if t.Visible? then 1 else 0), Enter(open, t), limit, done + [t])
  {
    WriteStands(out, chunk, done, t);
    Append(done, [t], []);
    Single(t, open);
  }

  predicate Pages(pages: seq<seq<Token>>, limit: nat, tokens: seq<Token>) {
    && pages != []
    && (forall i :: 0 <= i < |pages| ==> |Seen(pages[i], [])| <= limit && Walk(pages[i], []) == [])
    && FullPages(pages[..|pages| - 1], limit)
    && (|pages| > 1 ==> Seen(pages[|pages| - 1], []) != [])
    && SeenAll(pages) == Seen(tokens, [])
    && (AllNested(pages) <==> Nested(tokens, []))
  }

  lemma {:induction false} LastPage(out: seq<seq<Token>>, chunk: seq<Token>, visible: nat, open: Stack, limit: nat, done: seq<Token>)
    requires Progress(out, chunk, visible, open, limit, done) && (out != [] ==> visible > 0)
    ensures Pages(out + [chunk + Closers(open)], limit, done)
  {
    FlushStands(out, chunk, done, open);
    Reopened(open);
    var pages := out + [chunk + Closers(open)];
    assert pages[..|pages| - 1] == out;
  }

  /** The loop's variables. */
  datatype Paging = Paging(out: seq<seq<Token>>, chunk: seq<Token>, visible: nat, open: Stack)

  function Flushed(p: Paging): Paging {
    Paging(p.out + [p.chunk + Closers(p.open)], Openers(p.open), 0, p.open)
  }

  function Put(p: Paging, t: Token, limit: nat): Paging {
    var q := if t.Visible? && p.visible == limit then Flushed(p) else p;
    Paging(q.out, q.chunk + [t], q.visible + (if t.Visible? then 1 else 0), Enter(q.open, t))
  }

  function PutAll(tokens: seq<Token>, limit: nat): Paging {
    if tokens == [] then Paging([], [], 0, []) else Put(PutAll(tokens[..|tokens| - 1], limit), tokens[|tokens| - 1], limit)
  }

  function PagesOf(tokens: seq<Token>, size: int): seq<seq<Token>> {
    var p := PutAll(tokens, AtLeastOne(size));
    p.out + [p.chunk + Closers(p.open)]
  }

  lemma {:induction false} PutProgress(p: Paging, t: Token, limit: nat, done: seq<Token>)
    requires limit > 0 && Progress(p.out, p.chunk, p.visible, p.open, limit, done) && (p.out != [] ==> p.visible > 0)
    ensures var q := Put(p, t, limit);
            Progress(q.out, q.chunk, q.visible, q.open, limit, done + [t]) && (q.out != [] ==> q.visible > 0)
  {
    if t.Visible? && p.visible == limit {
      FlushProgress(p.out, p.chunk, p.open, limit, done);
      var q := Flushed(p);
      WriteProgress(q.out, q.chunk, q.visible, q.open, limit, done, t);
    } else {
      WriteProgress(p.out, p.chunk, p.visible, p.open, limit, done, t);
    }
  }

  lemma {:induction false} PutAllProgress(tokens: seq<Token>, limit: nat)
    requires limit > 0
    ensures var p := PutAll(tokens, limit);
            Progress(p.out, p.chunk, p.visible, p.open, limit, tokens) && (p.out != [] ==> p.visible > 0)
  {
    if tokens != [] {
      var n := |tokens| - 1;
      PutAllProgress(tokens[..n], limit);
      assert tokens == tokens[..n] + [tokens[n]];
      PutProgress(PutAll(tokens[..n], limit), tokens[n], limit, tokens[..n]);
    }
  }

  /**
   Pages are closed, hold at most `size` visible tokens (all but the last
   exactly that many), show together what the input shows with the same tags
   around each piece, and are all well nested exactly if the input never
   closes a tag that is not the innermost open one.
   */
  lemma {:induction false} PagesOfAreGood(tokens: seq<Token>, size: int)
    ensures Pages(PagesOf(tokens, size), AtLeastOne(size), tokens)
  {
    var p := PutAll(tokens, AtLeastOne(size));
    PutAllProgress(tokens, AtLeastOne(size));
    LastPage(p.out, p.chunk, p.visible, p.open, AtLeastOne(size), tokens);
  }

  method Paginate(tokens: seq<Token>, size: int) returns (pages: seq<seq<Token>>)
    ensures pages == PagesOf(tokens, size) && Pages(pages, AtLeastOne(size), tokens)
  {
    var limit := AtLeastOne(size);
    var out: seq<seq<Token>> := [];
    var chunk: seq<Token> := [];
    var visible := 0;
    var open: Stack := [];
    for i := 0 to |tokens|
      invariant Paging(out, chunk, visible, open) == PutAll(tokens[..i], limit)
    {
      var t := tokens[i];
      assert tokens[..i + 1][..i] == tokens[..i];
      if t.Visible? && visible == limit {
        out := out + [chunk + Closers(open)];
        chunk := Openers(open);
        visible := 0;
      }
      chunk := chunk + [t];
      if t.Visible? {
        visible := visible + 1;
      }
      open := Enter(open, t);
    }
    assert tokens[..|tokens|] == tokens;
    pages := out + [chunk + Closers(open)];
    PagesOfAreGood(tokens, size);
  }

  // ---------- What pages are made of ----------

  /** A token of the input, or the closing of a tag that the input opens. */
  predicate Known(t: Token, tokens: seq<Token>) {
    t in tokens || exists i :: 0 <= i < |tokens| && tokens[i].Open? && t == Closer(tokens[i].tag.name)
  }

  predicate AllKnown(page: seq<Token>, tokens: seq<Token>) {
    forall i :: 0 <= i < |page| ==> Known(page[i], tokens)
  }

  predicate OpenedIn(stack: Stack, tokens: seq<Token>) {
    forall i :: 0 <= i < |stack| ==> Open(stack[i]) in tokens
  }

  lemma {:induction false} OpenersKnown(stack: Stack, tokens: seq<Token>)
    requires OpenedIn(stack, tokens)
    ensures AllKnown(Openers(stack), tokens) && AllKnown(Closers(stack), tokens)
  {
    if stack != [] {
      var n := |stack| - 1;
      OpenersKnown(stack[..n], tokens);
      var i :| 0 <= i < |tokens| && tokens[i] == Open(stack[n]);
      assert Known(Closer(stack[n].name), tokens);
    }
  }

  predicate PagingKnown(p: Paging, tokens: seq<Token>) {
    AllKnown(p.chunk, tokens) && OpenedIn(p.open, tokens) && forall i :: 0 <= i < |p.out| ==> AllKnown(p.out[i], tokens)
  }

  lemma {:induction false} KnownLater(p: Paging, tokens: seq<Token>, t: Token)
    requires PagingKnown(p, tokens)
    ensures PagingKnown(p, tokens + [t])
  {
    var longer := tokens + [t];
    forall x | Known(x, tokens)
      ensures Known(x, longer)
    {
      if x !in tokens {
        var i :| 0 <= i < |tokens| && tokens[i].Open? && x == Closer(tokens[i].tag.name);
        assert longer[i] == tokens[i];
      }
    }
  }

  lemma {:induction false} FlushedKnown(p: Paging, tokens: seq<Token>)
    requires PagingKnown(p, tokens)
    ensures PagingKnown(Flushed(p), tokens)
  {
    OpenersKnown(p.open, tokens);
  }

  lemma {:induction false} PutKnown(p: Paging, tokens: seq<Token>, t: Token, limit: nat)
    requires PagingKnown(p, tokens) && t in tokens
    ensures PagingKnown(Put(p, t, limit), tokens)
  {
    FlushedKnown(p, tokens);
    assert Known(t, tokens);
  }

  lemma {:induction false} PutAllKnown(tokens: seq<Token>, limit: nat)
    ensures PagingKnown(PutAll(tokens, limit), tokens)
  {
    if tokens != [] {
      var n := |tokens| - 1;
      PutAllKnown(tokens[..n], limit);
      KnownLater(PutAll(tokens[..n], limit), tokens[..n], tokens[n]);
      assert tokens == tokens[..n] + [tokens[n]];
      PutKnown(PutAll(tokens[..n], limit), tokens, tokens[n], limit);
    }
  }

  lemma {:induction false} PagesKnown(tokens: seq<Token>, size: int, k: nat)
    requires k < |PagesOf(tokens, size)|
    ensures AllKnown(PagesOf(tokens, size)[k], tokens)
  {
    var p := PutAll(tokens, AtLeastOne(size));
    PutAllKnown(tokens, AtLeastOne(size));
    OpenersKnown(p.open, tokens);
  }

  /** Some page, or the chunk in progress, holds the token. */
  predicate Holds(p: Paging, t: Token) {
    t in p.chunk || exists i :: 0 <= i < |p.out| && t in p.out[i]
  }

  lemma {:induction false} PutHolds(p: Paging, t: Token, x: Token, limit: nat)
    requires Holds(p, x) || x == t
    ensures Holds(Put(p, t, limit), x)
  {
    var q := Put(p, t, limit);
    if x in p.chunk && |q.out| > |p.out| {
      assert q.out[|p.out|] == p.chunk + Closers(p.open);
      assert x in q.out[|p.out|];
    } else if x !in p.chunk && x != t {
      var i :| 0 <= i < |p.out| && x in p.out[i];
      assert q.out[i] == p.out[i];
    }
  }

  lemma {:induction false} PutAllHolds(tokens: seq<Token>, limit: nat, x: Token)
    requires x in tokens
    ensures Holds(PutAll(tokens, limit), x)
  {
    var n := |tokens| - 1;
    if x in tokens[..n] {
      PutAllHolds(tokens[..n], limit, x);
    }
    PutHolds(PutAll(tokens[..n], limit), tokens[n], x, limit);
  }

  /** Every token of the input is on some page. */
  lemma {:induction false} EveryTokenIsOnAPage(tokens: seq<Token>, size: int, x: Token) returns (k: nat)
    requires x in tokens
    ensures k < |PagesOf(tokens, size)| && x in PagesOf(tokens, size)[k]
  {
    var p := PutAll(tokens, AtLeastOne(size));
    PutAllHolds(tokens, AtLeastOne(size), x);
    if x in p.chunk {
      k := |p.out|;
    } else {
      k :| 0 <= k < |p.out| && x in p.out[k];
    }
  }

  /** The number of visible tokens fixes the number of pages. */
  lemma {:induction false} PageCount(pages: seq<seq<Token>>, size: nat)
    requires size > 0 && pages != [] && FullPages(pages[..|pages| - 1], size)
    ensures |SeenAll(pages)| == size * (|pages| - 1) + |Seen(pages[|pages| - 1], [])|
  {
    FullCount(pages[..|pages| - 1], size);
  }

  lemma {:induction false} OneMore(size: nat, n: nat)
    ensures size * (n + 1) == size * n + size
  {
  }

  lemma {:induction false} FullCount(pages: seq<seq<Token>>, size: nat)
    requires FullPages(pages, size)
    ensures |SeenAll(pages)| == size * |pages|
  {
    if pages == [] {
      assert size * 0 == 0;
    } else {
      var n := |pages| - 1;
      var init, last := pages[..n], pages[n];
      FullCount(init, size);
      OneMore(size, n);
      SeenAllAppend(init, last);
      assert pages == init + [last];
    }
  }
}
