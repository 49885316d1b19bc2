/**
 What the joiner makes of a whole text: quote-free text stays as it is, a literal
 becomes what it denotes, a chain its concatenation, and nothing around them moves.
 */
module LiteralMeaning {
  import opened Wrappers
  import opened Literals

  // ---------------------------------------------------------------- the characters

  /** Free of both quote characters. */
  predicate Plain(s: string) {
    '\'' !in s && '"' !in s
  }

  /** A literal in either kind of quotes, with spaces and tabs around the plus sign before it. */
  predicate WellWritten(p: Piece) {
    && (p.quote == '\'' || p.quote == '"') && Plain(p.content)
    && (forall c :: c in p.before + p.after ==> c == ' ' || c == '\t')
  }

  lemma PlainHasNoQuotes(s: string)
    ensures Plain(s) <==> NoQuotes(s)
  {
  }

  lemma WellWrittenIsProper(p: Piece)
    requires WellWritten(p)
    ensures Proper(p)
  {
    PlainHasNoQuotes(p.content);
    forall c | c in p.before || c in p.after ensures IsBlank(c) {
      assert c in p.before + p.after;
    }
  }

  // ---------------------------------------------------------------- text around literals

  /** Text before the first quote is copied. */
  lemma {:induction false} PlainIsCopied(pre: string, s: string)
    requires NoQuotes(pre)
    ensures Join(pre + s) == pre + Join(s)
  {
    if pre == [] {
      assert pre + s == s;
    } else {
      assert pre[0] in pre;
      assert (pre + s)[1..] == pre[1..] + s;
      PlainIsCopied(pre[1..], s);
      assert pre + Join(s) == [pre[0]] + (pre[1..] + Join(s));
    }
  }

  lemma {:induction false} SkipsWithin(s: string)
    requires NoQuotes(s)
    ensures NoQuotes(SkipBlanks(s))
  {
    if s != [] && IsBlank(s[0]) {
      SkipsWithin(s[1..]);
    }
  }

  /** Text without quotes continues no literal, whatever blanks and plus signs it begins with. */
  lemma PlainDoesNotContinue(t: string)
    requires NoQuotes(t)
    ensures Continuation(t).None? && JoinAfter(t) == t
  {
    SkipsWithin(t);
    var u := SkipBlanks(t);
    if u != [] {
      SkipsWithin(u[1..]);
    }
    QuoteFreeUnchanged(t);
    hide Join;
  }

  /** How a content is written between quotes `q`: each `q` doubled. */
  function Doubled(c: string, q: char): string {
    if c == [] then [] else (if c[0] == q then [q, q] else [c[0]]) + Doubled(c[1..], q)
  }

  /** Reading a literal inverts writing it. */
  lemma {:induction false} ReadInvertsDoubling(c: string, q: char, rest: string)
    requires rest == [] || rest[0] != q
    ensures ReadBody(Doubled(c, q) + [q] + rest, q) == Some(Literal(c, rest))
  {
    var s := Doubled(c, q) + [q] + rest;
    if c == [] {
      assert s == [q] + rest && s[1..] == rest;
    } else {
      ReadInvertsDoubling(c[1..], q, rest);
      var tail := Doubled(c[1..], q) + [q] + rest;
      assert c == [c[0]] + c[1..];
      if c[0] == q {
        assert s == [q, q] + tail && s[2..] == tail;
      } else {
        assert s == [c[0]] + tail && s[1..] == tail;
      }
    }
  }

  lemma {:induction false} NothingToDouble(c: string, q: char)
    requires q !in c
    ensures Doubled(c, q) == c
  {
    if c != [] {
      NothingToDouble(c[1..], q);
      assert c == [c[0]] + c[1..];
    }
  }

  /** A literal at the front is resolved, and what follows it is read on its own. */
  lemma LiteralFirst(q: char, c: string, rest: string)
    requires IsQuote(q) && (rest == [] || rest[0] != q)
    ensures Join([q] + (Doubled(c, q) + [q] + rest)) == Resolve(c) + JoinAfter(rest)
  {
    ReadInvertsDoubling(c, q, rest);
    var s := [q] + (Doubled(c, q) + [q] + rest);
    assert s[1..] == Doubled(c, q) + [q] + rest;
    hide ReadBody;
    hide Resolve;
    hide JoinAfter;
  }

  /**
   A literal between quote-free texts: it becomes what its content denotes, and the texts around
   it, their blanks and plus signs included, are copied.
   */
  lemma LiteralInText(pre: string, q: char, c: string, t: string)
    requires Plain(pre) && Plain(t) && (q == '\'' || q == '"')
    ensures Join(pre + ([q] + (Doubled(c, q) + [q] + t))) == pre + (Resolve(c) + t)
    ensures Plain(c) ==> Join(pre + ([q] + (c + [q] + t))) == pre + (c + t)
  {
    PlainHasNoQuotes(pre);
    PlainHasNoQuotes(t);
    PlainHasNoQuotes(c);
    PlainIsCopied(pre, [q] + (Doubled(c, q) + [q] + t));
    if t != [] {
      assert t[0] in t;
    }
    LiteralFirst(q, c, t);
    PlainDoesNotContinue(t);
    if Plain(c) {
      NothingToDouble(c, q);
    }
    hide Join;
    hide JoinAfter;
  }

  /** A quote of which no second one follows is dropped. */
  lemma UnterminatedIsDropped(pre: string, q: char, s: string)
    requires Plain(pre) && (q == '\'' || q == '"') && q !in s
    ensures Join(pre + ([q] + s)) == pre + Join(s)
    ensures Plain(s) ==> Join(pre + ([q] + s)) == pre + s
  {
    PlainHasNoQuotes(pre);
    PlainHasNoQuotes(s);
    PlainIsCopied(pre, [q] + s);
    NoEnd(s, q);
    assert ([q] + s)[1..] == s;
    if NoQuotes(s) {
      QuoteFreeUnchanged(s);
    }
  }

  lemma {:induction false} NoEnd(s: string, q: char)
    requires q !in s
    ensures ReadBody(s, q).None?
  {
    if s != [] {
      NoEnd(s[1..], q);
    }
  }

  // ---------------------------------------------------------------- literals that are not chained

  predicate IsSpaceOrTab(c: char) {
    c == ' ' || c == '\t'
  }

  /** One plus sign, and around it spaces and tabs only. */
  ghost predicate Links(sep: string) {
    exists i :: 0 <= i < |sep| && sep[i] == '+' && forall j :: 0 <= j < |sep| && j != i ==> IsSpaceOrTab(sep[j])
  }

  /** A quote or the end of the text. */
  predicate QuoteNext(rest: string) {
    rest == [] || rest[0] == '\'' || rest[0] == '"'
  }

  /** Where skipping stops. */
  lemma {:induction false} SkipSplits(s: string, rest: string)
    requires QuoteNext(rest)
    ensures var n := |s| - |SkipBlanks(s)|;
      0 <= n <= |s| && SkipBlanks(s) == s[n..] && forall j :: 0 <= j < n ==> IsSpaceOrTab(s[j])
    ensures SkipBlanks(s + rest) == SkipBlanks(s) + rest
  {
    if s == [] {
      assert s + rest == rest;
    } else {
      assert (s + rest)[1..] == s[1..] + rest;
      if IsBlank(s[0]) {
        SkipSplits(s[1..], rest);
      }
    }
  }

  lemma LinkAt(sep: string, n: nat)
    requires n < |sep| && sep[n] == '+' && forall j :: 0 <= j < n ==> IsSpaceOrTab(sep[j])
    ensures SkipBlanks(sep[n + 1..]) == [] ==> Links(sep)
  {
    var more := sep[n + 1..];
    SkipSplits(more, []);
    if SkipBlanks(more) == [] {
      forall j | n < j < |sep| ensures IsSpaceOrTab(sep[j]) {
        assert sep[j] == more[j - n - 1];
      }
    }
  }

  lemma {:induction false} SkippedFirst(s: string)
    ensures SkipBlanks(s) != [] ==> SkipBlanks(s)[0] in s
  {
    if s != [] {
      SkippedFirst(s[1..]);
    }
  }

  /** A text that does not link leaves something other than a quote where the next literal would begin. */
  lemma Unlinked(sep: string)
    requires !Links(sep)
    ensures var u := SkipBlanks(sep);
      u != [] && u[0] == '+' ==> SkipBlanks(u[1..]) != [] && SkipBlanks(u[1..])[0] in sep
  {
    SkipSplits(sep, []);
    var u := SkipBlanks(sep);
    var n := |sep| - |u|;
    if u != [] && u[0] == '+' {
      var more := sep[n + 1..];
      assert u[1..] == more;
      LinkAt(sep, n);
      SkippedFirst(more);
      assert forall c :: c in more ==> c in sep;
    }
  }

  lemma UnlinkedStops(sep: string, rest: string)
    requires Plain(sep) && !Links(sep) && QuoteNext(rest)
    ensures Continuation(sep + rest).None?
  {
    Unlinked(sep);
    SkipSplits(sep, rest);
    var u := SkipBlanks(sep);
    hide Links;
    if u != [] {
      assert (u + rest)[1..] == u[1..] + rest;
      SkipSplits(u[1..], rest);
    }
    hide SkipBlanks;
    hide ReadBody;
  }

  /** Only a plus sign among blanks continues a concatenation: any other text before the next quote is copied. */
  lemma UnlinkedIsCopied(sep: string, rest: string)
    requires Plain(sep) && !Links(sep) && QuoteNext(rest)
    ensures JoinAfter(sep + rest) == sep + Join(rest)
  {
    UnlinkedStops(sep, rest);
    PlainHasNoQuotes(sep);
    PlainIsCopied(sep, rest);
    hide Links;
    hide Continuation;
    hide Join;
  }

  /** Literals that nothing links keep the text between them. */
  lemma UnlinkedLiterals(pre: string, q: char, c: string, sep: string, rest: string)
    requires Plain(pre) && (q == '\'' || q == '"') && Plain(sep) && !Links(sep) && sep != [] && QuoteNext(rest)
    ensures Join(pre + ([q] + (Doubled(c, q) + [q] + (sep + rest)))) == pre + (Resolve(c) + (sep + Join(rest)))
  {
    PlainHasNoQuotes(pre);
    assert (sep + rest)[0] in sep;
    PlainIsCopied(pre, [q] + (Doubled(c, q) + [q] + (sep + rest)));
    LiteralFirst(q, c, sep + rest);
    UnlinkedIsCopied(sep, rest);
    hide Join;
    hide JoinAfter;
  }

  // ---------------------------------------------------------------- chains in text

  lemma {:induction false} ChainBeforeText(pieces: seq<Piece>, t: string)
    requires (forall p :: p in pieces ==> Proper(p)) && NoQuotes(t)
    ensures JoinAfter(RenderedRest(pieces) + t) == Contents(pieces) + t
  {
    if pieces == [] {
      assert RenderedRest(pieces) + t == t && Contents(pieces) + t == t;
      PlainDoesNotContinue(t);
    } else {
      var p, rest := pieces[0], RenderedRest(pieces[1..]) + t;
      assert p in pieces;
      ChainBeforeText(pieces[1..], t);
      PlainStart(pieces[1..], t);
      ContinuesWith(p, rest);
      RegroupRest(p, RenderedRest(pieces[1..]), t);
      assert Contents(pieces) + t == p.content + (Contents(pieces[1..]) + t);
      hide Continuation;
    }
  }

  lemma RegroupRest(p: Piece, more: string, t: string)
    ensures p.before + ['+'] + p.after + Rendered(p) + more + t == p.before + ['+'] + p.after + Rendered(p) + (more + t)
  {
  }

  lemma PlainStart(pieces: seq<Piece>, t: string)
    requires (forall p :: p in pieces ==> Proper(p)) && NoQuotes(t)
    ensures RenderedRest(pieces) + t == [] || !IsQuote((RenderedRest(pieces) + t)[0])
  {
    RestStartsPlain(pieces);
    if RenderedRest(pieces) == [] && t != [] {
      assert t[0] in t;
    }
  }

  /** A chain of literals between quote-free texts is their concatenation between the same texts. */
  lemma ChainInText(pre: string, first: Piece, more: seq<Piece>, t: string)
    requires Plain(pre) && WellWritten(first) && (forall p :: p in more ==> WellWritten(p)) && Plain(t)
    ensures Join(pre + (Rendered(first) + (RenderedRest(more) + t))) == pre + (first.content + (Contents(more) + t))
  {
    WellWrittenIsProper(first);
    forall p | p in more ensures Proper(p) {
      WellWrittenIsProper(p);
    }
    PlainHasNoQuotes(pre);
    PlainHasNoQuotes(t);
    ProperMeans(first);
    hide *;
    var rest := RenderedRest(more) + t;
    PlainIsCopied(pre, Rendered(first) + rest);
    PlainStart(more, t);
    OtherStart(rest, first.quote);
    NothingToDouble(first.content, first.quote);
    LiteralFirst(first.quote, first.content, rest);
    RenderedIs(first, rest);
    ChainBeforeText(more, t);
  }

  lemma ProperMeans(p: Piece)
    requires Proper(p)
    ensures IsQuote(p.quote) && p.quote !in p.content && Resolve(p.content) == p.content
  {
  }

  lemma OtherStart(rest: string, q: char)
    requires rest == [] || !IsQuote(rest[0])
    ensures IsQuote(q) ==> rest == [] || rest[0] != q
  {
  }

  lemma RenderedIs(p: Piece, rest: string)
    ensures Rendered(p) + rest == [p.quote] + (p.content + [p.quote] + rest)
  {
  }

  /**
   A chain inside a literal of the other kind of quotes is resolved too: the outer literal denotes
   the inner texts around the inner concatenation.
   */
  lemma NestedChain(pre: string, q: char, head: string, first: Piece, more: seq<Piece>, tail: string, t: string)
    requires Plain(pre) && Plain(head) && Plain(tail) && Plain(t) && (q == '\'' || q == '"')
    requires WellWritten(first) && forall p :: p in more ==> WellWritten(p)
    requires q !in head + (Rendered(first) + (RenderedRest(more) + tail))
    ensures var inner := head + (Rendered(first) + (RenderedRest(more) + tail));
      Join(pre + ([q] + (inner + [q] + t))) == pre + (head + (first.content + (Contents(more) + tail)) + t)
  {
    var inner := head + (Rendered(first) + (RenderedRest(more) + tail));
    NothingToDouble(inner, q);
    LiteralInText(pre, q, inner, t);
    ChainInText(head, first, more, tail);
    WellWrittenIsProper(first);
    HasQuote(head, first, RenderedRest(more) + tail);
    hide Join;
  }

  lemma HasQuote(head: string, first: Piece, rest: string)
    requires Proper(first)
    ensures !NoQuotes(head + (Rendered(first) + rest))
  {
    var s := head + (Rendered(first) + rest);
    assert s[|head|] == first.quote && s[|head|] in s;
  }
}
