/**
 Resolving quoted string literals before behaviour matching: quotes are dropped,
 literals joined by `+` are concatenated, and the content of a literal is
 resolved recursively.
 */
module Literals {
  import opened Wrappers

  predicate IsQuote(c: char) {
    c == '\'' || c == '"'
  }

  predicate IsBlank(c: char) {
    c == ' ' || c == '\t'
  }

  predicate NoQuotes(s: string) {
    forall c :: c in s ==> !IsQuote(c)
  }

  datatype Literal = Literal(content: string, rest: string)

  /** The literal after an opening `quote`: a doubled quote is a literal character. */
  function ReadBody(s: string, quote: char): (r: Option<Literal>)
    ensures r.Some? ==> |r.value.content| + |r.value.rest| < |s|
    decreases |s|
  {
    if s == [] then None
    else if s[0] != quote then Before([s[0]], ReadBody(s[1..], quote))
    else if |s| > 1 && s[1] == quote then Before([quote], ReadBody(s[2..], quote))
    else Some(Literal([], s[1..]))
  }

  function Before(text: string, r: Option<Literal>): Option<Literal> {
    match r
    case None => None
    case Some(l) => Some(Literal(text + l.content, l.rest))
  }

  function SkipBlanks(s: string): (r: string)
    ensures |r| <= |s|
  {
    if s != [] && IsBlank(s[0]) then SkipBlanks(s[1..]) else s
  }

  /** The literal that continues a concatenation: blanks, `+`, blanks, and a terminated literal. */
  function Continuation(s: string): (r: Option<Literal>)
    ensures r.Some? ==> |r.value.content| + |r.value.rest| < |s|
  {
    var t := SkipBlanks(s);
    if t == [] || t[0] != '+' then None
    else
      var u := SkipBlanks(t[1..]);
      if u == [] || !IsQuote(u[0]) then None else ReadBody(u[1..], u[0])
  }

  /** All quoted literals resolved. */
  function Join(s: string): string
    decreases |s|, 0
  {
    if s == [] then []
    else if !IsQuote(s[0]) then [s[0]] + Join(s[1..])
    else
      match ReadBody(s[1..], s[0])
      case None => Join(s[1..])
      case Some(l) => Resolve(l.content) + JoinAfter(l.rest)
  }

  /** What follows a literal: more literals joined by `+`, then ordinary text. */
  function JoinAfter(s: string): string
    decreases |s|, 1
  {
    match Continuation(s)
    case None => Join(s)
    case Some(l) => Resolve(l.content) + JoinAfter(l.rest)
  }

  function Resolve(content: string): string
    decreases |content|, 2
  {
    if NoQuotes(content) then content else Join(content)
  }

  // ---------------------------------------------------------------- the loops

  /** The scanning loop of one literal, from its opening quote at `start`. */
  method ReadQuotedLiteral(text: string, start: nat) returns (content: string, next: nat, ok: bool)
    requires start < |text| && IsQuote(text[start])
    ensures ok <==> ReadBody(text[start + 1..], text[start]).Some?
    ensures ok ==>
      start + 1 < next <= |text| && ReadBody(text[start + 1..], text[start]).value == Literal(content, text[next..])
  {
    var quote := text[start];
    var index: nat := start + 1;
    content := [];
    ghost var whole := ReadBody(text[start + 1..], quote);
    BeforeNothing(whole);
    while index < |text|
      invariant start + 1 <= index <= |text|
      invariant whole == Before(content, ReadBody(text[index..], quote))
    {
      ghost var s := text[index..];
      assert s[1..] == text[index + 1..];
      if text[index] != quote {
        BeforeBefore(content, [text[index]], ReadBody(text[index + 1..], quote));
        content := content + [text[index]];
        index := index + 1;
      } else if index + 1 < |text| && text[index + 1] == quote {
        assert s[2..] == text[index + 2..];
        BeforeBefore(content, [quote], ReadBody(text[index + 2..], quote));
        content := content + [quote];
        index := index + 2;
      } else {
        assert content + [] == content;
        return content, index + 1, true;
      }
    }
    return [], 0, false;
  }

  lemma BeforeNothing(r: Option<Literal>)
    ensures Before([], r) == r
  {
    if r.Some? {
      assert [] + r.value.content == r.value.content;
    }
  }

  lemma BeforeBefore(a: string, b: string, r: Option<Literal>)
    ensures Before(a, Before(b, r)) == Before(a + b, r)
  {
    if r.Some? {
      assert a + (b + r.value.content) == a + b + r.value.content;
    }
  }

  method SkipBlanksFrom(text: string, start: nat) returns (index: nat)
    requires start <= |text|
    ensures start <= index <= |text|
    ensures SkipBlanks(text[start..]) == text[index..]
    ensures index < |text| ==> !IsBlank(text[index])
  {
    index := start;
    while index < |text| && IsBlank(text[index])
      invariant start <= index <= |text|
      invariant SkipBlanks(text[start..]) == SkipBlanks(text[index..])
    {
      assert text[index..][1..] == text[index + 1..];
      index := index + 1;
    }
  }

  /** The probe for a continued concatenation after a literal that ends before `start`. */
  method ProbeContinuation(text: string, start: nat) returns (content: string, next: nat, ok: bool)
    requires start <= |text|
    ensures ok <==> Continuation(text[start..]).Some?
    ensures ok ==> start < next <= |text| && Continuation(text[start..]).value == Literal(content, text[next..])
    ensures ok ==> |content| < |text|
  {
    var probe := SkipBlanksFrom(text, start);
    if probe >= |text| || text[probe] != '+' {
      return [], start, false;
    }
    assert text[probe..][1..] == text[probe + 1..];
    probe := SkipBlanksFrom(text, probe + 1);
    if probe >= |text| || !IsQuote(text[probe]) {
      return [], start, false;
    }
    assert text[probe..][1..] == text[probe + 1..];
    content, next, ok := ReadQuotedLiteral(text, probe);
  }

  /** Appends all literals that continue a concatenation. */
  method JoinContinuations(text: string, start: nat) returns (out: string, index: nat)
    requires start <= |text|
    ensures start <= index <= |text|
    ensures JoinAfter(text[start..]) == out + Join(text[index..])
    decreases |text|, 0
  {
    out, index := [], start;
    var going := true;
    assert [] + JoinAfter(text[start..]) == JoinAfter(text[start..]);
    while going
      invariant start <= index <= |text|
      invariant JoinAfter(text[start..]) == out + (if going then JoinAfter(text[index..]) else Join(text[index..]))
      decreases if going then |text| - index + 1 else 0
    {
      var content, next, ok := ProbeContinuation(text, index);
      if !ok {
        going := false;
      } else {
        var resolved := NormalizeQuotedContent(content);
        assert out + (resolved + JoinAfter(text[next..])) == out + resolved + JoinAfter(text[next..]);
        out := out + resolved;
        index := next;
      }
    }
  }

  /** One turn of the main loop: an ordinary character, a stray quote, or a literal with its continuations. */
  method JoinOne(text: string, start: nat) returns (piece: string, index: nat)
    requires start < |text|
    ensures start < index <= |text|
    ensures Join(text[start..]) == piece + Join(text[index..])
    decreases |text|, 1
  {
    assert text[start..][1..] == text[start + 1..];
    if !IsQuote(text[start]) {
      return [text[start]], start + 1;
    }
    var content, next, ok := ReadQuotedLiteral(text, start);
    if !ok {
      assert [] + Join(text[start + 1..]) == Join(text[start + 1..]);
      return [], start + 1;
    }
    var resolved := NormalizeQuotedContent(content);
    var more, after := JoinContinuations(text, next);
    assert resolved + (more + Join(text[after..])) == resolved + more + Join(text[after..]);
    return resolved + more, after;
  }

  method JoinQuotedLiterals(text: string) returns (out: string)
    ensures out == Join(text)
    decreases |text|, 2
  {
    out := [];
    var index: nat := 0;
    assert text[0..] == text && [] + Join(text) == Join(text);
    hide Join;
    while index < |text|
      invariant index <= |text|
      invariant Join(text) == out + Join(text[index..])
    {
      var piece, next := JoinOne(text, index);
      assert out + (piece + Join(text[next..])) == out + piece + Join(text[next..]);
      out := out + piece;
      index := next;
    }
    QuoteFreeUnchanged([]);
    assert out + [] == out;
  }

  method NormalizeQuotedContent(content: string) returns (out: string)
    ensures out == Resolve(content)
    decreases |content|, 3
  {
    if NoQuotes(content) {
      return content;
    }
    out := JoinQuotedLiterals(content);
  }

  // ---------------------------------------------------------------- no quote survives, no letter is lost

  lemma {:induction false} JoinHasNoQuotes(s: string)
    ensures NoQuotes(Join(s))
    decreases |s|, 0
  {
    if s != [] {
      if !IsQuote(s[0]) {
        JoinHasNoQuotes(s[1..]);
      } else {
        var l := ReadBody(s[1..], s[0]);
        if l.None? {
          JoinHasNoQuotes(s[1..]);
        } else {
          ResolveHasNoQuotes(l.value.content);
          AfterHasNoQuotes(l.value.rest);
        }
      }
    }
  }

  lemma {:induction false} AfterHasNoQuotes(s: string)
    ensures NoQuotes(JoinAfter(s))
    decreases |s|, 1
  {
    var l := Continuation(s);
    if l.None? {
      JoinHasNoQuotes(s);
    } else {
      ResolveHasNoQuotes(l.value.content);
      AfterHasNoQuotes(l.value.rest);
    }
  }

  lemma {:induction false} ResolveHasNoQuotes(content: string)
    ensures NoQuotes(Resolve(content))
    decreases |content|, 2
  {
    if !NoQuotes(content) {
      JoinHasNoQuotes(content);
    }
  }

  /** The characters of `s` that satisfy `keep`, in order. */
  function Kept(keep: char -> bool, s: string): string {
    if s == [] then [] else KeptOne(keep, s[0]) + Kept(keep, s[1..])
  }

  function KeptOne(keep: char -> bool, c: char): string {
    if keep(c) then [c] else []
  }

  /** `keep` ignores everything the joiner may drop. */
  ghost predicate IgnoresJoining(keep: char -> bool) {
    !keep('\'') && !keep('"') && !keep('+') && !keep(' ') && !keep('\t')
  }

  lemma {:induction false} KeptConcat(keep: char -> bool, a: string, b: string)
    ensures Kept(keep, a + b) == Kept(keep, a) + Kept(keep, b)
  {
    if a == [] {
      assert a + b == b;
    } else {
      assert (a + b)[1..] == a[1..] + b;
      KeptConcat(keep, a[1..], b);
      Assoc(KeptOne(keep, a[0]), Kept(keep, a[1..]), Kept(keep, b));
    }
  }

  lemma Assoc(a: string, b: string, c: string)
    ensures a + (b + c) == a + b + c
  {
  }

  lemma KeptCons(keep: char -> bool, s: string)
    requires s != []
    ensures Kept(keep, s) == Kept(keep, [s[0]]) + Kept(keep, s[1..])
  {
    assert s == [s[0]] + s[1..];
    KeptConcat(keep, [s[0]], s[1..]);
  }

  lemma KeptNothing(keep: char -> bool, c: char)
    requires !keep(c)
    ensures Kept(keep, [c]) == []
  {
    assert [c][1..] == [];
  }

  /** Reading one character and then a literal keeps what the text keeps. */
  lemma KeptStep(keep: char -> bool, c: char, s: string, content: string, rest: string)
    requires Kept(keep, s) == Kept(keep, content) + Kept(keep, rest)
    ensures Kept(keep, [c] + s) == Kept(keep, [c] + content) + Kept(keep, rest)
  {
    KeptConcat(keep, [c], s);
    KeptConcat(keep, [c], content);
    Assoc(Kept(keep, [c]), Kept(keep, content), Kept(keep, rest));
  }

  lemma {:induction false} SkipKeeps(keep: char -> bool, s: string)
    requires IgnoresJoining(keep)
    ensures Kept(keep, SkipBlanks(s)) == Kept(keep, s)
  {
    if s != [] && IsBlank(s[0]) {
      SkipKeeps(keep, s[1..]);
    }
  }

  lemma {:induction false} ReadKeeps(keep: char -> bool, s: string, quote: char)
    requires IgnoresJoining(keep) && IsQuote(quote) && ReadBody(s, quote).Some?
    ensures var l := ReadBody(s, quote).value;
      Kept(keep, s) == Kept(keep, l.content) + Kept(keep, l.rest)
    decreases |s|
  {
    hide Kept;
    if s[0] != quote {
      var l := ReadBody(s[1..], quote).value;
      ReadKeeps(keep, s[1..], quote);
      KeptStep(keep, s[0], s[1..], l.content, l.rest);
      assert [s[0]] + s[1..] == s;
    } else if |s| > 1 && s[1] == quote {
      var l := ReadBody(s[2..], quote).value;
      ReadKeeps(keep, s[2..], quote);
      KeptStep(keep, quote, s[2..], l.content, l.rest);
      KeptNothing(keep, quote);
      KeptConcat(keep, [quote], [quote] + s[2..]);
      assert s == [quote] + ([quote] + s[2..]);
      assert [] + Kept(keep, [quote] + s[2..]) == Kept(keep, [quote] + s[2..]);
    } else {
      KeptNothing(keep, quote);
      KeptConcat(keep, [quote], s[1..]);
      assert s == [quote] + s[1..];
      KeptEmpty(keep);
    }
  }

  lemma KeptDrop(keep: char -> bool, s: string)
    requires s != [] && !keep(s[0])
    ensures Kept(keep, s) == Kept(keep, s[1..])
  {
    assert [] + Kept(keep, s[1..]) == Kept(keep, s[1..]);
  }

  lemma KeptEmpty(keep: char -> bool)
    ensures Kept(keep, []) == []
  {
  }

  lemma ContinuationKeeps(keep: char -> bool, s: string)
    requires IgnoresJoining(keep) && Continuation(s).Some?
    ensures var l := Continuation(s).value;
      Kept(keep, s) == Kept(keep, l.content) + Kept(keep, l.rest)
  {
    var t := SkipBlanks(s);
    var u := SkipBlanks(t[1..]);
    SkipKeeps(keep, s);
    SkipKeeps(keep, t[1..]);
    ReadKeeps(keep, u[1..], u[0]);
  }

  /** The joiner keeps, in order, exactly the characters other than quotes, `+`, space and tab. */
  lemma {:induction false} JoinKeepsLetters(keep: char -> bool, s: string)
    requires IgnoresJoining(keep)
    ensures Kept(keep, Join(s)) == Kept(keep, s)
    decreases |s|, 0
  {
    hide Kept;
    hide ReadBody;
    hide Resolve;
    hide JoinAfter;
    KeptEmpty(keep);
    if s != [] {
      if !IsQuote(s[0]) {
        JoinKeepsLetters(keep, s[1..]);
        KeptConcat(keep, [s[0]], Join(s[1..]));
        KeptConcat(keep, [s[0]], s[1..]);
        assert [s[0]] + s[1..] == s;
      } else {
        KeptDrop(keep, s);
        var l := ReadBody(s[1..], s[0]);
        if l.None? {
          JoinKeepsLetters(keep, s[1..]);
        } else {
          ReadKeeps(keep, s[1..], s[0]);
          ResolveKeepsLetters(keep, l.value.content);
          AfterKeepsLetters(keep, l.value.rest);
          KeptConcat(keep, Resolve(l.value.content), JoinAfter(l.value.rest));
        }
      }
    }
  }

  lemma {:induction false} AfterKeepsLetters(keep: char -> bool, s: string)
    requires IgnoresJoining(keep)
    ensures Kept(keep, JoinAfter(s)) == Kept(keep, s)
    decreases |s|, 1
  {
    hide Kept;
    hide Continuation;
    hide Resolve;
    hide Join;
    var l := Continuation(s);
    if l.None? {
      JoinKeepsLetters(keep, s);
    } else {
      ContinuationKeeps(keep, s);
      ResolveKeepsLetters(keep, l.value.content);
      AfterKeepsLetters(keep, l.value.rest);
      KeptConcat(keep, Resolve(l.value.content), JoinAfter(l.value.rest));
    }
  }

  lemma {:induction false} ResolveKeepsLetters(keep: char -> bool, content: string)
    requires IgnoresJoining(keep)
    ensures Kept(keep, Resolve(content)) == Kept(keep, content)
    decreases |content|, 2
  {
    if !NoQuotes(content) {
      JoinKeepsLetters(keep, content);
    }
  }

  lemma {:induction false} QuoteFreeUnchanged(s: string)
    requires NoQuotes(s)
    ensures Join(s) == s
  {
    if s != [] {
      assert s[0] in s;
      QuoteFreeUnchanged(s[1..]);
      assert [s[0]] + s[1..] == s;
    }
  }

  lemma JoinIdempotent(s: string)
    ensures Join(Join(s)) == Join(s)
  {
    JoinHasNoQuotes(s);
    QuoteFreeUnchanged(Join(s));
  }

  // ---------------------------------------------------------------- concatenations are resolved

  /** A literal in a concatenation: its content, its delimiter, and the blanks around the `+` before it. */
  datatype Piece = Piece(content: string, quote: char, before: string, after: string)

  ghost predicate Blank(s: string) {
    forall c :: c in s ==> IsBlank(c)
  }

  ghost predicate Proper(p: Piece) {
    NoQuotes(p.content) && IsQuote(p.quote) && Blank(p.before) && Blank(p.after)
  }

  function Rendered(p: Piece): string {
    [p.quote] + p.content + [p.quote]
  }

  /** The source text of the literals after the first one. */
  function RenderedRest(pieces: seq<Piece>): string {
    if pieces == [] then []
    else pieces[0].before + ['+'] + pieces[0].after + Rendered(pieces[0]) + RenderedRest(pieces[1..])
  }

  function Contents(pieces: seq<Piece>): string {
    if pieces == [] then [] else pieces[0].content + Contents(pieces[1..])
  }

  lemma {:induction false} ReadWhole(content: string, quote: char, rest: string)
    requires NoQuotes(content) && IsQuote(quote)
    requires rest == [] || rest[0] != quote
    ensures ReadBody(content + [quote] + rest, quote) == Some(Literal(content, rest))
  {
    var s := content + [quote] + rest;
    if content == [] {
      assert s[1..] == rest;
    } else {
      assert content[0] in content;
      assert s[1..] == content[1..] + [quote] + rest;
      ReadWhole(content[1..], quote, rest);
      assert [content[0]] + content[1..] == content;
    }
  }

  lemma {:induction false} SkipAll(blanks: string, s: string)
    requires Blank(blanks) && (s == [] || !IsBlank(s[0]))
    ensures SkipBlanks(blanks + s) == s
  {
    if blanks == [] {
      assert blanks + s == s;
    } else {
      assert blanks[0] in blanks;
      assert (blanks + s)[1..] == blanks[1..] + s;
      SkipAll(blanks[1..], s);
    }
  }

  lemma ContinuesWith(p: Piece, rest: string)
    requires Proper(p) && (rest == [] || !IsQuote(rest[0]))
    ensures Continuation(p.before + ['+'] + p.after + Rendered(p) + rest) == Some(Literal(p.content, rest))
  {
    var s := p.before + ['+'] + p.after + Rendered(p) + rest;
    var u := Rendered(p) + rest;
    var t := ['+'] + (p.after + u);
    RenderedOpens(p, rest);
    Regroup(p.before, p.after, Rendered(p), rest);
    hide Rendered;
    SkipAll(p.before, t);
    SkipAll(p.after, u);
    ReadWhole(p.content, p.quote, rest);
    hide SkipBlanks;
    hide ReadBody;
    ContinuesAfter(s, t, p.after + u, u);
  }

  lemma Regroup(before: string, after: string, literal: string, rest: string)
    ensures before + ['+'] + after + literal + rest == before + (['+'] + (after + (literal + rest)))
    ensures (['+'] + (after + (literal + rest)))[1..] == after + (literal + rest)
  {
  }

  lemma RenderedOpens(p: Piece, rest: string)
    ensures Rendered(p) + rest != [] && (Rendered(p) + rest)[0] == p.quote
    ensures (Rendered(p) + rest)[1..] == p.content + [p.quote] + rest
  {
  }

  lemma ContinuesAfter(s: string, t: string, afterPlus: string, u: string)
    requires SkipBlanks(s) == t && t != [] && t[0] == '+' && t[1..] == afterPlus
    requires SkipBlanks(afterPlus) == u && u != [] && IsQuote(u[0])
    ensures Continuation(s) == ReadBody(u[1..], u[0])
  {
    hide SkipBlanks;
    hide ReadBody;
  }

  lemma RestStartsPlain(pieces: seq<Piece>)
    requires forall p :: p in pieces ==> Proper(p)
    ensures RenderedRest(pieces) == [] || !IsQuote(RenderedRest(pieces)[0])
  {
    if pieces != [] {
      assert pieces[0] in pieces;
      var s := RenderedRest(pieces);
      if pieces[0].before != [] {
        assert s[0] == pieces[0].before[0] && pieces[0].before[0] in pieces[0].before;
      } else {
        assert s[0] == '+';
      }
    }
  }

  lemma {:induction false} AfterConcatenates(pieces: seq<Piece>)
    requires forall p :: p in pieces ==> Proper(p)
    ensures JoinAfter(RenderedRest(pieces)) == Contents(pieces)
  {
    if pieces != [] {
      assert pieces[0] in pieces;
      RestStartsPlain(pieces[1..]);
      ContinuesWith(pieces[0], RenderedRest(pieces[1..]));
      AfterConcatenates(pieces[1..]);
    }
  }

  /**
   Any number of quote-free literals, in either kind of quotes, joined by `+` with any blanks: their
   concatenation.
   */
  lemma ConcatenationResolved(first: Piece, more: seq<Piece>)
    requires Proper(first) && forall p :: p in more ==> Proper(p)
    ensures Join(Rendered(first) + RenderedRest(more)) == first.content + Contents(more)
  {
    var s := Rendered(first) + RenderedRest(more);
    RestStartsPlain(more);
    assert s[1..] == first.content + [first.quote] + RenderedRest(more);
    ReadWhole(first.content, first.quote, RenderedRest(more));
    AfterConcatenates(more);
  }
}
