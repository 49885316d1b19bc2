/**
 The Windows command-line splitter and the quoting rule it inverts: backslashes
 are literal unless they run up to a double quote, where 2n stand for n, and
 2n+1 for n and a literal quote.
 */
module CommandLine {
  import opened Wrappers

  const QUOTE := '"'
  const BACKSLASH := '\\'
  const NUL := '\0'

  predicate IsSpace(c: char) {
    c == ' ' || c == '\t'
  }

  function Repeat(c: char, n: nat): (s: string)
    ensures |s| == n
    ensures forall i :: 0 <= i < n ==> s[i] == c
  {
    seq(n, _ => c)
  }

  /** The length of the run of backslashes at the start. */
  function Run(s: string): (n: nat)
    ensures n <= |s|
    ensures s[..n] == Repeat(BACKSLASH, n)
    ensures n < |s| ==> s[n] != BACKSLASH
  {
    if s != [] && s[0] == BACKSLASH then
      var n := Run(s[1..]);
      assert s[..n + 1] == [s[0]] + s[1..][..n];
      n + 1
    else 0
  }

  /** One argument, the unread rest, and whether a quote is still open. */
  datatype Arg = Arg(text: string, rest: string, open: bool)

  /** `text` read before the argument `a`. */
  function Then(text: string, a: Arg): Arg {
    a.(text := text + a.text)
  }

  /** Reads one argument: `quoted` says whether blanks belong to it. */
  function ReadArg(s: string, quoted: bool): (a: Arg)
    ensures |a.rest| <= |s|
    ensures s != [] && (quoted || !IsSpace(s[0])) ==> |a.rest| < |s|
    ensures a.rest != [] ==> IsSpace(a.rest[0]) && !a.open
    decreases |s|
  {
    if s == [] then Arg([], [], quoted)
    else if s[0] == BACKSLASH then
      var n := Run(s);
      if n < |s| && s[n] == QUOTE then
        if n % 2 == 1 then Then(Repeat(BACKSLASH, n / 2) + [QUOTE], ReadArg(s[n + 1..], quoted))
        else Then(Repeat(BACKSLASH, n / 2), ReadArg(s[n + 1..], !quoted))
      else Then(Repeat(BACKSLASH, n), ReadArg(s[n..], quoted))
    else if s[0] == QUOTE then ReadArg(s[1..], !quoted)
    else if !quoted && IsSpace(s[0]) then Arg([], s, false)
    else Then([s[0]], ReadArg(s[1..], quoted))
  }

  function SkipSpace(s: string): (r: string)
    ensures |r| <= |s|
    ensures r != [] ==> !IsSpace(r[0])
  {
    if s != [] && IsSpace(s[0]) then SkipSpace(s[1..]) else s
  }

  function SplitArgs(s: string): Option<seq<string>>
    decreases |s|
  {
    var t := SkipSpace(s);
    if t == [] then Some([])
    else
      var a := ReadArg(t, false);
      if a.open then None
      else
        match SplitArgs(a.rest)
        case None => None
        case Some(args) => Some([a.text] + args)
  }

  /** The splitter: a NUL or an unterminated quote is an error. */
  function Split(s: string): Option<seq<string>> {
    if NUL in s then None else SplitArgs(s)
  }

  // ---------------------------------------------------------------- one step of reading

  lemma ThenThen(text: string, head: string, a: Arg)
    ensures Then(text, Then(head, a)) == Then(text + head, a)
  {
    assert text + (head + a.text) == text + head + a.text;
  }

  lemma ThenNothing(a: Arg)
    ensures Then([], a) == a
  {
    assert [] + a.text == a.text;
  }

  lemma {:induction false} RunOf(n: nat, s: string)
    requires s == [] || s[0] != BACKSLASH
    ensures Run(Repeat(BACKSLASH, n) + s) == n
  {
    if n == 0 {
      assert Repeat(BACKSLASH, 0) + s == s;
    } else {
      RunOf(n - 1, s);
      assert (Repeat(BACKSLASH, n) + s)[1..] == Repeat(BACKSLASH, n - 1) + s;
    }
  }

  /** A run of backslashes not followed by a quote is literal. */
  lemma ReadRun(n: nat, s: string, quoted: bool)
    requires s == [] || (s[0] != BACKSLASH && s[0] != QUOTE)
    ensures ReadArg(Repeat(BACKSLASH, n) + s, quoted) == Then(Repeat(BACKSLASH, n), ReadArg(s, quoted))
  {
    var t := Repeat(BACKSLASH, n) + s;
    RunOf(n, s);
    if n == 0 {
      assert t == s;
      ThenNothing(ReadArg(s, quoted));
    } else {
      assert t[n..] == s;
    }
  }

  /** What a run of `n` backslashes before a quote contributes. */
  function Escaped(n: nat): string {
    if n % 2 == 1 then Repeat(BACKSLASH, n / 2) + [QUOTE] else Repeat(BACKSLASH, n / 2)
  }

  /** A run of backslashes before a quote is halved; an odd run escapes the quote. */
  lemma ReadRunQuote(n: nat, s: string, quoted: bool)
    ensures ReadArg(Repeat(BACKSLASH, n) + ([QUOTE] + s), quoted)
         == Then(Escaped(n), ReadArg(s, if n % 2 == 1 then quoted else !quoted))
  {
    var t := Repeat(BACKSLASH, n) + ([QUOTE] + s);
    RunOf(n, [QUOTE] + s);
    AfterRun(n, s);
    if n == 0 {
      ThenNothing(ReadArg(s, !quoted));
      ReadQuoteMark(t, quoted);
    } else {
      ReadEscape(t, n, s, quoted);
    }
  }

  lemma AfterRun(n: nat, s: string)
    ensures var t := Repeat(BACKSLASH, n) + ([QUOTE] + s);
      && |t| > n && t[n] == QUOTE && t[n + 1..] == s
      && (n > 0 ==> t[0] == BACKSLASH) && (n == 0 ==> t[0] == QUOTE && t[1..] == s)
  {
  }

  lemma ReadEscape(t: string, n: nat, s: string, quoted: bool)
    requires 0 < n < |t| && t[0] == BACKSLASH && Run(t) == n && t[n] == QUOTE && t[n + 1..] == s
    ensures ReadArg(t, quoted) == Then(Escaped(n), ReadArg(s, if n % 2 == 1 then quoted else !quoted))
  {
    hide Then;
    hide Run;
    hide Repeat;
  }

  lemma ReadChar(c: char, s: string, quoted: bool)
    requires c != BACKSLASH && c != QUOTE && (quoted || !IsSpace(c))
    ensures ReadArg([c] + s, quoted) == Then([c], ReadArg(s, quoted))
  {
    assert ([c] + s)[1..] == s;
  }

  predicate Ends(rest: string) {
    rest == [] || IsSpace(rest[0])
  }

  lemma ReadEnd(rest: string)
    requires Ends(rest)
    ensures ReadArg(rest, false) == Arg([], rest, false)
  {
  }

  // ---------------------------------------------------------------- the loops

  /** Counts a run of backslashes. */
  method CountRun(input: string, first: nat) returns (index: nat)
    requires first < |input|
    ensures first <= index <= |input|
    ensures input[first..] == Repeat(BACKSLASH, index - first) + input[index..]
    ensures index < |input| ==> input[index] != BACKSLASH
    ensures input[first] == BACKSLASH ==> first < index
  {
    index := first;
    while index < |input| && input[index] == BACKSLASH
      invariant first <= index <= |input|
      invariant forall i :: first <= i < index ==> input[i] == BACKSLASH
    {
      index := index + 1;
    }
  }

  lemma ReadQuoteMark(s: string, quoted: bool)
    requires s != [] && s[0] == QUOTE
    ensures ReadArg(s, quoted) == ReadArg(s[1..], !quoted)
  {
  }

  /** The backslash branch: a run that meets a quote is halved and consumes it. */
  method ReadBackslashes(input: string, first: nat, quoted0: bool) returns (head: string, index: nat, quoted: bool)
    requires first < |input| && input[first] == BACKSLASH
    ensures first < index <= |input|
    ensures ReadArg(input[first..], quoted0) == Then(head, ReadArg(input[index..], quoted))
  {
    hide ReadArg;
    hide Then;
    index := CountRun(input, first);
    quoted := quoted0;
    var count := index - first;
    if index < |input| && input[index] == QUOTE {
      assert input[index..] == [QUOTE] + input[index + 1..];
      ReadRunQuote(count, input[index + 1..], quoted);
      head := Repeat(BACKSLASH, count / 2);
      if count % 2 == 1 {
        head := head + [QUOTE];
      } else {
        quoted := !quoted;
      }
      index := index + 1;
    } else {
      ReadRun(count, input[index..], quoted);
      head := Repeat(BACKSLASH, count);
    }
  }

  /** The inner loop: one argument from position `start`. */
  method ReadArgument(input: string, start: nat) returns (text: string, index: nat, quoted: bool)
    requires start < |input| && !IsSpace(input[start])
    ensures start < index <= |input|
    ensures ReadArg(input[start..], false) == Arg(text, input[index..], quoted)
  {
    hide ReadArg;
    hide Then;
    text, index, quoted := [], start, false;
    ghost var whole := ReadArg(input[start..], false);
    ThenNothing(whole);
    var scanning := true;
    while index < |input| && scanning
      invariant start <= index <= |input|
      invariant whole == Then(text, ReadArg(input[index..], quoted))
      invariant !scanning ==> index < |input| && !quoted && IsSpace(input[index])
      invariant index == start ==> !quoted && scanning
      decreases |input| - index, scanning
    {
      if input[index] == BACKSLASH {
        var head;
        head, index, quoted := ReadBackslashes(input, index, quoted);
        ThenThen(text, head, ReadArg(input[index..], quoted));
        text := text + head;
      } else if input[index] == QUOTE {
        assert input[index..][1..] == input[index + 1..];
        ReadQuoteMark(input[index..], quoted);
        quoted := !quoted;
        index := index + 1;
      } else if !quoted && IsSpace(input[index]) {
        scanning := false;
      } else {
        assert input[index..] == [input[index]] + input[index + 1..];
        ReadChar(input[index], input[index + 1..], quoted);
        ThenThen(text, [input[index]], ReadArg(input[index + 1..], quoted));
        text := text + [input[index]];
        index := index + 1;
      }
    }
    ReadStops(text, input[index..], quoted);
  }

  lemma ReadStops(text: string, rest: string, quoted: bool)
    requires rest == [] || (!quoted && IsSpace(rest[0]))
    ensures Then(text, ReadArg(rest, quoted)) == Arg(text, rest, quoted)
  {
    assert text + [] == text;
  }

  /** The outer loop. */
  method SplitCommandLine(input: string) returns (result: Option<seq<string>>)
    ensures result == Split(input)
  {
    if NUL in input {
      return None;
    }
    var args: seq<string> := [];
    var index: nat := 0;
    assert input[0..] == input;
    PrependNothing(SplitArgs(input));
    while index < |input|
      invariant index <= |input|
      invariant SplitArgs(input) == Prepend(args, SplitArgs(input[index..]))
    {
      ghost var from := index;
      while index < |input| && IsSpace(input[index])
        invariant from <= index <= |input|
        invariant SkipSpace(input[from..]) == SkipSpace(input[index..])
      {
        assert input[index..][1..] == input[index + 1..];
        index := index + 1;
      }
      SameAfterBlanks(input[from..], input[index..]);
      if index == |input| {
        assert args + [] == args;
        return Some(args);
      }
      var text, next, quoted := ReadArgument(input, index);
      SplitStep(input[index..], Arg(text, input[next..], quoted));
      if quoted {
        return None;
      }
      PrependArg(args, text, SplitArgs(input[next..]));
      args := args + [text];
      index := next;
    }
    assert args + [] == args;
    return Some(args);
  }

  lemma SplitStep(s: string, a: Arg)
    requires s != [] && !IsSpace(s[0]) && a == ReadArg(s, false)
    ensures SplitArgs(s) == if a.open then None else Prepend([a.text], SplitArgs(a.rest))
  {
  }

  lemma PrependNothing(rest: Option<seq<string>>)
    ensures Prepend([], rest) == rest
  {
    if rest.Some? {
      assert [] + rest.value == rest.value;
    }
  }

  function Prepend(args: seq<string>, rest: Option<seq<string>>): Option<seq<string>> {
    match rest
    case None => None
    case Some(more) => Some(args + more)
  }

  lemma PrependArg(args: seq<string>, text: string, rest: Option<seq<string>>)
    ensures Prepend(args, Prepend([text], rest)) == Prepend(args + [text], rest)
  {
    if rest.Some? {
      assert args + ([text] + rest.value) == args + [text] + rest.value;
    }
  }

  lemma SameAfterBlanks(s: string, t: string)
    requires SkipSpace(s) == SkipSpace(t)
    ensures SplitArgs(s) == SplitArgs(t)
  {
  }

  // ---------------------------------------------------------------- quoting

  /** An argument that may be written without quotes. */
  predicate Plain(arg: string) {
    arg != [] && forall c :: c in arg ==> !IsSpace(c) && c != QUOTE
  }

  /** The inside of a quoted argument, followed by the closing quote. */
  function QuoteBody(arg: string): (q: string)
    decreases |arg|
  {
    var n := Run(arg);
    if n == |arg| then Repeat(BACKSLASH, 2 * n) + [QUOTE]
    else if arg[n] == QUOTE then Repeat(BACKSLASH, 2 * n + 1) + [QUOTE] + QuoteBody(arg[n + 1..])
    else Repeat(BACKSLASH, n) + [arg[n]] + QuoteBody(arg[n + 1..])
  }

  /** Microsoft's quoting rule; quotes are optional around a plain argument. */
  function QuoteArg(arg: string, force: bool): string {
    if Plain(arg) && !force then arg else [QUOTE] + QuoteBody(arg)
  }

  /** A command line: quoted arguments joined with single spaces. */
  function Join(args: seq<string>, force: seq<bool>): string
    requires |force| == |args|
  {
    if args == [] then []
    else if |args| == 1 then QuoteArg(args[0], force[0])
    else QuoteArg(args[0], force[0]) + [' '] + Join(args[1..], force[1..])
  }

  // ---------------------------------------------------------------- splitting inverts quoting

  lemma {:induction false} ReadQuoted(arg: string, rest: string)
    requires Ends(rest)
    ensures ReadArg(QuoteBody(arg) + rest, true) == Arg(arg, rest, false)
    decreases |arg|
  {
    hide ReadArg;
    hide Repeat;
    var n := Run(arg);
    Cut(arg, n, Repeat(BACKSLASH, n));
    if n == |arg| {
      QuotedEnd(n, rest);
    } else {
      var tail := arg[n + 1..];
      ReadQuoted(tail, rest);
      if arg[n] == QUOTE {
        QuotedQuote(n, QuoteBody(tail), rest, tail);
      } else {
        QuotedChar(n, arg[n], QuoteBody(tail), rest, tail);
      }
    }
  }

  lemma Cut(s: string, n: nat, head: string)
    requires n <= |s| && s[..n] == head
    ensures n == |s| ==> s == head
    ensures n < |s| ==> s == head + [s[n]] + s[n + 1..]
  {
  }

  lemma QuotedQuote(n: nat, body: string, rest: string, tail: string)
    requires ReadArg(body + rest, true) == Arg(tail, rest, false)
    ensures ReadArg(Repeat(BACKSLASH, 2 * n + 1) + [QUOTE] + body + rest, true)
         == Arg(Repeat(BACKSLASH, n) + [QUOTE] + tail, rest, false)
  {
    hide ReadArg;
    hide Repeat;
    ReadRunQuote(2 * n + 1, body + rest, true);
    QuoteGroups(Repeat(BACKSLASH, 2 * n + 1), body, rest);
    EscapedOdd(n);
  }

  lemma QuoteGroups(run: string, body: string, rest: string)
    ensures run + [QUOTE] + body + rest == run + ([QUOTE] + (body + rest))
  {
  }

  lemma EscapedOdd(n: nat)
    ensures Escaped(2 * n + 1) == Repeat(BACKSLASH, n) + [QUOTE] && (2 * n + 1) % 2 == 1
  {
    hide Repeat;
    assert (2 * n + 1) / 2 == n && (2 * n + 1) % 2 == 1;
  }

  lemma QuotedChar(n: nat, c: char, body: string, rest: string, tail: string)
    requires c != BACKSLASH && c != QUOTE && ReadArg(body + rest, true) == Arg(tail, rest, false)
    ensures ReadArg(Repeat(BACKSLASH, n) + [c] + body + rest, true)
         == Arg(Repeat(BACKSLASH, n) + [c] + tail, rest, false)
  {
    hide ReadArg;
    hide Repeat;
    ReadRun(n, [c] + (body + rest), true);
    ReadChar(c, body + rest, true);
    assert Repeat(BACKSLASH, n) + [c] + body + rest == Repeat(BACKSLASH, n) + ([c] + (body + rest));
    assert Repeat(BACKSLASH, n) + ([c] + tail) == Repeat(BACKSLASH, n) + [c] + tail;
  }

  lemma QuotedEnd(n: nat, rest: string)
    requires Ends(rest)
    ensures ReadArg(Repeat(BACKSLASH, 2 * n) + [QUOTE] + rest, true) == Arg(Repeat(BACKSLASH, n), rest, false)
  {
    hide ReadArg;
    assert Repeat(BACKSLASH, 2 * n) + [QUOTE] + rest == Repeat(BACKSLASH, 2 * n) + ([QUOTE] + rest);
    ReadRunQuote(2 * n, rest, true);
    ReadEnd(rest);
    assert Escaped(2 * n) + [] == Repeat(BACKSLASH, n);
  }

  lemma {:induction false} ReadPlain(arg: string, rest: string)
    requires forall c :: c in arg ==> !IsSpace(c) && c != QUOTE
    requires Ends(rest)
    ensures ReadArg(arg + rest, false) == Arg(arg, rest, false)
    decreases |arg|
  {
    hide ReadArg;
    var n := Run(arg);
    if arg == [] {
      assert arg + rest == rest;
      ReadEnd(rest);
    } else if n == 0 {
      assert arg[0] in arg;
      assert arg + rest == [arg[0]] + (arg[1..] + rest);
      ReadChar(arg[0], arg[1..] + rest, false);
      ReadPlain(arg[1..], rest);
      assert arg == [arg[0]] + arg[1..];
    } else {
      var tail := arg[n..];
      assert arg == Repeat(BACKSLASH, n) + tail;
      assert arg + rest == Repeat(BACKSLASH, n) + (tail + rest);
      assert tail != [] ==> tail[0] in arg;
      ReadRun(n, tail + rest, false);
      ReadPlain(tail, rest);
    }
  }

  lemma ReadQuotedArg(arg: string, force: bool, rest: string)
    requires Ends(rest)
    ensures QuoteArg(arg, force) != [] && !IsSpace(QuoteArg(arg, force)[0])
    ensures ReadArg(QuoteArg(arg, force) + rest, false) == Arg(arg, rest, false)
  {
    hide ReadArg;
    if Plain(arg) && !force {
      assert arg[0] in arg;
      ReadPlain(arg, rest);
    } else {
      var body := QuoteBody(arg) + rest;
      ReadQuoted(arg, rest);
      assert QuoteArg(arg, force) + rest == Repeat(BACKSLASH, 0) + ([QUOTE] + body);
      ReadRunQuote(0, body, false);
      assert Escaped(0) + arg == arg;
    }
  }

  lemma {:induction false} SplitJoined(args: seq<string>, force: seq<bool>)
    requires |force| == |args|
    ensures SplitArgs(Join(args, force)) == Some(args)
    decreases |args|
  {
    hide ReadArg;
    hide QuoteArg;
    if args != [] {
      var rest := JoinTail(args, force);
      ReadQuotedArg(args[0], force[0], rest);
      JoinCons(args, force);
      SplitStep(QuoteArg(args[0], force[0]) + rest, Arg(args[0], rest, false));
      if |args| > 1 {
        SplitJoined(args[1..], force[1..]);
        SkipOneBlank(Join(args[1..], force[1..]));
      }
      assert args == [args[0]] + args[1..];
    }
  }

  function JoinTail(args: seq<string>, force: seq<bool>): string
    requires |force| == |args| > 0
  {
    if |args| == 1 then [] else [' '] + Join(args[1..], force[1..])
  }

  lemma JoinCons(args: seq<string>, force: seq<bool>)
    requires |force| == |args| > 0
    ensures Join(args, force) == QuoteArg(args[0], force[0]) + JoinTail(args, force)
  {
    hide QuoteArg;
    if |args| == 1 {
      assert QuoteArg(args[0], force[0]) + [] == QuoteArg(args[0], force[0]);
    }
  }

  lemma SkipOneBlank(s: string)
    ensures SplitArgs([' '] + s) == SplitArgs(s)
  {
    assert ([' '] + s)[1..] == s;
    SameAfterBlanks([' '] + s, s);
  }

  lemma {:induction false} QuoteBodyHasNoNul(arg: string)
    requires NUL !in arg
    ensures NUL !in QuoteBody(arg)
    decreases |arg|
  {
    var n := Run(arg);
    if n < |arg| {
      assert arg[n] in arg;
      QuoteBodyHasNoNul(arg[n + 1..]);
    }
  }

  lemma {:induction false} JoinHasNoNul(args: seq<string>, force: seq<bool>)
    requires |force| == |args|
    requires forall a :: a in args ==> NUL !in a
    ensures NUL !in Join(args, force)
    decreases |args|
  {
    if args != [] {
      assert args[0] in args;
      QuoteBodyHasNoNul(args[0]);
      JoinHasNoNul(args[1..], force[1..]);
    }
  }

  /**
   Splitting inverts quoting: for every list of NUL-free arguments, and every
   choice of which plain arguments to quote anyway, the split is the list.
   */
  lemma SplitInvertsQuoting(args: seq<string>, force: seq<bool>)
    requires |force| == |args|
    requires forall a :: a in args ==> NUL !in a
    ensures Split(Join(args, force)) == Some(args)
  {
    JoinHasNoNul(args, force);
    SplitJoined(args, force);
  }

  // ---------------------------------------------------------------- splitting distributes over blanks

  /** Extends what is left unread. */
  function Followed(a: Arg, more: string): Arg {
    a.(rest := a.rest + more)
  }

  lemma {:induction false} ReadThenBlank(s: string, quoted: bool, more: string)
    requires !ReadArg(s, quoted).open && more != [] && IsSpace(more[0])
    ensures ReadArg(s + more, quoted) == Followed(ReadArg(s, quoted), more)
    decreases |s|
  {
    hide ReadArg;
    if s == [] {
      assert s + more == more;
      ReadNothing(quoted);
      ReadEnd(more);
      assert [] + more == more;
    } else if s[0] == BACKSLASH {
      ReadBackslashThenBlank(s, quoted, more);
      var n := Run(s);
      if n < |s| && s[n] == QUOTE {
        ReadThenBlank(s[n + 1..], if n % 2 == 1 then quoted else !quoted, more);
      } else {
        ReadThenBlank(s[n..], quoted, more);
      }
    } else if s[0] == QUOTE {
      assert (s + more)[1..] == s[1..] + more;
      ReadQuoteMark(s, quoted);
      ReadQuoteMark(s + more, quoted);
      ReadThenBlank(s[1..], !quoted, more);
    } else if quoted || !IsSpace(s[0]) {
      assert s == [s[0]] + s[1..] && s + more == [s[0]] + (s[1..] + more);
      ReadChar(s[0], s[1..], quoted);
      ReadChar(s[0], s[1..] + more, quoted);
      ReadThenBlank(s[1..], quoted, more);
    } else {
      ReadEnd(s);
      ReadEnd(s + more);
    }
  }

  lemma ReadNothing(quoted: bool)
    ensures ReadArg([], quoted) == Arg([], [], quoted)
  {
  }

  /** The backslash branch reads the same head whether or not more text follows. */
  lemma ReadBackslashThenBlank(s: string, quoted: bool, more: string)
    requires s != [] && s[0] == BACKSLASH && more != [] && IsSpace(more[0])
    ensures var n := Run(s);
      && n > 0
      && if n < |s| && s[n] == QUOTE then
           var q := if n % 2 == 1 then quoted else !quoted;
           && ReadArg(s, quoted) == Then(Escaped(n), ReadArg(s[n + 1..], q))
           && ReadArg(s + more, quoted) == Then(Escaped(n), ReadArg(s[n + 1..] + more, q))
         else
           && ReadArg(s, quoted) == Then(Repeat(BACKSLASH, n), ReadArg(s[n..], quoted))
           && ReadArg(s + more, quoted) == Then(Repeat(BACKSLASH, n), ReadArg(s[n..] + more, quoted))
  {
    hide ReadArg;
    hide Then;
    var n := Run(s);
    var t := s[n..];
    assert s == s[..n] + t;
    assert s + more == s[..n] + (t + more);
    if t != [] && t[0] == QUOTE {
      assert t == [QUOTE] + s[n + 1..] && t + more == [QUOTE] + (s[n + 1..] + more);
      ReadRunQuote(n, s[n + 1..], quoted);
      ReadRunQuote(n, s[n + 1..] + more, quoted);
    } else {
      ReadRun(n, t, quoted);
      ReadRun(n, t + more, quoted);
    }
  }

  lemma {:induction false} SkipThenBlank(s: string, c: char, b: string)
    requires c == ' ' || c == '\t'
    ensures SkipSpace(s) != [] ==> SkipSpace(s + [c] + b) == SkipSpace(s) + [c] + b
    ensures SkipSpace(s) == [] ==> SkipSpace(s + [c] + b) == SkipSpace(b)
  {
    var t := s + [c] + b;
    if s == [] {
      assert t[1..] == b;
    } else if IsSpace(s[0]) {
      assert t[1..] == s[1..] + [c] + b;
      SkipThenBlank(s[1..], c, b);
    }
  }

  lemma {:induction false} SplitArgsDistributes(a: string, c: char, b: string)
    requires SplitArgs(a).Some? && (c == ' ' || c == '\t')
    ensures SplitArgs(a + [c] + b) == Prepend(SplitArgs(a).value, SplitArgs(b))
    decreases |a|
  {
    var t := SkipSpace(a);
    SkipThenBlank(a, c, b);
    if t == [] {
      SameAfterBlanks(a + [c] + b, b);
      PrependNothing(SplitArgs(b));
    } else {
      hide ReadArg;
      var first := ReadArg(t, false);
      SameAfterBlanks(a, t);
      SplitStep(t, first);
      FirstThenBlank(t, c, b);
      SameAfterBlanks(a + [c] + b, t + [c] + b);
      SplitArgsDistributes(first.rest, c, b);
      PrependMore(first.text, SplitArgs(first.rest).value, SplitArgs(b));
    }
  }

  lemma FirstThenBlank(t: string, c: char, b: string)
    requires (c == ' ' || c == '\t') && t != [] && !IsSpace(t[0]) && !ReadArg(t, false).open
    ensures var first := ReadArg(t, false);
      SplitArgs(t + [c] + b) == Prepend([first.text], SplitArgs(first.rest + [c] + b))
  {
    hide ReadArg;
    var first := ReadArg(t, false);
    var more := [c] + b;
    assert t + [c] + b == t + more && first.rest + [c] + b == first.rest + more;
    ReadThenBlank(t, false, more);
    SplitStep(t + more, Followed(first, more));
  }

  lemma PrependMore(text: string, args: seq<string>, rest: Option<seq<string>>)
    ensures Prepend([text], Prepend(args, rest)) == Prepend([text] + args, rest)
  {
    if rest.Some? {
      assert [text] + (args + rest.value) == [text] + args + rest.value;
    }
  }

  /**
   Splitting a, a space or tab, b gives the arguments of a and then those of b; once a
   splits, the whole fails exactly when b does.
   */
  lemma SplitDistributes(a: string, c: char, b: string)
    requires Split(a).Some? && (c == ' ' || c == '\t')
    ensures Split(a + [c] + b) == Prepend(Split(a).value, Split(b))
  {
    SplitArgsDistributes(a, c, b);
    if NUL in b {
      assert NUL in a + [c] + b;
    }
  }

  // ---------------------------------------------------------------- what is an argument and what is an error

  /** A text with a NUL anywhere is an error. */
  lemma NulFails(s: string)
    requires '\0' in s
    ensures Split(s).None?
  {
  }

  /** A text without space, tab, double quote and NUL is one argument, whatever else it holds. */
  lemma WordIsOneArgument(w: string)
    requires w != [] && forall c :: c in w ==> c != ' ' && c != '\t' && c != '"' && c != '\0'
    ensures Split(w) == Some([w])
  {
    ReadPlain(w, []);
    assert w + [] == w && w[0] in w;
    SplitStep(w, Arg(w, [], false));
    assert SplitArgs([]) == Some([]) && [w] + [] == [w];
  }

  /** Spaces and tabs alone are no argument. */
  lemma {:induction false} BlanksAreNothing(s: string)
    requires forall c :: c in s ==> c == ' ' || c == '\t'
    ensures Split(s) == Some([])
  {
    if s != [] {
      assert s[0] in s && forall c :: c in s[1..] ==> c in s;
      BlanksAreNothing(s[1..]);
      SameAfterBlanks(s, s[1..]);
    }
  }

  lemma {:induction false} ReadOpen(w: string)
    requires forall c :: c in w ==> c != '"' && c != '\\'
    ensures ReadArg(w, true) == Arg(w, [], true)
  {
    if w != [] {
      assert w[0] in w && forall c :: c in w[1..] ==> c in w;
      ReadOpen(w[1..]);
      ReadChar(w[0], w[1..], true);
      assert w == [w[0]] + w[1..];
    }
  }

  /** A double quote that nothing closes is an error, and blanks do not close it. */
  lemma OpenQuoteFails(w: string)
    requires forall c :: c in w ==> c != '"' && c != '\\'
    ensures Split(['"'] + w).None?
  {
    var s := ['"'] + w;
    assert s[1..] == w;
    ReadOpen(w);
    ReadQuoteMark(s, false);
    SplitStep(s, ReadArg(s, false));
  }
}
