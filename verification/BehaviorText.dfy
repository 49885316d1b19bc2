/**
 The canonical text that behaviour tokens are matched against. Lower-casing and
 the whitespace class are parameters: `lower` maps character by character, and
 `space` says which characters separate fields.
 */
module BehaviorText {
  import opened Literals

  /** Punctuation that becomes a token boundary. */
  predicate IsSeparator(c: char) {
    c in "\"'(){}[];|&,+="
  }

  predicate IsEscape(c: char) {
    c == '`' || c == '^'
  }

  function Lowered(lower: char -> char, s: string): (r: string)
    ensures |r| == |s|
    ensures forall i :: 0 <= i < |s| ==> r[i] == lower(s[i])
  {
    if s == [] then [] else [lower(s[0])] + Lowered(lower, s[1..])
  }

  /** Every escaped double quote becomes a plain one. */
  function Unescaped(s: string): string {
    if s == [] then []
    else if |s| > 1 && s[0] == '\\' && s[1] == '"' then ['"'] + Unescaped(s[2..])
    else [s[0]] + Unescaped(s[1..])
  }

  /** Backticks and carets removed. */
  function Stripped(s: string): string {
    Kept(c => !IsEscape(c), s)
  }

  function Separated(s: string): (r: string)
    ensures |r| == |s|
    ensures forall i :: 0 <= i < |s| ==> r[i] == if IsSeparator(s[i]) then ' ' else s[i]
  {
    if s == [] then [] else [if IsSeparator(s[0]) then ' ' else s[0]] + Separated(s[1..])
  }

  function DropSpace(space: char -> bool, s: string): (r: string)
    ensures |r| <= |s|
    ensures r != [] ==> !space(r[0])
  {
    if s != [] && space(s[0]) then DropSpace(space, s[1..]) else s
  }

  function WordLength(space: char -> bool, s: string): (n: nat)
    ensures n <= |s|
    ensures s != [] && !space(s[0]) ==> n > 0
    ensures forall i :: 0 <= i < n ==> !space(s[i])
    ensures n < |s| ==> space(s[n])
  {
    if s == [] || space(s[0]) then 0 else 1 + WordLength(space, s[1..])
  }

  /** The maximal runs of non-space characters. */
  function Fields(space: char -> bool, s: string): seq<string>
    decreases |s|
  {
    var t := DropSpace(space, s);
    if t == [] then []
    else var n := WordLength(space, t); [t[..n]] + Fields(space, t[n..])
  }

  function Joined(words: seq<string>): string {
    if words == [] then []
    else if |words| == 1 then words[0]
    else words[0] + [' '] + Joined(words[1..])
  }

  function Padded(words: seq<string>): string {
    if words == [] then [] else [' '] + Joined(words) + [' ']
  }

  /** The text before it is cut into fields. */
  function Resolved(lower: char -> char, value: string): string {
    Separated(Join(Stripped(Unescaped(Lowered(lower, value)))))
  }

  function Normalize(lower: char -> char, space: char -> bool, value: string): string {
    Padded(Fields(space, Resolved(lower, value)))
  }

  // ---------------------------------------------------------------- idempotence

  /** The parameters behave like a case mapping and a whitespace class. */
  ghost predicate Usable(lower: char -> char, space: char -> bool) {
    (forall c :: lower(lower(c)) == lower(c)) && lower(' ') == ' ' && space(' ')
  }

  /** A character that no later pass changes. */
  predicate Settled(lower: char -> char, c: char) {
    lower(c) == c && !IsSeparator(c) && !IsEscape(c)
  }

  ghost predicate AllSettled(lower: char -> char, s: string) {
    forall c :: c in s ==> Settled(lower, c)
  }

  ghost predicate IsWord(space: char -> bool, w: string) {
    w != [] && forall c :: c in w ==> !space(c)
  }

  /** Text that is already lower-case and free of separators and escapes passes through unchanged. */
  lemma SettledUnchanged(lower: char -> char, s: string)
    requires AllSettled(lower, s)
    ensures Resolved(lower, s) == s
  {
    assert forall i :: 0 <= i < |s| ==> s[i] in s;
    assert Lowered(lower, s) == s;
    UnescapedUnchanged(s);
    StrippedUnchanged(s);
    QuoteFreeUnchanged(s);
    assert Separated(s) == s;
  }

  lemma {:induction false} UnescapedUnchanged(s: string)
    requires '"' !in s
    ensures Unescaped(s) == s
  {
    if s != [] {
      assert |s| > 1 ==> s[1] in s;
      UnescapedUnchanged(s[1..]);
      assert [s[0]] + s[1..] == s;
    }
  }

  lemma {:induction false} StrippedUnchanged(s: string)
    requires forall c :: c in s ==> !IsEscape(c)
    ensures Stripped(s) == s
  {
    if s != [] {
      assert s[0] in s;
      StrippedUnchanged(s[1..]);
      assert [s[0]] + s[1..] == s;
    }
  }

  lemma {:induction false} KeptFrom(keep: char -> bool, s: string)
    ensures forall c :: c in Kept(keep, s) ==> c in s && keep(c)
  {
    if s != [] {
      KeptFrom(keep, s[1..]);
      assert forall c :: c in s[1..] ==> c in s;
      assert s[0] in s;
    }
  }

  lemma {:induction false} UnescapedFrom(s: string)
    ensures forall c :: c in Unescaped(s) ==> c in s
  {
    if s != [] {
      assert s[0] in s;
      if |s| > 1 && s[0] == '\\' && s[1] == '"' {
        UnescapedFrom(s[2..]);
        assert s[1] in s && forall c :: c in s[2..] ==> c in s;
      } else {
        UnescapedFrom(s[1..]);
        assert forall c :: c in s[1..] ==> c in s;
      }
    }
  }

  /** The joiner invents no character. */
  lemma {:induction false} JoinFrom(s: string)
    ensures forall c :: c in Join(s) ==> c in s
    decreases |s|, 0
  {
    if s != [] {
      assert s[0] in s && forall c :: c in s[1..] ==> c in s;
      if !IsQuote(s[0]) {
        JoinFrom(s[1..]);
      } else {
        var l := ReadBody(s[1..], s[0]);
        if l.None? {
          JoinFrom(s[1..]);
        } else {
          BodyFrom(s[1..], s[0]);
          ResolveFrom(l.value.content);
          AfterFrom(l.value.rest);
        }
      }
    }
  }

  lemma {:induction false} BodyFrom(s: string, quote: char)
    requires ReadBody(s, quote).Some?
    ensures forall c :: c in ReadBody(s, quote).value.content ==> c in s
    ensures forall c :: c in ReadBody(s, quote).value.rest ==> c in s
    decreases |s|
  {
    assert s[0] in s && forall c :: c in s[1..] ==> c in s;
    if s[0] != quote {
      BodyFrom(s[1..], quote);
    } else if |s| > 1 && s[1] == quote {
      BodyFrom(s[2..], quote);
      assert forall c :: c in s[2..] ==> c in s;
    }
  }

  lemma {:induction false} SkipFrom(s: string)
    ensures forall c :: c in SkipBlanks(s) ==> c in s
  {
    if s != [] && IsBlank(s[0]) {
      SkipFrom(s[1..]);
      assert forall c :: c in s[1..] ==> c in s;
    }
  }

  lemma {:induction false} AfterFrom(s: string)
    ensures forall c :: c in JoinAfter(s) ==> c in s
    decreases |s|, 1
  {
    var l := Continuation(s);
    if l.None? {
      JoinFrom(s);
    } else {
      var t := SkipBlanks(s);
      var u := SkipBlanks(t[1..]);
      SkipFrom(s);
      SkipFrom(t[1..]);
      BodyFrom(u[1..], u[0]);
      assert forall c :: c in u[1..] ==> c in u;
      assert forall c :: c in t[1..] ==> c in t;
      ResolveFrom(l.value.content);
      AfterFrom(l.value.rest);
    }
  }

  lemma {:induction false} ResolveFrom(content: string)
    ensures forall c :: c in Resolve(content) ==> c in content
    decreases |content|, 2
  {
    if !NoQuotes(content) {
      JoinFrom(content);
    }
  }

  lemma ResolvedIsSettled(lower: char -> char, space: char -> bool, value: string)
    requires Usable(lower, space)
    ensures AllSettled(lower, Resolved(lower, value))
  {
    var a := Lowered(lower, value);
    var b := Unescaped(a);
    var c := Stripped(b);
    var d := Join(c);
    UnescapedFrom(a);
    KeptFrom(c => !IsEscape(c), b);
    JoinFrom(c);
    forall x | x in d ensures lower(x) == x && !IsEscape(x) {
      assert x in a;
      var i :| 0 <= i < |a| && a[i] == x;
    }
    var e := Separated(d);
    forall x | x in e ensures Settled(lower, x) {
      var i :| 0 <= i < |e| && e[i] == x;
      assert d[i] in d;
    }
  }

  lemma {:induction false} FieldsAreWords(space: char -> bool, s: string)
    ensures forall w :: w in Fields(space, s) ==> IsWord(space, w)
    ensures forall w, c :: w in Fields(space, s) && c in w ==> c in s
    decreases |s|
  {
    var t := DropSpace(space, s);
    DropFrom(space, s);
    if t != [] {
      var n := WordLength(space, t);
      FieldsAreWords(space, t[n..]);
      assert forall c :: c in t[..n] ==> c in t;
      assert forall c :: c in t[n..] ==> c in t;
      assert IsWord(space, t[..n]);
    }
  }

  lemma {:induction false} DropFrom(space: char -> bool, s: string)
    ensures forall c :: c in DropSpace(space, s) ==> c in s
  {
    if s != [] && space(s[0]) {
      DropFrom(space, s[1..]);
      assert forall c :: c in s[1..] ==> c in s;
    }
  }

  lemma {:induction false} WordLengthOf(space: char -> bool, w: string, rest: string)
    requires forall c :: c in w ==> !space(c)
    requires rest == [] || space(rest[0])
    ensures WordLength(space, w + rest) == |w|
  {
    if w == [] {
      assert w + rest == rest;
    } else {
      assert w[0] in w;
      assert (w + rest)[1..] == w[1..] + rest;
      WordLengthOf(space, w[1..], rest);
    }
  }

  /** One word, then whatever follows a blank. */
  lemma FieldsCons(space: char -> bool, w: string, rest: string)
    requires IsWord(space, w) && (rest == [] || space(rest[0]))
    ensures Fields(space, w + rest) == [w] + Fields(space, rest)
  {
    var s := w + rest;
    assert w[0] in w && DropSpace(space, s) == s;
    WordLengthOf(space, w, rest);
    assert s[..|w|] == w && s[|w|..] == rest;
  }

  lemma FieldsBlank(space: char -> bool, s: string)
    requires space(' ')
    ensures Fields(space, [' '] + s) == Fields(space, s)
  {
    assert ([' '] + s)[1..] == s;
    assert DropSpace(space, [' '] + s) == DropSpace(space, s);
  }

  /** Cutting joined words into fields gives the words back. */
  lemma {:induction false} FieldsOfJoined(space: char -> bool, words: seq<string>)
    requires space(' ') && forall w :: w in words ==> IsWord(space, w)
    ensures Fields(space, Joined(words) + [' ']) == words
  {
    if words == [] {
      assert Joined(words) + [' '] == [' '] + [];
      FieldsBlank(space, []);
    } else {
      assert words[0] in words;
      var rest := if |words| == 1 then [' '] else [' '] + (Joined(words[1..]) + [' ']);
      assert Joined(words) + [' '] == words[0] + rest;
      FieldsCons(space, words[0], rest);
      if |words| == 1 {
        assert rest == [' '] + [];
        FieldsBlank(space, []);
      } else {
        FieldsOfJoined(space, words[1..]);
        FieldsBlank(space, Joined(words[1..]) + [' ']);
      }
      assert words == [words[0]] + words[1..];
    }
  }

  lemma {:induction false} JoinedFrom(words: seq<string>, c: char)
    requires c in Joined(words) && c != ' '
    ensures exists w :: w in words && c in w
  {
    if |words| > 1 {
      if c in words[0] {
        assert words[0] in words;
      } else {
        JoinedFrom(words[1..], c);
      }
    } else {
      assert words[0] in words;
    }
  }

  lemma PaddedIsSettled(lower: char -> char, space: char -> bool, words: seq<string>)
    requires Usable(lower, space)
    requires forall w :: w in words ==> AllSettled(lower, w)
    ensures AllSettled(lower, Padded(words))
  {
    forall c | c in Padded(words) ensures Settled(lower, c) {
      if c != ' ' {
        JoinedFrom(words, c);
      }
    }
  }

  /** Normalizing twice is normalizing once. */
  lemma NormalizeIdempotent(lower: char -> char, space: char -> bool, value: string)
    requires Usable(lower, space)
    ensures Normalize(lower, space, Normalize(lower, space, value)) == Normalize(lower, space, value)
  {
    var text := Resolved(lower, value);
    var words := Fields(space, text);
    ResolvedIsSettled(lower, space, value);
    FieldsAreWords(space, text);
    PaddedIsSettled(lower, space, words);
    SettledUnchanged(lower, Padded(words));
    if words == [] {
      assert Fields(space, []) == [];
    } else {
      assert Padded(words) == [' '] + (Joined(words) + [' ']);
      FieldsBlank(space, Joined(words) + [' ']);
      FieldsOfJoined(space, words);
    }
  }

  // ---------------------------------------------------------------- no letter is invented or lost

  /** `keep` ignores every character that normalization may drop or rewrite. */
  ghost predicate IgnoresPunctuation(space: char -> bool, keep: char -> bool) {
    && IgnoresJoining(keep)
    && forall c :: space(c) || IsSeparator(c) || IsEscape(c) ==> !keep(c)
  }

  lemma {:induction false} UnescapedKeeps(keep: char -> bool, s: string)
    requires !keep('\\')
    ensures Kept(keep, Unescaped(s)) == Kept(keep, s)
  {
    if s != [] {
      if |s| > 1 && s[0] == '\\' && s[1] == '"' {
        UnescapedKeeps(keep, s[2..]);
        KeptConcat(keep, ['"'], Unescaped(s[2..]));
        KeptConcat(keep, ['\\'], ['"'] + s[2..]);
        KeptConcat(keep, ['"'], s[2..]);
        KeptNothing(keep, '\\');
        assert s == ['\\'] + (['"'] + s[2..]);
      } else {
        UnescapedKeeps(keep, s[1..]);
        KeptConcat(keep, [s[0]], Unescaped(s[1..]));
        KeptCons(keep, s);
      }
    }
  }

  lemma {:induction false} StrippedKeeps(keep: char -> bool, s: string)
    requires !keep('`') && !keep('^')
    ensures Kept(keep, Stripped(s)) == Kept(keep, s)
  {
    if s != [] {
      StrippedKeeps(keep, s[1..]);
      KeptConcat(keep, KeptOne(c => !IsEscape(c), s[0]), Stripped(s[1..]));
      KeptCons(keep, s);
      if IsEscape(s[0]) {
        KeptNothing(keep, s[0]);
      }
    }
  }

  lemma {:induction false} SeparatedKeeps(keep: char -> bool, s: string)
    requires !keep(' ') && forall c :: IsSeparator(c) ==> !keep(c)
    ensures Kept(keep, Separated(s)) == Kept(keep, s)
  {
    if s != [] {
      SeparatedKeeps(keep, s[1..]);
      assert Separated(s)[1..] == Separated(s[1..]);
    }
  }

  lemma {:induction false} DropKeeps(space: char -> bool, keep: char -> bool, s: string)
    requires forall c :: space(c) ==> !keep(c)
    ensures Kept(keep, DropSpace(space, s)) == Kept(keep, s)
  {
    if s != [] && space(s[0]) {
      DropKeeps(space, keep, s[1..]);
      assert KeptOne(keep, s[0]) == [];
      assert [] + Kept(keep, s[1..]) == Kept(keep, s[1..]);
    }
  }

  lemma {:induction false} FieldsKeep(space: char -> bool, keep: char -> bool, s: string)
    requires !keep(' ') && forall c :: space(c) ==> !keep(c)
    ensures Kept(keep, Joined(Fields(space, s))) == Kept(keep, s)
    decreases |s|
  {
    var t := DropSpace(space, s);
    DropKeeps(space, keep, s);
    if t != [] {
      var n := WordLength(space, t);
      var rest := Fields(space, t[n..]);
      FieldsKeep(space, keep, t[n..]);
      KeptConcat(keep, t[..n], t[n..]);
      assert t == t[..n] + t[n..];
      JoinedKeeps(keep, t[..n], rest);
    }
  }

  lemma JoinedKeeps(keep: char -> bool, word: string, rest: seq<string>)
    requires !keep(' ')
    ensures Kept(keep, Joined([word] + rest)) == Kept(keep, word) + Kept(keep, Joined(rest))
  {
    var words := [word] + rest;
    assert words[1..] == rest;
    if rest == [] {
      assert Kept(keep, word) + [] == Kept(keep, word);
    } else {
      assert word + [' '] + Joined(rest) == word + ([' '] + Joined(rest));
      KeptConcat(keep, word, [' '] + Joined(rest));
      KeptConcat(keep, [' '], Joined(rest));
      KeptNothing(keep, ' ');
    }
  }

  lemma PaddedKeeps(keep: char -> bool, words: seq<string>)
    requires !keep(' ')
    ensures Kept(keep, Padded(words)) == Kept(keep, Joined(words))
  {
    if words != [] {
      KeptConcat(keep, [' '] + Joined(words), [' ']);
      KeptConcat(keep, [' '], Joined(words));
      KeptNothing(keep, ' ');
    }
  }

  /**
   The canonical text holds, in order, exactly the lower-cased letters of the input. Of the
   backslashes it loses those before a double quote and no others.
   */
  lemma NormalizeKeepsLetters(lower: char -> char, space: char -> bool, keep: char -> bool, value: string)
    requires IgnoresPunctuation(space, keep)
    ensures Kept(keep, Normalize(lower, space, value)) == Kept(keep, Unescaped(Lowered(lower, value)))
    ensures !keep('\\') ==> Kept(keep, Normalize(lower, space, value)) == Kept(keep, Lowered(lower, value))
  {
    var a := Lowered(lower, value);
    var c := Stripped(Unescaped(a));
    if !keep('\\') {
      UnescapedKeeps(keep, a);
    }
    StrippedKeeps(keep, Unescaped(a));
    JoinKeepsLetters(keep, c);
    SeparatedKeeps(keep, Join(c));
    FieldsKeep(space, keep, Resolved(lower, value));
    PaddedKeeps(keep, Fields(space, Resolved(lower, value)));
  }
}
