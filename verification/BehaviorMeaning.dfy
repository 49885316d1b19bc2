/**
 What normalization does to the characters of the input: which punctuation bounds
 tokens, which is removed, which is kept, and which backslashes go.
 */
module BehaviorMeaning {
  import opened Literals
  import opened BehaviorText

  // ---------------------------------------------------------------- escaped quotes

  /** Texts are unescaped separately unless an escaped quote straddles them. */
  lemma {:induction false} UnescapedConcat(a: string, b: string)
    requires a == [] || b == [] || a[|a| - 1] != '\\' || b[0] != '"'
    ensures Unescaped(a + b) == Unescaped(a) + Unescaped(b)
    decreases |a|
  {
    if a == [] {
      assert a + b == b;
    } else if |a| > 1 && a[0] == '\\' && a[1] == '"' {
      StepOver(a, b, 2);
      UnescapedConcat(a[2..], b);
      Regrouped(['"'], Unescaped(a[2..]), Unescaped(b));
    } else {
      StepOver(a, b, 1);
      UnescapedConcat(a[1..], b);
      Regrouped([a[0]], Unescaped(a[1..]), Unescaped(b));
    }
  }

  lemma StepOver(a: string, b: string, n: nat)
    requires n <= |a|
    ensures (a + b)[n..] == a[n..] + b
  {
  }

  lemma Regrouped(x: string, y: string, z: string)
    ensures x + (y + z) == x + y + z
  {
  }

  /** Every backslash before a double quote goes, wherever it stands. */
  lemma EscapeIsDropped(a: string, b: string)
    ensures Unescaped(a + (['\\', '"'] + b)) == Unescaped(a) + (['"'] + Unescaped(b))
  {
    var s := ['\\', '"'] + b;
    UnescapedConcat(a, s);
    assert s[2..] == b;
  }

  /** And nothing else does. */
  lemma {:induction false} NoEscapeUnchanged(s: string)
    requires forall i :: 0 <= i < |s| - 1 ==> !(s[i] == '\\' && s[i + 1] == '"')
    ensures Unescaped(s) == s
  {
    if s != [] {
      assert |s| > 1 ==> !(s[0] == '\\' && s[0 + 1] == '"');
      forall i | 0 <= i < |s[1..]| - 1 ensures !(s[1..][i] == '\\' && s[1..][i + 1] == '"') {
        assert !(s[i + 1] == '\\' && s[i + 1 + 1] == '"');
      }
      NoEscapeUnchanged(s[1..]);
      assert s == [s[0]] + s[1..];
    }
  }

  // ---------------------------------------------------------------- token boundaries

  /** A character that may belong to a token. */
  predicate Ordinary(lower: char -> char, space: char -> bool, c: char) {
    && lower(c) == c && !space(c) && c != '"' && c != '\'' && c != '`' && c != '^'
    && c !in {'(', ')', '{', '}', '[', ']', ';', '|', '&', ',', '+', '='}
  }

  ghost predicate Token(lower: char -> char, space: char -> bool, w: string) {
    w != [] && forall c :: c in w ==> Ordinary(lower, space, c)
  }

  lemma OrdinaryIsSettled(lower: char -> char, space: char -> bool, c: char)
    ensures Ordinary(lower, space, c) <==> Settled(lower, c) && !space(c)
  {
  }

  /** Text without quotes and escapes is only lower-cased and separated. */
  lemma QuoteFreeResolved(lower: char -> char, s: string, t: string)
    requires (forall c :: c in s ==> lower(c) == c && c != '"' && c != '\'') && t == Stripped(s)
    ensures Resolved(lower, s) == Separated(t)
  {
    assert Lowered(lower, s) == s;
    UnescapedUnchanged(s);
    KeptFrom(c => !IsEscape(c), s);
    assert NoQuotes(t);
    QuoteFreeUnchanged(t);
    hide Join;
    hide Kept;
    hide Unescaped;
  }

  lemma TokenUnchanged(lower: char -> char, space: char -> bool, w: string)
    requires Token(lower, space, w)
    ensures Stripped(w) == w && Separated(w) == w && IsWord(space, w)
    ensures forall c :: c in w ==> lower(c) == c && c != '"' && c != '\''
  {
    forall c | c in w ensures Settled(lower, c) && !space(c) {
      OrdinaryIsSettled(lower, space, c);
    }
    StrippedUnchanged(w);
    forall i | 0 <= i < |w| ensures Separated(w)[i] == w[i] {
      assert w[i] in w;
    }
    hide Kept;
  }

  lemma SeparatedConcat(a: string, b: string)
    ensures Separated(a + b) == Separated(a) + Separated(b)
  {
  }

  lemma StrippedConcat(a: string, b: string)
    ensures Stripped(a + b) == Stripped(a) + Stripped(b)
  {
    KeptConcat(c => !IsEscape(c), a, b);
  }

  lemma StrippedOne(c: char)
    ensures Stripped([c]) == if c == '`' || c == '^' then [] else [c]
  {
    var keep := (x: char) => !IsEscape(x);
    assert [c][1..] == [] && Kept(keep, []) == [];
    assert Kept(keep, [c]) == KeptOne(keep, c) + [];
  }

  lemma SeparatedOne(c: char)
    ensures Separated([c]) == if IsSeparator(c) then [' '] else [c]
  {
  }

  lemma TwoFields(space: char -> bool, a: string, c: char, b: string)
    requires IsWord(space, a) && IsWord(space, b) && space(c)
    ensures Fields(space, a + ([c] + b)) == [a, b]
  {
    FieldsCons(space, a, [c] + b);
    SpaceDropped(space, c, b);
    FieldsCons(space, b, []);
    assert b + [] == b && Fields(space, []) == [];
    hide Fields;
    assert [a] + ([b] + []) == [a, b];
  }

  lemma SpaceDropped(space: char -> bool, c: char, s: string)
    requires space(c)
    ensures Fields(space, [c] + s) == Fields(space, s)
  {
    assert ([c] + s)[1..] == s;
    assert DropSpace(space, [c] + s) == DropSpace(space, s);
  }

  lemma OneField(space: char -> bool, w: string)
    requires IsWord(space, w)
    ensures Fields(space, w) == [w]
  {
    FieldsCons(space, w, []);
    assert w + [] == w && Fields(space, []) == [];
  }

  /** The texts that a character between two tokens can become. */
  lemma ResolvedBetween(lower: char -> char, space: char -> bool, a: string, c: char, b: string)
    requires Token(lower, space, a) && Token(lower, space, b) && lower(c) == c && c != '"' && c != '\''
    ensures Resolved(lower, a + ([c] + b)) ==
      a + ((if c == '`' || c == '^' then [] else if IsSeparator(c) then [' '] else [c]) + b)
  {
    TokenUnchanged(lower, space, a);
    TokenUnchanged(lower, space, b);
    var s := a + ([c] + b);
    AllPlain(lower, a, c, b);
    StrippedConcat(a, [c] + b);
    StrippedConcat([c], b);
    StrippedOne(c);
    QuoteFreeResolved(lower, s, Stripped(s));
    SeparatedConcat(a, Stripped([c]) + b);
    SeparatedConcat(Stripped([c]), b);
    SeparatedOne(c);
    hide *;
    NothingSeparated();
  }

  lemma NothingSeparated()
    ensures Separated([]) == []
  {
  }

  lemma AllPlain(lower: char -> char, a: string, c: char, b: string)
    requires forall x :: x in a ==> lower(x) == x && x != '"' && x != '\''
    requires forall x :: x in b ==> lower(x) == x && x != '"' && x != '\''
    requires lower(c) == c && c != '"' && c != '\''
    ensures forall x :: x in a + ([c] + b) ==> lower(x) == x && x != '"' && x != '\''
  {
  }

  lemma SeparatorIs(c: char)
    requires c != '"' && c != '\''
    ensures IsSeparator(c) <==> c in {'(', ')', '{', '}', '[', ']', ';', '|', '&', ',', '+', '='}
    ensures IsSeparator(c) ==> c != '`' && c != '^'
  {
  }

  lemma PaddedTwo(a: string, b: string)
    ensures Padded([a, b]) == [' '] + (a + [' '] + b) + [' ']
  {
    assert [a, b][1..] == [b] && Joined([b]) == b;
    assert Joined([a, b]) == a + [' '] + Joined([a, b][1..]);
  }

  lemma PaddedOne(w: string)
    ensures Padded([w]) == [' '] + w + [' ']
  {
  }

  lemma WordsJoin(space: char -> bool, a: string, c: char, b: string)
    requires IsWord(space, a) && IsWord(space, b)
    ensures IsWord(space, a + b) && (!space(c) ==> IsWord(space, a + ([c] + b)))
  {
    assert forall x :: x in a + b ==> x in a || x in b;
    assert forall x :: x in a + ([c] + b) ==> x in a || x == c || x in b;
  }

  /**
   A character between two tokens bounds them if and only if it is whitespace or one of the twelve
   separators; a backtick or caret joins them; any other character is part of one token.
   */
  lemma CharacterBetweenTokens(lower: char -> char, space: char -> bool, a: string, c: char, b: string)
    requires Usable(lower, space) && Token(lower, space, a) && Token(lower, space, b)
    requires lower(c) == c && c != '"' && c != '\'' && !space('`') && !space('^')
    ensures Normalize(lower, space, a + ([c] + b)) ==
      if space(c) || c in {'(', ')', '{', '}', '[', ']', ';', '|', '&', ',', '+', '='}
      then [' '] + (a + [' '] + b) + [' ']
      else if c == '`' || c == '^' then [' '] + (a + b) + [' ']
      else [' '] + (a + ([c] + b)) + [' ']
  {
    hide Resolved;
    hide Padded;
    hide Fields;
    TokenUnchanged(lower, space, a);
    TokenUnchanged(lower, space, b);
    ResolvedBetween(lower, space, a, c, b);
    SeparatorIs(c);
    hide IsSeparator;
    hide Token;
    hide IsWord;
    if space(c) || IsSeparator(c) {
      var d := if IsSeparator(c) then ' ' else c;
      TwoFields(space, a, d, b);
      PaddedTwo(a, b);
    } else if c == '`' || c == '^' {
      WordsJoin(space, a, c, b);
      assert [] + b == b;
      OneField(space, a + b);
      PaddedOne(a + b);
    } else {
      WordsJoin(space, a, c, b);
      OneField(space, a + ([c] + b));
      PaddedOne(a + ([c] + b));
    }
  }
}
