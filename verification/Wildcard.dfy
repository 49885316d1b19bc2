/**
 The whitelist glob: an iterative matcher with one backtrack point, measured
 against the plain meaning of a pattern, in which every `*` stands for some string.
 */
module Wildcard {

  const STAR := '*'

  /** The string a pattern becomes when its stars are replaced, in order, by `fills`. */
  function Instance(pattern: string, fills: seq<string>): string {
    if pattern == [] then []
    else if pattern[0] != STAR then [pattern[0]] + Instance(pattern[1..], fills)
    else if fills == [] then Instance(pattern[1..], [])
    else fills[0] + Instance(pattern[1..], fills[1..])
  }

  /** Some replacement of the stars yields `value`. */
  ghost predicate IsInstance(pattern: string, value: string) {
    exists fills :: Instance(pattern, fills) == value
  }

  /** The loop state: pattern and value positions, the last star and where its match may resume. */
  datatype Scan = Scan(patternIdx: nat, valueIdx: nat, starIdx: int, matchIdx: nat)

  predicate Valid(pattern: string, value: string, s: Scan) {
    && s.patternIdx <= |pattern| && s.matchIdx <= s.valueIdx <= |value|
    && -1 <= s.starIdx < s.patternIdx
  }

  function AllStars(pattern: string): bool {
    pattern == [] || (pattern[0] == STAR && AllStars(pattern[1..]))
  }

  /** What the loop decides from a state. */
  function Decide(pattern: string, value: string, s: Scan): bool
    requires Valid(pattern, value, s)
    decreases |value| - s.matchIdx, |pattern| - s.starIdx, |value| - s.valueIdx
  {
    if s.valueIdx == |value| then AllStars(pattern[s.patternIdx..])
    else if s.patternIdx < |pattern| && pattern[s.patternIdx] == value[s.valueIdx] then
      Decide(pattern, value, s.(patternIdx := s.patternIdx + 1, valueIdx := s.valueIdx + 1))
    else if s.patternIdx < |pattern| && pattern[s.patternIdx] == STAR then
      Decide(pattern, value, Scan(s.patternIdx + 1, s.valueIdx, s.patternIdx, s.valueIdx))
    else if s.starIdx == -1 then false
    else Decide(pattern, value, Scan(s.starIdx + 1, s.matchIdx + 1, s.starIdx, s.matchIdx + 1))
  }

  const START := Scan(0, 0, -1, 0)

  function Matches(pattern: string, value: string): bool {
    Decide(pattern, value, START)
  }

  /** The matcher as the source runs it. */
  method WildcardMatch(pattern: string, value: string) returns (ok: bool)
    ensures ok == Matches(pattern, value)
    ensures ok ==> IsInstance(pattern, value)
    ensures StarOnlyLast(value) ==> (ok <==> IsInstance(pattern, value))
  {
    MatchesSound(pattern, value);
    if StarOnlyLast(value) {
      MatchesExact(pattern, value);
    }
    var patternIdx, valueIdx: nat := 0, 0;
    var starIdx, matchIdx: nat := -1, 0;
    while valueIdx < |value|
      invariant Valid(pattern, value, Scan(patternIdx, valueIdx, starIdx, matchIdx))
      invariant Decide(pattern, value, Scan(patternIdx, valueIdx, starIdx, matchIdx)) == Matches(pattern, value)
      decreases |value| - matchIdx, |pattern| - starIdx, |value| - valueIdx
    {
      if patternIdx < |pattern| && pattern[patternIdx] == value[valueIdx] {
        patternIdx, valueIdx := patternIdx + 1, valueIdx + 1;
      } else if patternIdx < |pattern| && pattern[patternIdx] == STAR {
        starIdx, matchIdx := patternIdx, valueIdx;
        patternIdx := patternIdx + 1;
      } else if starIdx == -1 {
        return false;
      } else {
        patternIdx := starIdx + 1;
        matchIdx := matchIdx + 1;
        valueIdx := matchIdx;
      }
    }
    while patternIdx < |pattern| && pattern[patternIdx] == STAR
      invariant patternIdx <= |pattern|
      invariant AllStars(pattern[patternIdx..]) == Matches(pattern, value)
    {
      patternIdx := patternIdx + 1;
    }
    return patternIdx == |pattern|;
  }

  // ---------------------------------------------------------------- the meaning of a pattern, by position

  /** `value` is an instance of `pattern`, read from the left. */
  ghost predicate Fits(pattern: string, value: string)
    decreases |pattern|
  {
    if pattern == [] then value == []
    else if pattern[0] == STAR then exists k :: 0 <= k <= |value| && Fits(pattern[1..], value[k..])
    else value != [] && value[0] == pattern[0] && Fits(pattern[1..], value[1..])
  }

  lemma {:induction false} InstanceFits(pattern: string, fills: seq<string>)
    ensures Fits(pattern, Instance(pattern, fills))
  {
    if pattern != [] {
      var value := Instance(pattern, fills);
      if pattern[0] != STAR {
        InstanceFits(pattern[1..], fills);
        assert value[1..] == Instance(pattern[1..], fills);
      } else if fills == [] {
        InstanceFits(pattern[1..], []);
        assert value[0..] == value;
      } else {
        InstanceFits(pattern[1..], fills[1..]);
        assert value[|fills[0]|..] == Instance(pattern[1..], fills[1..]);
      }
    }
  }

  lemma {:induction false} FitsInstance(pattern: string, value: string) returns (fills: seq<string>)
    requires Fits(pattern, value)
    ensures Instance(pattern, fills) == value
  {
    if pattern == [] {
      fills := [];
    } else if pattern[0] != STAR {
      fills := FitsInstance(pattern[1..], value[1..]);
      assert [value[0]] + value[1..] == value;
    } else {
      var k :| 0 <= k <= |value| && Fits(pattern[1..], value[k..]);
      var rest := FitsInstance(pattern[1..], value[k..]);
      fills := [value[..k]] + rest;
      assert fills[1..] == rest;
      assert value[..k] + value[k..] == value;
    }
  }

  lemma FitsIffInstance(pattern: string, value: string)
    ensures Fits(pattern, value) <==> IsInstance(pattern, value)
  {
    if Fits(pattern, value) {
      var fills := FitsInstance(pattern, value);
    }
    if IsInstance(pattern, value) {
      var fills :| Instance(pattern, fills) == value;
      InstanceFits(pattern, fills);
    }
  }

  lemma {:induction false} AllStarsFitsEmpty(pattern: string)
    ensures Fits(pattern, []) <==> AllStars(pattern)
  {
    if pattern != [] && pattern[0] == STAR {
      AllStarsFitsEmpty(pattern[1..]);
      var empty: string := [];
      assert empty[0..] == empty;
    }
  }

  lemma {:induction false} AllStarsFitsAny(pattern: string, value: string)
    requires pattern != [] && AllStars(pattern)
    ensures Fits(pattern, value)
  {
    if |pattern| == 1 {
      assert pattern[1..] == [] && Fits(pattern[1..], value[|value|..]);
    } else {
      AllStarsFitsAny(pattern[1..], value);
      assert value[0..] == value;
    }
  }

  /** A star may absorb any prefix: a fit of the rest further right is a fit here. */
  lemma StarAbsorbs(pattern: string, value: string, i: nat, k: nat)
    requires pattern != [] && pattern[0] == STAR
    requires i <= k <= |value| && Fits(pattern, value[k..])
    ensures Fits(pattern, value[i..])
  {
    var j :| 0 <= j <= |value[k..]| && Fits(pattern[1..], value[k..][j..]);
    assert value[k..][j..] == value[i..][k - i + j..];
  }

  // ---------------------------------------------------------------- soundness, for every value

  /** Accepting from a state implies that the rest fits there, or that a later resumption of the last star fits. */
  ghost predicate Explained(pattern: string, value: string, s: Scan)
    requires Valid(pattern, value, s)
  {
    || Fits(pattern[s.patternIdx..], value[s.valueIdx..])
    || (s.starIdx >= 0 && exists k :: s.matchIdx < k <= |value| && Fits(pattern[s.starIdx + 1..], value[k..]))
  }

  lemma LiteralSound(pattern: string, value: string, s: Scan)
    requires Valid(pattern, value, s) && s.valueIdx < |value|
    requires s.patternIdx < |pattern| && pattern[s.patternIdx] == value[s.valueIdx]
    requires Explained(pattern, value, s.(patternIdx := s.patternIdx + 1, valueIdx := s.valueIdx + 1))
    ensures Explained(pattern, value, s)
  {
    var p, v := pattern[s.patternIdx..], value[s.valueIdx..];
    assert p[1..] == pattern[s.patternIdx + 1..] && v[1..] == value[s.valueIdx + 1..];
    if Fits(p[1..], v[1..]) && p[0] == STAR {
      assert Fits(p, v);
    }
  }

  lemma StarSound(pattern: string, value: string, s: Scan)
    requires Valid(pattern, value, s) && s.valueIdx < |value|
    requires s.patternIdx < |pattern| && pattern[s.patternIdx] == STAR
    requires Explained(pattern, value, Scan(s.patternIdx + 1, s.valueIdx, s.patternIdx, s.valueIdx))
    ensures Explained(pattern, value, s)
  {
    var p, v := pattern[s.patternIdx..], value[s.valueIdx..];
    assert p[1..] == pattern[s.patternIdx + 1..];
    if Fits(p[1..], v) {
      assert v[0..] == v;
    } else {
      var k :| s.valueIdx < k <= |value| && Fits(pattern[s.patternIdx + 1..], value[k..]);
      assert v[k - s.valueIdx..] == value[k..];
    }
  }

  lemma ResumeSound(pattern: string, value: string, s: Scan)
    requires Valid(pattern, value, s) && s.valueIdx < |value| && s.starIdx >= 0
    requires Explained(pattern, value, Scan(s.starIdx + 1, s.matchIdx + 1, s.starIdx, s.matchIdx + 1))
    ensures Explained(pattern, value, s)
  {
  }

  lemma {:induction false} DecideSound(pattern: string, value: string, s: Scan)
    requires Valid(pattern, value, s) && Decide(pattern, value, s)
    ensures Explained(pattern, value, s)
    decreases |value| - s.matchIdx, |pattern| - s.starIdx, |value| - s.valueIdx
  {
    hide Fits;
    if s.valueIdx == |value| {
      AllStarsFitsEmpty(pattern[s.patternIdx..]);
      assert value[s.valueIdx..] == [];
    } else {
      hide Explained;
      if s.patternIdx < |pattern| && pattern[s.patternIdx] == value[s.valueIdx] {
        DecideSound(pattern, value, s.(patternIdx := s.patternIdx + 1, valueIdx := s.valueIdx + 1));
        LiteralSound(pattern, value, s);
      } else if s.patternIdx < |pattern| && pattern[s.patternIdx] == STAR {
        DecideSound(pattern, value, Scan(s.patternIdx + 1, s.valueIdx, s.patternIdx, s.valueIdx));
        StarSound(pattern, value, s);
      } else {
        DecideSound(pattern, value, Scan(s.starIdx + 1, s.matchIdx + 1, s.starIdx, s.matchIdx + 1));
        ResumeSound(pattern, value, s);
      }
    }
  }

  lemma MatchesSound(pattern: string, value: string)
    ensures Matches(pattern, value) ==> IsInstance(pattern, value)
  {
    if Matches(pattern, value) {
      DecideSound(pattern, value, START);
      assert pattern[0..] == pattern && value[0..] == value;
      FitsIffInstance(pattern, value);
    }
  }

  // ---------------------------------------------------------------- completeness, for values whose only star is last

  predicate StarOnlyLast(value: string) {
    forall i :: 0 <= i < |value| - 1 ==> value[i] != STAR
  }

  /** Since the last star the pattern was literal text, equal to the value from the resumption point. */
  ghost predicate Aligned(pattern: string, value: string, s: Scan)
    requires Valid(pattern, value, s)
  {
    s.starIdx >= 0 ==>
      && pattern[s.starIdx] == STAR
      && s.patternIdx - s.starIdx - 1 == s.valueIdx - s.matchIdx
      && forall i :: s.starIdx < i < s.patternIdx ==>
           pattern[i] == value[s.matchIdx + i - s.starIdx - 1] && (pattern[i] == STAR ==> s.valueIdx == |value|)
  }

  /** Literal text of a pattern must occur in the value it fits. */
  lemma {:induction false} LiteralPrefix(pattern: string, value: string, n: nat)
    requires n <= |pattern| && Fits(pattern, value)
    requires forall i :: 0 <= i < n ==> pattern[i] != STAR
    ensures n <= |value| && Fits(pattern[n..], value[n..])
  {
    if n == 0 {
      assert pattern[0..] == pattern && value[0..] == value;
    } else {
      LiteralPrefix(pattern[1..], value[1..], n - 1);
      assert pattern[1..][n - 1..] == pattern[n..] && value[1..][n - 1..] == value[n..];
    }
  }

  /** A resumption of the previous star that reaches a new star is covered by the new star here. */
  lemma NewStarCovers(pattern: string, value: string, s: Scan, k: nat)
    requires Valid(pattern, value, s) && Aligned(pattern, value, s) && s.starIdx >= 0
    requires s.patternIdx < |pattern| && pattern[s.patternIdx] == STAR && s.valueIdx < |value|
    requires s.matchIdx < k <= |value| && Fits(pattern[s.starIdx + 1..], value[k..])
    ensures Fits(pattern[s.patternIdx..], value[s.valueIdx..])
  {
    var n := s.patternIdx - s.starIdx - 1;
    LiteralPrefix(pattern[s.starIdx + 1..], value[k..], n);
    assert pattern[s.starIdx + 1..][n..] == pattern[s.patternIdx..];
    assert value[k..][n..] == value[k + n..];
    StarAbsorbs(pattern[s.patternIdx..], value, s.valueIdx, k + n);
  }

  lemma {:induction false} DecideComplete(pattern: string, value: string, s: Scan)
    requires Valid(pattern, value, s) && Aligned(pattern, value, s) && StarOnlyLast(value)
    requires Explained(pattern, value, s)
    ensures Decide(pattern, value, s)
    decreases |value| - s.matchIdx, |pattern| - s.starIdx, |value| - s.valueIdx
  {
    hide Fits;
    hide Explained;
    hide Aligned;
    if s.valueIdx == |value| {
      AtEnd(pattern, value, s);
    } else if s.patternIdx < |pattern| && pattern[s.patternIdx] == value[s.valueIdx] {
      LiteralComplete(pattern, value, s);
      DecideComplete(pattern, value, s.(patternIdx := s.patternIdx + 1, valueIdx := s.valueIdx + 1));
    } else if s.patternIdx < |pattern| && pattern[s.patternIdx] == STAR {
      StarComplete(pattern, value, s);
      DecideComplete(pattern, value, Scan(s.patternIdx + 1, s.valueIdx, s.patternIdx, s.valueIdx));
    } else {
      MismatchComplete(pattern, value, s);
      DecideComplete(pattern, value, Scan(s.starIdx + 1, s.matchIdx + 1, s.starIdx, s.matchIdx + 1));
    }
  }

  /** On a mismatch only a later resumption of the last star can succeed. */
  lemma MismatchComplete(pattern: string, value: string, s: Scan)
    requires Valid(pattern, value, s) && Aligned(pattern, value, s) && Explained(pattern, value, s)
    requires s.valueIdx < |value|
    requires s.patternIdx < |pattern| ==> pattern[s.patternIdx] != value[s.valueIdx] && pattern[s.patternIdx] != STAR
    ensures s.starIdx >= 0
    ensures var next := Scan(s.starIdx + 1, s.matchIdx + 1, s.starIdx, s.matchIdx + 1);
      Valid(pattern, value, next) && Aligned(pattern, value, next) && Explained(pattern, value, next)
  {
    var p, v := pattern[s.patternIdx..], value[s.valueIdx..];
    assert p != [] ==> p[0] == pattern[s.patternIdx];
    assert !Fits(p, v);
    var k :| s.matchIdx < k <= |value| && Fits(pattern[s.starIdx + 1..], value[k..]);
    if k == s.matchIdx + 1 {
      assert Fits(pattern[s.starIdx + 1..], value[s.matchIdx + 1..]);
    }
  }

  /** At the end of the value only stars may be left; an earlier star cannot help once its text is consumed. */
  lemma AtEnd(pattern: string, value: string, s: Scan)
    requires Valid(pattern, value, s) && Aligned(pattern, value, s) && Explained(pattern, value, s)
    requires s.valueIdx == |value| && StarOnlyLast(value)
    ensures AllStars(pattern[s.patternIdx..])
  {
    AllStarsFitsEmpty(pattern[s.patternIdx..]);
    assert value[s.valueIdx..] == [];
    if !Fits(pattern[s.patternIdx..], []) {
      var k :| s.matchIdx < k <= |value| && Fits(pattern[s.starIdx + 1..], value[k..]);
      ResumedAtEnd(pattern, value, s, k);
    }
  }

  lemma ResumedAtEnd(pattern: string, value: string, s: Scan, k: nat)
    requires Valid(pattern, value, s) && Aligned(pattern, value, s) && s.starIdx >= 0
    requires s.valueIdx == |value| && StarOnlyLast(value)
    requires s.matchIdx < k <= |value| && Fits(pattern[s.starIdx + 1..], value[k..])
    ensures AllStars(pattern[s.patternIdx..])
  {
    hide Fits;
    hide AllStars;
    var text := pattern[s.starIdx + 1..];
    var n := s.patternIdx - s.starIdx - 1;
    if pattern[s.patternIdx - 1] != STAR || n == 0 {
      LiteralPrefix(text, value[k..], n);
    } else {
      LiteralPrefix(text, value[k..], n - 1);
      var rest := pattern[s.patternIdx - 1..];
      assert text[n - 1..] == rest && value[k..][n - 1..] == [];
      AllStarsFitsEmpty(rest);
      AllStarsTail(rest);
      assert rest[1..] == pattern[s.patternIdx..];
    }
  }

  lemma AllStarsTail(pattern: string)
    requires pattern != [] && AllStars(pattern)
    ensures AllStars(pattern[1..])
  {
  }

  /** A star of the pattern may be spent on a star character that ends the value. */
  lemma StarMeetsStar(p: string, v: string)
    requires p != [] && p[0] == STAR && |v| == 1 && v[0] == STAR && Fits(p, v)
    ensures Fits(p[1..], v[1..])
  {
    var j :| 0 <= j <= |v| && Fits(p[1..], v[j..]);
    if j == 0 {
      assert v[0..] == v;
      OnlyStarsFitAStar(p[1..], v);
    }
  }

  lemma LiteralAligned(pattern: string, value: string, s: Scan)
    requires Valid(pattern, value, s) && Aligned(pattern, value, s) && StarOnlyLast(value)
    requires s.valueIdx < |value| && s.patternIdx < |pattern| && pattern[s.patternIdx] == value[s.valueIdx]
    ensures Aligned(pattern, value, s.(patternIdx := s.patternIdx + 1, valueIdx := s.valueIdx + 1))
  {
  }

  /** Equal first characters may be dropped; a star only where the value ends. */
  lemma DropLiteral(p: string, v: string)
    requires p != [] && v != [] && p[0] == v[0] && Fits(p, v) && (p[0] == STAR ==> |v| == 1)
    ensures Fits(p[1..], v[1..])
  {
    if p[0] == STAR {
      StarMeetsStar(p, v);
    }
  }

  lemma LiteralComplete(pattern: string, value: string, s: Scan)
    requires Valid(pattern, value, s) && Aligned(pattern, value, s) && Explained(pattern, value, s)
    requires StarOnlyLast(value)
    requires s.valueIdx < |value| && s.patternIdx < |pattern| && pattern[s.patternIdx] == value[s.valueIdx]
    ensures var next := s.(patternIdx := s.patternIdx + 1, valueIdx := s.valueIdx + 1);
      Aligned(pattern, value, next) && Explained(pattern, value, next)
  {
    hide Fits;
    LiteralAligned(pattern, value, s);
    var p, v := pattern[s.patternIdx..], value[s.valueIdx..];
    assert p[1..] == pattern[s.patternIdx + 1..] && v[1..] == value[s.valueIdx + 1..];
    if !Fits(p, v) && pattern[s.patternIdx] == STAR {
      var k :| s.matchIdx < k <= |value| && Fits(pattern[s.starIdx + 1..], value[k..]);
      NewStarCovers(pattern, value, s, k);
    }
    hide Aligned;
    if Fits(p, v) {
      DropLiteral(p, v);
    }
  }

  /** Nothing but stars fits a value that is a single star character. */
  lemma {:induction false} OnlyStarsFitAStar(pattern: string, value: string)
    requires |value| == 1 && value[0] == STAR && Fits(pattern, value)
    ensures Fits(pattern, value[1..])
  {
    AllStarsFitsEmpty(pattern);
    assert value[1..] == [];
    if pattern[0] == STAR {
      var k :| 0 <= k <= |value| && Fits(pattern[1..], value[k..]);
      if k == 0 {
        assert value[0..] == value;
        OnlyStarsFitAStar(pattern[1..], value);
      }
      AllStarsFitsEmpty(pattern[1..]);
    }
  }

  lemma StarComplete(pattern: string, value: string, s: Scan)
    requires Valid(pattern, value, s) && Aligned(pattern, value, s) && Explained(pattern, value, s)
    requires s.valueIdx < |value| && s.patternIdx < |pattern| && pattern[s.patternIdx] == STAR
    ensures var next := Scan(s.patternIdx + 1, s.valueIdx, s.patternIdx, s.valueIdx);
      Aligned(pattern, value, next) && Explained(pattern, value, next)
  {
    var p, v := pattern[s.patternIdx..], value[s.valueIdx..];
    if !Fits(p, v) {
      var k :| s.matchIdx < k <= |value| && Fits(pattern[s.starIdx + 1..], value[k..]);
      NewStarCovers(pattern, value, s, k);
    }
    var j :| 0 <= j <= |v| && Fits(p[1..], v[j..]);
    assert p[1..] == pattern[s.patternIdx + 1..] && v[j..] == value[s.valueIdx + j..];
    if j > 0 {
      assert s.valueIdx < s.valueIdx + j <= |value| && Fits(pattern[s.patternIdx + 1..], value[s.valueIdx + j..]);
    }
  }

  lemma MatchesExact(pattern: string, value: string)
    requires StarOnlyLast(value)
    ensures Matches(pattern, value) <==> IsInstance(pattern, value)
  {
    MatchesSound(pattern, value);
    FitsIffInstance(pattern, value);
    assert pattern[0..] == pattern && value[0..] == value;
    if IsInstance(pattern, value) {
      DecideComplete(pattern, value, START);
    }
  }

  // ---------------------------------------------------------------- exactly which values are matched correctly

  /**
   With `n` characters of common text before it, a trailing star that meets a star character is
   spent as a literal.
   */
  lemma {:induction false} LiteralStarIsSpent(pattern: string, value: string, n: nat)
    requires n < |value| && pattern == value[..n + 1] && n + 1 < |value|
    ensures !Decide(pattern, value, Scan(n + 1, n + 1, -1, 0))
  {
  }

  lemma {:induction false} CommonPrefix(pattern: string, value: string, n: nat, i: nat)
    requires n + 1 < |value| && pattern == value[..n + 1] && i <= n + 1
    ensures !Decide(pattern, value, Scan(i, i, -1, 0))
    decreases n + 1 - i
  {
    if i == n + 1 {
      LiteralStarIsSpent(pattern, value, n);
    } else {
      CommonPrefix(pattern, value, n, i + 1);
    }
  }

  /**
   The matcher means what a pattern means on every pattern exactly for the values
   that have no star character before their last character.
   */
  lemma CorrectForAllPatternsIff(value: string)
    ensures (forall pattern :: Matches(pattern, value) <==> IsInstance(pattern, value)) <==> StarOnlyLast(value)
  {
    if StarOnlyLast(value) {
      forall pattern ensures Matches(pattern, value) <==> IsInstance(pattern, value) {
        MatchesExact(pattern, value);
      }
    } else {
      var n :| 0 <= n < |value| - 1 && value[n] == STAR;
      var pattern := value[..n + 1];
      CommonPrefix(pattern, value, n, 0);
      PrefixStarFits(value, n, 0);
      assert pattern[0..] == pattern && value[0..] == value;
      FitsIffInstance(pattern, value);
      assert !Matches(pattern, value) && IsInstance(pattern, value);
    }
  }

  lemma {:induction false} PrefixStarFits(value: string, n: nat, i: nat)
    requires i <= n < |value| && value[n] == STAR
    ensures Fits(value[..n + 1][i..], value[i..])
    decreases n - i
  {
    var p, v := value[..n + 1][i..], value[i..];
    if i == n {
      assert p[1..] == [] && v[|v|..] == [];
      assert Fits(p[1..], v[|v|..]);
    } else {
      PrefixStarFits(value, n, i + 1);
      assert p[1..] == value[..n + 1][i + 1..] && v[1..] == value[i + 1..];
      if p[0] == STAR {
        assert Fits(p[1..], v[1..]);
      }
    }
  }

  /** A failing input that a whitelist may hold: the pattern `*.exe` does not match the value `*a.exe`. */
  lemma StarExeRejectsStarred()
    ensures IsInstance("*.exe", "*a.exe") && !Matches("*.exe", "*a.exe")
  {
    var pattern, value := "*.exe", "*a.exe";
    assert Instance(pattern, ["*a"]) == value by {
      var rest := pattern[1..];
      assert Instance(rest, []) == rest by {
        LiteralInstance(rest);
      }
    }
    assert !Decide(pattern, value, Scan(1, 1, -1, 0));
  }

  lemma {:induction false} LiteralInstance(pattern: string)
    requires STAR !in pattern
    ensures Instance(pattern, []) == pattern
  {
    if pattern != [] {
      LiteralInstance(pattern[1..]);
    }
  }
}
