/**
 Reading the newest lines of a journal file without reading the whole file:
 fixed-size chunks from the end, with the unfinished first line of each chunk
 carried into the next one.
 */
module EvidenceLines {
  import opened Wrappers
  import opened EvidenceChain
  import opened EvidencePaging

  newtype Byte = b: int | 0 <= b < 256

  const NEWLINE: Byte := 10

  type Line = seq<Byte>

  /** The newline-separated lines of a file, first line first. */
  function SplitLines(s: seq<Byte>): (lines: seq<Line>)
    ensures |lines| >= 1
  {
    if s == [] then [[]]
    else if s[0] == NEWLINE then [[]] + SplitLines(s[1..])
    else var rest := SplitLines(s[1..]); [[s[0]] + rest[0]] + rest[1..]
  }

  function NonEmpty(lines: seq<Line>): seq<Line> {
    if lines == [] then []
    else NonEmpty(lines[..|lines| - 1]) + if lines[|lines| - 1] == [] then [] else [lines[|lines| - 1]]
  }

  /** The non-empty lines, newest first. */
  function NewestLines(s: seq<Byte>): seq<Line> {
    Reversed(NonEmpty(SplitLines(s)))
  }

  function LastNewline(s: seq<Byte>): (i: int)
    ensures -1 <= i < |s|
    ensures i >= 0 ==> s[i] == NEWLINE && NEWLINE !in s[i + 1..]
    ensures i < 0 ==> NEWLINE !in s
  {
    if s == [] then -1
    else if s[|s| - 1] == NEWLINE then |s| - 1
    else
      var i := LastNewline(s[..|s| - 1]);
      assert s == s[..|s| - 1] + [s[|s| - 1]];
      i
  }

  // ---------------------------------------------------------------- lines from the end

  lemma {:induction false} SplitAtLast(a: seq<Byte>, b: seq<Byte>)
    requires NEWLINE !in b
    ensures SplitLines(a + [NEWLINE] + b) == SplitLines(a) + [b]
  {
    var s := a + [NEWLINE] + b;
    if a == [] {
      assert s[1..] == b;
      SplitSingle(b);
    } else {
      assert s[1..] == a[1..] + [NEWLINE] + b;
      SplitAtLast(a[1..], b);
    }
  }

  lemma {:induction false} SplitSingle(b: seq<Byte>)
    requires NEWLINE !in b
    ensures SplitLines(b) == [b]
  {
    if b != [] {
      assert b[0] in b;
      SplitSingle(b[1..]);
      assert [b[0]] + b[1..] == b;
    }
  }

  function Kept(line: Line): seq<Line> {
    if line == [] then [] else [line]
  }

  lemma NewestSnoc(lines: seq<Line>, b: Line)
    ensures Reversed(NonEmpty(lines + [b])) == Kept(b) + Reversed(NonEmpty(lines))
  {
    assert (lines + [b])[..|lines|] == lines;
    ReversedConcat(NonEmpty(lines), Kept(b));
  }

  lemma NewestAtLast(a: seq<Byte>, b: seq<Byte>)
    requires NEWLINE !in b
    ensures NewestLines(a + [NEWLINE] + b) == Kept(b) + NewestLines(a)
  {
    SplitAtLast(a, b);
    NewestSnoc(SplitLines(a), b);
  }

  lemma NewestSingle(b: seq<Byte>)
    requires NEWLINE !in b
    ensures NewestLines(b) == Kept(b)
  {
    SplitSingle(b);
    NewestSnoc([], b);
    assert [] + [b] == [b];
    assert NonEmpty([]) == [];
  }

  /** A carried suffix without newline belongs to the newest line of what is still unread. */
  lemma CarryIsInNewest(p: seq<Byte>, carry: seq<Byte>)
    requires NEWLINE !in carry && carry != []
    ensures NewestLines(p + carry) != [] && |NewestLines(p + carry)[0]| >= |carry|
  {
    var i := LastNewline(p);
    if i < 0 {
      NewestSingle(p + carry);
    } else {
      assert p + carry == p[..i] + [NEWLINE] + (p[i + 1..] + carry);
      NewestAtLast(p[..i], p[i + 1..] + carry);
    }
  }

  // ---------------------------------------------------------------- the chunked scan

  /** What the scan has to return. */
  function Wanted(content: seq<Byte>, limit: nat): seq<Line> {
    Slice(NewestLines(content), 0, limit)
  }

  predicate AllWithin(lines: seq<Line>, bound: nat) {
    forall l :: l in lines ==> |l| <= bound
  }

  /** `lines` are done and what is left of the file is `rest`. */
  ghost predicate Scanning(content: seq<Byte>, lines: seq<Line>, rest: seq<Byte>, limit: nat, bound: nat) {
    && |lines| <= limit && AllWithin(lines, bound)
    && NewestLines(content) == lines + NewestLines(rest)
  }

  /** Cuts complete lines off the end of `combined`; the unread prefix of the file is `unread`. */
  method CutLines(content: seq<Byte>, lines0: seq<Line>, ghost unread: seq<Byte>, combined: seq<Byte>,
                  limit: nat, bound: nat)
    returns (ok: bool, lines: seq<Line>, carry: seq<Byte>)
    requires Scanning(content, lines0, unread + combined, limit, bound)
    ensures ok ==> Scanning(content, lines, unread + carry, limit, bound) && |lines| <= limit
    ensures ok && |lines| < limit ==> NEWLINE !in carry
    ensures !ok ==> !AllWithin(Wanted(content, limit), bound)
  {
    hide NewestLines;
    hide AllWithin;
    lines, ok := lines0, true;
    var end: nat := |combined|;
    assert combined[..end] == combined;
    var searching := true;
    while end > 0 && |lines| < limit && searching
      invariant end <= |combined|
      invariant Scanning(content, lines, unread + combined[..end], limit, bound)
      invariant !searching ==> NEWLINE !in combined[..end]
      decreases end, searching
    {
      var index := LastNewline(combined[..end]);
      if index < 0 {
        searching := false;
      } else {
        var line := combined[index + 1..end];
        ghost var before := unread + combined[..index];
        assert combined[..end][index + 1..] == line;
        assert unread + combined[..end] == before + [NEWLINE] + line;
        NewestAtLast(before, line);
        end := index;
        if |line| > bound {
          TooLong(content, lines, line, before, limit, bound);
          return false, lines, [];
        }
        ExtendScan(content, lines, line, before, limit, bound);
        if |line| > 0 {
          lines := lines + [line];
        } else {
          assert lines + Kept(line) == lines;
        }
      }
    }
    carry := combined[..end];
  }

  lemma TooLong(content: seq<Byte>, lines: seq<Line>, line: Line, before: seq<Byte>, limit: nat, bound: nat)
    requires |lines| < limit && |line| > bound
    requires NewestLines(content) == lines + (Kept(line) + NewestLines(before))
    ensures !AllWithin(Wanted(content, limit), bound)
  {
    hide NewestLines;
    assert Wanted(content, limit)[|lines|] == line;
    assert line in Wanted(content, limit);
  }

  lemma ExtendScan(content: seq<Byte>, lines: seq<Line>, line: Line, before: seq<Byte>, limit: nat, bound: nat)
    requires |lines| < limit && AllWithin(lines, bound) && |line| <= bound
    requires NewestLines(content) == lines + (Kept(line) + NewestLines(before))
    ensures Scanning(content, lines + Kept(line), before, limit, bound)
  {
    hide NewestLines;
    assert lines + (Kept(line) + NewestLines(before)) == lines + Kept(line) + NewestLines(before);
  }

  lemma CarryTooLong(content: seq<Byte>, lines: seq<Line>, unread: seq<Byte>, carry: seq<Byte>, limit: nat, bound: nat)
    requires Scanning(content, lines, unread + carry, limit, bound) && |lines| < limit
    requires NEWLINE !in carry && |carry| > bound
    ensures !AllWithin(Wanted(content, limit), bound)
  {
    hide NewestLines;
    CarryIsInNewest(unread, carry);
    var late := NewestLines(unread + carry)[0];
    assert Wanted(content, limit)[|lines|] == late;
    assert late in Wanted(content, limit);
  }

  lemma ChunkJoins(content: seq<Byte>, position: nat, before: nat, carry: seq<Byte>)
    requires position <= before <= |content|
    ensures content[..before] + carry == content[..position] + (content[position..before] + carry)
  {
  }

  lemma StartScan(content: seq<Byte>, limit: nat, bound: nat)
    ensures Scanning(content, [], content, limit, bound)
  {
    hide NewestLines;
  }

  lemma EnoughLines(content: seq<Byte>, lines: seq<Line>, rest: seq<Byte>, limit: nat, bound: nat)
    requires Scanning(content, lines, rest, limit, bound) && |lines| == limit
    ensures Wanted(content, limit) == lines && AllWithin(Wanted(content, limit), bound)
  {
    hide NewestLines;
  }

  lemma FileRead(content: seq<Byte>, lines: seq<Line>, carry: seq<Byte>, limit: nat, bound: nat)
    requires Scanning(content, lines, carry, limit, bound) && |lines| < limit
    requires NEWLINE !in carry && |carry| <= bound
    ensures Wanted(content, limit) == lines + Kept(carry)
    ensures Wanted(content, limit) == if carry == [] then lines else lines + [carry]
    ensures AllWithin(Wanted(content, limit), bound)
  {
    hide NewestLines;
    NewestSingle(carry);
  }

  lemma WithinMeans(lines: seq<Line>, bound: nat)
    ensures AllWithin(lines, bound) <==> forall line :: line in lines ==> |line| <= bound
  {
  }

  /**
   For every content, limit, positive chunk size and line bound: the scan returns
   exactly the newest `limit` non-empty lines, newest first, and fails exactly
   when one of those lines exceeds the bound.
   */
  method ReadNewestLines(content: seq<Byte>, limit: int, chunk: nat, bound: nat) returns (result: Option<seq<Line>>)
    requires chunk > 0
    ensures limit <= 0 ==> result == Some([])
    ensures limit > 0 ==> (result.Some? <==> forall line :: line in Wanted(content, limit) ==> |line| <= bound)
    ensures limit > 0 && result.Some? ==> result.value == Wanted(content, limit)
  {
    hide AllWithin;
    hide Scanning;
    hide Wanted;
    if limit <= 0 {
      return Some([]);
    }
    WithinMeans(Wanted(content, limit), bound);
    var lines: seq<Line>, carry: seq<Byte> := [], [];
    var position: nat := |content|;
    assert content[..position] + carry == content;
    StartScan(content, limit, bound);
    while position > 0 && |lines| < limit
      invariant position <= |content|
      invariant Scanning(content, lines, content[..position] + carry, limit, bound)
      invariant |lines| < limit && NEWLINE !in carry && |carry| <= bound
      decreases position
    {
      var step := if chunk > position then position else chunk;
      var before := position;
      position := position - step;
      var combined := content[position..before] + carry;
      ChunkJoins(content, position, before, carry);
      var ok;
      ok, lines, carry := CutLines(content, lines, content[..position], combined, limit, bound);
      if !ok {
        return None;
      }
      if |lines| >= limit {
        EnoughLines(content, lines, content[..position] + carry, limit, bound);
        return Some(lines);
      }
      if |carry| > bound {
        CarryTooLong(content, lines, content[..position], carry, limit, bound);
        return None;
      }
    }
    assert content[..0] + carry == carry;
    FileRead(content, lines, carry, limit, bound);
    if |carry| > 0 {
      lines := lines + [carry];
    }
    return Some(lines);
  }

  // ---------------------------------------------------------------- journal files

  /** A journal file: one encoded record per line, each ended by a newline. */
  function JournalBytes(encode: Record -> Line, file: seq<Record>): seq<Byte> {
    if file == [] then [] else JournalBytes(encode, file[..|file| - 1]) + encode(file[|file| - 1]) + [NEWLINE]
  }

  function Encoded(encode: Record -> Line, file: seq<Record>): (lines: seq<Line>)
    ensures |lines| == |file|
    ensures forall i :: 0 <= i < |file| ==> lines[i] == encode(file[i])
  {
    seq(|file|, i requires 0 <= i < |file| => encode(file[i]))
  }

  lemma EncodedSnoc(encode: Record -> Line, file: seq<Record>, r: Record)
    ensures Reversed(Encoded(encode, file + [r])) == [encode(r)] + Reversed(Encoded(encode, file))
  {
    assert Encoded(encode, file + [r]) == Encoded(encode, file) + [encode(r)];
    ReversedConcat(Encoded(encode, file), [encode(r)]);
  }

  lemma {:induction false} JournalReadsBack(encode: Record -> Line, file: seq<Record>)
    requires forall r :: encode(r) != [] && NEWLINE !in encode(r)
    ensures NewestLines(JournalBytes(encode, file)) == Reversed(Encoded(encode, file))
  {
    hide NewestLines;
    var bytes := JournalBytes(encode, file);
    if file == [] {
      NewestSingle([]);
    } else {
      var rest, last := file[..|file| - 1], file[|file| - 1];
      JournalReadsBack(encode, rest);
      UnendedLine(JournalBytes(encode, rest), rest, encode, last);
      assert bytes == JournalBytes(encode, rest) + encode(last) + [NEWLINE] + [];
      NewestAtLast(JournalBytes(encode, rest) + encode(last), []);
      EncodedSnoc(encode, rest, last);
      assert rest + [last] == file;
    }
  }

  /** Before its newline is written, the last line is already the newest one. */
  lemma UnendedLine(bytes: seq<Byte>, file: seq<Record>, encode: Record -> Line, last: Record)
    requires bytes == JournalBytes(encode, file)
    requires encode(last) != [] && NEWLINE !in encode(last)
    ensures NewestLines(bytes + encode(last)) == [encode(last)] + NewestLines(bytes)
  {
    if file == [] {
      assert bytes + encode(last) == encode(last);
      NewestSingle(encode(last));
      NewestSingle([]);
    } else {
      var a := bytes[..|bytes| - 1];
      assert bytes == a + [NEWLINE] + [];
      assert bytes + encode(last) == a + [NEWLINE] + encode(last);
      NewestAtLast(a, encode(last));
      NewestAtLast(a, []);
    }
  }

  /** Reading a journal's newest lines reads back its newest records. */
  lemma NewestLinesAreNewestRecords(encode: Record -> Line, file: seq<Record>, limit: nat)
    requires forall r :: encode(r) != [] && NEWLINE !in encode(r)
    ensures Wanted(JournalBytes(encode, file), limit) == Encoded(encode, ReadNewest(file, limit))
  {
    hide NewestLines;
    hide JournalBytes;
    JournalReadsBack(encode, file);
    var newest := ReadNewest(file, limit);
    assert Wanted(JournalBytes(encode, file), limit) == Slice(Reversed(Encoded(encode, file)), 0, limit);
    forall i | 0 <= i < |newest|
      ensures Slice(Reversed(Encoded(encode, file)), 0, limit)[i] == encode(newest[i])
    {
      assert newest[i] == file[|file| - 1 - i];
    }
  }
}
