/**
 Longest-prefix tables: rows grouped by address family and prefix length, looked
 up from the longest length down. The plain meaning of
 a lookup is section 5.1 of RFC 4632, with the later of two equal prefixes winning.
 */
module GeoTables {
  import opened Wrappers

  const MAX_ENTRIES := 1000000

  datatype Family = V4 | V6

  type Bits = seq<bool>

  /** An address, most significant bit first. */
  datatype Addr = Addr(family: Family, bits: Bits)

  function Width(f: Family): nat {
    if f == V4 then 32 else 128
  }

  predicate ValidAddr(a: Addr) {
    |a.bits| == Width(a.family)
  }

  /** Country, coordinates and network name of a row, as one opaque value. */
  type GeoRecord = nat

  /** A parsed row: `length` leading bits of `addr` are significant. */
  datatype Row = Row(addr: Addr, length: nat, record: GeoRecord)

  predicate ValidRow(r: Row) {
    ValidAddr(r.addr) && r.length <= |r.addr.bits|
  }

  /** All bits after the first `n` cleared. */
  function Masked(b: Bits, n: nat): (m: Bits)
    requires n <= |b|
    ensures |m| == |b|
  {
    b[..n] + seq(|b| - n, _ => false)
  }

  lemma MaskedEqual(a: Bits, b: Bits, n: nat)
    requires |a| == |b| && n <= |a|
    ensures Masked(a, n) == Masked(b, n) <==> a[..n] == b[..n]
  {
    if Masked(a, n) == Masked(b, n) {
      assert Masked(a, n)[..n] == a[..n] && Masked(b, n)[..n] == b[..n];
    }
  }

  // ---------------------------------------------------------------- the plain meaning

  predicate Contains(r: Row, a: Addr)
    requires ValidRow(r) && ValidAddr(a)
  {
    r.addr.family == a.family && r.addr.bits[..r.length] == a.bits[..r.length]
  }

  /** Row `j` is a better answer than row `i`: a longer prefix, or an equally long one that comes later. */
  predicate Beats(rows: seq<Row>, j: nat, i: nat)
    requires i < |rows| && j < |rows|
  {
    rows[j].length > rows[i].length || (rows[j].length == rows[i].length && j > i)
  }

  ghost predicate ValidRows(rows: seq<Row>) {
    forall i :: 0 <= i < |rows| ==> ValidRow(rows[i])
  }

  /** The longest-prefix answer: none if no row contains the address, else the unbeaten containing row's record. */
  ghost predicate IsAnswer(rows: seq<Row>, a: Addr, answer: Option<GeoRecord>)
    requires ValidRows(rows) && ValidAddr(a)
  {
    match answer
    case None => forall i :: 0 <= i < |rows| ==> !Contains(rows[i], a)
    case Some(record) =>
      exists i :: 0 <= i < |rows| && IsBest(rows, a, i) && rows[i].record == record
  }

  ghost predicate IsBest(rows: seq<Row>, a: Addr, i: nat)
    requires ValidRows(rows) && ValidAddr(a) && i < |rows|
  {
    Contains(rows[i], a) && forall j :: 0 <= j < |rows| && Contains(rows[j], a) ==> !Beats(rows, j, i)
  }

  /** There is only one answer. */
  lemma AnswerUnique(rows: seq<Row>, a: Addr, x: Option<GeoRecord>, y: Option<GeoRecord>)
    requires ValidRows(rows) && ValidAddr(a) && IsAnswer(rows, a, x) && IsAnswer(rows, a, y)
    ensures x == y
  {
    if x.Some? && y.Some? {
      var i :| 0 <= i < |rows| && IsBest(rows, a, i) && rows[i].record == x.value;
      var j :| 0 <= j < |rows| && IsBest(rows, a, j) && rows[j].record == y.value;
      assert !Beats(rows, j, i) && !Beats(rows, i, j);
    }
  }

  // ---------------------------------------------------------------- the tables

  type Table = map<nat, map<Bits, GeoRecord>>

  function Get(t: Table, length: nat, key: Bits): Option<GeoRecord> {
    if length in t && key in t[length] then Some(t[length][key]) else None
  }

  function Put(t: Table, length: nat, key: Bits, record: GeoRecord): Table {
    var bucket := if length in t then t[length] else map[];
    t[length := bucket[key := record]]
  }

  predicate Files(r: Row, f: Family, length: nat, key: Bits)
    requires ValidRow(r)
  {
    r.addr.family == f && r.length == length && Masked(r.addr.bits, r.length) == key
  }

  /** The record of the last row filed under a length and key. */
  ghost function LastFiled(rows: seq<Row>, f: Family, length: nat, key: Bits): Option<GeoRecord>
    requires ValidRows(rows)
  {
    if rows == [] then None
    else if Files(rows[|rows| - 1], f, length, key) then Some(rows[|rows| - 1].record)
    else LastFiled(rows[..|rows| - 1], f, length, key)
  }

  /** The table of a family and its set of lengths describe the rows. */
  ghost predicate Describes(t: Table, lengths: set<nat>, rows: seq<Row>, f: Family) {
    && ValidRows(rows)
    && (forall n, key :: Get(t, n, key) == LastFiled(rows, f, n, key))
    && (forall n :: n in lengths <==> UsesLength(rows, f, n))
  }

  ghost predicate UsesLength(rows: seq<Row>, f: Family, n: nat) {
    exists i :: 0 <= i < |rows| && rows[i].addr.family == f && rows[i].length == n
  }

  lemma PutDescribes(t: Table, lengths: set<nat>, rows: seq<Row>, f: Family, r: Row)
    requires Describes(t, lengths, rows, f) && ValidRow(r)
    ensures r.addr.family == f ==>
      Describes(Put(t, r.length, Masked(r.addr.bits, r.length), r.record), lengths + {r.length}, rows + [r], f)
    ensures r.addr.family != f ==> Describes(t, lengths, rows + [r], f)
  {
    var rows' := rows + [r];
    assert rows'[..|rows|] == rows;
    assert rows'[|rows|] == r;
    forall n: nat
      ensures UsesLength(rows', f, n) <==> UsesLength(rows, f, n) || (r.addr.family == f && r.length == n)
    {
      if i :| 0 <= i < |rows| && rows[i].addr.family == f && rows[i].length == n {
        assert rows'[i] == rows[i];
      }
    }
  }

  /** The table-building loop of a load; too many rows are refused. */
  method BuildTables(rows: seq<Row>) returns (ok: bool, v4: Table, v6: Table, lengths4: set<nat>, lengths6: set<nat>)
    requires ValidRows(rows)
    ensures ok <==> |rows| <= MAX_ENTRIES
    ensures ok ==> Describes(v4, lengths4, rows, V4) && Describes(v6, lengths6, rows, V6)
  {
    v4, v6, lengths4, lengths6 := map[], map[], {}, {};
    var count := 0;
    assert rows[..0] == [];
    while count < |rows|
      invariant count <= |rows| && count <= MAX_ENTRIES
      invariant Describes(v4, lengths4, rows[..count], V4) && Describes(v6, lengths6, rows[..count], V6)
    {
      if count >= MAX_ENTRIES {
        return false, v4, v6, lengths4, lengths6;
      }
      var r := rows[count];
      var key := Masked(r.addr.bits, r.length);
      PutDescribes(v4, lengths4, rows[..count], V4, r);
      PutDescribes(v6, lengths6, rows[..count], V6, r);
      assert rows[..count] + [r] == rows[..count + 1];
      if r.addr.family == V4 {
        v4, lengths4 := Put(v4, r.length, key, r.record), lengths4 + {r.length};
      } else {
        v6, lengths6 := Put(v6, r.length, key, r.record), lengths6 + {r.length};
      }
      count := count + 1;
    }
    assert rows[..count] == rows;
    return true, v4, v6, lengths4, lengths6;
  }

  ghost predicate Descending(s: seq<nat>) {
    forall i, j :: 0 <= i < j < |s| ==> s[i] > s[j]
  }

  /** The prefix lengths in use, longest first. */
  method SortedLengths(lengths: set<nat>) returns (sorted: seq<nat>)
    ensures Descending(sorted)
    ensures forall n :: n in sorted <==> n in lengths
  {
    sorted := [];
    var left := lengths;
    while left != {}
      invariant left <= lengths && Descending(sorted)
      invariant forall n :: n in lengths <==> n in left || n in sorted
      invariant forall n, m :: n in left && m in sorted ==> n < m
      decreases left
    {
      var top := Greatest(left);
      assert forall i :: 0 <= i < |sorted| ==> sorted[i] in sorted && top < sorted[i];
      sorted := sorted + [top];
      left := left - {top};
    }
  }

  method Greatest(s: set<nat>) returns (top: nat)
    requires s != {}
    ensures top in s && forall n :: n in s ==> n <= top
  {
    top :| top in s;
    var left := s - {top};
    while left != {}
      invariant left <= s && top in s
      invariant forall n :: n in s && n !in left ==> n <= top
      decreases left
    {
      var n :| n in left;
      if n > top {
        top := n;
      }
      left := left - {n};
    }
  }

  lemma {:induction false} LastFiledRow(rows: seq<Row>, f: Family, length: nat, key: Bits)
    requires ValidRows(rows)
    ensures LastFiled(rows, f, length, key).None? ==>
      forall i :: 0 <= i < |rows| ==> !Files(rows[i], f, length, key)
    ensures LastFiled(rows, f, length, key).Some? ==>
      exists i :: 0 <= i < |rows| && Files(rows[i], f, length, key)
        && rows[i].record == LastFiled(rows, f, length, key).value
        && forall j :: i < j < |rows| ==> !Files(rows[j], f, length, key)
  {
    if rows != [] {
      var before, last := rows[..|rows| - 1], |rows| - 1;
      LastFiledRow(before, f, length, key);
      assert forall i :: 0 <= i < last ==> rows[i] == before[i];
      if Files(rows[last], f, length, key) {
        assert Files(rows[last], f, length, key) && rows[last].record == LastFiled(rows, f, length, key).value;
      } else if LastFiled(before, f, length, key).Some? {
        var i :| 0 <= i < |before| && Files(before[i], f, length, key)
                 && before[i].record == LastFiled(before, f, length, key).value
                 && forall j :: i < j < |before| ==> !Files(before[j], f, length, key);
        assert rows[i] == before[i];
      }
    }
  }

  /** Being filed under the address's own masked key means containing the address. */
  lemma FiledMeansContains(r: Row, a: Addr, n: nat)
    requires ValidRow(r) && ValidAddr(a) && n <= |a.bits|
    ensures Files(r, a.family, n, Masked(a.bits, n)) <==> Contains(r, a) && r.length == n
  {
    if r.addr.family == a.family && r.length == n {
      MaskedEqual(r.addr.bits, a.bits, n);
    }
  }

  /** No containing row has one of the first `k` lengths. */
  ghost predicate NoLonger(rows: seq<Row>, a: Addr, sorted: seq<nat>, k: nat)
    requires ValidRows(rows) && ValidAddr(a) && k <= |sorted|
  {
    forall i, m :: 0 <= i < |rows| && Contains(rows[i], a) && 0 <= m < k ==> rows[i].length != sorted[m]
  }

  /** The lookup loop over prefix lengths. */
  method Search(t: Table, sorted: seq<nat>, a: Addr, ghost rows: seq<Row>, ghost lengths: set<nat>)
    returns (answer: Option<GeoRecord>)
    requires ValidAddr(a) && Describes(t, lengths, rows, a.family)
    requires Descending(sorted) && forall n :: n in sorted <==> n in lengths
    ensures IsAnswer(rows, a, answer)
  {
    var k := 0;
    while k < |sorted|
      invariant k <= |sorted|
      invariant NoLonger(rows, a, sorted, k)
    {
      var n := sorted[k];
      LengthFits(rows, a, lengths, n, sorted, t);
      var key := Masked(a.bits, n);
      var found := Get(t, n, key);
      LastFiledRow(rows, a.family, n, key);
      if found.Some? {
        FoundIsAnswer(rows, a, lengths, sorted, k, found.value, t);
        return found;
      }
      MissExtends(rows, a, sorted, k);
      k := k + 1;
    }
    NothingIsAnswer(rows, a, lengths, sorted, t);
    return None;
  }

  lemma LengthFits(rows: seq<Row>, a: Addr, lengths: set<nat>, n: nat, sorted: seq<nat>, t: Table)
    requires ValidAddr(a) && Describes(t, lengths, rows, a.family) && n in sorted
    requires forall n :: n in sorted <==> n in lengths
    ensures n <= |a.bits|
  {
    var i :| 0 <= i < |rows| && rows[i].addr.family == a.family && rows[i].length == n;
    assert ValidRow(rows[i]);
  }

  lemma FoundIsAnswer(rows: seq<Row>, a: Addr, lengths: set<nat>, sorted: seq<nat>, k: nat, record: GeoRecord, t: Table)
    requires ValidAddr(a) && Describes(t, lengths, rows, a.family) && k < |sorted| && sorted[k] <= |a.bits|
    requires Descending(sorted) && forall n :: n in sorted <==> n in lengths
    requires NoLonger(rows, a, sorted, k)
    requires LastFiled(rows, a.family, sorted[k], Masked(a.bits, sorted[k])) == Some(record)
    ensures IsAnswer(rows, a, Some(record))
  {
    var n, key := sorted[k], Masked(a.bits, sorted[k]);
    LastFiledRow(rows, a.family, n, key);
    var i :| 0 <= i < |rows| && Files(rows[i], a.family, n, key) && rows[i].record == record
             && forall j :: i < j < |rows| ==> !Files(rows[j], a.family, n, key);
    FiledMeansContains(rows[i], a, n);
    forall j | 0 <= j < |rows| && Contains(rows[j], a) ensures !Beats(rows, j, i) {
      FiledMeansContains(rows[j], a, n);
      assert UsesLength(rows, a.family, rows[j].length);
      var m :| 0 <= m < |sorted| && sorted[m] == rows[j].length;
    }
    assert IsBest(rows, a, i);
  }

  lemma MissExtends(rows: seq<Row>, a: Addr, sorted: seq<nat>, k: nat)
    requires ValidRows(rows) && ValidAddr(a) && k < |sorted| && sorted[k] <= |a.bits|
    requires NoLonger(rows, a, sorted, k)
    requires forall i :: 0 <= i < |rows| ==> !Files(rows[i], a.family, sorted[k], Masked(a.bits, sorted[k]))
    ensures NoLonger(rows, a, sorted, k + 1)
  {
    forall i, m | 0 <= i < |rows| && Contains(rows[i], a) && 0 <= m < k + 1 ensures rows[i].length != sorted[m] {
      FiledMeansContains(rows[i], a, sorted[k]);
    }
  }

  lemma NothingIsAnswer(rows: seq<Row>, a: Addr, lengths: set<nat>, sorted: seq<nat>, t: Table)
    requires ValidAddr(a) && Describes(t, lengths, rows, a.family)
    requires forall n :: n in sorted <==> n in lengths
    requires NoLonger(rows, a, sorted, |sorted|)
    ensures IsAnswer(rows, a, None)
  {
    forall i | 0 <= i < |rows| ensures !Contains(rows[i], a) {
      assert rows[i].addr.family == a.family ==> UsesLength(rows, a.family, rows[i].length);
      assert rows[i].length in lengths ==> rows[i].length in sorted;
    }
  }
}
