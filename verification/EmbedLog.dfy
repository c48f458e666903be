/**
 * The record file of the embedding cache (cmd/cortexdb-bench/embedder.go): a
 * 32-byte key and Dim little-endian float32 patterns a record, appended, and
 * read back by whole records whatever was torn off the end.
 */
module EmbedLog {
  type Byte = n: nat | n < 0x100

  /** A float32, by its bit pattern. */
  type Bits = n: nat | n < 0x1_0000_0000

  type Key = seq<Byte>
  type Vec = seq<Bits>

  datatype Record = Record(key: Key, vector: Vec)

  const KEY_LEN: nat := 32

  function RecLen(dim: nat): (n: nat)
    ensures n == 32 + 4 * dim
  {
    KEY_LEN + 4 * dim
  }

  // ------------------------------------------------------------------- bytes

  function Power256(n: nat): (p: nat)
    ensures p > 0
  {
    if n == 0 then 1 else 0x100 * Power256(n - 1)
  }

  /** The low n bytes of a number, lowest first. */
  function Little(x: nat, n: nat): (b: seq<Byte>)
    ensures |b| == n
    decreases n, x
  {
    if n == 0 then [] else [x % 0x100] + Little(x / 0x100, n - 1)
  }

  function Number(b: seq<Byte>): nat {
    if b == [] then 0 else b[0] + 0x100 * Number(b[1..])
  }

  lemma {:induction false} NumberFits(b: seq<Byte>)
    ensures Number(b) < Power256(|b|)
  {
    if b != [] {
      NumberFits(b[1..]);
    }
  }

  lemma {:induction false} NumberRoundTrip(x: nat, n: nat)
    requires x < Power256(n)
    ensures Number(Little(x, n)) == x
    decreases n
  {
    if n > 0 {
      NumberRoundTrip(x / 0x100, n - 1);
      assert Little(x, n)[1..] == Little(x / 0x100, n - 1);
    }
  }

  function PutUint32(x: Bits): (b: seq<Byte>)
    ensures |b| == 4
  {
    Little(x, 4)
  }

  function Uint32(b: seq<Byte>): Bits
    requires |b| == 4
  {
    NumberFits(b);
    Number(b)
  }

  lemma Uint32RoundTrip(x: Bits)
    ensures Uint32(PutUint32(x)) == x
  {
    NumberRoundTrip(x, 4);
  }

  function VecBytes(v: Vec): (b: seq<Byte>)
    ensures |b| == 4 * |v|
  {
    if v == [] then [] else VecBytes(v[..|v| - 1]) + PutUint32(v[|v| - 1])
  }

  function VecAt(data: seq<Byte>, off: nat, dim: nat): (v: Vec)
    requires off + 4 * dim <= |data|
    ensures |v| == dim
    decreases dim, off
  {
    if dim == 0 then []
    else VecAt(data, off, dim - 1) + [Uint32(data[off + 4 * (dim - 1)..off + 4 * dim])]
  }

  lemma SplitSlice(data: seq<Byte>, lo: nat, a: seq<Byte>, b: seq<Byte>)
    requires lo + |a| + |b| <= |data| && data[lo..lo + |a| + |b|] == a + b
    ensures data[lo..lo + |a|] == a && data[lo + |a|..lo + |a| + |b|] == b
  {
    var whole := data[lo..lo + |a| + |b|];
    assert data[lo..lo + |a|] == whole[..|a|];
    assert data[lo + |a|..lo + |a| + |b|] == whole[|a|..];
  }

  /** Bytes that are a vector's, wherever they stand, read back as that vector. */
  lemma {:induction false} VecRoundTrip(data: seq<Byte>, off: nat, v: Vec)
    requires off + 4 * |v| <= |data| && data[off..off + 4 * |v|] == VecBytes(v)
    ensures VecAt(data, off, |v|) == v
    decreases |v|
  {
    if v != [] {
      var n := |v| - 1;
      SplitSlice(data, off, VecBytes(v[..n]), PutUint32(v[n]));
      VecRoundTrip(data, off, v[..n]);
      Uint32RoundTrip(v[n]);
    }
  }

  // ----------------------------------------------------------------- records

  function RecordBytes(r: Record): seq<Byte> {
    r.key + VecBytes(r.vector)
  }

  /** The layout of a record: the key, and then four bytes for each number, the lowest first. */
  lemma RecordLayout(r: Record, i: nat)
    requires i < |r.vector|
    ensures var b := RecordBytes(r);
            && |b| == |r.key| + 4 * |r.vector| && b[..|r.key|] == r.key
            && var at, x := |r.key| + 4 * i, r.vector[i];
               b[at..at + 4] == [x % 256, x / 256 % 256, x / 65536 % 256, x / 16777216 % 256]
  {
    VecLayout(r.vector, i);
    var at := |r.key| + 4 * i;
    assert RecordBytes(r)[at..at + 4] == VecBytes(r.vector)[4 * i..4 * i + 4];
  }

  lemma {:induction false} VecLayout(v: Vec, i: nat)
    requires i < |v|
    ensures VecBytes(v)[4 * i..4 * i + 4] == [v[i] % 256, v[i] / 256 % 256, v[i] / 65536 % 256, v[i] / 16777216 % 256]
    decreases |v|
  {
    var n := |v| - 1;
    if i < n {
      VecLayout(v[..n], i);
      assert VecBytes(v)[4 * i..4 * i + 4] == VecBytes(v[..n])[4 * i..4 * i + 4];
    } else {
      NumberLayout(v[i]);
      assert VecBytes(v)[4 * i..4 * i + 4] == PutUint32(v[i]);
    }
  }

  lemma NumberLayout(x: Bits)
    ensures PutUint32(x) == [x % 256, x / 256 % 256, x / 65536 % 256, x / 16777216 % 256]
  {
    assert Little(x, 4) == [x % 256] + Little(x / 256, 3);
    assert Little(x / 256, 3) == [x / 256 % 256] + Little(x / 256 / 256, 2);
    assert Little(x / 256 / 256, 2) == [x / 256 / 256 % 256] + Little(x / 256 / 256 / 256, 1);
    assert Little(x / 256 / 256 / 256, 1) == [x / 256 / 256 / 256 % 256] + Little(x / 256 / 256 / 256 / 256, 0);
    assert x / 256 / 256 == x / 65536 && x / 256 / 256 / 256 == x / 16777216;
  }

  function LogBytes(log: seq<Record>): seq<Byte> {
    if log == [] then [] else LogBytes(log[..|log| - 1]) + RecordBytes(log[|log| - 1])
  }

  /** Every record has a whole key and a vector of the model's dimension. */
  predicate Sized(log: seq<Record>, dim: nat) {
    forall r :: r in log ==> |r.key| == KEY_LEN && |r.vector| == dim
  }

  function RecordAt(data: seq<Byte>, off: nat, dim: nat): Record
    requires off + RecLen(dim) <= |data|
  {
    Record(data[off..off + KEY_LEN], VecAt(data, off + KEY_LEN, dim))
  }

  /** The bytes n records take. */
  function Span(n: nat, dim: nat): nat
    decreases n
  {
    if n == 0 then 0 else Span(n - 1, dim) + RecLen(dim)
  }

  /** How many whole records some bytes hold. */
  function Whole(size: nat, dim: nat): (n: nat)
    ensures Span(n, dim) <= size < Span(n, dim) + RecLen(dim)
    decreases size
  {
    if size < RecLen(dim) then 0 else Whole(size - RecLen(dim), dim) + 1
  }

  lemma {:induction false} SpanMono(a: nat, b: nat, dim: nat)
    requires a <= b
    ensures Span(a, dim) + (b - a) <= Span(b, dim)
    decreases b
  {
    if a < b {
      SpanMono(a, b - 1, dim);
    }
  }

  lemma {:induction false} SpanIsProduct(n: nat, dim: nat)
    ensures Span(n, dim) == n * RecLen(dim)
    decreases n
  {
    if n > 0 {
      SpanIsProduct(n - 1, dim);
    }
  }

  /** The length the code cuts a file to. */
  lemma SpanOfWhole(size: nat, dim: nat)
    ensures Span(Whole(size, dim), dim) == size - size % RecLen(dim)
  {
    var n, m := Whole(size, dim), RecLen(dim);
    SpanIsProduct(n, dim);
    ModIs(size, m, n, size - Span(n, dim));
  }

  lemma MulMono(a: int, b: int, c: nat)
    requires a <= b
    ensures a * c <= b * c
  {
  }

  lemma ModIs(x: nat, m: nat, q: nat, r: nat)
    requires 0 < m && r < m && x == q * m + r
    ensures x % m == r
  {
    assert x == (x / m) * m + x % m;
    assert r == (x % m) by {
      if (x / m) < q {
        MulMono((x / m) + 1, q, m);
      } else if q < (x / m) {
        MulMono(q + 1, (x / m), m);
      }
    }
  }

  /** The first n records of a file. */
  function Parsed(data: seq<Byte>, n: nat, dim: nat): (log: seq<Record>)
    requires Span(n, dim) <= |data|
    ensures |log| == n
    decreases n
  {
    if n == 0 then []
    else
      Parsed(data, n - 1, dim) + [RecordAt(data, Span(n - 1, dim), dim)]
  }

  lemma {:induction false} LogLength(log: seq<Record>, dim: nat)
    requires Sized(log, dim)
    ensures |LogBytes(log)| == Span(|log|, dim)
  {
    if log != [] {
      var n := |log| - 1;
      LogLength(log[..n], dim);
      assert log[n] in log;
    }
  }

  lemma RecordRoundTrip(before: seq<Byte>, r: Record, rest: seq<Byte>, dim: nat)
    requires |r.key| == KEY_LEN && |r.vector| == dim
    ensures RecordAt(before + RecordBytes(r) + rest, |before|, dim) == r
  {
    var data, off := before + RecordBytes(r) + rest, |before| + KEY_LEN;
    assert data[|before|..off] == r.key;
    assert data[off..off + 4 * dim] == VecBytes(r.vector);
    VecRoundTrip(data, off, r.vector);
  }

  lemma Regrouped(a: seq<Byte>, b: seq<Byte>, c: seq<Byte>)
    ensures a + b + c == a + (b + c)
  {
  }

  /** What was appended is what is read back, record for record, before anything that follows. */
  lemma {:induction false} LogRoundTrip(log: seq<Record>, rest: seq<Byte>, dim: nat)
    requires Sized(log, dim)
    ensures Span(|log|, dim) <= |LogBytes(log) + rest|
    ensures Parsed(LogBytes(log) + rest, |log|, dim) == log
  {
    LogLength(log, dim);
    if log != [] {
      var n := |log| - 1;
      var front, last := log[..n], log[n];
      assert last in log;
      LogLength(front, dim);
      LogRoundTrip(front, RecordBytes(last) + rest, dim);
      Regrouped(LogBytes(front), RecordBytes(last), rest);
      RecordRoundTrip(LogBytes(front), last, rest, dim);
    }
  }

  lemma {:induction false} LogBytesPrefix(log: seq<Record>, n: nat)
    requires n <= |log|
    ensures LogBytes(log[..n]) <= LogBytes(log)
  {
    if n < |log| {
      LogBytesPrefix(log[..|log| - 1], n);
      assert log[..|log| - 1][..n] == log[..n];
    } else {
      assert log[..n] == log;
    }
  }

  lemma PrefixesNest(a: seq<Byte>, b: seq<Byte>, c: seq<Byte>)
    requires a <= c && b <= c && |a| <= |b|
    ensures b[..|a|] == a && b == a + b[|a|..]
  {
  }

  /**
   * Tear a log at any byte: the whole records left are a prefix of it, read
   * back exactly, and cutting the file to them leaves the bytes of that prefix.
   */
  lemma TornLog(log: seq<Record>, data: seq<Byte>, dim: nat)
    requires Sized(log, dim) && data <= LogBytes(log)
    ensures var n := Whole(|data|, dim);
            && n <= |log|
            && Parsed(data, n, dim) == log[..n]
            && data[..Span(n, dim)] == LogBytes(log[..n])
  {
    var n := Whole(|data|, dim);
    LogLength(log, dim);
    if n > |log| {
      SpanMono(|log| + 1, n, dim);
      assert false;
    }
    var front := log[..n];
    assert Sized(front, dim);
    LogLength(front, dim);
    LogBytesPrefix(log, n);
    PrefixesNest(LogBytes(front), data, LogBytes(log));
    LogRoundTrip(front, data[Span(n, dim)..], dim);
  }

  // --------------------------------------------------------------------- maps

  /** What a log means: the last vector recorded for each key. */
  function MapOf(log: seq<Record>): map<Key, Vec> {
    if log == [] then map[]
    else MapOf(log[..|log| - 1])[log[|log| - 1].key := log[|log| - 1].vector]
  }

  ghost predicate DistinctKeys(log: seq<Record>) {
    forall i, j :: 0 <= i < j < |log| ==> log[i].key != log[j].key
  }

  ghost predicate Recorded(log: seq<Record>, k: Key) {
    exists i :: 0 <= i < |log| && log[i].key == k
  }

  lemma {:induction false} MapHasRecorded(log: seq<Record>, k: Key)
    ensures k in MapOf(log) <==> Recorded(log, k)
  {
    if log != [] {
      var n := |log| - 1;
      MapHasRecorded(log[..n], k);
      if Recorded(log[..n], k) {
        var i :| 0 <= i < n && log[..n][i].key == k;
        assert log[i].key == k;
      }
      if Recorded(log, k) && log[n].key != k {
        var i :| 0 <= i < |log| && log[i].key == k;
        assert log[..n][i].key == k;
      }
    }
  }

  lemma {:induction false} MapOfDistinct(log: seq<Record>)
    requires DistinctKeys(log)
    ensures |MapOf(log)| == |log|
    ensures forall i :: 0 <= i < |log| ==> log[i].key in MapOf(log) && MapOf(log)[log[i].key] == log[i].vector
  {
    if log != [] {
      var n := |log| - 1;
      var front := log[..n];
      MapOfDistinct(front);
      MapHasRecorded(front, log[n].key);
      forall i | 0 <= i < n ensures log[i].key in MapOf(log) && MapOf(log)[log[i].key] == log[i].vector {
        assert front[i] == log[i];
      }
    }
  }

  lemma {:induction false} MapValues(log: seq<Record>, k: Key)
    requires k in MapOf(log)
    ensures exists r :: r in log && r.key == k && r.vector == MapOf(log)[k]
  {
    var n := |log| - 1;
    assert log[n] in log;
    if k != log[n].key {
      MapValues(log[..n], k);
    }
  }

  lemma WholeLogIsRead(log: seq<Record>, dim: nat)
    requires Sized(log, dim)
    ensures Whole(|LogBytes(log)|, dim) == |log|
    ensures Parsed(LogBytes(log), |log|, dim) == log
  {
    LogLength(log, dim);
    var n := Whole(|LogBytes(log)|, dim);
    TornLog(log, LogBytes(log), dim);
    if n < |log| {
      SpanMono(n + 1, |log|, dim);
      assert false;
    }
    assert log[..n] == log;
  }

  /**
   * Closing and opening again restores the map exactly when every vector has
   * the dimension the file is read with: a vector of another length, which
   * nothing stops the model from answering with, misaligns the records.
   */
  lemma CloseThenOpenRestores(log: seq<Record>, dim: nat)
    requires DistinctKeys(log) && forall r :: r in log ==> |r.key| == KEY_LEN
    ensures var data := LogBytes(log);
            MapOf(Parsed(data, Whole(|data|, dim), dim)) == MapOf(log) <==> forall r :: r in log ==> |r.vector| == dim
  {
    var data := LogBytes(log);
    if forall r :: r in log ==> |r.vector| == dim {
      WholeLogIsRead(log, dim);
    } else {
      var i :| 0 <= i < |log| && |log[i].vector| != dim;
      MapOfDistinct(log);
      var read := Parsed(data, Whole(|data|, dim), dim);
      ParsedSized(data, Whole(|data|, dim), dim);
      if log[i].key in MapOf(read) {
        MapValues(read, log[i].key);
      }
    }
  }

  lemma {:induction false} ParsedSized(data: seq<Byte>, n: nat, dim: nat)
    requires Span(n, dim) <= |data|
    ensures Sized(Parsed(data, n, dim), dim)
    decreases n
  {
    if n > 0 {
      ParsedSized(data, n - 1, dim);
    }
  }
}
