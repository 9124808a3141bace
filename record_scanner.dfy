/** Splitting the input into `key;value\n` records: the rolling 16-bit hash,
    the record scanners `parse` (versions 07 to 09, `parse_v2` of the benchmark),
    `parse_station` (05, 06), `parse_base` and `parse_v1` (benchmark), and the
    record structure of a span of the buffer. */
module RecordScanner {
  import opened Bytes
  import opened ValueParser
  import opened Aggregation

  /** What `parse` hands to the table: the key, its 16-bit hash and the value. */
  datatype Measurement = Measurement(name: Key, hash: nat, value: int)

  /** A record as it sits in the buffer: the key and the value token. */
  datatype Row = Row(key: Key, token: seq<byte>)

  // ---------------------------------------------------------------------------
  // The rolling hash

  /** `hash = hash * 7 + *iter` over the key, with `hash` a `uint16_t` and
      `*iter` a signed `char`. */
  function RollingHash(key: Key): (h: nat)
    ensures h < 65536
  {
    if key == [] then 0
    else UInt16(RollingHash(key[..|key| - 1]) * 7 + SignedChar(key[|key| - 1]))
  }

  function Pow7(n: nat): (p: nat)
    ensures p >= 1
  {
    if n == 0 then 1 else 7 * Pow7(n - 1)
  }

  /** Reference definition: the polynomial `sum of c_i * 7^(n-1-i)` over the
      signed bytes of the key, without any truncation. */
  function HashPolynomial(key: Key): int
  {
    if key == [] then 0
    else SignedChar(key[0]) * Pow7(|key| - 1) + HashPolynomial(key[1..])
  }

  lemma {:induction false} HashPolynomialSnoc(key: Key, c: byte)
    ensures HashPolynomial(key + [c]) == HashPolynomial(key) * 7 + SignedChar(c)
  {
    if key == [] {
      assert [] + [c] == [c] && [c][1..] == [];
    } else {
      var k := key + [c];
      assert k[0] == key[0] && k[1..] == key[1..] + [c];
      HashPolynomialSnoc(key[1..], c);
      var a, p := SignedChar(key[0]), Pow7(|key| - 1);
      assert a * (7 * p) == (a * p) * 7;
    }
  }

  /** Truncating after every step equals truncating the polynomial once. */
  lemma {:induction false} RollingHashIsPolynomial(key: Key)
    ensures RollingHash(key) == UInt16(HashPolynomial(key))
  {
    if key != [] {
      var p, c := key[..|key| - 1], key[|key| - 1];
      RollingHashIsPolynomial(p);
      UInt16MulAdd(HashPolynomial(p), 7, SignedChar(c));
      assert key == p + [c];
      HashPolynomialSnoc(p, c);
    }
  }

  /** The running hash of `data[lo..hi]`, as the scan loop keeps it. */
  function HashAcc(data: seq<byte>, lo: nat, hi: nat): nat
    requires lo <= hi <= |data|
    decreases hi - lo
  {
    if hi == lo then 0 else UInt16(HashAcc(data, lo, hi - 1) * 7 + SignedChar(data[hi - 1]))
  }

  lemma {:induction false} HashAccIsRolling(data: seq<byte>, lo: nat, hi: nat)
    requires lo <= hi <= |data|
    ensures HashAcc(data, lo, hi) == RollingHash(data[lo..hi])
    decreases hi - lo
  {
    if hi > lo {
      HashAccIsRolling(data, lo, hi - 1);
      assert data[lo..hi][..hi - lo - 1] == data[lo..hi - 1];
    }
  }

  // ---------------------------------------------------------------------------
  // One record

  /** From `pos` there is a `;` and, after it, a `\n`: what a scan needs to stop. */
  predicate HasRecord(data: seq<byte>, pos: nat)
  {
    pos <= |data| && SEMI in data[pos..] && NL in data[IndexFrom(data, pos, SEMI) + 1..]
  }

  /** One past the `\n` that ends the record at `pos`. */
  function RecordEnd(data: seq<byte>, pos: nat): (e: nat)
    requires HasRecord(data, pos)
    ensures pos < e <= |data| && data[e - 1] == NL
  {
    IndexFrom(data, IndexFrom(data, pos, SEMI) + 1, NL) + 1
  }

  /** The record at `pos`: the bytes before the first `;`, and the bytes from
      there to the next `\n`. */
  function RowAt(data: seq<byte>, pos: nat): Row
    requires HasRecord(data, pos)
  {
    var semi := IndexFrom(data, pos, SEMI);
    Row(data[pos..semi], data[semi + 1..RecordEnd(data, pos) - 1])
  }

  /** The record is its key, `;`, its token and `\n`, with no `;` in the key
      and no `\n` in the token. */
  lemma RowAtShape(data: seq<byte>, pos: nat)
    requires HasRecord(data, pos)
    ensures data[pos..RecordEnd(data, pos)] == RowAt(data, pos).key + [SEMI] + RowAt(data, pos).token + [NL]
    ensures SEMI !in RowAt(data, pos).key && NL !in RowAt(data, pos).token
  {
    var semi := IndexFrom(data, pos, SEMI);
    var e := RecordEnd(data, pos);
    assert data[pos..e] == data[pos..semi] + [SEMI] + data[semi + 1..e - 1] + [NL];
    forall k | pos <= k < semi ensures data[k] != SEMI {
      IndexFromFirst(data, pos, SEMI, k);
    }
    assert SEMI !in data[pos..semi];
    forall k | semi + 1 <= k < e - 1 ensures data[k] != NL {
      IndexFromFirst(data, semi + 1, NL, k);
    }
    assert NL !in data[semi + 1..e - 1];
  }

  /** `parse` of versions 07 to 09 and `parse_v2` of the benchmark: scan the
      key while hashing it, step over `;`, parse the value with the table. */
  method Parse(data: seq<byte>, pos: nat) returns (m: Measurement, next: nat)
    requires HasRecord(data, pos)
    ensures m.name == RowAt(data, pos).key
    ensures m.hash == RollingHash(m.name)
    ensures m.value == TableValue(RowAt(data, pos).token)
    ensures next == RecordEnd(data, pos)
  {
    var semi := IndexFrom(data, pos, SEMI);
    var iter := pos;
    var hash := 0;
    while data[iter] != SEMI
      invariant pos <= iter <= semi
      invariant hash == HashAcc(data, pos, iter)
      decreases semi - iter
    {
      hash := UInt16(hash * 7 + SignedChar(data[iter]));
      iter := iter + 1;
    }
    if iter < semi {
      IndexFromFirst(data, pos, SEMI, iter);
    }
    assert iter == semi;
    HashAccIsRolling(data, pos, iter);
    var name := data[pos..iter];
    var value;
    value, next := ParseIntTable(data, iter + 1);
    assert next == RecordEnd(data, pos);
    assert RowAt(data, pos) == Row(name, data[iter + 1..next - 1]);
    m := Measurement(name, hash, value);
  }

  /** `parse_station` (05, 06): the bytes up to the first `;`; the cursor
      resumes one past it. */
  method ParseStation(data: seq<byte>, pos: nat) returns (name: Key, next: nat)
    requires pos <= |data| && SEMI in data[pos..]
    ensures pos < next <= |data| && data[pos..next] == name + [SEMI] && SEMI !in name
    ensures next == IndexFrom(data, pos, SEMI) + 1 && name == data[pos..next - 1]
  {
    var end := IndexFrom(data, pos, SEMI);
    forall k | pos <= k < end ensures data[k] != SEMI {
      IndexFromFirst(data, pos, SEMI, k);
    }
    name := data[pos..end];
    next := end + 1;
    assert data[pos..next] == name + [SEMI];
  }

  /** `parse_base` of the benchmark: `parse_station`, the library hash of the
      name truncated to 16 bits, then the benchmark's `parse_int_base`. */
  method ParseBase(data: seq<byte>, pos: nat, stdHash: Key -> nat) returns (m: Measurement, next: nat)
    requires HasRecord(data, pos)
    ensures m.name == RowAt(data, pos).key
    ensures m.hash == UInt16(stdHash(m.name))
    ensures m.value == BenchBaseValue(RowAt(data, pos).token)
    ensures next == RecordEnd(data, pos)
  {
    var name, after := ParseStation(data, pos);
    var value;
    value, next := ParseIntBase(data, after);
    assert next == RecordEnd(data, pos);
    assert RowAt(data, pos) == Row(name, data[after..next - 1]);
    m := Measurement(name, UInt16(stdHash(name)), value);
  }

  /** `parse_v1` of the benchmark: as `parse_base`, with the table parser.
      Its name, value and end are those of `Parse` (`parse_v2`); only the hash differs. */
  method ParseV1(data: seq<byte>, pos: nat, stdHash: Key -> nat) returns (m: Measurement, next: nat)
    requires HasRecord(data, pos)
    ensures m.name == RowAt(data, pos).key
    ensures m.hash == UInt16(stdHash(m.name))
    ensures m.value == TableValue(RowAt(data, pos).token)
    ensures next == RecordEnd(data, pos)
  {
    var name, after := ParseStation(data, pos);
    var value;
    value, next := ParseIntTable(data, after);
    assert next == RecordEnd(data, pos);
    assert RowAt(data, pos) == Row(name, data[after..next - 1]);
    m := Measurement(name, UInt16(stdHash(name)), value);
  }

  /** `parse_base` and `parse_v1` read the same value from a record whose token is
      a valid non-negative number (on `-1.5` they differ, as
      `ValueParser.BenchBaseNegativeCounterexample` shows). */
  lemma BaseAgreesWithV1OnNonNegative(data: seq<byte>, pos: nat)
    requires HasRecord(data, pos)
    requires ValidToken(RowAt(data, pos).token) && !Negative(RowAt(data, pos).token)
    ensures BenchBaseValue(RowAt(data, pos).token) == TableValue(RowAt(data, pos).token)
  {
    BenchBaseMatchesTableOnNonNegative(RowAt(data, pos).token);
  }

  // ---------------------------------------------------------------------------
  // The records of a span

  /** The record at `pos` is one line: its `;` comes before its `\n`. */
  predicate ValidRecord(data: seq<byte>, pos: nat)
  {
    HasRecord(data, pos) && NL !in data[pos..IndexFrom(data, pos, SEMI)]
  }

  /** `data[lo..hi]` is a sequence of complete records. */
  predicate WellFormed(data: seq<byte>, lo: nat, hi: nat)
    requires lo <= hi <= |data|
    decreases hi - lo
  {
    lo == hi || (ValidRecord(data, lo) && RecordEnd(data, lo) <= hi && WellFormed(data, RecordEnd(data, lo), hi))
  }

  /** The records of a well-formed span, in order. */
  function Rows(data: seq<byte>, lo: nat, hi: nat): seq<Row>
    requires lo <= hi <= |data| && WellFormed(data, lo, hi)
    decreases hi - lo
  {
    if lo == hi then [] else [RowAt(data, lo)] + Rows(data, RecordEnd(data, lo), hi)
  }

  /** A record of a valid line ends right after the first `\n` from its start. */
  lemma RecordEndIsLineEnd(data: seq<byte>, pos: nat)
    requires ValidRecord(data, pos)
    ensures NL in data[pos..] && RecordEnd(data, pos) == IndexFrom(data, pos, NL) + 1
  {
    var semi := IndexFrom(data, pos, SEMI);
    var n := RecordEnd(data, pos) - 1;
    forall k | pos <= k < n ensures data[k] != NL {
      if k < semi {
        assert data[pos..semi][k - pos] == data[k];
      } else if k > semi {
        IndexFromFirst(data, semi + 1, NL, k);
      }
    }
    IndexFromUnique(data, pos, NL, n);
  }

  /** A well-formed span ends with `\n`. */
  lemma {:induction false} WellFormedEndsWithNewline(data: seq<byte>, lo: nat, hi: nat)
    requires lo < hi <= |data| && WellFormed(data, lo, hi)
    ensures data[hi - 1] == NL
    decreases hi - lo
  {
    if RecordEnd(data, lo) < hi {
      WellFormedEndsWithNewline(data, RecordEnd(data, lo), hi);
    }
  }

  /** The first record of a non-empty well-formed span, and the rest. */
  lemma RowsUnfold(data: seq<byte>, lo: nat, hi: nat)
    requires lo < hi <= |data| && WellFormed(data, lo, hi)
    ensures ValidRecord(data, lo) && RecordEnd(data, lo) <= hi && WellFormed(data, RecordEnd(data, lo), hi)
    ensures Rows(data, lo, hi) == [RowAt(data, lo)] + Rows(data, RecordEnd(data, lo), hi)
  {
  }

  lemma RowsFold(data: seq<byte>, lo: nat, hi: nat)
    requires lo < hi <= |data| && ValidRecord(data, lo) && RecordEnd(data, lo) <= hi
    requires WellFormed(data, RecordEnd(data, lo), hi)
    ensures WellFormed(data, lo, hi)
    ensures Rows(data, lo, hi) == [RowAt(data, lo)] + Rows(data, RecordEnd(data, lo), hi)
  {
  }

  /** A `\n` inside the record at `lo` can only be its last byte. */
  lemma NewlineEndsRecord(data: seq<byte>, lo: nat, k: nat)
    requires ValidRecord(data, lo) && lo <= k < |data| && data[k] == NL
    ensures RecordEnd(data, lo) <= k + 1
  {
    RecordEndIsLineEnd(data, lo);
    if k < RecordEnd(data, lo) - 1 {
      IndexFromFirst(data, lo, NL, k);
    }
  }

  /** Cutting a well-formed span right after any `\n` leaves two well-formed spans. */
  lemma {:induction false} SplitWellFormed(data: seq<byte>, lo: nat, k: nat, hi: nat)
    requires lo <= k <= hi <= |data| && WellFormed(data, lo, hi)
    requires k == lo || data[k - 1] == NL
    ensures WellFormed(data, lo, k) && WellFormed(data, k, hi)
    decreases hi - lo
  {
    if k > lo {
      RowsUnfold(data, lo, hi);
      NewlineEndsRecord(data, lo, k - 1);
      SplitWellFormed(data, RecordEnd(data, lo), k, hi);
      RowsFold(data, lo, k);
    }
  }

  /** ... and cuts it between two records: the records of the halves concatenate. */
  lemma {:induction false} RowsSplit(data: seq<byte>, lo: nat, k: nat, hi: nat)
    requires lo <= k <= hi <= |data| && WellFormed(data, lo, hi)
    requires k == lo || data[k - 1] == NL
    ensures WellFormed(data, lo, k) && WellFormed(data, k, hi)
    ensures Rows(data, lo, hi) == Rows(data, lo, k) + Rows(data, k, hi)
    decreases hi - lo
  {
    SplitWellFormed(data, lo, k, hi);
    RowsConcat(data, lo, k, hi);
  }

  lemma {:induction false} RowsConcat(data: seq<byte>, lo: nat, k: nat, hi: nat)
    requires lo <= k <= hi <= |data| && WellFormed(data, lo, hi) && WellFormed(data, lo, k) && WellFormed(data, k, hi)
    requires k == lo || data[k - 1] == NL
    ensures Rows(data, lo, hi) == Rows(data, lo, k) + Rows(data, k, hi)
    decreases hi - lo, 1
  {
    if k > lo {
      RowsConcatFirst(data, lo, k, hi);
    }
  }

  /** The first record of both spans is the same, and the rest splits alike. */
  lemma {:induction false} RowsConcatFirst(data: seq<byte>, lo: nat, k: nat, hi: nat)
    requires lo < k <= hi <= |data| && WellFormed(data, lo, hi) && WellFormed(data, lo, k) && WellFormed(data, k, hi)
    requires data[k - 1] == NL
    ensures Rows(data, lo, hi) == Rows(data, lo, k) + Rows(data, k, hi)
    decreases hi - lo, 0
  {
    ConcatFirstFacts(data, lo, k, hi);
    RowsConcat(data, RecordEnd(data, lo), k, hi);
    RowsSplitStep(data, lo, k, hi);
  }

  lemma ConcatFirstFacts(data: seq<byte>, lo: nat, k: nat, hi: nat)
    requires lo < k <= hi <= |data| && WellFormed(data, lo, hi) && WellFormed(data, lo, k)
    requires data[k - 1] == NL
    ensures RecordEnd(data, lo) <= k && WellFormed(data, RecordEnd(data, lo), k) && WellFormed(data, RecordEnd(data, lo), hi)
  {
    RowsUnfold(data, lo, hi);
    RowsUnfold(data, lo, k);
    NewlineEndsRecord(data, lo, k - 1);
  }

  lemma RowsSplitStep(data: seq<byte>, lo: nat, k: nat, hi: nat)
    requires lo < k <= hi <= |data| && WellFormed(data, lo, hi) && WellFormed(data, lo, k) && WellFormed(data, k, hi)
    requires RecordEnd(data, lo) <= k && WellFormed(data, RecordEnd(data, lo), k) && WellFormed(data, RecordEnd(data, lo), hi)
    requires Rows(data, RecordEnd(data, lo), hi) == Rows(data, RecordEnd(data, lo), k) + Rows(data, k, hi)
    ensures Rows(data, lo, hi) == Rows(data, lo, k) + Rows(data, k, hi)
  {
    RowsUnfold(data, lo, hi);
    RowsUnfold(data, lo, k);
    ConsAssoc(RowAt(data, lo), Rows(data, RecordEnd(data, lo), k), Rows(data, k, hi));
  }

  lemma ConsAssoc<T>(x: T, a: seq<T>, b: seq<T>)
    ensures [x] + (a + b) == ([x] + a) + b
  {
  }

  /** One step of a scan over a well-formed span whose remaining records are
      `rows[n..]`: the record at the cursor is `rows[n]`, the rest follow it. */
  lemma RowsStep(data: seq<byte>, iter: nat, hi: nat, rows: seq<Row>, n: nat)
    requires iter < hi <= |data| && WellFormed(data, iter, hi)
    requires n <= |rows| && Rows(data, iter, hi) == rows[n..]
    ensures HasRecord(data, iter) && RecordEnd(data, iter) <= hi && WellFormed(data, RecordEnd(data, iter), hi)
    ensures n < |rows| && rows[n] == RowAt(data, iter) && Rows(data, RecordEnd(data, iter), hi) == rows[n + 1..]
  {
    RowsUnfold(data, iter, hi);
    ConsSuffix(rows, n, RowAt(data, iter), Rows(data, RecordEnd(data, iter), hi));
  }

  lemma ConsSuffix<T>(s: seq<T>, n: nat, x: T, r: seq<T>)
    requires n <= |s| && s[n..] == [x] + r
    ensures n < |s| && s[n] == x && s[n + 1..] == r
  {
    assert s[n..][0] == s[n];
    assert s[n..][1..] == s[n + 1..];
  }

  /** The measurement `parse` produces for a row. */
  function Measure(r: Row): Measurement
  {
    Measurement(r.key, RollingHash(r.key), TableValue(r.token))
  }

  /** The results of applying `f` to each row, in order. */
  function MapRows<T>(rows: seq<Row>, f: Row -> T): (r: seq<T>)
    ensures |r| == |rows|
  {
    if rows == [] then [] else MapRows(rows[..|rows| - 1], f) + [f(rows[|rows| - 1])]
  }

  lemma {:induction false} MapRowsIndex<T>(rows: seq<Row>, f: Row -> T, i: nat)
    requires i < |rows|
    ensures MapRows(rows, f)[i] == f(rows[i])
  {
    if i < |rows| - 1 {
      MapRowsIndex(rows[..|rows| - 1], f, i);
    }
  }

  lemma MapRowsPrefix<T>(rows: seq<Row>, f: Row -> T, n: nat)
    requires n < |rows|
    ensures MapRows(rows[..n + 1], f) == MapRows(rows[..n], f) + [f(rows[n])]
  {
    assert rows[..n + 1][..n] == rows[..n];
  }

  /** `while (iter != test_data.end()) parse_v2(iter);`: one record per call,
      ending exactly at the end of the buffer. */
  method ScanRecords(data: seq<byte>) returns (ms: seq<Measurement>)
    requires WellFormed(data, 0, |data|)
    ensures ms == MapRows(Rows(data, 0, |data|), Measure)
  {
    ghost var rows := Rows(data, 0, |data|);
    var iter := 0;
    ms := [];
    while iter != |data|
      invariant iter <= |data| && WellFormed(data, iter, |data|)
      invariant |ms| <= |rows| && Rows(data, iter, |data|) == rows[|ms|..]
      invariant ms == MapRows(rows[..|ms|], Measure)
      decreases |data| - iter
    {
      RowsStep(data, iter, |data|, rows, |ms|);
      var m, next := Parse(data, iter);
      ScanStep(data, iter, rows, ms, m);
      ms, iter := ms + [m], next;
    }
    assert rows[..|ms|] == rows;
  }

  lemma ScanStep(data: seq<byte>, iter: nat, rows: seq<Row>, ms: seq<Measurement>, m: Measurement)
    requires HasRecord(data, iter)
    requires |ms| < |rows| && rows[|ms|] == RowAt(data, iter) && ms == MapRows(rows[..|ms|], Measure)
    requires m.name == RowAt(data, iter).key && m.hash == RollingHash(m.name) && m.value == TableValue(RowAt(data, iter).token)
    ensures ms + [m] == MapRows(rows[..|ms| + 1], Measure)
  {
    MapRowsPrefix(rows, Measure, |ms|);
  }

  /** The measurement `parse_base` produces for a row. */
  function MeasureBase(r: Row, stdHash: Key -> nat): Measurement
  {
    Measurement(r.key, UInt16(stdHash(r.key)), BenchBaseValue(r.token))
  }

  lemma ScanBaseStep(data: seq<byte>, iter: nat, stdHash: Key -> nat, rows: seq<Row>, ms: seq<Measurement>, m: Measurement)
    requires HasRecord(data, iter)
    requires |ms| < |rows| && rows[|ms|] == RowAt(data, iter) && ms == MapRows(rows[..|ms|], r => MeasureBase(r, stdHash))
    requires m.name == RowAt(data, iter).key && m.hash == UInt16(stdHash(m.name))
    requires m.value == BenchBaseValue(RowAt(data, iter).token)
    ensures ms + [m] == MapRows(rows[..|ms| + 1], r => MeasureBase(r, stdHash))
  {
    MapRowsPrefix(rows, r => MeasureBase(r, stdHash), |ms|);
  }

  /** `while (iter != test_data.end()) parse_base(iter);`. */
  method ScanRecordsBase(data: seq<byte>, stdHash: Key -> nat) returns (ms: seq<Measurement>)
    requires WellFormed(data, 0, |data|)
    ensures ms == MapRows(Rows(data, 0, |data|), r => MeasureBase(r, stdHash))
  {
    ghost var rows := Rows(data, 0, |data|);
    var iter := 0;
    ms := [];
    while iter != |data|
      invariant iter <= |data| && WellFormed(data, iter, |data|)
      invariant |ms| <= |rows| && Rows(data, iter, |data|) == rows[|ms|..]
      invariant ms == MapRows(rows[..|ms|], r => MeasureBase(r, stdHash))
      decreases |data| - iter
    {
      RowsStep(data, iter, |data|, rows, |ms|);
      var m, next := ParseBase(data, iter, stdHash);
      ScanBaseStep(data, iter, stdHash, rows, ms, m);
      ms, iter := ms + [m], next;
    }
    assert rows[..|ms|] == rows;
  }

  /** Scanning yields one measurement per record: the record's key, the rolling
      hash of the key and the value its token denotes. */
  lemma ScanRecordsMeaning(data: seq<byte>, i: nat)
    requires WellFormed(data, 0, |data|) && i < |Rows(data, 0, |data|)|
    ensures MapRows(Rows(data, 0, |data|), Measure)[i].name == Rows(data, 0, |data|)[i].key
    ensures MapRows(Rows(data, 0, |data|), Measure)[i].hash == RollingHash(Rows(data, 0, |data|)[i].key)
    ensures MapRows(Rows(data, 0, |data|), Measure)[i].value == TableValue(Rows(data, 0, |data|)[i].token)
  {
    MapRowsIndex(Rows(data, 0, |data|), Measure, i);
  }

  /** The readings a table receives from rows, for a given value parser. */
  function Readings(rows: seq<Row>, value: seq<byte> -> int): (rs: seq<Reading>)
    ensures |rs| == |rows|
  {
    if rows == [] then [] else Readings(rows[..|rows| - 1], value) + [Reading(rows[|rows| - 1].key, value(rows[|rows| - 1].token))]
  }

  /** On records whose value tokens are all well formed, `parse_value` and
      `parse_int_table` read the same readings. */
  lemma {:induction false} ReadingsAgree(rows: seq<Row>)
    requires forall i :: 0 <= i < |rows| ==> ValidToken(rows[i].token)
    ensures Readings(rows, BranchValue) == Readings(rows, TableValue)
  {
    if rows != [] {
      ReadingsAgree(rows[..|rows| - 1]);
      BranchMatchesTable(rows[|rows| - 1].token);
    }
  }

  lemma {:induction false} ReadingsConcat(a: seq<Row>, b: seq<Row>, value: seq<byte> -> int)
    ensures Readings(a + b, value) == Readings(a, value) + Readings(b, value)
  {
    if b == [] {
      assert a + b == a;
    } else {
      assert (a + b)[..|a + b| - 1] == a + b[..|b| - 1];
      ReadingsConcat(a, b[..|b| - 1], value);
    }
  }

  lemma {:induction false} ReadingsIndex(rows: seq<Row>, value: seq<byte> -> int, i: nat)
    requires i < |rows|
    ensures Readings(rows, value)[i] == Reading(rows[i].key, value(rows[i].token))
  {
    if i < |rows| - 1 {
      ReadingsIndex(rows[..|rows| - 1], value, i);
    }
  }

  lemma ReadingsPrefix(rows: seq<Row>, value: seq<byte> -> int, n: nat)
    requires n < |rows|
    ensures Readings(rows[..n + 1], value) == Readings(rows[..n], value) + [Reading(rows[n].key, value(rows[n].token))]
  {
    assert rows[..n + 1][..n] == rows[..n];
  }

  /** The keys read from the first `n` rows are among the keys of all rows. */
  lemma ReadingsPrefixKeys(rows: seq<Row>, value: seq<byte> -> int, n: nat)
    requires n <= |rows|
    ensures KeysOf(Readings(rows[..n], value)) <= KeysOf(Readings(rows, value))
  {
    assert rows == rows[..n] + rows[n..];
    ReadingsConcat(rows[..n], rows[n..], value);
    assert Readings(rows, value)[..n] == Readings(rows[..n], value);
    KeysOfPrefix(Readings(rows, value), n);
  }

  /** `parse_station` then `parse_value` read the record at `pos`. */
  lemma StationValueIsRow(data: seq<byte>, pos: nat, name: Key, after: nat, value: int, next: nat)
    requires HasRecord(data, pos)
    requires after == IndexFrom(data, pos, SEMI) + 1 && name == data[pos..after - 1]
    requires after <= |data| && NL in data[after..]
    requires next == IndexFrom(data, after, NL) + 1 && value == BranchValue(data[after..next - 1])
    ensures name == RowAt(data, pos).key && value == BranchValue(RowAt(data, pos).token)
    ensures next == RecordEnd(data, pos)
  {
    var semi := IndexFrom(data, pos, SEMI);
    assert after == semi + 1 && next == RecordEnd(data, pos);
    assert RowAt(data, pos) == Row(data[pos..semi], data[after..next - 1]);
  }

  /** One more record processed: a table that held the readings of the first
      `n` rows and then recorded `rows[n]` holds those of the first `n + 1`. */
  lemma ProcessStep(c0: map<Key, Stats>, rows: seq<Row>, value: seq<byte> -> int, rs: seq<Reading>, n: nat,
                    before: map<Key, Stats>, after: map<Key, Stats>, row: Row)
    requires n < |rows| && rows[n] == row && rs == Readings(rows, value)
    requires before == AggregateFrom(c0, rs[..n])
    requires after == Insert(before, Reading(row.key, value(row.token)))
    ensures after == AggregateFrom(c0, rs[..n + 1])
  {
    ReadingsIndex(rows, value, n);
    AggregateFromSnoc(c0, rs[..n], rs[n]);
    assert rs[..n] + [rs[n]] == rs[..n + 1];
  }

  /** After any prefix of the readings, the table holds no key that is
      neither in the initial table nor among the readings. */
  lemma ProcessedKeys(c0: map<Key, Stats>, rs: seq<Reading>, n: nat)
    requires n <= |rs|
    ensures AggregateFrom(c0, rs[..n]).Keys <= c0.Keys + KeysOf(rs)
  {
    AggregateFromKeys(c0, rs[..n]);
    KeysOfPrefix(rs, n);
  }
}
