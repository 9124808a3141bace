/** The fixed-point value parsers: the table-driven `parse_int_table`, the branching
    `parse_value` (versions 05 and 06) and the benchmark's `parse_int_base`.

    A token is the bytes from the cursor up to (not including) the next `\n`.
    Each parser is a cursor-advancing loop over an `int16_t` accumulator. The loop
    is proved against a fold over the bytes it visits (TableAcc, BranchAcc), and
    the fold is proved equal to an independent reading of the token: its digits
    as a decimal number (Decimal of DigitValues). So the per-step 16-bit
    truncation of the source equals one truncation of the decimal value. */
module ValueParser {
  import opened Bytes

  /** One row of `int_parse_table`: the value to add and the multiplier. */
  datatype TableEntry = TableEntry(val: int, mul: int)

  /** The constant table, as a function of the byte. */
  function ParseTable(c: byte): (e: TableEntry)
    ensures IsDigit(c) ==> e == TableEntry(c - ZERO, 10)
    ensures !IsDigit(c) ==> e == TableEntry(0, 1)
  {
    if ZERO <= c <= ZERO + 9 then TableEntry(c - ZERO, 10) else TableEntry(0, 1)
  }

  /** `int_parse_table`: the loop that fills the 256-entry table. */
  method IntParseTable() returns (data: array<TableEntry>)
    ensures data.Length == 256
    ensures forall c :: 0 <= c < 256 && ZERO <= c <= ZERO + 9 ==> data[c] == TableEntry(c - ZERO, 10)
    ensures forall c :: 0 <= c < 256 && !(ZERO <= c <= ZERO + 9) ==> data[c] == TableEntry(0, 1)
  {
    data := new TableEntry[256];
    var c := 0;
    while c < 256
      invariant 0 <= c <= 256
      invariant forall d :: 0 <= d < c ==> data[d] == ParseTable(d)
    {
      if ZERO <= c && c <= ZERO + 9 {
        data[c] := TableEntry(c - ZERO, 10);
      } else {
        data[c] := TableEntry(0, 1);
      }
      c := c + 1;
    }
  }

  // ---------------------------------------------------------------------------
  // Reference definitions

  /** The digits of a token, as values 0..9, every other byte dropped. */
  function DigitValues(tok: seq<byte>): (ds: seq<int>)
    ensures |ds| <= |tok|
  {
    if tok == [] then []
    else
      var last := tok[|tok| - 1];
      DigitValues(tok[..|tok| - 1]) + (if IsDigit(last) then [last - ZERO] else [])
  }

  /** What the branching parsers add for each byte other than `.`: `*iter - '0'`
      with `*iter` a signed `char`. */
  function CharValues(tok: seq<byte>): (vs: seq<int>)
    ensures |vs| <= |tok|
  {
    if tok == [] then []
    else
      var last := tok[|tok| - 1];
      CharValues(tok[..|tok| - 1]) + (if last == DOT then [] else [SignedChar(last) - ZERO])
  }

  /** `d0 d1 ... dn` read as a decimal number (the digits may be out of 0..9). */
  function Decimal(ds: seq<int>): int
  {
    if ds == [] then 0 else Decimal(ds[..|ds| - 1]) * 10 + ds[|ds| - 1]
  }

  function Pow10(n: nat): (p: nat)
    ensures p >= 1
  {
    if n == 0 then 1 else 10 * Pow10(n - 1)
  }

  predicate Negative(tok: seq<byte>) { |tok| > 0 && tok[0] == MINUS }

  /** The value of `parse_int_table`: the digits as a decimal number, negated iff
      the first byte is `-`, truncated to 16 bits. */
  function TableValue(tok: seq<byte>): int
  {
    var d := Decimal(DigitValues(tok));
    Int16(if Negative(tok) then -d else d)
  }

  /** The value of `parse_value` (05, 06): skip a leading `-`, accumulate
      `r * 10 + (c - '0')` over the bytes other than `.`, negate if there was a sign. */
  function BranchValue(tok: seq<byte>): int
  {
    var body := if Negative(tok) then tok[1..] else tok;
    var d := Decimal(CharValues(body));
    Int16(if Negative(tok) then -d else d)
  }

  /** The value of the benchmark's `parse_int_base`: like `parse_value`, but the
      leading `-` is never stepped over, so it is accumulated as `'-' - '0'`. */
  function BenchBaseValue(tok: seq<byte>): int
  {
    var d := Decimal(CharValues(tok));
    Int16(if Negative(tok) then -d else d)
  }

  /** A value token of the input format: an optional leading `-`, then only
      digits and `.`. */
  predicate ValidToken(tok: seq<byte>)
  {
    forall i :: 0 <= i < |tok| ==> IsDigit(tok[i]) || tok[i] == DOT || (i == 0 && tok[i] == MINUS)
  }

  /** The token of the line that starts at `pos`: the bytes before the next `\n`. */
  function TokenAt(data: seq<byte>, pos: nat): seq<byte>
    requires pos <= |data| && NL in data[pos..]
  {
    data[pos..IndexFrom(data, pos, NL)]
  }

  // ---------------------------------------------------------------------------
  // The folds the loops compute, before 16-bit truncation

  /** `result = result * mul + val` over `data[lo..hi]`, with the table's entries. */
  function TableAcc(data: seq<byte>, lo: nat, hi: nat): int
    requires lo <= hi <= |data|
    decreases hi - lo
  {
    if hi == lo then 0
    else TableAcc(data, lo, hi - 1) * ParseTable(data[hi - 1]).mul + ParseTable(data[hi - 1]).val
  }

  /** `result = result * 10 + (c - '0')` over the bytes of `data[lo..hi]` other than `.`. */
  function BranchAcc(data: seq<byte>, lo: nat, hi: nat): int
    requires lo <= hi <= |data|
    decreases hi - lo
  {
    if hi == lo then 0
    else if data[hi - 1] == DOT then BranchAcc(data, lo, hi - 1)
    else BranchAcc(data, lo, hi - 1) * 10 + (SignedChar(data[hi - 1]) - ZERO)
  }

  lemma DigitValuesSnoc(tok: seq<byte>, c: byte)
    ensures DigitValues(tok + [c]) == DigitValues(tok) + (if IsDigit(c) then [c - ZERO] else [])
  {
    assert (tok + [c])[..|tok|] == tok;
  }

  lemma CharValuesSnoc(tok: seq<byte>, c: byte)
    ensures CharValues(tok + [c]) == CharValues(tok) + (if c == DOT then [] else [SignedChar(c) - ZERO])
  {
    assert (tok + [c])[..|tok|] == tok;
  }

  lemma DecimalSnoc(ds: seq<int>, v: int)
    ensures Decimal(ds + [v]) == Decimal(ds) * 10 + v
  {
    assert (ds + [v])[..|ds|] == ds;
  }

  /** The table fold is the decimal number of the digits. */
  lemma {:induction false} TableAccIsDecimal(data: seq<byte>, lo: nat, hi: nat)
    requires lo <= hi <= |data|
    ensures TableAcc(data, lo, hi) == Decimal(DigitValues(data[lo..hi]))
    decreases hi - lo
  {
    if hi > lo {
      TableAccIsDecimal(data, lo, hi - 1);
      var c := data[hi - 1];
      var ds := DigitValues(data[lo..hi - 1]);
      assert data[lo..hi] == data[lo..hi - 1] + [c];
      DigitValuesSnoc(data[lo..hi - 1], c);
      if IsDigit(c) {
        DecimalSnoc(ds, c - ZERO);
      } else {
        assert ds + [] == ds;
      }
    }
  }

  /** The branching fold is the decimal number of the byte values. */
  lemma {:induction false} BranchAccIsDecimal(data: seq<byte>, lo: nat, hi: nat)
    requires lo <= hi <= |data|
    ensures BranchAcc(data, lo, hi) == Decimal(CharValues(data[lo..hi]))
    decreases hi - lo
  {
    if hi > lo {
      BranchAccIsDecimal(data, lo, hi - 1);
      var c := data[hi - 1];
      var vs := CharValues(data[lo..hi - 1]);
      assert data[lo..hi] == data[lo..hi - 1] + [c];
      CharValuesSnoc(data[lo..hi - 1], c);
      if c != DOT {
        DecimalSnoc(vs, SignedChar(c) - ZERO);
      } else {
        assert vs + [] == vs;
      }
    }
  }

  // ---------------------------------------------------------------------------
  // The parsers

  /** `parse_int_table`: reads the token at `pos` and leaves the cursor one past its `\n`. */
  method ParseIntTable(data: seq<byte>, pos: nat) returns (value: int, next: nat)
    requires pos <= |data| && NL in data[pos..]
    ensures pos < next <= |data| && data[next - 1] == NL
    ensures next == IndexFrom(data, pos, NL) + 1
    ensures value == TableValue(data[pos..next - 1])
  {
    var sign := data[pos];
    var result := 0;
    var iter := pos;
    ghost var end := IndexFrom(data, pos, NL);
    while data[iter] != NL
      invariant pos <= iter <= end
      invariant result == Int16(TableAcc(data, pos, iter))
      decreases end - iter
    {
      var e := ParseTable(data[iter]);
      Int16Step(result, TableAcc(data, pos, iter), e.mul, e.val);
      result := Int16(result * e.mul);
      result := Int16(result + e.val);
      iter := iter + 1;
    }
    if iter < end {
      IndexFromFirst(data, pos, NL, iter);
    }
    iter := iter + 1;
    TableValueSign(data, pos, end, result);
    if sign == MINUS {
      value := Int16(result * -1);
    } else {
      value := result;
    }
    next := iter;
  }

  /** Negating the folded digits when the first byte is `-` gives the token's value. */
  lemma TableValueSign(data: seq<byte>, pos: nat, end: nat, r: int)
    requires pos <= end < |data| && data[end] == NL && r == Int16(TableAcc(data, pos, end))
    ensures data[pos] == MINUS ==> Int16(r * -1) == TableValue(data[pos..end])
    ensures data[pos] != MINUS ==> r == TableValue(data[pos..end])
  {
    var d := Decimal(DigitValues(data[pos..end]));
    TableAccIsDecimal(data, pos, end);
    Int16Neg(d);
  }

  /** The digit loop `parse_value` and `parse_int_base` share: from `pos` up to the
      `\n`, `result = result * 10 + (c - '0')` in 16 bits for every byte other than `.`. */
  method BranchLoop(data: seq<byte>, pos: nat) returns (result: int, nl: nat)
    requires pos <= |data| && NL in data[pos..]
    ensures nl == IndexFrom(data, pos, NL)
    ensures result == Int16(Decimal(CharValues(data[pos..nl])))
  {
    ghost var end := IndexFrom(data, pos, NL);
    result := 0;
    var iter := pos;
    while data[iter] != NL
      invariant pos <= iter <= end
      invariant result == Int16(BranchAcc(data, pos, iter))
      decreases end - iter
    {
      if data[iter] != DOT {
        Int16Step(result, BranchAcc(data, pos, iter), 10, SignedChar(data[iter]) - ZERO);
        result := Int16(result * 10);
        result := Int16(result + (SignedChar(data[iter]) - ZERO));
      }
      iter := iter + 1;
    }
    if iter < end {
      IndexFromFirst(data, pos, NL, iter);
    }
    BranchAccIsDecimal(data, pos, end);
    nl := iter;
  }

  /** `parse_value` of versions 05 and 06: the sign is stepped over. */
  method ParseValue(data: seq<byte>, pos: nat) returns (value: int, next: nat)
    requires pos <= |data| && NL in data[pos..]
    ensures pos < next <= |data| && data[next - 1] == NL
    ensures next == IndexFrom(data, pos, NL) + 1
    ensures value == BranchValue(data[pos..next - 1])
  {
    var iter := pos;
    var negative := data[iter] == MINUS;
    if negative {
      SkipSign(data, pos);
      iter := iter + 1;
    }
    var result, nl := BranchLoop(data, iter);
    if negative {
      BranchValueNegative(data, pos, nl, result);
      result := Int16(result * -1);
    } else {
      BranchValuePositive(data, pos, nl);
    }
    value, next := result, nl + 1;
  }

  /** A `-` is not the `\n`: the scan from the byte after it stops where the
      scan from the sign does. */
  lemma SkipSign(data: seq<byte>, pos: nat)
    requires pos < |data| && NL in data[pos..] && data[pos] == MINUS
    ensures NL in data[pos + 1..] && IndexFrom(data, pos + 1, NL) == IndexFrom(data, pos, NL)
  {
    assert data[pos..] == [data[pos]] + data[pos + 1..];
  }

  /** A token with a leading `-`: `parse_value` negates the 16-bit value of the rest. */
  lemma BranchValueNegative(data: seq<byte>, pos: nat, nl: nat, r: int)
    requires pos < nl <= |data| && data[pos] == MINUS
    requires r == Int16(Decimal(CharValues(data[pos + 1..nl])))
    ensures Int16(r * -1) == BranchValue(data[pos..nl])
  {
    var d := Decimal(CharValues(data[pos + 1..nl]));
    Int16Neg(d);
    assert data[pos..nl][1..] == data[pos + 1..nl];
  }

  /** A token without a leading `-`: `parse_value` returns the 16-bit value of all of it. */
  lemma BranchValuePositive(data: seq<byte>, pos: nat, nl: nat)
    requires pos <= nl <= |data| && (pos < nl ==> data[pos] != MINUS)
    ensures Int16(Decimal(CharValues(data[pos..nl]))) == BranchValue(data[pos..nl])
  {
  }

  /** The benchmark's `parse_int_base` (bench_parse_int.cpp, bench_parse_together.cpp):
      the sign is looked at but never stepped over. */
  method ParseIntBase(data: seq<byte>, pos: nat) returns (value: int, next: nat)
    requires pos <= |data| && NL in data[pos..]
    ensures pos < next <= |data| && data[next - 1] == NL
    ensures next == IndexFrom(data, pos, NL) + 1
    ensures value == BenchBaseValue(data[pos..next - 1])
  {
    var negative := data[pos] == MINUS;
    var result, nl := BranchLoop(data, pos);
    next := nl + 1;
    ghost var d := Decimal(CharValues(data[pos..nl]));
    if negative {
      value := Int16(-result);
      assert value == Int16(-d) by { Int16Neg(d); }
    } else {
      value := result;
    }
  }

  // ---------------------------------------------------------------------------
  // Properties

  lemma {:induction false} DigitValuesConcat(a: seq<byte>, b: seq<byte>)
    ensures DigitValues(a + b) == DigitValues(a) + DigitValues(b)
    decreases |b|
  {
    if b == [] {
      assert a + b == a;
      assert DigitValues(a) + [] == DigitValues(a);
    } else {
      var b', c := b[..|b| - 1], b[|b| - 1];
      assert a + b == (a + b') + [c];
      assert b == b' + [c];
      DigitValuesSnoc(a + b', c);
      DigitValuesSnoc(b', c);
      DigitValuesConcat(a, b');
    }
  }

  lemma {:induction false} CharValuesConcat(a: seq<byte>, b: seq<byte>)
    ensures CharValues(a + b) == CharValues(a) + CharValues(b)
    decreases |b|
  {
    if b == [] {
      assert a + b == a;
      assert CharValues(a) + [] == CharValues(a);
    } else {
      var b', c := b[..|b| - 1], b[|b| - 1];
      assert a + b == (a + b') + [c];
      assert b == b' + [c];
      CharValuesSnoc(a + b', c);
      CharValuesSnoc(b', c);
      CharValuesConcat(a, b');
    }
  }

  lemma {:induction false} DecimalConcat(a: seq<int>, b: seq<int>)
    ensures Decimal(a + b) == Decimal(a) * Pow10(|b|) + Decimal(b)
    decreases |b|
  {
    if b == [] {
      assert a + b == a;
    } else {
      var b', v := b[..|b| - 1], b[|b| - 1];
      assert a + b == (a + b') + [v];
      assert b == b' + [v];
      DecimalSnoc(a + b', v);
      DecimalSnoc(b', v);
      DecimalConcat(a, b');
      assert Decimal(a) * Pow10(|b|) == Decimal(a) * Pow10(|b'|) * 10;
    }
  }

  /** On bytes that are digits or `.`, what the branching parsers accumulate is
      exactly what the table parser accumulates. */
  lemma {:induction false} CharValuesOfDigits(tok: seq<byte>)
    requires forall i :: 0 <= i < |tok| ==> IsDigit(tok[i]) || tok[i] == DOT
    ensures CharValues(tok) == DigitValues(tok)
  {
    if tok != [] {
      var t', c := tok[..|tok| - 1], tok[|tok| - 1];
      assert tok == t' + [c];
      CharValuesSnoc(t', c);
      DigitValuesSnoc(t', c);
      CharValuesOfDigits(t');
    }
  }

  lemma {:induction false} DigitValuesRange(tok: seq<byte>)
    ensures forall i :: 0 <= i < |DigitValues(tok)| ==> 0 <= DigitValues(tok)[i] <= 9
  {
    if tok != [] {
      var t', c := tok[..|tok| - 1], tok[|tok| - 1];
      assert tok == t' + [c];
      DigitValuesSnoc(t', c);
      DigitValuesRange(t');
    }
  }

  /** A sequence of digits 0..9 reads as a number in 0 .. 10^n - 1. */
  lemma {:induction false} DecimalRange(ds: seq<int>)
    requires forall i :: 0 <= i < |ds| ==> 0 <= ds[i] <= 9
    ensures 0 <= Decimal(ds) < Pow10(|ds|)
  {
    if ds != [] {
      DecimalRange(ds[..|ds| - 1]);
    }
  }

  /** The leading `-` contributes nothing to the digits. */
  lemma DigitValuesAfterSign(t: seq<byte>)
    ensures DigitValues([MINUS] + t) == DigitValues(t)
  {
    DigitValuesConcat([MINUS], t);
    DigitValuesSnoc([], MINUS);
    assert [] + [MINUS] == [MINUS];
  }

  /** The branching `parse_value` and the table-driven `parse_int_table` agree on
      every token of the input format. */
  lemma BranchMatchesTable(tok: seq<byte>)
    requires ValidToken(tok)
    ensures BranchValue(tok) == TableValue(tok)
  {
    if Negative(tok) {
      var body := tok[1..];
      assert DigitValues(tok) == DigitValues(body) by {
        assert tok == [MINUS] + body;
        DigitValuesAfterSign(body);
      }
      assert CharValues(body) == DigitValues(body) by {
        forall i | 0 <= i < |body| ensures IsDigit(body[i]) || body[i] == DOT {
          assert body[i] == tok[i + 1];
        }
        CharValuesOfDigits(body);
      }
    } else {
      CharValuesOfDigits(tok);
    }
  }

  /** `parse_int_base` agrees with `parse_int_table` on every token without a
      leading `-`. */
  lemma BenchBaseMatchesTableOnNonNegative(tok: seq<byte>)
    requires ValidToken(tok) && !Negative(tok)
    ensures BenchBaseValue(tok) == TableValue(tok)
  {
    CharValuesOfDigits(tok);
  }

  /** On a token `-t`, `parse_int_base` accumulates `'-' - '0' == -3` as a leading
      digit: the result is `3 * 10^k - t` (k the number of digits of t), where
      `parse_int_table` gives `-t`. */
  lemma BenchBaseOnNegative(t: seq<byte>)
    requires forall i :: 0 <= i < |t| ==> IsDigit(t[i]) || t[i] == DOT
    ensures BenchBaseValue([MINUS] + t)
            == Int16(3 * Pow10(|DigitValues(t)|) - Decimal(DigitValues(t)))
    ensures TableValue([MINUS] + t) == Int16(-Decimal(DigitValues(t)))
  {
    var tok := [MINUS] + t;
    var ds := DigitValues(t);
    assert Negative(tok);
    SignCharValues(t);
    DecimalLead(-3, ds);
    DigitValuesAfterSign(t);
  }

  /** Before digits and `.`, the `-` is read as `'-' - '0'`, that is -3. */
  lemma SignCharValues(t: seq<byte>)
    requires forall i :: 0 <= i < |t| ==> IsDigit(t[i]) || t[i] == DOT
    ensures CharValues([MINUS] + t) == [-3] + DigitValues(t)
  {
    CharValuesConcat([MINUS], t);
    CharValuesOfSign();
    CharValuesOfDigits(t);
  }

  lemma CharValuesOfSign()
    ensures CharValues([MINUS]) == [-3]
  {
    CharValuesSnoc([], MINUS);
    assert [] + [MINUS] == [MINUS];
  }

  /** A leading digit `v` weighs `v * 10^|ds|`. */
  lemma DecimalLead(v: int, ds: seq<int>)
    ensures Decimal([v] + ds) == v * Pow10(|ds|) + Decimal(ds)
  {
    DecimalConcat([v], ds);
    DecimalSingle(v);
  }

  lemma DecimalSingle(v: int)
    ensures Decimal([v]) == v
  {
    DecimalSnoc([], v);
    assert [] + [v] == [v];
  }

  /** The counterexample of the benchmark's sign handling: `-1.5` reads as 285,
      where the table parser reads -15. */
  lemma BenchBaseNegativeCounterexample()
    ensures BenchBaseValue([MINUS, ZERO + 1, DOT, ZERO + 5]) == 285
    ensures TableValue([MINUS, ZERO + 1, DOT, ZERO + 5]) == -15
  {
    var t: seq<byte> := [ZERO + 1, DOT, ZERO + 5];
    assert [MINUS] + t == [MINUS, ZERO + 1, DOT, ZERO + 5];
    assert DigitValues(t) == [1, 5] by {
      DigitValuesSnoc([], ZERO + 1);
      assert [] + [ZERO + 1] == [ZERO + 1];
      DigitValuesSnoc([ZERO + 1], DOT);
      DigitValuesSnoc([ZERO + 1, DOT], ZERO + 5);
      assert [ZERO + 1] + [DOT] == [ZERO + 1, DOT];
      assert [ZERO + 1, DOT] + [ZERO + 5] == t;
    }
    assert Decimal([1, 5]) == 15 by {
      DecimalSnoc([], 1);
      assert [] + [1] == [1];
      DecimalSnoc([1], 5);
      assert [1] + [5] == [1, 5];
    }
    assert Pow10(2) == 100;
    BenchBaseOnNegative(t);
  }

  /** The digits of `i.f`: those of `i`, then `f`. */
  lemma DigitValuesWithFraction(ip: seq<byte>, f: byte)
    requires IsDigit(f)
    ensures DigitValues(ip + [DOT, f]) == DigitValues(ip) + [f - ZERO]
  {
    DigitValuesConcat(ip, [DOT, f]);
    FractionDigits(f);
  }

  lemma FractionDigits(f: byte)
    requires IsDigit(f)
    ensures DigitValues([DOT, f]) == [f - ZERO]
  {
    assert [DOT, f][..1] == [DOT];
    assert [DOT][..0] == [];
  }

  /** The digits of `i.f` read as the number `10 * i + f`. */
  lemma FractionDecimal(ip: seq<byte>, f: byte)
    requires IsDigit(f)
    ensures Decimal(DigitValues(ip + [DOT, f])) == 10 * Decimal(DigitValues(ip)) + (f - ZERO)
  {
    DigitValuesWithFraction(ip, f);
    DecimalSnoc(DigitValues(ip), f - ZERO);
  }

  /** A token `i.f` with exactly one fractional digit reads as `10 * i + f`: the
      value scaled by 10. */
  lemma OneFractionIsScaledByTen(ip: seq<byte>, f: byte)
    requires forall i :: 0 <= i < |ip| ==> IsDigit(ip[i])
    requires IsDigit(f)
    requires 10 * Decimal(DigitValues(ip)) + 9 < 32768
    ensures TableValue(ip + [DOT, f]) == 10 * Decimal(DigitValues(ip)) + (f - ZERO)
  {
    var x := ip + [DOT, f];
    assert !Negative(x) by {
      assert x[0] == if ip == [] then DOT else ip[0];
    }
    FractionDecimal(ip, f);
    TableValueExact(x);
  }

  /** ... and `-i.f` reads as `-(10 * i + f)`. */
  lemma NegativeOneFractionIsScaledByTen(ip: seq<byte>, f: byte)
    requires IsDigit(f)
    requires 10 * Decimal(DigitValues(ip)) + 9 < 32768
    ensures TableValue([MINUS] + (ip + [DOT, f])) == -(10 * Decimal(DigitValues(ip)) + (f - ZERO))
  {
    var x := ip + [DOT, f];
    FractionDecimal(ip, f);
    DigitValuesAfterSign(x);
    TableValueExact([MINUS] + x);
  }

  /** Without a fractional digit the token is not scaled: `i` reads as `i`. */
  lemma NoFractionIsNotScaled(ip: seq<byte>)
    requires forall i :: 0 <= i < |ip| ==> IsDigit(ip[i])
    requires Decimal(DigitValues(ip)) < 32768
    ensures TableValue(ip) == Decimal(DigitValues(ip))
  {
    assert ip != [] ==> IsDigit(ip[0]);
    TableValueExact(ip);
  }

  /** When the digits fit 16 bits, the table parser returns the exact signed value. */
  lemma TableValueExact(tok: seq<byte>)
    requires Decimal(DigitValues(tok)) < 32768
    ensures TableValue(tok) == if Negative(tok) then -Decimal(DigitValues(tok)) else Decimal(DigitValues(tok))
  {
    DigitValuesRange(tok);
    DecimalRange(DigitValues(tok));
  }

  // ---------------------------------------------------------------------------
  // The benchmark loops: one line per call up to the end of the data

  /** The data is a sequence of complete lines. */
  predicate EndsWithNewline(data: seq<byte>) { data == [] || data[|data| - 1] == NL }

  /** The tokens of the lines from `pos` on. */
  function Lines(data: seq<byte>, pos: nat): seq<seq<byte>>
    requires pos <= |data| && EndsWithNewline(data)
    decreases |data| - pos
  {
    if pos == |data| then []
    else
      assert data[pos..][|data| - 1 - pos] == NL;
      [TokenAt(data, pos)] + Lines(data, IndexFrom(data, pos, NL) + 1)
  }

  /** Every line put back with its `\n`. */
  function Unlines(lines: seq<seq<byte>>): seq<byte>
  {
    if lines == [] then [] else lines[0] + [NL] + Unlines(lines[1..])
  }

  /** One call of a parser at `pos` consumes exactly the first remaining line. */
  lemma LinesUnfold(data: seq<byte>, pos: nat)
    requires pos < |data| && EndsWithNewline(data)
    ensures NL in data[pos..]
    ensures Lines(data, pos) == [TokenAt(data, pos)] + Lines(data, IndexFrom(data, pos, NL) + 1)
  {
    assert data[pos..][|data| - 1 - pos] == NL;
  }

  lemma UnlinesCons(line: seq<byte>, rest: seq<seq<byte>>)
    ensures Unlines([line] + rest) == line + [NL] + Unlines(rest)
  {
    assert ([line] + rest)[1..] == rest;
  }

  /** The lines put back together are the data: no byte is skipped or read twice. */
  lemma {:induction false} LinesCover(data: seq<byte>, pos: nat)
    requires pos <= |data| && EndsWithNewline(data)
    ensures Unlines(Lines(data, pos)) == data[pos..]
    decreases |data| - pos
  {
    if pos < |data| {
      assert NL in data[pos..] by { LinesUnfold(data, pos); }
      var nl := IndexFrom(data, pos, NL);
      var rest := Lines(data, nl + 1);
      calc {
        Unlines(Lines(data, pos));
        { LinesUnfold(data, pos); }
        Unlines([data[pos..nl]] + rest);
        { UnlinesCons(data[pos..nl], rest); }
        data[pos..nl] + [NL] + Unlines(rest);
        { LinesCover(data, nl + 1); }
        data[pos..nl] + [NL] + data[nl + 1..];
        { SplitAround(data, pos, nl); }
        data[pos..];
      }
    }
  }

  /** No line holds a `\n`. */
  lemma {:induction false} LinesHaveNoNewline(data: seq<byte>, pos: nat)
    requires pos <= |data| && EndsWithNewline(data)
    ensures forall i :: 0 <= i < |Lines(data, pos)| ==> NL !in Lines(data, pos)[i]
    decreases |data| - pos
  {
    if pos < |data| {
      LinesUnfold(data, pos);
      var nl := IndexFrom(data, pos, NL);
      LinesHaveNoNewline(data, nl + 1);
      var ls := Lines(data, pos);
      assert NL !in ls[0] by {
        forall k | 0 <= k < |ls[0]| ensures ls[0][k] != NL {
          IndexFromFirst(data, pos, NL, pos + k);
        }
      }
      forall i | 0 <= i < |ls| ensures NL !in ls[i] {
        if i > 0 {
          assert ls[i] == Lines(data, nl + 1)[i - 1];
        }
      }
    }
  }

  /** `BM_parse_int_table`'s loop: call `parse_int_table` until the cursor is at the end. */
  method ScanWithTable(data: seq<byte>) returns (values: seq<int>)
    requires EndsWithNewline(data)
    ensures |values| == |Lines(data, 0)|
    ensures forall i :: 0 <= i < |values| ==> values[i] == TableValue(Lines(data, 0)[i])
  {
    var iter := 0;
    values := [];
    while iter != |data|
      invariant iter <= |data|
      invariant |values| <= |Lines(data, 0)|
      invariant Lines(data, iter) == Lines(data, 0)[|values|..]
      invariant forall i :: 0 <= i < |values| ==> values[i] == TableValue(Lines(data, 0)[i])
      decreases |data| - iter
    {
      LinesUnfold(data, iter);
      var v, next := ParseIntTable(data, iter);
      values := values + [v];
      iter := next;
    }
  }

  /** `BM_parse_int_base`'s loop. */
  method ScanWithBase(data: seq<byte>) returns (values: seq<int>)
    requires EndsWithNewline(data)
    ensures |values| == |Lines(data, 0)|
    ensures forall i :: 0 <= i < |values| ==> values[i] == BenchBaseValue(Lines(data, 0)[i])
  {
    var iter := 0;
    values := [];
    while iter != |data|
      invariant iter <= |data|
      invariant |values| <= |Lines(data, 0)|
      invariant Lines(data, iter) == Lines(data, 0)[|values|..]
      invariant forall i :: 0 <= i < |values| ==> values[i] == BenchBaseValue(Lines(data, 0)[i])
      decreases |data| - iter
    {
      LinesUnfold(data, iter);
      var v, next := ParseIntBase(data, iter);
      values := values + [v];
      iter := next;
    }
  }
}
