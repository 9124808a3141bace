/** Bytes, the fixed-width integer conversions of the C++ code, and byte search. */
module Bytes {

  /** One byte of the mapped input, read as an unsigned value. */
  type byte = b: int | 0 <= b < 256

  /** A key (station name) is the byte string before the `;`. */
  type Key = seq<byte>

  const NL: byte := 10
  const SEMI: byte := 59
  const DOT: byte := 46
  const MINUS: byte := 45
  const ZERO: byte := 48

  predicate IsDigit(b: byte) { ZERO <= b <= ZERO + 9 }

  /** The value of a plain `char` on a platform where `char` is signed (x86):
      bytes 0x80..0xFF read as -128..-1. */
  function SignedChar(b: byte): (c: int)
    ensures -128 <= c < 128
    ensures c == b || c == b - 256
    ensures (b < 128) == (c == b)
  {
    if b < 128 then b else b - 256
  }

  /** Conversion of an `int` to `int16_t` (modular since C++20). */
  function Int16(x: int): (r: int)
    ensures -32768 <= r < 32768
    ensures -32768 <= x < 32768 ==> r == x
  {
    (x + 32768) % 65536 - 32768
  }

  /** Conversion of an `int` to `uint16_t`. */
  function UInt16(x: int): (r: nat)
    ensures r < 65536
    ensures 0 <= x < 65536 ==> r == x
  {
    x % 65536
  }

  /** Euclidean division is unique: the facts the wrap-around lemmas rest on. */
  lemma DivModUnique(a: int, n: int, q: int, r: int)
    requires n > 0 && a == n * q + r && 0 <= r < n
    ensures a / n == q && a % n == r
  {
    var q', r' := a / n, a % n;
    assert a == n * q' + r' && 0 <= r' < n;
    if q' < q {
      assert n * q - n * q' >= n by { MulMono(n, q' + 1, q); }
    } else if q' > q {
      assert n * q' - n * q >= n by { MulMono(n, q + 1, q'); }
    }
  }

  lemma MulMono(n: int, a: int, b: int)
    requires n > 0 && a <= b
    ensures n * a <= n * b
  {
  }

  /** Adding a multiple of 2^16 does not change a 16-bit conversion. */
  lemma {:induction false} UInt16Shift(x: int, k: int)
    ensures UInt16(x + 65536 * k) == UInt16(x)
  {
    DivModUnique(x + 65536 * k, 65536, x / 65536 + k, x % 65536);
  }

  lemma {:induction false} Int16Shift(x: int, k: int)
    ensures Int16(x + 65536 * k) == Int16(x)
  {
    DivModUnique(x + 32768 + 65536 * k, 65536, (x + 32768) / 65536 + k, (x + 32768) % 65536);
  }

  /** The conversion only ever adds a multiple of 2^16. */
  lemma {:induction false} Int16Offset(x: int) returns (j: int)
    ensures Int16(x) == x + 65536 * j
  {
    j := -((x + 32768) / 65536);
  }

  /** Truncating before a multiply-add is the same as truncating after it:
      the reason a per-step 16-bit accumulator equals one truncation at the end. */
  lemma {:induction false} Int16MulAdd(x: int, m: int, v: int)
    ensures Int16(Int16(x) * m + v) == Int16(x * m + v)
  {
    var j := Int16Offset(x);
    assert Int16(x) * m + v == x * m + v + 65536 * (j * m);
    Int16Shift(x * m + v, j * m);
  }

  lemma {:induction false} UInt16MulAdd(x: int, m: int, v: int)
    ensures UInt16(UInt16(x) * m + v) == UInt16(x * m + v)
  {
    var q := x / 65536;
    assert UInt16(x) == x - 65536 * q;
    assert UInt16(x) * m + v == x * m + v + 65536 * (-q * m);
    UInt16Shift(x * m + v, -q * m);
  }

  lemma {:induction false} Int16Add(x: int, v: int)
    ensures Int16(Int16(x) + v) == Int16(x + v)
  {
    var j := Int16Offset(x);
    Int16Shift(x + v, j);
  }

  /** One step of a 16-bit accumulator `r = int16(int16(r * m) + v)` tracks the
      untruncated accumulator `x * m + v`. */
  lemma Int16Step(r: int, x: int, m: int, v: int)
    requires r == Int16(x)
    ensures Int16(Int16(r * m) + v) == Int16(x * m + v)
  {
    Int16Add(r * m, v);
    Int16MulAdd(x, m, v);
  }

  /** Negation commutes with the 16-bit conversion. */
  lemma {:induction false} Int16Neg(x: int)
    ensures Int16(-Int16(x)) == Int16(-x)
  {
    Int16MulAdd(x, -1, 0);
  }

  /** The identity, used where a key or an index stands for itself: the sort
      key of a station name, the shard of span `j` in version 08. */
  function Id<T>(x: T): T { x }

  /** C++ integer division, which truncates toward zero (Dafny's `/` is
      Euclidean): the quotient has the sign of `a`; `TruncDivTowardZero`
      states what it is. */
  function TruncDiv(a: int, b: int): (q: int)
    requires b > 0
    ensures a >= 0 ==> q >= 0
    ensures a <= 0 ==> q <= 0
  {
    if a >= 0 then a / b else -((-a) / b)
  }

  /** The quotient of `TruncDiv`: for `a >= 0` the largest `q` with
      `q * b <= a`, for `a < 0` the smallest `q` with `a <= q * b`. */
  lemma TruncDivTowardZero(a: int, b: int)
    requires b > 0
    ensures a >= 0 ==> TruncDiv(a, b) * b <= a < TruncDiv(a, b) * b + b
    ensures a < 0 ==> TruncDiv(a, b) * b - b < a <= TruncDiv(a, b) * b
  {
  }

  /** The first index at or after `from` that holds `c`: the scan
      `while (*iter != c) ++iter;`. */
  function IndexFrom(s: seq<byte>, from: nat, c: byte): (i: nat)
    requires from <= |s| && c in s[from..]
    ensures from <= i < |s| && s[i] == c
    decreases |s| - from
  {
    if s[from] == c then from
    else
      assert s[from..] == [s[from]] + s[from + 1..];
      IndexFrom(s, from + 1, c)
  }

  /** No byte before IndexFrom is `c`. */
  lemma IndexFromFirst(s: seq<byte>, from: nat, c: byte, k: nat)
    requires from <= |s| && c in s[from..]
    requires from <= k < IndexFrom(s, from, c)
    ensures s[k] != c
    decreases |s| - from
  {
    if s[from] != c && k > from {
      assert s[from..] == [s[from]] + s[from + 1..];
      IndexFromFirst(s, from + 1, c, k);
    }
  }

  /** Characterization of IndexFrom: any index that satisfies its contract is it. */
  lemma IndexFromUnique(s: seq<byte>, from: nat, c: byte, i: nat)
    requires from <= i < |s| && s[i] == c
    requires forall k :: from <= k < i ==> s[k] != c
    ensures c in s[from..] && IndexFrom(s, from, c) == i
    decreases i - from
  {
    assert s[from..][i - from] == c;
    if from < i {
      assert s[from + 1..][i - from - 1] == c;
      IndexFromUnique(s, from + 1, c, i);
    }
  }

  /** A suffix cut around one of its bytes. */
  lemma SplitAround(s: seq<byte>, from: nat, i: nat)
    requires from <= i < |s|
    ensures s[from..] == s[from..i] + [s[i]] + s[i + 1..]
  {
  }
}
