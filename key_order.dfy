/** The order the output is sorted in: `std::string`'s `operator<`, which
    compares characters as unsigned bytes, lexicographically; and sorting a
    sequence by a key under that order. */
module KeyOrder {
  import opened Bytes

  /** Byte-lexicographic strict order; a proper prefix comes first. */
  predicate Less(a: Key, b: Key)
    decreases |a|
  {
    if a == [] then b != []
    else if b == [] then false
    else a[0] < b[0] || (a[0] == b[0] && Less(a[1..], b[1..]))
  }

  lemma {:induction false} LessIrreflexive(a: Key)
    ensures !Less(a, a)
    decreases |a|
  {
    if a != [] {
      LessIrreflexive(a[1..]);
    }
  }

  lemma {:induction false} LessTransitive(a: Key, b: Key, c: Key)
    requires Less(a, b) && Less(b, c)
    ensures Less(a, c)
    decreases |a|
  {
    if a != [] && a[0] == b[0] && b[0] == c[0] {
      LessTransitive(a[1..], b[1..], c[1..]);
    }
  }

  /** Two different keys are always ordered one way or the other. */
  lemma {:induction false} LessTotal(a: Key, b: Key)
    requires a != b
    ensures Less(a, b) || Less(b, a)
    decreases |a|
  {
    if a != [] && b != [] && a[0] == b[0] {
      assert a == [a[0]] + a[1..] && b == [b[0]] + b[1..];
      LessTotal(a[1..], b[1..]);
    }
  }

  lemma {:induction false} LessAsymmetric(a: Key, b: Key)
    requires Less(a, b)
    ensures !Less(b, a)
    decreases |a|
  {
    if a != [] && b != [] && a[0] == b[0] {
      LessAsymmetric(a[1..], b[1..]);
    }
  }

  /** `s` is in ascending order of `f`. */
  predicate SortedBy<T>(s: seq<T>, f: T -> Key)
  {
    forall i, j :: 0 <= i < j < |s| ==> !Less(f(s[j]), f(s[i]))
  }

  /** `s` is in strictly ascending order of `f`: no key twice. */
  predicate StrictlySortedBy<T>(s: seq<T>, f: T -> Key)
  {
    forall i, j :: 0 <= i < j < |s| ==> Less(f(s[i]), f(s[j]))
  }

  /** Insertion of `x` in front of the first element that is not smaller. */
  function InsertBy<T>(x: T, s: seq<T>, f: T -> Key): (r: seq<T>)
    ensures multiset(r) == multiset(s) + multiset{x}
  {
    if s == [] then [x]
    else if !Less(f(s[0]), f(x)) then [x] + s
    else
      assert s == [s[0]] + s[1..];
      [s[0]] + InsertBy(x, s[1..], f)
  }

  /** The sorted permutation of `s` (the standard library's sort is not part of
      this model; any sorting algorithm yields this sequence on distinct keys). */
  function SortBy<T>(s: seq<T>, f: T -> Key): (r: seq<T>)
    ensures multiset(r) == multiset(s)
  {
    if s == [] then []
    else
      assert s == [s[0]] + s[1..];
      InsertBy(s[0], SortBy(s[1..], f), f)
  }

  lemma {:induction false} InsertBySorted<T>(x: T, s: seq<T>, f: T -> Key)
    requires SortedBy(s, f)
    ensures SortedBy(InsertBy(x, s, f), f)
    decreases |s|
  {
    if s != [] && Less(f(s[0]), f(x)) {
      InsertBySorted(x, s[1..], f);
      var r := InsertBy(x, s, f);
      var t := InsertBy(x, s[1..], f);
      assert r == [s[0]] + t;
      forall j | 0 < j < |r| ensures !Less(f(r[j]), f(s[0])) {
        assert r[j] in multiset(t);
        assert r[j] in multiset(s[1..]) + multiset{x};
        if r[j] == x {
          LessAsymmetric(f(s[0]), f(x));
        } else {
          assert r[j] in s[1..];
          var k :| 0 <= k < |s[1..]| && s[1..][k] == r[j];
          assert s[k + 1] == r[j];
        }
      }
    }
    else if s != [] {
      var r := InsertBy(x, s, f);
      forall j | 0 < j < |r| ensures !Less(f(r[j]), f(x)) {
        assert r[j] == s[j - 1];
        if Less(f(s[j - 1]), f(x)) {
          if j - 1 > 0 {
            assert !Less(f(s[j - 1]), f(s[0]));
            if f(s[j - 1]) == f(s[0]) {
            } else {
              LessTotal(f(s[j - 1]), f(s[0]));
              LessTransitive(f(s[0]), f(s[j - 1]), f(x));
            }
          }
        }
      }
    }
  }

  lemma {:induction false} SortBySorted<T>(s: seq<T>, f: T -> Key)
    ensures SortedBy(SortBy(s, f), f)
    decreases |s|
  {
    if s != [] {
      SortBySorted(s[1..], f);
      InsertBySorted(s[0], SortBy(s[1..], f), f);
    }
  }

  /** On elements with pairwise different keys, ascending order is strict. */
  lemma SortedDistinctIsStrict<T>(s: seq<T>, f: T -> Key)
    requires SortedBy(s, f)
    requires forall i, j :: 0 <= i < j < |s| ==> f(s[i]) != f(s[j])
    ensures StrictlySortedBy(s, f)
  {
    forall i, j | 0 <= i < j < |s| ensures Less(f(s[i]), f(s[j])) {
      LessTotal(f(s[i]), f(s[j]));
    }
  }
}
