/** Per-station statistics, the `Record {cnt, sum, min, max}` of the C++ code:
    how one measurement updates a record, how the records of two shards combine,
    and what a table built from a sequence of measurements means. */
module Aggregation {
  import opened Bytes

  /** `cnt` and `sum` are `int64_t`, `min` and `max` are `int16_t` in the source. */
  datatype Stats = Stats(cnt: int, sum: int, min: int, max: int)

  /** One parsed measurement: a station name and a value scaled by ten. */
  datatype Reading = Reading(key: Key, value: int)

  function Min(a: int, b: int): int { if a <= b then a else b }
  function Max(a: int, b: int): int { if a >= b then a else b }

  /** What every stored record satisfies. */
  predicate WF(s: Stats) { s.cnt >= 1 && s.min <= s.max }

  predicate AllWF(m: map<Key, Stats>) { forall k :: k in m ==> WF(m[k]) }

  /** `Record{1, value, value, value}`, stored on a miss. */
  function Single(v: int): (s: Stats)
    ensures WF(s)
  {
    Stats(1, v, v, v)
  }

  /** A hit: `if (v < min) min = v; else if (v > max) max = v; sum += v; ++cnt;`.
      On a record with `min <= max` the exclusive branches compute the
      independent minimum and maximum. */
  function Update(s: Stats, v: int): (r: Stats)
    ensures r.cnt == s.cnt + 1 && r.sum == s.sum + v
    ensures WF(s) ==> WF(r) && r.min == Min(s.min, v) && r.max == Max(s.max, v)
  {
    if v < s.min then Stats(s.cnt + 1, s.sum + v, v, s.max)
    else if v > s.max then Stats(s.cnt + 1, s.sum + v, s.min, v)
    else Stats(s.cnt + 1, s.sum + v, s.min, s.max)
  }

  /** Folding one shard's record into the merged one: counts and sums add,
      `std::min` of the minima, `std::max` of the maxima. */
  function Combine(a: Stats, b: Stats): (r: Stats)
    ensures WF(a) && WF(b) ==> WF(r)
  {
    Stats(a.cnt + b.cnt, a.sum + b.sum, Min(a.min, b.min), Max(a.max, b.max))
  }

  lemma CombineComm(a: Stats, b: Stats)
    ensures Combine(a, b) == Combine(b, a)
  {
  }

  lemma CombineAssoc(a: Stats, b: Stats, c: Stats)
    ensures Combine(Combine(a, b), c) == Combine(a, Combine(b, c))
  {
  }

  /** Updating with one value is combining with a one-value record. */
  lemma UpdateIsCombine(s: Stats, v: int)
    requires WF(s)
    ensures Update(s, v) == Combine(s, Single(v))
  {
  }

  /** `record`: insert `{1, v, v, v}` for a new key, update the stored record otherwise. */
  function Insert(m: map<Key, Stats>, r: Reading): (m': map<Key, Stats>)
    ensures m'.Keys == m.Keys + {r.key}
    ensures forall k :: k in m && k != r.key ==> m'[k] == m[k]
    ensures AllWF(m) ==> AllWF(m')
  {
    if r.key in m then m[r.key := Update(m[r.key], r.value)]
    else m[r.key := Single(r.value)]
  }

  /** The table after recording `rs` in order, starting from `m`. */
  function AggregateFrom(m: map<Key, Stats>, rs: seq<Reading>): map<Key, Stats>
  {
    if rs == [] then m else Insert(AggregateFrom(m, rs[..|rs| - 1]), rs[|rs| - 1])
  }

  function Aggregate(rs: seq<Reading>): map<Key, Stats>
  {
    AggregateFrom(map[], rs)
  }

  /** Reference meaning of a table: the keys seen, and for each key how many
      readings it had and their total. */
  function KeysOf(rs: seq<Reading>): set<Key>
  {
    set i | 0 <= i < |rs| :: rs[i].key
  }

  function Count(rs: seq<Reading>, k: Key): nat
  {
    if rs == [] then 0
    else Count(rs[..|rs| - 1], k) + (if rs[|rs| - 1].key == k then 1 else 0)
  }

  function Total(rs: seq<Reading>, k: Key): int
  {
    if rs == [] then 0
    else Total(rs[..|rs| - 1], k) + (if rs[|rs| - 1].key == k then rs[|rs| - 1].value else 0)
  }

  lemma {:induction false} AggregateFromWF(m: map<Key, Stats>, rs: seq<Reading>)
    requires AllWF(m)
    ensures AllWF(AggregateFrom(m, rs))
  {
    if rs != [] {
      AggregateFromWF(m, rs[..|rs| - 1]);
    }
  }

  lemma KeysOfSnoc(rs: seq<Reading>)
    requires rs != []
    ensures KeysOf(rs) == KeysOf(rs[..|rs| - 1]) + {rs[|rs| - 1].key}
  {
    var p := rs[..|rs| - 1];
    forall k | k in KeysOf(rs) ensures k in KeysOf(p) + {rs[|rs| - 1].key} {
      var i :| 0 <= i < |rs| && rs[i].key == k;
      if i < |p| {
        assert p[i].key == k;
      }
    }
    forall k | k in KeysOf(p) ensures k in KeysOf(rs) {
      var i :| 0 <= i < |p| && p[i].key == k;
      assert rs[i].key == k;
    }
  }

  lemma KeysOfConcat(a: seq<Reading>, b: seq<Reading>)
    ensures KeysOf(a + b) == KeysOf(a) + KeysOf(b)
  {
    forall k | k in KeysOf(a + b) ensures k in KeysOf(a) + KeysOf(b) {
      var i :| 0 <= i < |a + b| && (a + b)[i].key == k;
      if i >= |a| {
        assert b[i - |a|].key == k;
      }
    }
    forall k | k in KeysOf(a) + KeysOf(b) ensures k in KeysOf(a + b) {
      if k in KeysOf(a) {
        var i :| 0 <= i < |a| && a[i].key == k;
        assert (a + b)[i].key == k;
      } else {
        var i :| 0 <= i < |b| && b[i].key == k;
        assert (a + b)[|a| + i].key == k;
      }
    }
  }

  /** Recording adds exactly the keys that occur in the input. */
  lemma {:induction false} AggregateFromKeys(m: map<Key, Stats>, rs: seq<Reading>)
    ensures AggregateFrom(m, rs).Keys == m.Keys + KeysOf(rs)
  {
    if rs != [] {
      AggregateFromKeys(m, rs[..|rs| - 1]);
      KeysOfSnoc(rs);
    }
  }

  /** Exactly the keys that occur in the input are in the table. */
  lemma AggregateKeys(rs: seq<Reading>)
    ensures Aggregate(rs).Keys == KeysOf(rs)
  {
    AggregateFromKeys(map[], rs);
  }

  /** One more reading at the end is one more `Insert`. */
  lemma AggregateFromSnoc(m: map<Key, Stats>, rs: seq<Reading>, r: Reading)
    ensures AggregateFrom(m, rs + [r]) == Insert(AggregateFrom(m, rs), r)
  {
    assert (rs + [r])[..|rs|] == rs;
  }

  lemma KeysOfPrefix(rs: seq<Reading>, n: nat)
    requires n <= |rs|
    ensures KeysOf(rs[..n]) <= KeysOf(rs)
  {
    forall k | k in KeysOf(rs[..n]) ensures k in KeysOf(rs) {
      var i :| 0 <= i < n && rs[..n][i].key == k;
      assert rs[i].key == k;
    }
  }

  /** Each key's `cnt` is its number of readings and its `sum` their total. */
  lemma {:induction false} AggregateCountSum(rs: seq<Reading>, k: Key)
    ensures k in Aggregate(rs) <==> Count(rs, k) > 0
    ensures k in Aggregate(rs) ==> Aggregate(rs)[k].cnt == Count(rs, k) && Aggregate(rs)[k].sum == Total(rs, k)
  {
    if rs != [] {
      var p, r := rs[..|rs| - 1], rs[|rs| - 1];
      AggregateCountSum(p, k);
      assert Aggregate(rs) == Insert(Aggregate(p), r);
      assert Count(rs, k) == Count(p, k) + (if r.key == k then 1 else 0);
      assert Total(rs, k) == Total(p, k) + (if r.key == k then r.value else 0);
      if r.key == k && k in Aggregate(p) {
        assert Aggregate(rs)[k] == Update(Aggregate(p)[k], r.value);
      } else if r.key == k {
        assert Aggregate(rs)[k] == Single(r.value);
        TotalWithoutKey(p, k);
      }
    }
  }

  /** Each key's `min` and `max` bound all of its readings. */
  lemma {:induction false} AggregateBounds(rs: seq<Reading>, k: Key)
    requires k in Aggregate(rs)
    ensures forall i :: 0 <= i < |rs| && rs[i].key == k ==> Aggregate(rs)[k].min <= rs[i].value <= Aggregate(rs)[k].max
  {
    var p, r := rs[..|rs| - 1], rs[|rs| - 1];
    AggregateFromWF(map[], p);
    if k in Aggregate(p) {
      AggregateBounds(p, k);
      assert forall i :: 0 <= i < |p| ==> rs[i] == p[i];
      if r.key == k {
        assert Aggregate(rs)[k] == Update(Aggregate(p)[k], r.value);
      }
    } else {
      assert r.key == k && Aggregate(rs)[k] == Single(r.value);
      NotInAggregate(p, k);
    }
  }

  /** Each key's `min` and `max` are values of its readings. */
  lemma {:induction false} AggregateAttained(rs: seq<Reading>, k: Key)
    requires k in Aggregate(rs)
    ensures exists i :: 0 <= i < |rs| && rs[i].key == k && rs[i].value == Aggregate(rs)[k].min
    ensures exists i :: 0 <= i < |rs| && rs[i].key == k && rs[i].value == Aggregate(rs)[k].max
  {
    var p, r := rs[..|rs| - 1], rs[|rs| - 1];
    AggregateFromWF(map[], p);
    if k in Aggregate(p) {
      AggregateAttained(p, k);
      var s := Aggregate(p)[k];
      var i :| 0 <= i < |p| && p[i].key == k && p[i].value == s.min;
      var j :| 0 <= j < |p| && p[j].key == k && p[j].value == s.max;
      assert rs[i] == p[i] && rs[j] == p[j];
      if r.key == k {
        assert Aggregate(rs)[k] == Update(s, r.value);
      } else {
        assert Aggregate(rs)[k] == s;
      }
    } else {
      assert r.key == k && Aggregate(rs)[k] == Single(r.value);
      assert rs[|rs| - 1] == r;
    }
  }

  /** A key missing from a table occurs in none of its readings. */
  lemma NotInAggregate(rs: seq<Reading>, k: Key)
    requires k !in Aggregate(rs)
    ensures forall i :: 0 <= i < |rs| ==> rs[i].key != k
  {
    AggregateCountSum(rs, k);
    forall i | 0 <= i < |rs| ensures rs[i].key != k {
      if rs[i].key == k {
        CountPositive(rs, k, i);
      }
    }
  }

  lemma {:induction false} TotalWithoutKey(rs: seq<Reading>, k: Key)
    requires Count(rs, k) == 0
    ensures Total(rs, k) == 0
  {
    if rs != [] {
      TotalWithoutKey(rs[..|rs| - 1], k);
    }
  }

  lemma {:induction false} CountPositive(rs: seq<Reading>, k: Key, i: nat)
    requires i < |rs| && rs[i].key == k
    ensures Count(rs, k) > 0
  {
    if i < |rs| - 1 {
      CountPositive(rs[..|rs| - 1], k, i);
    }
  }

  /** Recording `a + b` is recording `a`, then `b`. */
  lemma {:induction false} AggregateFromConcat(m: map<Key, Stats>, a: seq<Reading>, b: seq<Reading>)
    ensures AggregateFrom(m, a + b) == AggregateFrom(AggregateFrom(m, a), b)
  {
    if b == [] {
      assert a + b == a;
    } else {
      assert (a + b)[..|a + b| - 1] == a + b[..|b| - 1];
      AggregateFromConcat(m, a, b[..|b| - 1]);
    }
  }

  /** Merging two tables key by key: the map the shard-merge loop builds. */
  function MergeMaps(a: map<Key, Stats>, b: map<Key, Stats>): map<Key, Stats>
  {
    map k | k in a.Keys + b.Keys ::
      if k in a && k in b then Combine(a[k], b[k]) else if k in a then a[k] else b[k]
  }

  /** One step of the merge loop: look the key up, insert the shard's record
      or combine it with the one found. */
  function MergeEntry(m: map<Key, Stats>, k: Key, s: Stats): (m': map<Key, Stats>)
    ensures m'.Keys == m.Keys + {k}
    ensures forall k' :: k' in m && k' != k ==> m'[k'] == m[k']
  {
    if k in m then m[k := Combine(m[k], s)] else m[k := s]
  }

  lemma MergeMapsWF(a: map<Key, Stats>, b: map<Key, Stats>)
    requires AllWF(a) && AllWF(b)
    ensures AllWF(MergeMaps(a, b))
  {
  }

  lemma MergeMapsComm(a: map<Key, Stats>, b: map<Key, Stats>)
    ensures MergeMaps(a, b) == MergeMaps(b, a)
  {
    forall k | k in a && k in b ensures Combine(a[k], b[k]) == Combine(b[k], a[k]) {
      CombineComm(a[k], b[k]);
    }
  }

  lemma MergeMapsAssoc(a: map<Key, Stats>, b: map<Key, Stats>, c: map<Key, Stats>)
    ensures MergeMaps(MergeMaps(a, b), c) == MergeMaps(a, MergeMaps(b, c))
  {
    forall k | k in a && k in b && k in c
      ensures Combine(Combine(a[k], b[k]), c[k]) == Combine(a[k], Combine(b[k], c[k]))
    {
      CombineAssoc(a[k], b[k], c[k]);
    }
  }

  lemma MergeMapsEmpty(a: map<Key, Stats>)
    ensures MergeMaps(a, map[]) == a && MergeMaps(map[], a) == a
  {
  }

  /** Merging one more record whose key the right-hand table lacks. */
  lemma MergeEntryStep(a: map<Key, Stats>, b: map<Key, Stats>, k: Key, s: Stats)
    requires k !in b
    ensures MergeEntry(MergeMaps(a, b), k, s) == MergeMaps(a, b[k := s])
  {
  }

  /** Recording one reading into a merged table is recording it into its right side. */
  lemma InsertMerge(a: map<Key, Stats>, b: map<Key, Stats>, r: Reading)
    requires AllWF(a) && AllWF(b)
    ensures Insert(MergeMaps(a, b), r) == MergeMaps(a, Insert(b, r))
  {
    var k := r.key;
    if k in a && k in b {
      calc {
        Update(Combine(a[k], b[k]), r.value);
        { UpdateIsCombine(Combine(a[k], b[k]), r.value); }
        Combine(Combine(a[k], b[k]), Single(r.value));
        { CombineAssoc(a[k], b[k], Single(r.value)); }
        Combine(a[k], Combine(b[k], Single(r.value)));
        { UpdateIsCombine(b[k], r.value); }
        Combine(a[k], Update(b[k], r.value));
      }
    } else if k in a {
      UpdateIsCombine(a[k], r.value);
    }
  }

  /** A table built on top of `m` is `m` merged with the table of the new readings. */
  lemma {:induction false} AggregateFromIsMerge(m: map<Key, Stats>, rs: seq<Reading>)
    requires AllWF(m)
    ensures AggregateFrom(m, rs) == MergeMaps(m, Aggregate(rs))
  {
    if rs == [] {
      MergeMapsEmpty(m);
    } else {
      var p := rs[..|rs| - 1];
      AggregateFromIsMerge(m, p);
      AggregateFromWF(map[], p);
      InsertMerge(m, Aggregate(p), rs[|rs| - 1]);
    }
  }

  /** Aggregation is a homomorphism from concatenation to merging: the reason
      shards can be aggregated separately and merged. */
  lemma AggregateConcat(a: seq<Reading>, b: seq<Reading>)
    ensures Aggregate(a + b) == MergeMaps(Aggregate(a), Aggregate(b))
  {
    AggregateFromConcat(map[], a, b);
    AggregateFromWF(map[], a);
    AggregateFromIsMerge(Aggregate(a), b);
  }

  /** The merge loop over a sequence of shard tables, in order. */
  function MergeAll(ms: seq<map<Key, Stats>>): map<Key, Stats>
  {
    if ms == [] then map[] else MergeMaps(MergeAll(ms[..|ms| - 1]), ms[|ms| - 1])
  }

  /** The merged table holds a key exactly when some shard holds it. */
  lemma {:induction false} MergeAllKeys(ms: seq<map<Key, Stats>>, k: Key)
    ensures k in MergeAll(ms) <==> exists i :: 0 <= i < |ms| && k in ms[i]
  {
    if ms != [] {
      var p := ms[..|ms| - 1];
      MergeAllKeys(p, k);
      if k in MergeAll(p) {
        var i :| 0 <= i < |p| && k in p[i];
        assert k in ms[i];
      }
      if exists i :: 0 <= i < |ms| && k in ms[i] {
        var i :| 0 <= i < |ms| && k in ms[i];
        if i < |p| {
          assert k in p[i];
        }
      }
    }
  }

  /** Growing one shard by `x` grows the merged table by `x`. */
  lemma {:induction false} MergeAllUpdate(ms: seq<map<Key, Stats>>, w: nat, x: map<Key, Stats>)
    requires w < |ms|
    ensures MergeAll(ms[w := MergeMaps(ms[w], x)]) == MergeMaps(MergeAll(ms), x)
  {
    var ms' := ms[w := MergeMaps(ms[w], x)];
    var p, last := ms[..|ms| - 1], ms[|ms| - 1];
    var rest := MergeAll(p);
    if w == |ms| - 1 {
      assert ms'[..|ms'| - 1] == p;
      assert MergeAll(ms') == MergeMaps(rest, MergeMaps(last, x));
      MergeMapsAssoc(rest, last, x);
    } else {
      assert ms'[..|ms'| - 1] == p[w := MergeMaps(p[w], x)];
      MergeAllUpdate(p, w, x);
      assert MergeAll(ms') == MergeMaps(MergeMaps(rest, x), last);
      SwapLast(rest, x, last);
    }
  }

  lemma SwapLast(a: map<Key, Stats>, x: map<Key, Stats>, y: map<Key, Stats>)
    ensures MergeMaps(MergeMaps(a, x), y) == MergeMaps(MergeMaps(a, y), x)
  {
    calc {
      MergeMaps(MergeMaps(a, x), y);
      { MergeMapsAssoc(a, x, y); }
      MergeMaps(a, MergeMaps(x, y));
      { MergeMapsComm(x, y); }
      MergeMaps(a, MergeMaps(y, x));
      { MergeMapsAssoc(a, y, x); }
      MergeMaps(MergeMaps(a, y), x);
    }
  }

  lemma MergeAllSnoc(ms: seq<map<Key, Stats>>, y: map<Key, Stats>)
    ensures MergeAll(ms + [y]) == MergeMaps(MergeAll(ms), y)
  {
    assert (ms + [y])[..|ms|] == ms;
  }

  /** Taking one shard out of the middle and merging it last changes nothing. */
  lemma {:induction false} MergeAllExtract(xs: seq<map<Key, Stats>>, x: map<Key, Stats>, ys: seq<map<Key, Stats>>)
    ensures MergeAll(xs + [x] + ys) == MergeMaps(MergeAll(xs + ys), x)
  {
    if ys == [] {
      assert xs + [x] + ys == xs + [x];
      assert xs + ys == xs;
      MergeAllSnoc(xs, x);
    } else {
      var p, y := ys[..|ys| - 1], ys[|ys| - 1];
      assert xs + [x] + ys == (xs + [x] + p) + [y];
      assert xs + ys == (xs + p) + [y];
      MergeAllSnoc(xs + [x] + p, y);
      MergeAllSnoc(xs + p, y);
      MergeAllExtract(xs, x, p);
      SwapLast(MergeAll(xs + p), x, y);
    }
  }

  /** The merged table does not depend on the order of the shards. */
  lemma {:induction false} MergeAllPermutation(xs: seq<map<Key, Stats>>, ys: seq<map<Key, Stats>>)
    requires multiset(xs) == multiset(ys)
    ensures MergeAll(xs) == MergeAll(ys)
    decreases |xs|
  {
    if xs != [] {
      var p, x := xs[..|xs| - 1], xs[|xs| - 1];
      assert xs == p + [x];
      assert x in multiset(ys);
      var i :| 0 <= i < |ys| && ys[i] == x;
      var ys1, ys2 := ys[..i], ys[i + 1..];
      assert ys == ys1 + [x] + ys2;
      assert multiset(xs) == multiset(p) + multiset{x};
      assert multiset(ys) == multiset(ys1) + multiset{x} + multiset(ys2);
      assert multiset(p) == multiset(xs) - multiset{x};
      assert multiset(ys1 + ys2) == multiset(ys) - multiset{x};
      MergeAllPermutation(p, ys1 + ys2);
      MergeAllExtract(ys1, x, ys2);
    } else {
      assert |ys| == |multiset(ys)| == 0;
    }
  }
}
