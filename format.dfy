/** The integer part of `format_output`: one entry per station, in ascending
    byte order of the names, with the scaled minimum, rounded mean and maximum
    (all in tenths of a degree). Printing them as `x / 10.0` is not modelled. */
module Format {
  import opened Bytes
  import opened Aggregation
  import opened KeyOrder
  import opened HashTable
  import ValueParser
  import RecordScanner

  // ---------------------------------------------------------------------------
  // Rounding

  /** The scaled mean of `format_output`: `sum + cnt / 2` when `sum > 0`,
      `sum - cnt / 2` otherwise, then the C++ division by `cnt`. */
  function RoundedMean(sum: int, cnt: int): int
    requires cnt > 0
  {
    TruncDiv(if sum > 0 then sum + cnt / 2 else sum - cnt / 2, cnt)
  }

  /** Rounding a non-negative `a / c` to nearest, halves up. */
  function HalfUp(a: nat, c: int): int
    requires c > 0
  {
    (a + c / 2) / c
  }

  /** `HalfUp(a, c) * c` lies within half a `c` of `a`, strictly below on the
      upper side; it is half a `c` above `a` only for a positive `a`. */
  lemma HalfUpNearest(a: nat, c: int)
    requires c > 0
    ensures -c <= 2 * (a - HalfUp(a, c) * c) < c
    ensures 2 * (HalfUp(a, c) * c - a) == c ==> a > 0
  {
    var h := c / 2;
    var n := a + h;
    var q := n / c;
    var m := n % c;
    assert n == q * c + m && 0 <= m < c;
    assert 2 * h <= c <= 2 * h + 1;
    if a == 0 {
      assert q == 0;
    }
  }

  /** The two branches of the rounding, as rounding of the magnitude. */
  lemma RoundedMeanSign(sum: int, cnt: int)
    requires cnt > 0
    ensures sum > 0 ==> RoundedMean(sum, cnt) == HalfUp(sum, cnt)
    ensures sum <= 0 ==> RoundedMean(sum, cnt) == -HalfUp(-sum, cnt)
  {
    if sum <= 0 && sum - cnt / 2 == 0 {
      assert cnt / 2 == 0 && sum == 0;
    }
  }

  lemma NegMul(q: int, c: int)
    ensures (-q) * c == -(q * c)
  {
  }

  /** The scaled mean is the integer nearest to `sum / cnt`; a tie is broken
      away from zero. */
  lemma RoundedMeanNearest(sum: int, cnt: int)
    requires cnt > 0
    ensures -cnt <= 2 * (sum - RoundedMean(sum, cnt) * cnt) <= cnt
    ensures 2 * (RoundedMean(sum, cnt) * cnt - sum) == cnt ==> sum > 0
    ensures 2 * (sum - RoundedMean(sum, cnt) * cnt) == cnt ==> sum < 0
  {
    RoundedMeanSign(sum, cnt);
    if sum > 0 {
      HalfUpNearest(sum, cnt);
    } else {
      HalfUpNearest(-sum, cnt);
      NegMul(HalfUp(-sum, cnt), cnt);
    }
  }

  /** A smaller factor loses at least one `c`. */
  lemma MulStep(c: int, r: int, m: int)
    requires c > 0 && r < m
    ensures r * c <= m * c - c
  {
    MulMono(c, r, m - 1);
    assert c * (m - 1) == c * m - c;
  }

  /** An integer strictly within half a `cnt` of `sum` is the scaled mean. */
  lemma RoundedMeanUnique(sum: int, cnt: int, q: int)
    requires cnt > 0 && -cnt < 2 * (sum - q * cnt) < cnt
    ensures q == RoundedMean(sum, cnt)
  {
    var r := RoundedMean(sum, cnt);
    RoundedMeanNearest(sum, cnt);
    if q > r {
      MulStep(cnt, r, q);
    } else if q < r {
      MulStep(cnt, q, r);
    }
  }

  /** Negating the sum negates the scaled mean. */
  lemma RoundedMeanSymmetric(sum: int, cnt: int)
    requires cnt > 0
    ensures RoundedMean(-sum, cnt) == -RoundedMean(sum, cnt)
  {
    RoundedMeanSign(sum, cnt);
    RoundedMeanSign(-sum, cnt);
  }

  /** 7.0 / 3 is 2.3; -3.0 / 2 is -1.5; 0.5 / 2 is 0.3 and -0.5 / 2 is -0.3. */
  lemma RoundedMeanExamples()
    ensures RoundedMean(70, 3) == 23
    ensures RoundedMean(-30, 2) == -15
    ensures RoundedMean(5, 2) == 3 && RoundedMean(-5, 2) == -3
  {
  }

  /** When the sum lies between `cnt` times the minimum and `cnt` times the
      maximum, so does the scaled mean between the minimum and the maximum. */
  lemma RoundedMeanWithin(s: Stats)
    requires s.cnt > 0 && s.min * s.cnt <= s.sum <= s.max * s.cnt
    ensures s.min <= RoundedMean(s.sum, s.cnt) <= s.max
  {
    var r := RoundedMean(s.sum, s.cnt);
    RoundedMeanNearest(s.sum, s.cnt);
    if r < s.min {
      MulStep(s.cnt, r, s.min);
    }
    if r > s.max {
      MulStep(s.cnt, s.max, r);
    }
  }

  /** Readings of `k` between `lo` and `hi` total between `lo` and `hi` times their number. */
  lemma {:induction false} TotalBounds(rs: seq<Reading>, k: Key, lo: int, hi: int)
    requires forall i :: 0 <= i < |rs| && rs[i].key == k ==> lo <= rs[i].value <= hi
    ensures lo * Count(rs, k) <= Total(rs, k) <= hi * Count(rs, k)
  {
    if rs != [] {
      var p, r := rs[..|rs| - 1], rs[|rs| - 1];
      assert forall i :: 0 <= i < |p| ==> p[i] == rs[i];
      TotalBounds(p, k, lo, hi);
      if r.key == k {
        assert lo * (Count(p, k) + 1) == lo * Count(p, k) + lo;
        assert hi * (Count(p, k) + 1) == hi * Count(p, k) + hi;
      }
    }
  }

  /** For every station of a table built from readings, the scaled mean lies
      between the station's minimum and maximum. */
  lemma AggregateMeanWithin(rs: seq<Reading>, k: Key)
    requires k in Aggregate(rs)
    ensures Aggregate(rs)[k].cnt > 0
    ensures Aggregate(rs)[k].min <= RoundedMean(Aggregate(rs)[k].sum, Aggregate(rs)[k].cnt) <= Aggregate(rs)[k].max
  {
    var s := Aggregate(rs)[k];
    AggregateCountSum(rs, k);
    AggregateBounds(rs, k);
    TotalBounds(rs, k, s.min, s.max);
    RoundedMeanWithin(s);
  }

  // ---------------------------------------------------------------------------
  // The listing

  /** One station's entry of the output, `name=min/mean/max`, in tenths. */
  datatype OutputLine = OutputLine(name: Key, min: int, mean: int, max: int)

  /** The entry `format_output` writes for a station and its record. */
  function LineOf(name: Key, s: Stats): (line: OutputLine)
    requires s.cnt > 0
    ensures line.name == name && line.min == s.min && line.max == s.max
    ensures -s.cnt <= 2 * (s.sum - line.mean * s.cnt) <= s.cnt
  {
    RoundedMeanNearest(s.sum, s.cnt);
    OutputLine(name, s.min, RoundedMean(s.sum, s.cnt), s.max)
  }

  function Names(lines: seq<OutputLine>): (ns: seq<Key>)
    ensures |ns| == |lines| && forall i :: 0 <= i < |lines| ==> ns[i] == lines[i].name
  {
    seq(|lines|, i requires 0 <= i < |lines| => lines[i].name)
  }

  /** Strictly ascending in byte order. */
  predicate Ascending(ns: seq<Key>)
  {
    forall i, j :: 0 <= i < j < |ns| ==> Less(ns[i], ns[j])
  }

  /** `lines` is the output for the table `db`: in ascending byte order of the
      names, with an entry for every station of the table and for no other,
      each carrying that station's figures. */
  ghost predicate IsListing(lines: seq<OutputLine>, db: map<Key, Stats>)
  {
    && AllWF(db)
    && Ascending(Names(lines))
    && (forall k :: k in db <==> k in Names(lines))
    && (forall i :: 0 <= i < |lines| ==> lines[i].name in db && lines[i] == LineOf(lines[i].name, db[lines[i].name]))
  }

  /** Every station occurs exactly once in a listing. */
  lemma ListingOnce(lines: seq<OutputLine>, db: map<Key, Stats>)
    requires IsListing(lines, db)
    ensures forall i, j :: 0 <= i < j < |lines| ==> lines[i].name != lines[j].name
    ensures forall k :: k in db ==> exists i :: 0 <= i < |lines| && lines[i].name == k
  {
    forall i, j | 0 <= i < j < |lines| ensures lines[i].name != lines[j].name {
      assert Less(Names(lines)[i], Names(lines)[j]);
      LessIrreflexive(lines[i].name);
    }
    forall k | k in db ensures exists i :: 0 <= i < |lines| && lines[i].name == k {
      var i :| 0 <= i < |Names(lines)| && Names(lines)[i] == k;
      assert lines[i].name == k;
    }
  }

  /** A key in the tail of an ascending sequence is in the tail of any other
      ascending sequence of the same keys with the same head. */
  lemma TailMember(a: seq<Key>, b: seq<Key>, k: Key)
    requires Ascending(a) && a != [] && b != [] && a[0] == b[0]
    requires forall k :: k in a <==> k in b
    requires k in a[1..]
    ensures k in b[1..]
  {
    var i :| 0 <= i < |a| - 1 && a[1..][i] == k;
    assert a[i + 1] == k;
    assert Less(a[0], k);
    LessIrreflexive(k);
    assert k in a;
    var j :| 0 <= j < |b| && b[j] == k;
    assert b[1..][j - 1] == k;
  }

  /** Two strictly ascending sequences of the same keys are equal. */
  lemma {:induction false} AscendingUnique(a: seq<Key>, b: seq<Key>)
    requires Ascending(a) && Ascending(b)
    requires forall k :: k in a <==> k in b
    ensures a == b
    decreases |a|
  {
    if a == [] {
    } else {
      assert a[0] in a;
      assert b != [];
      assert b[0] in b;
      if a[0] != b[0] {
        var i :| 0 <= i < |a| && a[i] == b[0];
        var j :| 0 <= j < |b| && b[j] == a[0];
        assert i > 0 && j > 0;
        assert Less(a[0], b[0]) && Less(b[0], a[0]);
        LessAsymmetric(a[0], b[0]);
      }
      forall k ensures k in a[1..] <==> k in b[1..] {
        if k in a[1..] {
          TailMember(a, b, k);
        }
        if k in b[1..] {
          TailMember(b, a, k);
        }
      }
      AscendingUnique(a[1..], b[1..]);
      assert a == [a[0]] + a[1..] && b == [b[0]] + b[1..];
    }
  }

  /** The output is determined by the table's contents: every version that
      reaches the same contents prints the same. */
  lemma ListingUnique(a: seq<OutputLine>, b: seq<OutputLine>, db: map<Key, Stats>)
    requires IsListing(a, db) && IsListing(b, db)
    ensures a == b
  {
    AscendingUnique(Names(a), Names(b));
    forall i | 0 <= i < |a| ensures a[i] == b[i] {
      assert a[i].name == Names(a)[i] == Names(b)[i] == b[i].name;
    }
  }

  /** On a buffer of whole records whose value tokens are all well formed, the
      versions that read values with `parse_value` (05, 06) and those that use
      `parse_int_table` (07 to 09) print the same listing. */
  lemma ParsersPrintSameListing(data: seq<byte>, a: seq<OutputLine>, b: seq<OutputLine>)
    requires RecordScanner.WellFormed(data, 0, |data|)
    requires forall i :: 0 <= i < |RecordScanner.Rows(data, 0, |data|)| ==>
      ValueParser.ValidToken(RecordScanner.Rows(data, 0, |data|)[i].token)
    requires IsListing(a, Aggregate(RecordScanner.Readings(RecordScanner.Rows(data, 0, |data|), ValueParser.BranchValue)))
    requires IsListing(b, Aggregate(RecordScanner.Readings(RecordScanner.Rows(data, 0, |data|), ValueParser.TableValue)))
    ensures a == b
  {
    RecordScanner.ReadingsAgree(RecordScanner.Rows(data, 0, |data|));
    ListingUnique(a, b, Aggregate(RecordScanner.Readings(RecordScanner.Rows(data, 0, |data|), ValueParser.TableValue)));
  }

  /** The listing of the readings' table: every station that has a reading,
      with its minimum at most its scaled mean and that at most its maximum. */
  lemma ListingOfReadings(lines: seq<OutputLine>, rs: seq<Reading>)
    requires IsListing(lines, Aggregate(rs))
    ensures forall k :: k in Names(lines) <==> Count(rs, k) > 0
    ensures forall i :: 0 <= i < |lines| ==> lines[i].min <= lines[i].mean <= lines[i].max
  {
    forall k ensures k in Names(lines) <==> Count(rs, k) > 0 {
      AggregateCountSum(rs, k);
    }
    forall i | 0 <= i < |lines| ensures lines[i].min <= lines[i].mean <= lines[i].max {
      AggregateMeanWithin(rs, lines[i].name);
    }
  }

  // ---------------------------------------------------------------------------
  // format_output over a map (versions 05, 08, 09)

  /** Copying `db | std::views::keys` into a vector: every key once, in the
      map's iteration order, which the model leaves open. */
  method KeysOfMap(db: map<Key, Stats>) returns (names: seq<Key>)
    ensures forall k :: k in db <==> k in names
    ensures Distinct(names)
  {
    names := [];
    var rest := db.Keys;
    while rest != {}
      invariant rest <= db.Keys
      invariant forall k :: k in db <==> k in rest || k in names
      invariant forall k :: k in names ==> k !in rest
      invariant Distinct(names)
      decreases |rest|
    {
      var k :| k in rest;
      names := names + [k];
      rest := rest - {k};
    }
  }

  /** `std::ranges::sort(names, std::less<>{})` on the distinct keys: the
      same keys, strictly ascending. */
  lemma SortedNames(names: seq<Key>)
    requires Distinct(names)
    ensures Ascending(SortBy(names, Id))
    ensures forall k :: k in names <==> k in SortBy(names, Id)
  {
    var sorted := SortBy(names, Id);
    SortBySorted(names, Id);
    PermutationDistinct(names, sorted);
    SortedDistinctIsStrict(sorted, Id);
    forall k ensures k in names <==> k in sorted {
      assert k in names <==> k in multiset(names);
    }
  }

  /** Lines built for the sorted keys of a map, one per key, make its listing. */
  lemma MapListing(db: map<Key, Stats>, sorted: seq<Key>, lines: seq<OutputLine>)
    requires AllWF(db) && Ascending(sorted) && forall k :: k in db <==> k in sorted
    requires |lines| == |sorted|
    requires forall j :: 0 <= j < |sorted| ==> lines[j] == LineOf(sorted[j], db[sorted[j]])
    ensures IsListing(lines, db)
  {
    assert Names(lines) == sorted;
  }

  /** `format_output` of versions 05, 08 and 09, on the station map. */
  method FormatMap(db: map<Key, Stats>) returns (lines: seq<OutputLine>)
    requires AllWF(db)
    ensures IsListing(lines, db)
  {
    var names := KeysOfMap(db);
    SortedNames(names);
    names := SortBy(names, Id);
    lines := [];
    var i := 0;
    while i < |names|
      invariant i <= |names| && |lines| == i
      invariant forall j :: 0 <= j < i ==> lines[j] == LineOf(names[j], db[names[j]])
    {
      lines := lines + [LineOf(names[i], db[names[i]])];
      i := i + 1;
    }
    MapListing(db, names, lines);
  }

  // ---------------------------------------------------------------------------
  // format_output over the slot table (versions 06, 07)

  /** Every listed slot holds a well-formed record. */
  lemma FilledRecords(t: Table, capacity: nat, home: Key -> nat)
    requires ValidTable(t, capacity, home)
    ensures forall j :: 0 <= j < |t.filled| ==> t.filled[j] < |t.keys| && t.filled[j] < |t.values| && WF(t.values[t.filled[j]])
  {
    forall j | 0 <= j < |t.filled| ensures t.filled[j] < |t.values| && WF(t.values[t.filled[j]]) {
      var s := t.filled[j];
      assert t.keys[s] in t.slotOf && t.slotOf[t.keys[s]] == s;
    }
  }

  /** The lines of `format_output` for the slots `f`, in that order. */
  method SlotLines(ks: seq<Key>, vs: seq<Stats>, f: seq<nat>) returns (lines: seq<OutputLine>)
    requires forall j :: 0 <= j < |f| ==> f[j] < |ks| && f[j] < |vs| && WF(vs[f[j]])
    ensures |lines| == |f|
    ensures forall j :: 0 <= j < |f| ==> WF(vs[f[j]]) && lines[j] == LineOf(ks[f[j]], vs[f[j]])
  {
    lines := [];
    var i := 0;
    while i < |f|
      invariant i <= |f| && |lines| == i
      invariant forall j :: 0 <= j < i ==> lines[j] == LineOf(ks[f[j]], vs[f[j]])
    {
      lines := lines + [LineOf(ks[f[i]], vs[f[i]])];
      i := i + 1;
    }
  }

  /** Lines built for the slots of a sorted `filled_` make the table's listing. */
  lemma SlotListing(ks: seq<Key>, vs: seq<Stats>, f: seq<nat>, slotOf: map<Key, nat>, lines: seq<OutputLine>)
    requires |vs| == |ks| && Indexed(ks, slotOf) && Occupied(ks, slotOf)
    requires FilledExact(ks, f, slotOf) && StatsWF(vs, slotOf)
    requires forall i, j :: 0 <= i < j < |f| ==> Less(ks[f[i]], ks[f[j]])
    requires |lines| == |f|
    requires forall j :: 0 <= j < |f| ==> WF(vs[f[j]]) && lines[j] == LineOf(ks[f[j]], vs[f[j]])
    ensures IsListing(lines, ContentsOf(vs, slotOf))
  {
    var c := ContentsOf(vs, slotOf);
    var ns := Names(lines);
    forall i, j | 0 <= i < j < |ns| ensures Less(ns[i], ns[j]) {
      assert ns[i] == ks[f[i]] && ns[j] == ks[f[j]];
    }
    SlotNamesCover(ks, vs, f, slotOf, lines);
    SlotLinesRecords(ks, vs, f, slotOf, lines);
  }

  lemma SlotNamesCover(ks: seq<Key>, vs: seq<Stats>, f: seq<nat>, slotOf: map<Key, nat>, lines: seq<OutputLine>)
    requires |vs| == |ks| && Indexed(ks, slotOf) && Occupied(ks, slotOf) && FilledExact(ks, f, slotOf)
    requires |lines| == |f| && forall j :: 0 <= j < |f| ==> lines[j].name == ks[f[j]]
    ensures forall k :: k in ContentsOf(vs, slotOf) <==> k in Names(lines)
  {
    var ns := Names(lines);
    forall k | k in slotOf ensures k in ns {
      var j :| 0 <= j < |f| && f[j] == slotOf[k];
      assert ns[j] == k;
    }
    forall k | k in ns ensures k in slotOf {
      var j :| 0 <= j < |ns| && ns[j] == k;
      assert ks[f[j]] == k;
    }
  }

  lemma SlotLinesRecords(ks: seq<Key>, vs: seq<Stats>, f: seq<nat>, slotOf: map<Key, nat>, lines: seq<OutputLine>)
    requires |vs| == |ks| && Occupied(ks, slotOf) && FilledExact(ks, f, slotOf)
    requires |lines| == |f|
    requires forall j :: 0 <= j < |f| ==> WF(vs[f[j]]) && lines[j] == LineOf(ks[f[j]], vs[f[j]])
    ensures forall i :: 0 <= i < |lines| ==> lines[i].name in ContentsOf(vs, slotOf) && ContentsOf(vs, slotOf)[lines[i].name] == vs[f[i]]
  {
    forall i | 0 <= i < |lines| ensures lines[i].name in ContentsOf(vs, slotOf) && ContentsOf(vs, slotOf)[lines[i].name] == vs[f[i]] {
      assert ks[f[i]] in slotOf && slotOf[ks[f[i]]] == f[i];
    }
  }

  /** `format_output` of versions 06 and 07: `sort_slots`, then one entry per
      slot of `filled_`, read from the arrays. */
  method FormatTable(db: DB) returns (lines: seq<OutputLine>)
    requires db.Valid()
    modifies db
    ensures db.Valid() && db.Contents() == old(db.Contents())
    ensures IsListing(lines, db.Contents())
  {
    db.SortSlots();
    ghost var t := db.State();
    FilledRecords(t, db.capacity, db.home);
    lines := SlotLines(db.keys[..], db.values[..], db.filled);
    SlotListing(t.keys, t.values, t.filled, t.slotOf, lines);
  }
}
