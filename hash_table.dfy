/** The open-addressing table `DB` of versions 06 to 09: the parallel arrays
    `keys_` and `values_` indexed by a 16-bit hash with linear probing, and the
    list `filled_` of the occupied slots in the order they were first used. */
module HashTable {
  import opened Bytes
  import opened Aggregation
  import opened RecordScanner
  import opened ValueParser
  import opened KeyOrder

  /** The number of values of the `uint16_t` probe index. */
  const SLOTS: nat := 65536

  /** The slot probed after `j` collisions starting from `h`: `++slot` on a `uint16_t`. */
  function ProbeAt(h: int, j: int): nat { (h + j) % SLOTS }

  /** The number of collisions it takes to get from `h` to slot `s`. */
  function Dist(h: int, s: int): nat { (s - h) % SLOTS }

  lemma ProbeDist(h: nat, s: nat)
    requires h < SLOTS && s < SLOTS
    ensures Dist(h, s) < SLOTS && ProbeAt(h, Dist(h, s)) == s
  {
    if s >= h {
      DivModUnique(s - h, SLOTS, 0, s - h);
    } else {
      DivModUnique(s - h, SLOTS, -1, s - h + SLOTS);
      DivModUnique(s + SLOTS, SLOTS, 1, s);
    }
  }

  lemma DistProbe(h: nat, j: nat)
    requires h < SLOTS && j < SLOTS
    ensures Dist(h, ProbeAt(h, j)) == j
  {
    if h + j < SLOTS {
      DivModUnique(h + j, SLOTS, 0, h + j);
    } else {
      DivModUnique(h + j, SLOTS, 1, h + j - SLOTS);
      DivModUnique(j - SLOTS, SLOTS, -1, j);
    }
  }

  lemma ProbeNext(h: int, j: int)
    ensures ProbeAt(h, j + 1) == UInt16(ProbeAt(h, j) + 1)
  {
    UInt16MulAdd(h + j, 1, 1);
  }

  /** The outcome of `lookup_slot`. `SlotOutOfRange`: the probe reached index
      65535 of a 65535-slot array, which the C++ code indexes out of bounds.
      `TableFull`: all 65536 probes failed, where the C++ loop runs forever. */
  datatype SlotResult = Slot(index: nat) | SlotOutOfRange | TableFull

  // ---------------------------------------------------------------------------
  // The table as a value

  /** The state of a `DB`: its keys, its records, `filled_`, and (for the
      proofs) the slot each stored key sits in. */
  datatype Table = Table(keys: seq<Key>, values: seq<Stats>, filled: seq<nat>, slotOf: map<Key, nat>)

  /** Every stored key is non-empty and sits in its slot. */
  predicate Indexed(ks: seq<Key>, slotOf: map<Key, nat>)
  {
    forall k :: k in slotOf ==> k != [] && slotOf[k] < |ks| && ks[slotOf[k]] == k
  }

  /** Every non-empty slot holds a stored key. */
  predicate Occupied(ks: seq<Key>, slotOf: map<Key, nat>)
  {
    forall s :: 0 <= s < |ks| && ks[s] != [] ==> ks[s] in slotOf && slotOf[ks[s]] == s
  }

  predicate Distinct<T(==)>(s: seq<T>)
  {
    forall i, j :: 0 <= i < j < |s| ==> s[i] != s[j]
  }

  /** `filled_` lists every occupied slot exactly once. */
  predicate FilledExact(ks: seq<Key>, filled: seq<nat>, slotOf: map<Key, nat>)
  {
    && (forall i :: 0 <= i < |filled| ==> filled[i] < |ks| && ks[filled[i]] != [])
    && Distinct(filled)
    && (forall k :: k in slotOf ==> slotOf[k] in filled)
    && |filled| == |slotOf|
  }

  /** The first `n` probes from `h` all hit occupied slots. */
  predicate PathOccupied(ks: seq<Key>, h: int, n: int)
  {
    forall j :: 0 <= j < n ==> ProbeAt(h, j) < |ks| && ks[ProbeAt(h, j)] != []
  }

  /** The first `n` probes from `h` all hit slots occupied by keys other than `name`. */
  predicate Probed(ks: seq<Key>, h: int, n: int, name: Key)
  {
    forall j :: 0 <= j < n ==> ProbeAt(h, j) < |ks| && ks[ProbeAt(h, j)] != [] && ks[ProbeAt(h, j)] != name
  }

  lemma ProbedSnoc(ks: seq<Key>, h: int, n: nat, name: Key)
    requires Probed(ks, h, n, name)
    requires ProbeAt(h, n) < |ks| && ks[ProbeAt(h, n)] != [] && ks[ProbeAt(h, n)] != name
    ensures Probed(ks, h, n + 1, name)
  {
  }

  /** Every slot between a key's hash and its slot is occupied: the reason a
      probe for a stored key never stops early. */
  predicate Chains(ks: seq<Key>, slotOf: map<Key, nat>, home: Key -> nat)
  {
    forall k, j :: k in slotOf && 0 <= j < Dist(home(k), slotOf[k]) ==>
      ProbeAt(home(k), j) < |ks| && ks[ProbeAt(home(k), j)] != []
  }

  predicate StatsWF(vs: seq<Stats>, slotOf: map<Key, nat>)
  {
    forall k :: k in slotOf ==> slotOf[k] < |vs| && WF(vs[slotOf[k]])
  }

  ghost predicate HomeInRange(home: Key -> nat)
  {
    forall k :: home(k) < SLOTS
  }

  ghost predicate ValidTable(t: Table, capacity: nat, home: Key -> nat)
  {
    && (capacity == SLOTS - 1 || capacity == SLOTS)
    && |t.keys| == capacity && |t.values| == capacity
    && HomeInRange(home)
    && Indexed(t.keys, t.slotOf) && Occupied(t.keys, t.slotOf) && FilledExact(t.keys, t.filled, t.slotOf)
    && Chains(t.keys, t.slotOf, home) && StatsWF(t.values, t.slotOf)
  }

  /** What the table holds: the record of every stored key. */
  function ContentsOf(vs: seq<Stats>, slotOf: map<Key, nat>): map<Key, Stats>
  {
    map k | k in slotOf && slotOf[k] < |vs| :: vs[slotOf[k]]
  }

  lemma ContentsWF(t: Table, capacity: nat, home: Key -> nat)
    requires ValidTable(t, capacity, home)
    ensures AllWF(ContentsOf(t.values, t.slotOf)) && ContentsOf(t.values, t.slotOf).Keys == t.slotOf.Keys
  {
  }

  /** What a miss may assume: an empty slot reached from the key's hash over
      occupied slots, for a key not yet stored. */
  ghost predicate MissPre(t: Table, capacity: nat, home: Key -> nat, slot: nat, name: Key)
  {
    && ValidTable(t, capacity, home) && name != [] && name !in t.slotOf
    && slot < capacity && t.keys[slot] == [] && PathOccupied(t.keys, home(name), Dist(home(name), slot))
  }

  lemma MissIndexed(t: Table, capacity: nat, home: Key -> nat, slot: nat, name: Key)
    requires MissPre(t, capacity, home, slot, name)
    ensures Indexed(t.keys[slot := name], t.slotOf[name := slot])
    ensures Occupied(t.keys[slot := name], t.slotOf[name := slot])
  {
  }

  lemma MissFilled(t: Table, capacity: nat, home: Key -> nat, slot: nat, name: Key)
    requires MissPre(t, capacity, home, slot, name)
    ensures FilledExact(t.keys[slot := name], t.filled + [slot], t.slotOf[name := slot])
  {
    assert slot !in t.filled;
  }

  lemma MissChains(t: Table, capacity: nat, home: Key -> nat, slot: nat, name: Key)
    requires MissPre(t, capacity, home, slot, name)
    ensures Chains(t.keys[slot := name], t.slotOf[name := slot], home)
  {
  }

  lemma MissStats(t: Table, capacity: nat, home: Key -> nat, slot: nat, name: Key, v: int)
    requires MissPre(t, capacity, home, slot, name)
    ensures StatsWF(t.values[slot := Single(v)], t.slotOf[name := slot])
  {
  }

  lemma MissContents(t: Table, capacity: nat, home: Key -> nat, slot: nat, name: Key, v: int)
    requires MissPre(t, capacity, home, slot, name)
    ensures ContentsOf(t.values[slot := Single(v)], t.slotOf[name := slot])
         == Insert(ContentsOf(t.values, t.slotOf), Reading(name, v))
  {
    InsertContents(t.keys, t.values, t.slotOf, slot, name, v);
  }

  /** Storing a new key in an empty slot adds exactly that key's record. */
  lemma InsertContents(ks: seq<Key>, vs: seq<Stats>, slotOf: map<Key, nat>, slot: nat, name: Key, v: int)
    requires Indexed(ks, slotOf) && |ks| == |vs| && slot < |ks| && ks[slot] == [] && name !in slotOf
    ensures ContentsOf(vs[slot := Single(v)], slotOf[name := slot]) == Insert(ContentsOf(vs, slotOf), Reading(name, v))
  {
    var before := ContentsOf(vs, slotOf);
    var after := ContentsOf(vs[slot := Single(v)], slotOf[name := slot]);
    assert after.Keys == before.Keys + {name};
    forall k | k in before ensures after[k] == before[k] {
      assert slotOf[k] != slot;
    }
  }

  /** A miss keeps the table valid and records the reading. */
  lemma MissValid(t: Table, capacity: nat, home: Key -> nat, slot: nat, name: Key, v: int)
    requires MissPre(t, capacity, home, slot, name)
    ensures ValidTable(Table(t.keys[slot := name], t.values[slot := Single(v)], t.filled + [slot], t.slotOf[name := slot]), capacity, home)
    ensures ContentsOf(t.values[slot := Single(v)], t.slotOf[name := slot])
         == Insert(ContentsOf(t.values, t.slotOf), Reading(name, v))
  {
    MissIndexed(t, capacity, home, slot, name);
    MissFilled(t, capacity, home, slot, name);
    MissChains(t, capacity, home, slot, name);
    MissStats(t, capacity, home, slot, name, v);
    MissContents(t, capacity, home, slot, name, v);
  }

  lemma HitStats(vs: seq<Stats>, slotOf: map<Key, nat>, name: Key, v: int)
    requires StatsWF(vs, slotOf) && name in slotOf
    ensures StatsWF(vs[slotOf[name] := Update(vs[slotOf[name]], v)], slotOf)
  {
  }

  /** A hit records the reading in the key's own record. */
  lemma HitContents(ks: seq<Key>, vs: seq<Stats>, slotOf: map<Key, nat>, name: Key, v: int)
    requires Indexed(ks, slotOf) && StatsWF(vs, slotOf) && name in slotOf
    ensures ContentsOf(vs[slotOf[name] := Update(vs[slotOf[name]], v)], slotOf)
         == Insert(ContentsOf(vs, slotOf), Reading(name, v))
  {
    var slot := slotOf[name];
    var before := ContentsOf(vs, slotOf);
    var after := ContentsOf(vs[slot := Update(vs[slot], v)], slotOf);
    assert after.Keys == before.Keys;
    forall k | k in before && k != name ensures after[k] == before[k] {
      assert ks[slotOf[k]] == k;
    }
  }

  /** The probe path of a stored key is occupied up to and including its slot. */
  lemma ChainReach(t: Table, capacity: nat, home: Key -> nat, name: Key, n: nat)
    requires ValidTable(t, capacity, home) && name in t.slotOf
    requires n <= Dist(home(name), t.slotOf[name])
    ensures ProbeAt(home(name), n) < |t.keys| && t.keys[ProbeAt(home(name), n)] != []
  {
    if n == Dist(home(name), t.slotOf[name]) {
      ProbeDist(home(name), t.slotOf[name]);
    }
  }

  /** 65536 failed probes visit every slot. */
  lemma ProbedAll(ks: seq<Key>, h: nat, name: Key)
    requires h < SLOTS && Probed(ks, h, SLOTS, name)
    ensures |ks| >= SLOTS
    ensures forall s :: 0 <= s < SLOTS ==> ks[s] != [] && ks[s] != name
  {
    ProbeDist(h, SLOTS - 1);
    forall s | 0 <= s < SLOTS ensures ks[s] != [] && ks[s] != name {
      ProbeDist(h, s);
    }
  }

  // ---------------------------------------------------------------------------
  // Counting

  lemma {:induction false} SubsetCard<T>(a: set<T>, b: set<T>)
    requires a <= b
    ensures |a| <= |b|
    decreases |a|
  {
    if a != {} {
      var x :| x in a;
      SubsetCard(a - {x}, b - {x});
    }
  }

  /** A table that has taken in the first `n` readings holds no key outside
      the start table and the readings, so it holds at most that many keys. */
  lemma StoppedKeys(c0: map<Key, Stats>, rs: seq<Reading>, n: nat, c: map<Key, Stats>)
    requires n <= |rs| && c == AggregateFrom(c0, rs[..n])
    ensures c.Keys <= c0.Keys + KeysOf(rs) && |c| <= |c0.Keys + KeysOf(rs)|
  {
    ProcessedKeys(c0, rs, n);
    SubsetCard(c.Keys, c0.Keys + KeysOf(rs));
  }

  /** A table that has taken in all the readings is their aggregate. */
  lemma ScanComplete(c0: map<Key, Stats>, rs: seq<Reading>, n: nat, c: map<Key, Stats>)
    requires n == |rs| && c == AggregateFrom(c0, rs[..n])
    ensures c == AggregateFrom(c0, rs)
  {
    assert rs[..n] == rs;
  }

  /** A non-empty list of values below `n` makes `n` positive. */
  lemma NonEmptyBound(s: seq<nat>, n: nat)
    requires forall i :: 0 <= i < |s| ==> s[i] < n
    ensures |s| > 0 ==> n > 0
  {
    if |s| > 0 {
      assert s[0] < n;
    }
  }

  /** A list of distinct values that covers `0..n-1` and nothing else has length `n`. */
  lemma {:induction false} DistinctCover(s: seq<nat>, n: nat)
    requires Distinct(s)
    requires forall i :: 0 <= i < |s| ==> s[i] < n
    requires forall x :: 0 <= x < n ==> x in s
    ensures |s| == n
  {
    if n == 0 {
      NonEmptyBound(s, n);
    } else {
      assert n - 1 in s;
      var i :| 0 <= i < |s| && s[i] == n - 1;
      var s' := s[..i] + s[i + 1..];
      assert forall a :: 0 <= a < |s'| ==> s'[a] == if a < i then s[a] else s[a + 1];
      forall x | 0 <= x < n - 1 ensures x in s' {
        assert x in s;
        var a :| 0 <= a < |s| && s[a] == x;
        assert a != i;
        if a < i {
          assert s'[a] == x;
        } else {
          assert s'[a - 1] == x;
        }
      }
      DistinctCover(s', n - 1);
    }
  }

  /** A table whose every slot is occupied holds as many keys as it has slots. */
  lemma FullTableSize(t: Table, capacity: nat, home: Key -> nat)
    requires ValidTable(t, capacity, home)
    requires forall s :: 0 <= s < capacity ==> t.keys[s] != []
    ensures |ContentsOf(t.values, t.slotOf)| == capacity
  {
    forall x | 0 <= x < capacity ensures x in t.filled {
      assert t.keys[x] in t.slotOf;
    }
    DistinctCover(t.filled, capacity);
    ContentsWF(t, capacity, home);
  }

  /** The empty string marks an empty slot, so station names must not be empty. */
  predicate NamesNonEmpty(rows: seq<Row>)
  {
    forall i :: 0 <= i < |rows| ==> rows[i].key != []
  }

  /** A list of distinct slots stays distinct under permutation. */
  lemma {:induction false} DistinctCount<T>(a: seq<T>, x: T)
    requires Distinct(a)
    ensures multiset(a)[x] <= 1
  {
    if a != [] {
      assert a == [a[0]] + a[1..];
      DistinctCount(a[1..], x);
      if a[0] == x {
        assert x !in a[1..];
      }
    }
  }

  lemma PermutationDistinct<T>(a: seq<T>, b: seq<T>)
    requires multiset(a) == multiset(b) && Distinct(a)
    ensures Distinct(b)
  {
    forall i, j | 0 <= i < j < |b| ensures b[i] != b[j] {
      if b[i] == b[j] {
        assert b == b[..j] + [b[j]] + b[j + 1..];
        assert b[i] in b[..j];
        assert multiset(b)[b[i]] >= 2;
        DistinctCount(a, b[i]);
      }
    }
  }

  /** The key in a slot, for ordering slots by key. */
  function SlotKey(ks: seq<Key>): nat -> Key
  {
    (s: nat) => if s < |ks| then ks[s] else []
  }

  /** Any permutation of `filled_` lists the occupied slots as well. */
  lemma PermutedFilled(ks: seq<Key>, filled: seq<nat>, filled': seq<nat>, slotOf: map<Key, nat>)
    requires FilledExact(ks, filled, slotOf) && multiset(filled') == multiset(filled)
    ensures FilledExact(ks, filled', slotOf)
  {
    PermutationDistinct(filled, filled');
    forall i | 0 <= i < |filled'| ensures filled'[i] < |ks| && ks[filled'[i]] != [] {
      assert filled'[i] in multiset(filled);
    }
    forall k | k in slotOf ensures slotOf[k] in filled' {
      assert slotOf[k] in multiset(filled');
    }
    assert |filled'| == |multiset(filled')|;
  }

  /** Occupied slots hold pairwise different keys, so sorting them by key is strict. */
  lemma SortedSlotsStrict(t: Table, capacity: nat, home: Key -> nat)
    requires ValidTable(t, capacity, home)
    ensures StrictlySortedBy(SortBy(t.filled, SlotKey(t.keys)), SlotKey(t.keys))
  {
    var f := SlotKey(t.keys);
    var sorted := SortBy(t.filled, f);
    PermutedFilled(t.keys, t.filled, sorted, t.slotOf);
    SortBySorted(t.filled, f);
    forall i, j | 0 <= i < j < |sorted| ensures f(sorted[i]) != f(sorted[j]) {
      assert t.keys[sorted[i]] in t.slotOf && t.keys[sorted[j]] in t.slotOf;
    }
    SortedDistinctIsStrict(sorted, f);
  }

  /** The records in the slots `f`, read in that order: what the shard merge
      loop sees of one table. */
  function FilledMap(ks: seq<Key>, vs: seq<Stats>, f: seq<nat>): map<Key, Stats>
    requires forall i :: 0 <= i < |f| ==> f[i] < |ks| && f[i] < |vs|
  {
    if f == [] then map[] else FilledMap(ks, vs, f[..|f| - 1])[ks[f[|f| - 1]] := vs[f[|f| - 1]]]
  }

  /** The records of the stored keys whose slots are among `filled[..n]`. */
  function PrefixContents(vs: seq<Stats>, filled: seq<nat>, slotOf: map<Key, nat>, n: nat): map<Key, Stats>
    requires n <= |filled|
  {
    map k | k in slotOf && slotOf[k] in filled[..n] && slotOf[k] < |vs| :: vs[slotOf[k]]
  }

  /** The slots listed in `filled_` hold stored keys, within both arrays. */
  predicate FilledIn(ks: seq<Key>, vs: seq<Stats>, filled: seq<nat>, slotOf: map<Key, nat>)
  {
    && |ks| == |vs| && Occupied(ks, slotOf) && Indexed(ks, slotOf)
    && forall i :: 0 <= i < |filled| ==> filled[i] < |ks| && ks[filled[i]] != []
  }

  /** The first `n` entries of `filled_` hold exactly the keys whose slots they
      list, with their records. */
  lemma {:induction false} FilledMapPrefix(ks: seq<Key>, vs: seq<Stats>, filled: seq<nat>, slotOf: map<Key, nat>, n: nat)
    requires FilledIn(ks, vs, filled, slotOf) && n <= |filled|
    ensures FilledMap(ks, vs, filled[..n]) == PrefixContents(vs, filled, slotOf, n)
  {
    if n > 0 {
      FilledMapPrefix(ks, vs, filled, slotOf, n - 1);
      FilledMapSnoc(ks, vs, filled, slotOf, n);
    }
  }

  lemma FilledMapSnoc(ks: seq<Key>, vs: seq<Stats>, filled: seq<nat>, slotOf: map<Key, nat>, n: nat)
    requires FilledIn(ks, vs, filled, slotOf) && 0 < n <= |filled|
    requires FilledMap(ks, vs, filled[..n - 1]) == PrefixContents(vs, filled, slotOf, n - 1)
    ensures FilledMap(ks, vs, filled[..n]) == PrefixContents(vs, filled, slotOf, n)
  {
    assert filled[..n][..n - 1] == filled[..n - 1];
    assert filled[..n] == filled[..n - 1] + [filled[n - 1]];
    var key := ks[filled[n - 1]];
    assert key in slotOf && slotOf[key] == filled[n - 1];
  }

  /** The next slot of `filled_` holds a key not read yet. */
  lemma FilledMapFresh(t: Table, capacity: nat, home: Key -> nat, n: nat)
    requires ValidTable(t, capacity, home) && n < |t.filled|
    ensures t.keys[t.filled[n]] !in FilledMap(t.keys, t.values, t.filled[..n])
    ensures FilledMap(t.keys, t.values, t.filled[..n + 1])
         == FilledMap(t.keys, t.values, t.filled[..n])[t.keys[t.filled[n]] := t.values[t.filled[n]]]
  {
    FilledMapPrefix(t.keys, t.values, t.filled, t.slotOf, n);
    var key := t.keys[t.filled[n]];
    forall j | 0 <= j < n ensures t.filled[..n][j] != t.slotOf[key] {
      assert t.filled[j] != t.filled[n];
    }
    assert t.filled[..n + 1][..n] == t.filled[..n];
  }

  /** Reading all of `filled_` yields the table's contents. */
  lemma FilledMapContents(t: Table, capacity: nat, home: Key -> nat)
    requires ValidTable(t, capacity, home)
    ensures FilledMap(t.keys, t.values, t.filled) == ContentsOf(t.values, t.slotOf)
  {
    FilledMapPrefix(t.keys, t.values, t.filled, t.slotOf, |t.filled|);
    assert t.filled[..|t.filled|] == t.filled;
  }

  // ---------------------------------------------------------------------------
  // The table object

  class DB {
    /** 65535 (`UINT16_MAX`: versions 06, 08, 09) or 65536 (`UINT16_MAX + 1`: version 07). */
    const capacity: nat
    /** The 16-bit probe start of a key: the rolling hash (07 to 09) or the
        truncated library hash (06). */
    const home: Key -> nat
    const keys: array<Key>
    const values: array<Stats>
    var filled: seq<nat>
    /** The slot of every stored key. */
    ghost var slotOf: map<Key, nat>

    ghost function State(): Table
      reads this, keys, values
    {
      Table(keys[..], values[..], filled, slotOf)
    }

    ghost predicate Valid()
      reads this, keys, values
    {
      ValidTable(State(), capacity, home)
    }

    /** The record of every station the table holds. */
    ghost function Contents(): map<Key, Stats>
      reads this, keys, values
    {
      ContentsOf(values[..], slotOf)
    }

    /** `DB() : keys_{}, values_{}, filled_{}`: all slots empty. */
    constructor (capacity: nat, home: Key -> nat)
      requires capacity == SLOTS - 1 || capacity == SLOTS
      requires HomeInRange(home)
      ensures Valid() && this.capacity == capacity && this.home == home
      ensures Contents() == map[] && filled == []
      ensures fresh(keys) && fresh(values)
    {
      this.capacity := capacity;
      this.home := home;
      keys := new Key[capacity](_ => []);
      values := new Stats[capacity](_ => Stats(0, 0, 0, 0));
      filled := [];
      slotOf := map[];
    }

    /** `lookup_slot`: probe from `hash`, wrapping at 2^16, for the first slot
        that is empty or holds `name`. The table is not changed. */
    method LookupSlot(name: Key, hash: nat) returns (r: SlotResult)
      requires Valid() && hash < SLOTS
      ensures r.Slot? ==> r.index < capacity && (keys[r.index] == [] || keys[r.index] == name)
      ensures r.Slot? ==> Probed(keys[..], hash, Dist(hash, r.index), name)
      ensures r == SlotOutOfRange ==> capacity == SLOTS - 1 && Probed(keys[..], hash, Dist(hash, SLOTS - 1), name)
      ensures r == TableFull ==> capacity == SLOTS && Probed(keys[..], hash, SLOTS, name)
      ensures name in slotOf && hash == home(name) ==> r == Slot(slotOf[name])
    {
      var slot := hash;
      var probes := 0;
      while probes < SLOTS
        invariant probes <= SLOTS && slot == ProbeAt(hash, probes)
        invariant Probed(keys[..], hash, probes, name)
        invariant name in slotOf && hash == home(name) ==> probes <= Dist(hash, slotOf[name])
      {
        if slot >= capacity {
          DistProbe(hash, probes);
          if name in slotOf && hash == home(name) {
            ChainReach(State(), capacity, home, name, probes);
          }
          return SlotOutOfRange;
        }
        if keys[slot] == [] || keys[slot] == name {
          DistProbe(hash, probes);
          if name in slotOf && hash == home(name) && keys[slot] == [] {
            ChainReach(State(), capacity, home, name, probes);
          }
          return Slot(slot);
        }
        if name in slotOf && hash == home(name) {
          ProbeDist(hash, slotOf[name]);
        }
        ProbedSnoc(keys[..], hash, probes, name);
        ProbeNext(hash, probes);
        slot := UInt16(slot + 1);
        probes := probes + 1;
      }
      ProbeDist(hash, SLOTS - 1);
      return TableFull;
    }

    /** `record`: on a miss store the key, `{1, v, v, v}` and append the slot
        to `filled_`; on a hit update the record with the exclusive `< min` /
        `> max` branches. Either way the table then holds `Insert` of the reading. */
    method Record(m: Measurement) returns (r: SlotResult)
      requires Valid() && m.name != [] && m.hash == home(m.name)
      modifies this, keys, values
      ensures Valid()
      ensures r.Slot? ==> r.index < capacity && Probed(old(keys[..]), m.hash, Dist(m.hash, r.index), m.name)
      ensures r.Slot? ==> Contents() == Insert(old(Contents()), Reading(m.name, m.value))
      ensures r.Slot? && m.name !in old(Contents()) ==>
        && filled == old(filled) + [r.index]
        && keys[..] == old(keys[..])[r.index := m.name]
        && values[..] == old(values[..])[r.index := Single(m.value)]
      ensures r.Slot? && m.name in old(Contents()) ==>
        && r.index == old(slotOf[m.name]) && filled == old(filled) && keys[..] == old(keys[..])
        && values[..] == old(values[..])[r.index := Update(old(values[r.index]), m.value)]
      ensures !r.Slot? ==>
        filled == old(filled) && keys[..] == old(keys[..]) && values[..] == old(values[..]) && slotOf == old(slotOf)
      ensures r == SlotOutOfRange ==> capacity == SLOTS - 1 && Probed(old(keys[..]), m.hash, Dist(m.hash, SLOTS - 1), m.name)
      ensures r == TableFull ==> capacity == SLOTS && m.name !in Contents() && |Contents()| == SLOTS
    {
      r := LookupSlot(m.name, m.hash);
      ghost var t := State();
      if r == TableFull {
        ProbedAll(keys[..], m.hash, m.name);
        FullTableSize(t, capacity, home);
        return;
      }
      if !r.Slot? {
        return;
      }
      if keys[r.index] == [] {
        StoreNew(r.index, m);
      } else {
        UpdateSlot(r.index, m);
      }
    }

    /** The miss branch of `record`: `filled_.push_back(slot)`, store the key
        and `Record{1, v, v, v}`. */
    method StoreNew(slot: nat, m: Measurement)
      requires Valid() && m.name != [] && m.name !in slotOf
      requires slot < capacity && keys[slot] == [] && PathOccupied(keys[..], home(m.name), Dist(home(m.name), slot))
      modifies this, keys, values
      ensures Valid() && Contents() == Insert(old(Contents()), Reading(m.name, m.value))
      ensures filled == old(filled) + [slot] && slotOf == old(slotOf)[m.name := slot]
      ensures keys[..] == old(keys[..])[slot := m.name] && values[..] == old(values[..])[slot := Single(m.value)]
    {
      ghost var t := State();
      MissValid(t, capacity, home, slot, m.name, m.value);
      filled := filled + [slot];
      keys[slot] := m.name;
      values[slot] := Single(m.value);
      slotOf := slotOf[m.name := slot];
      assert keys[..] == t.keys[slot := m.name] && values[..] == t.values[slot := Single(m.value)];
      assert State() == Table(t.keys[slot := m.name], t.values[slot := Single(m.value)], t.filled + [slot], t.slotOf[m.name := slot]);
    }

    /** The hit branch of `record`: `if (v < min) min = v; else if (v > max)
        max = v; sum += v; ++cnt;` on the key's own slot. */
    method UpdateSlot(slot: nat, m: Measurement)
      requires Valid() && m.name in slotOf && slot == slotOf[m.name]
      modifies values
      ensures Valid() && Contents() == Insert(old(Contents()), Reading(m.name, m.value))
      ensures slot < values.Length && values[..] == old(values[..])[slot := Update(old(values[slot]), m.value)]
    {
      ghost var t := State();
      HitStats(t.values, t.slotOf, m.name, m.value);
      HitContents(t.keys, t.values, t.slotOf, m.name, m.value);
      var s := values[slot];
      if m.value < s.min {
        s := s.(min := m.value);
      } else if m.value > s.max {
        s := s.(max := m.value);
      }
      s := s.(sum := s.sum + m.value, cnt := s.cnt + 1);
      assert s == Update(t.values[slot], m.value);
      values[slot] := s;
      assert values[..] == t.values[slot := Update(t.values[slot], m.value)];
      assert State() == t.(values := t.values[slot := Update(t.values[slot], m.value)]);
    }

    /** The 06 `record(station, value)`: `lookup_slot` hashes the name itself. */
    method RecordStation(station: Key, value: int) returns (r: SlotResult)
      requires Valid() && station != []
      modifies this, keys, values
      ensures Valid()
      ensures r.Slot? ==> Contents() == Insert(old(Contents()), Reading(station, value))
      ensures !r.Slot? ==> filled == old(filled) && keys[..] == old(keys[..]) && values[..] == old(values[..]) && slotOf == old(slotOf)
      ensures r == SlotOutOfRange ==> capacity == SLOTS - 1 && Probed(old(keys[..]), home(station), Dist(home(station), SLOTS - 1), station)
      ensures r == TableFull ==> capacity == SLOTS && |Contents()| == SLOTS
    {
      r := Record(Measurement(station, home(station), value));
    }

    /** One iteration of the `process_input` loop of versions 07 to 09:
        `parse` the record at `iter`, then `record` it. */
    method ParseAndRecord(data: seq<byte>, iter: nat) returns (r: SlotResult, next: nat)
      requires Valid() && HasRecord(data, iter) && RowAt(data, iter).key != []
      requires home == RollingHash
      modifies this, keys, values
      ensures Valid() && next == RecordEnd(data, iter)
      ensures r.Slot? ==> Contents() == Insert(old(Contents()), Reading(RowAt(data, iter).key, TableValue(RowAt(data, iter).token)))
      ensures !r.Slot? ==> Contents() == old(Contents()) && (capacity == SLOTS ==> |Contents()| == SLOTS)
    {
      var m;
      m, next := Parse(data, iter);
      r := Record(m);
    }

    /** One iteration of the `process_input` loop of version 06. */
    method ParseAndRecordStation(data: seq<byte>, iter: nat) returns (r: SlotResult, next: nat)
      requires Valid() && HasRecord(data, iter) && RowAt(data, iter).key != []
      modifies this, keys, values
      ensures Valid() && next == RecordEnd(data, iter)
      ensures r.Slot? ==> Contents() == Insert(old(Contents()), Reading(RowAt(data, iter).key, BranchValue(RowAt(data, iter).token)))
      ensures !r.Slot? ==> Contents() == old(Contents()) && (capacity == SLOTS ==> |Contents()| == SLOTS)
    {
      var station, after := ParseStation(data, iter);
      var value;
      value, next := ParseValue(data, after);
      StationValueIsRow(data, iter, station, after, value, next);
      r := RecordStation(station, value);
    }

    /** `ParseAndRecord` on the `n`-th of `rows`, the records of `data[iter..hi]`
        onwards: on success the table has taken in the first `n + 1` readings. */
    method TableRow(data: seq<byte>, iter: nat, hi: nat, ghost c0: map<Key, Stats>, ghost rows: seq<Row>, ghost n: nat)
      returns (r: SlotResult, next: nat)
      requires Valid() && iter < hi <= |data| && WellFormed(data, iter, hi)
      requires n <= |rows| && Rows(data, iter, hi) == rows[n..] && NamesNonEmpty(rows)
      requires home == RollingHash
      requires Contents() == AggregateFrom(c0, Readings(rows, TableValue)[..n])
      modifies this, keys, values
      ensures Valid() && iter < next <= hi && WellFormed(data, next, hi)
      ensures n < |rows| && Rows(data, next, hi) == rows[n + 1..]
      ensures r.Slot? ==> Contents() == AggregateFrom(c0, Readings(rows, TableValue)[..n + 1])
      ensures !r.Slot? ==> Contents() == old(Contents()) && (capacity == SLOTS ==> |Contents()| == SLOTS)
    {
      RowsStep(data, iter, hi, rows, n);
      ghost var before := Contents();
      r, next := ParseAndRecord(data, iter);
      if r.Slot? {
        ProcessStep(c0, rows, TableValue, Readings(rows, TableValue), n, before, Contents(), RowAt(data, iter));
      }
    }

    /** `ParseAndRecordStation` on the `n`-th of `rows`, as `TableRow`. */
    method StationRow(data: seq<byte>, iter: nat, hi: nat, ghost c0: map<Key, Stats>, ghost rows: seq<Row>, ghost n: nat)
      returns (r: SlotResult, next: nat)
      requires Valid() && iter < hi <= |data| && WellFormed(data, iter, hi)
      requires n <= |rows| && Rows(data, iter, hi) == rows[n..] && NamesNonEmpty(rows)
      requires Contents() == AggregateFrom(c0, Readings(rows, BranchValue)[..n])
      modifies this, keys, values
      ensures Valid() && iter < next <= hi && WellFormed(data, next, hi)
      ensures n < |rows| && Rows(data, next, hi) == rows[n + 1..]
      ensures r.Slot? ==> Contents() == AggregateFrom(c0, Readings(rows, BranchValue)[..n + 1])
      ensures !r.Slot? ==> Contents() == old(Contents()) && (capacity == SLOTS ==> |Contents()| == SLOTS)
    {
      RowsStep(data, iter, hi, rows, n);
      ghost var before := Contents();
      r, next := ParseAndRecordStation(data, iter);
      if r.Slot? {
        ProcessStep(c0, rows, BranchValue, Readings(rows, BranchValue), n, before, Contents(), RowAt(data, iter));
      }
    }

    /** `process_input` of versions 07 to 09 (09 takes the table by reference,
        07 and 08 start from a fresh one): `parse` and `record` every record of
        `data[lo..hi]`. `ok` is false when a `record` failed; the table then
        holds the records before that one. */
    method ProcessInput(data: seq<byte>, lo: nat, hi: nat) returns (ok: bool)
      requires Valid() && lo <= hi <= |data| && WellFormed(data, lo, hi)
      requires NamesNonEmpty(Rows(data, lo, hi)) && home == RollingHash
      modifies this, keys, values
      ensures Valid()
      ensures ok ==> Contents() == AggregateFrom(old(Contents()), Readings(Rows(data, lo, hi), TableValue))
      ensures !ok && capacity == SLOTS ==> |Contents()| == SLOTS
      ensures Contents().Keys <= old(Contents()).Keys + KeysOf(Readings(Rows(data, lo, hi), TableValue))
      ensures capacity == SLOTS && |old(Contents()).Keys + KeysOf(Readings(Rows(data, lo, hi), TableValue))| < SLOTS ==> ok
    {
      ghost var rows := Rows(data, lo, hi);
      ghost var c0 := Contents();
      ghost var rs := Readings(rows, TableValue);
      ghost var n: nat := 0;
      var iter := lo;
      while iter != hi
        invariant lo <= iter <= hi && WellFormed(data, iter, hi)
        invariant n <= |rows| && Rows(data, iter, hi) == rows[n..]
        invariant Valid()
        invariant |rs| == |rows| && Contents() == AggregateFrom(c0, rs[..n])
        decreases hi - iter
      {
        var r, next := TableRow(data, iter, hi, c0, rows, n);
        if !r.Slot? {
          StoppedKeys(c0, rs, n, Contents());
          return false;
        }
        iter, n := next, n + 1;
      }
      ScanComplete(c0, rs, n, Contents());
      StoppedKeys(c0, rs, n, Contents());
      ok := true;
    }

    /** `process_input` of version 06: `parse_station`, `parse_value` and
        `record(station, value)` for every record of `data[lo..hi]`. */
    method ProcessStations(data: seq<byte>, lo: nat, hi: nat) returns (ok: bool)
      requires Valid() && lo <= hi <= |data| && WellFormed(data, lo, hi)
      requires NamesNonEmpty(Rows(data, lo, hi))
      modifies this, keys, values
      ensures Valid()
      ensures ok ==> Contents() == AggregateFrom(old(Contents()), Readings(Rows(data, lo, hi), BranchValue))
      ensures !ok && capacity == SLOTS ==> |Contents()| == SLOTS
      ensures Contents().Keys <= old(Contents()).Keys + KeysOf(Readings(Rows(data, lo, hi), BranchValue))
      ensures capacity == SLOTS && |old(Contents()).Keys + KeysOf(Readings(Rows(data, lo, hi), BranchValue))| < SLOTS ==> ok
    {
      ghost var rows := Rows(data, lo, hi);
      ghost var c0 := Contents();
      ghost var rs := Readings(rows, BranchValue);
      ghost var n: nat := 0;
      var iter := lo;
      while iter != hi
        invariant lo <= iter <= hi && WellFormed(data, iter, hi)
        invariant n <= |rows| && Rows(data, iter, hi) == rows[n..]
        invariant Valid()
        invariant |rs| == |rows| && Contents() == AggregateFrom(c0, rs[..n])
        decreases hi - iter
      {
        var r, next := StationRow(data, iter, hi, c0, rows, n);
        if !r.Slot? {
          StoppedKeys(c0, rs, n, Contents());
          assert capacity == SLOTS ==> |c0.Keys + KeysOf(rs)| >= SLOTS;
          return false;
        }
        iter, n := next, n + 1;
      }
      ScanComplete(c0, rs, n, Contents());
      StoppedKeys(c0, rs, n, Contents());
      ok := true;
    }

    /** `sort_slots`: order `filled_` by the keys in its slots. */
    method SortSlots()
      requires Valid()
      modifies this
      ensures Valid() && slotOf == old(slotOf) && Contents() == old(Contents())
      ensures multiset(filled) == multiset(old(filled))
      ensures forall i, j :: 0 <= i < j < |filled| ==> Less(keys[filled[i]], keys[filled[j]])
    {
      ghost var t := State();
      SortedSlotsValid(t, capacity, home);
      filled := SortBy(filled, SlotKey(keys[..]));
      assert State() == t.(filled := SortBy(t.filled, SlotKey(t.keys)));
    }
  }

  /** Sorting `filled_` keeps the table valid and orders the slots strictly by key. */
  lemma SortedSlotsValid(t: Table, capacity: nat, home: Key -> nat)
    requires ValidTable(t, capacity, home)
    ensures ValidTable(t.(filled := SortBy(t.filled, SlotKey(t.keys))), capacity, home)
    ensures forall i, j :: 0 <= i < j < |SortBy(t.filled, SlotKey(t.keys))| ==>
      Less(t.keys[SortBy(t.filled, SlotKey(t.keys))[i]], t.keys[SortBy(t.filled, SlotKey(t.keys))[j]])
  {
    var sorted := SortBy(t.filled, SlotKey(t.keys));
    PermutedFilled(t.keys, t.filled, sorted, t.slotOf);
    SortedSlotsStrict(t, capacity, home);
    forall i, j | 0 <= i < j < |sorted| ensures Less(t.keys[sorted[i]], t.keys[sorted[j]]) {
      assert SlotKey(t.keys)(sorted[i]) == t.keys[sorted[i]];
      assert SlotKey(t.keys)(sorted[j]) == t.keys[sorted[j]];
    }
  }

  /** `0xFF` is the signed `char` -1, so the one-byte name hashes to 65535. */
  lemma LastSlotHash()
    ensures RollingHash([255]) == SLOTS - 1
  {
    assert [255][..0] == [];
  }

  /** In an empty table the probe from slot 65535 stops at its first slot,
      whatever the array size. */
  lemma EmptyProbeFromLast(t: Table, capacity: nat, home: Key -> nat)
    requires ValidTable(t, capacity, home) && ContentsOf(t.values, t.slotOf) == map[]
    ensures ProbeAt(SLOTS - 1, 0) == SLOTS - 1
    ensures SLOTS - 1 < |t.keys| ==> t.keys[SLOTS - 1] == []
    ensures forall idx {:trigger Dist(SLOTS - 1, idx)} :: 0 <= idx < SLOTS - 1 ==> Dist(SLOTS - 1, idx) > 0
  {
    ContentsWF(t, capacity, home);
  }

  /** Version 09 with its 65535-slot arrays: the one-byte station name `0xFF`
      hashes to 65535, so the first `record` of it reaches past the end. */
  method LastSlotOverflows() returns (r: SlotResult)
    ensures r == SlotOutOfRange
  {
    var db := new DB(SLOTS - 1, RollingHash);
    var name: Key := [255];
    LastSlotHash();
    EmptyProbeFromLast(db.State(), db.capacity, db.home);
    r := db.Record(Measurement(name, RollingHash(name), 10));
  }

  /** With 65536 slots (version 07) the same record lands in slot 65535. */
  method LastSlotFits() returns (r: SlotResult)
    ensures r == Slot(SLOTS - 1)
  {
    var db := new DB(SLOTS, RollingHash);
    var name: Key := [255];
    LastSlotHash();
    EmptyProbeFromLast(db.State(), db.capacity, db.home);
    r := db.Record(Measurement(name, RollingHash(name), 10));
  }
}
