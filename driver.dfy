/** `process_parallel` of versions 08 and 09, run sequentially: one table per
    shard, every chunk processed into one of them, then the shard merge into a
    single map from station name to record. */
module Driver {
  import opened Bytes
  import opened Aggregation
  import opened ValueParser
  import opened RecordScanner
  import opened HashTable
  import opened Chunks

  // ---------------------------------------------------------------------------
  // The shard merge

  /** Every slot of `f` brings a key that the slots before it did not. */
  ghost predicate FreshAlong(ks: seq<Key>, vs: seq<Stats>, f: seq<nat>)
    requires forall n :: 0 <= n < |f| ==> f[n] < |ks| && f[n] < |vs|
  {
    forall n :: 0 <= n < |f| ==> ks[f[n]] !in FilledMap(ks, vs, f[..n])
  }

  lemma ValidFreshAlong(t: Table, capacity: nat, home: Key -> nat)
    requires ValidTable(t, capacity, home)
    ensures FreshAlong(t.keys, t.values, t.filled)
  {
    forall n | 0 <= n < |t.filled| ensures t.keys[t.filled[n]] !in FilledMap(t.keys, t.values, t.filled[..n]) {
      FilledMapFresh(t, capacity, home, n);
    }
  }

  /** The inner merge loop over the slots in `filled`: insert the slot's record
      under its key, or combine it with the record found there. */
  method MergeSlots(merged: map<Key, Stats>, keys: array<Key>, values: array<Stats>, filled: seq<nat>)
    returns (r: map<Key, Stats>)
    requires forall n :: 0 <= n < |filled| ==> filled[n] < keys.Length && filled[n] < values.Length
    requires FreshAlong(keys[..], values[..], filled)
    ensures r == MergeMaps(merged, FilledMap(keys[..], values[..], filled))
  {
    r := merged;
    MergeMapsEmpty(merged);
    var k := 0;
    while k < |filled|
      invariant k <= |filled|
      invariant r == MergeMaps(merged, FilledMap(keys[..], values[..], filled[..k]))
    {
      var idx := filled[k];
      var key := keys[idx];
      var rec := values[idx];
      assert filled[..k + 1][..k] == filled[..k];
      MergeEntryStep(merged, FilledMap(keys[..], values[..], filled[..k]), key, rec);
      if key !in r {
        r := r[key := rec];
      } else {
        var cur := r[key];
        r := r[key := cur.(cnt := cur.cnt + rec.cnt, sum := cur.sum + rec.sum,
                           max := Max(cur.max, rec.max), min := Min(cur.min, rec.min))];
      }
      k := k + 1;
    }
    assert filled[..k] == filled;
  }

  /** One shard's part of the merge: the merge of its contents into `merged`. */
  method MergeShard(merged: map<Key, Stats>, db: DB) returns (r: map<Key, Stats>)
    requires db.Valid()
    ensures r == MergeMaps(merged, db.Contents())
  {
    ValidFreshAlong(db.State(), db.capacity, db.home);
    r := MergeSlots(merged, db.keys, db.values, db.filled);
    FilledMapContents(db.State(), db.capacity, db.home);
  }

  /** The outer merge loop over the shards, in order: the merge of their contents. */
  method MergeShards(dbs: seq<DB>, ghost tables: seq<map<Key, Stats>>) returns (merged: map<Key, Stats>)
    requires ShardsHold(dbs, tables)
    ensures merged == MergeAll(tables)
  {
    merged := map[];
    var i := 0;
    while i < |dbs|
      invariant i <= |dbs| && merged == MergeAll(tables[..i])
    {
      assert tables[..i + 1][..i] == tables[..i];
      merged := MergeShard(merged, dbs[i]);
      i := i + 1;
    }
    assert tables[..i] == tables;
  }

  // ---------------------------------------------------------------------------
  // Facts about one chunk

  /** Every object of the shard tables. */
  function Footprint(dbs: seq<DB>): set<object>
  {
    (set i | 0 <= i < |dbs| :: dbs[i] as object) + (set i | 0 <= i < |dbs| :: dbs[i].keys as object)
      + (set i | 0 <= i < |dbs| :: dbs[i].values as object)
  }

  /** Every shard table is valid, probes from the rolling hash and holds its
      entry of `tables`. */
  ghost predicate ShardsHold(dbs: seq<DB>, tables: seq<map<Key, Stats>>)
    reads Footprint(dbs)
  {
    && |tables| == |dbs|
    && (forall i :: 0 <= i < |dbs| ==> dbs[i].Valid() && dbs[i].Contents() == tables[i] && AllWF(tables[i]))
    && (forall i :: 0 <= i < |dbs| ==> dbs[i].home == RollingHash)
  }

  lemma SpreadWhole(chunks: seq<seq<Reading>>, j: nat, workers: nat, assign: nat -> nat)
    requires j == |chunks| && workers > 0
    ensures Spread(chunks[..j], workers, assign) == Spread(chunks, workers, assign)
  {
    assert chunks[..j] == chunks;
  }

  lemma PrefixSnoc<T>(s: seq<T>, i: nat)
    requires i < |s|
    ensures s[..i + 1] == s[..i] + [s[i]]
  {
  }

  lemma ShardsSnoc(dbs: seq<DB>, tables: seq<map<Key, Stats>>, db: DB, c: map<Key, Stats>)
    requires ShardsHold(dbs, tables) && db.Valid() && db.Contents() == c && AllWF(c) && db.home == RollingHash
    ensures ShardsHold(dbs + [db], tables + [c])
  {
  }

  lemma CutAt(data: seq<byte>, k: nat, hi: nat)
    requires k <= hi <= |data| && WellFormed(data, 0, hi) && Boundary(data, k)
    ensures WellFormed(data, 0, k) && WellFormed(data, k, hi)
    ensures Rows(data, 0, hi) == Rows(data, 0, k) + Rows(data, k, hi)
  {
    if 0 < k == |data| {
      WellFormedEndsWithNewline(data, 0, hi);
    }
    RowsSplit(data, 0, k, hi);
  }

  lemma NamesInside(a: seq<Row>, b: seq<Row>, c: seq<Row>)
    requires NamesNonEmpty(a + b + c)
    ensures NamesNonEmpty(b)
  {
    forall i | 0 <= i < |b| ensures b[i].key != [] {
      assert b[i] == (a + b + c)[|a| + i];
    }
  }

  /** A chunk between two record boundaries of a well-formed buffer: its
      records follow those before it, and its keys are among the buffer's. */
  lemma SpanFacts(data: seq<byte>, lo: nat, hi: nat)
    requires lo <= hi && Boundary(data, lo) && Boundary(data, hi) && WellFormed(data, 0, |data|)
    ensures WellFormed(data, 0, lo) && WellFormed(data, lo, hi) && WellFormed(data, 0, hi)
    ensures Readings(Rows(data, 0, hi), TableValue) == Readings(Rows(data, 0, lo), TableValue) + Readings(Rows(data, lo, hi), TableValue)
    ensures NamesNonEmpty(Rows(data, 0, |data|)) ==> NamesNonEmpty(Rows(data, lo, hi))
    ensures KeysOf(Readings(Rows(data, 0, lo), TableValue)) <= KeysOf(Readings(Rows(data, 0, |data|), TableValue))
    ensures KeysOf(Readings(Rows(data, lo, hi), TableValue)) <= KeysOf(Readings(Rows(data, 0, |data|), TableValue))
  {
    CutAt(data, hi, |data|);
    CutAt(data, lo, hi);
    var before, chunk, after := Rows(data, 0, lo), Rows(data, lo, hi), Rows(data, hi, |data|);
    assert Rows(data, 0, |data|) == before + chunk + after;
    if NamesNonEmpty(Rows(data, 0, |data|)) {
      NamesInside(before, chunk, after);
    }
    ReadingsConcat(before, chunk, TableValue);
    ReadingsConcat(before + chunk, after, TableValue);
    KeysOfConcat(Readings(before, TableValue), Readings(chunk, TableValue));
    KeysOfConcat(Readings(before + chunk, TableValue), Readings(after, TableValue));
  }

  /** One chunk processed into shard `w`: the merge of all shards grows from
      the table of the records before the chunk to the table of the records
      up to its end. */
  lemma ShardStep(tables: seq<map<Key, Stats>>, w: nat, prefix: seq<Reading>, chunk: seq<Reading>, after: map<Key, Stats>)
    requires w < |tables| && AllWF(tables[w])
    requires MergeAll(tables) == Aggregate(prefix)
    requires after == AggregateFrom(tables[w], chunk)
    ensures MergeAll(tables[w := after]) == Aggregate(prefix + chunk)
  {
    AggregateFromIsMerge(tables[w], chunk);
    MergeAllUpdate(tables, w, Aggregate(chunk));
    AggregateConcat(prefix, chunk);
  }

  // ---------------------------------------------------------------------------
  // Chunks spread over shards

  /** Every chunk lies within the buffer and holds whole records with
      non-empty names, and its keys are among the buffer's. */
  ghost predicate ChunksWellFormed(data: seq<byte>, spans: seq<Span>)
  {
    && WellFormed(data, 0, |data|)
    && forall j :: 0 <= j < |spans| ==>
         && spans[j].lo <= spans[j].hi <= |data| && WellFormed(data, spans[j].lo, spans[j].hi)
         && NamesNonEmpty(Rows(data, spans[j].lo, spans[j].hi))
         && KeysOf(Readings(Rows(data, spans[j].lo, spans[j].hi), TableValue))
            <= KeysOf(Readings(Rows(data, 0, |data|), TableValue))
  }

  /** The readings of every chunk, in order. */
  ghost function ChunksOf(data: seq<byte>, spans: seq<Span>): (cs: seq<seq<Reading>>)
    requires ChunksWellFormed(data, spans)
    ensures |cs| == |spans|
    ensures forall j :: 0 <= j < |spans| ==> cs[j] == Readings(Rows(data, spans[j].lo, spans[j].hi), TableValue)
  {
    seq(|spans|, j requires 0 <= j < |spans| => Readings(Rows(data, spans[j].lo, spans[j].hi), TableValue))
  }

  /** All readings of `chunks`, one chunk after the other. */
  function Flatten(chunks: seq<seq<Reading>>): seq<Reading>
  {
    if chunks == [] then [] else Flatten(chunks[..|chunks| - 1]) + chunks[|chunks| - 1]
  }

  lemma FlattenSnoc(cs: seq<seq<Reading>>, k: nat)
    requires k < |cs|
    ensures Flatten(cs[..k + 1]) == Flatten(cs[..k]) + cs[k]
  {
    assert cs[..k + 1][..k] == cs[..k];
  }

  /** The `workers` empty tables of `std::vector<DB> dbs(chunks)`. */
  function EmptyTables(n: nat): (d: seq<map<Key, Stats>>)
    ensures |d| == n && forall i :: 0 <= i < n ==> d[i] == map[]
  {
    seq(n, _ => map[])
  }

  /** The shard tables once `chunks` are processed, chunk `j` into table
      `assign(j) % workers`. */
  function Spread(chunks: seq<seq<Reading>>, workers: nat, assign: nat -> nat): (d: seq<map<Key, Stats>>)
    requires workers > 0
    ensures |d| == workers
  {
    if chunks == [] then EmptyTables(workers)
    else
      var d := Spread(chunks[..|chunks| - 1], workers, assign);
      var w := assign(|chunks| - 1) % workers;
      d[w := AggregateFrom(d[w], chunks[|chunks| - 1])]
  }

  /** Adding one chunk changes only the table of the worker it goes to. */
  lemma SpreadNext(chunks: seq<seq<Reading>>, j: nat, workers: nat, assign: nat -> nat, w: nat)
    requires j < |chunks| && w < workers
    ensures Spread(chunks[..j + 1], workers, assign)[w]
         == if assign(j) % workers == w then AggregateFrom(Spread(chunks[..j], workers, assign)[w], chunks[j])
            else Spread(chunks[..j], workers, assign)[w]
  {
    assert chunks[..j + 1][..j] == chunks[..j];
  }

  lemma {:induction false} MergeAllEmpty(n: nat)
    ensures MergeAll(EmptyTables(n)) == map[]
  {
    if n > 0 {
      assert EmptyTables(n)[..n - 1] == EmptyTables(n - 1);
      MergeAllEmpty(n - 1);
      MergeMapsEmpty(map[]);
    }
  }

  /** Every record of every shard table is well formed. */
  lemma {:induction false} SpreadWF(chunks: seq<seq<Reading>>, workers: nat, assign: nat -> nat)
    requires workers > 0
    ensures forall w :: 0 <= w < workers ==> AllWF(Spread(chunks, workers, assign)[w])
  {
    if chunks != [] {
      var d := Spread(chunks[..|chunks| - 1], workers, assign);
      SpreadWF(chunks[..|chunks| - 1], workers, assign);
      AggregateFromWF(d[assign(|chunks| - 1) % workers], chunks[|chunks| - 1]);
    }
  }

  /** However the chunks are spread over the workers, the shard tables together
      hold exactly the records of all chunks. */
  lemma {:induction false} SpreadMerge(chunks: seq<seq<Reading>>, workers: nat, assign: nat -> nat)
    requires workers > 0
    ensures MergeAll(Spread(chunks, workers, assign)) == Aggregate(Flatten(chunks))
  {
    if chunks == [] {
      MergeAllEmpty(workers);
    } else {
      var prefix := chunks[..|chunks| - 1];
      var d := Spread(prefix, workers, assign);
      var w := assign(|chunks| - 1) % workers;
      SpreadMerge(prefix, workers, assign);
      SpreadWF(prefix, workers, assign);
      ShardStep(d, w, Flatten(prefix), chunks[|chunks| - 1], AggregateFrom(d[w], chunks[|chunks| - 1]));
    }
  }

  /** Where the first `k` chunks end. */
  function Reached(spans: seq<Span>, k: nat): nat
    requires k <= |spans|
  {
    if k == 0 then 0 else spans[k - 1].hi
  }

  /** Chunk `j` of a tiling lies between two record boundaries. */
  lemma ChunkBounds(data: seq<byte>, spans: seq<Span>, j: nat)
    requires Contiguous(data, spans, 0, |data|) && j < |spans|
    ensures Boundary(data, spans[j].lo) && Reached(spans, j) == spans[j].lo <= spans[j].hi
  {
    if j > 0 {
      assert spans[j - 1].hi == spans[j].lo;
    }
  }

  lemma TilingWellFormed(data: seq<byte>, spans: seq<Span>)
    requires Contiguous(data, spans, 0, |data|) && WellFormed(data, 0, |data|) && NamesNonEmpty(Rows(data, 0, |data|))
    ensures ChunksWellFormed(data, spans)
  {
    forall j | 0 <= j < |spans|
      ensures spans[j].lo <= spans[j].hi <= |data| && WellFormed(data, spans[j].lo, spans[j].hi)
      ensures NamesNonEmpty(Rows(data, spans[j].lo, spans[j].hi))
      ensures KeysOf(Readings(Rows(data, spans[j].lo, spans[j].hi), TableValue))
           <= KeysOf(Readings(Rows(data, 0, |data|), TableValue))
    {
      ChunkBounds(data, spans, j);
      SpanFacts(data, spans[j].lo, spans[j].hi);
    }
  }

  /** The readings of the first `k` chunks of a tiling are those of the
      buffer up to where they end. */
  lemma {:induction false} TilingFlatten(data: seq<byte>, spans: seq<Span>, k: nat)
    requires Contiguous(data, spans, 0, |data|) && ChunksWellFormed(data, spans) && k <= |spans|
    ensures WellFormed(data, 0, Reached(spans, k))
    ensures Flatten(ChunksOf(data, spans)[..k]) == Readings(Rows(data, 0, Reached(spans, k)), TableValue)
  {
    var cs := ChunksOf(data, spans);
    if k == 0 {
      assert cs[..0] == [];
    } else {
      var lo, hi := spans[k - 1].lo, spans[k - 1].hi;
      TilingFlatten(data, spans, k - 1);
      ChunkBounds(data, spans, k - 1);
      FlattenSnoc(cs, k - 1);
      SpanFacts(data, lo, hi);
    }
  }

  /** However a tiling's chunks are spread over the workers, the shard tables
      together hold exactly the records of the buffer. */
  lemma TilingMerge(data: seq<byte>, spans: seq<Span>, workers: nat, assign: nat -> nat)
    requires Contiguous(data, spans, 0, |data|) && ChunksWellFormed(data, spans) && workers > 0
    ensures MergeAll(Spread(ChunksOf(data, spans), workers, assign)) == Aggregate(Readings(Rows(data, 0, |data|), TableValue))
  {
    var cs := ChunksOf(data, spans);
    SpreadMerge(cs, workers, assign);
    TilingFlatten(data, spans, |spans|);
    assert cs[..|spans|] == cs;
  }


  // ---------------------------------------------------------------------------
  // Version 08: one shard per span

  /** `process_input(span)` of version 08: a fresh table holding the records
      of one span, whenever it did not overflow. */
  method ProcessSpan(data: seq<byte>, lo: nat, hi: nat, capacity: nat) returns (db: DB, ok: bool, ghost c: map<Key, Stats>)
    requires lo <= hi <= |data| && WellFormed(data, lo, hi) && NamesNonEmpty(Rows(data, lo, hi))
    requires capacity == SLOTS - 1 || capacity == SLOTS
    ensures fresh(db) && fresh(db.keys) && fresh(db.values) && db.home == RollingHash
    ensures db.Valid() && db.Contents() == c && AllWF(c)
    ensures ok ==> c == Aggregate(Readings(Rows(data, lo, hi), TableValue))
    ensures capacity == SLOTS && |KeysOf(Readings(Rows(data, lo, hi), TableValue))| < SLOTS ==> ok
  {
    db := new DB(capacity, RollingHash);
    ok := db.ProcessInput(data, lo, hi);
    c := db.Contents();
    ContentsWF(db.State(), capacity, RollingHash);
  }

  lemma SmallMod(k: nat, n: nat)
    requires k < n
    ensures Id(k) % n == k
  {
  }

  /** With one shard per chunk, shard `i` holds the records of chunk `i`
      alone once it is processed, and nothing before. */
  lemma {:induction false} SpreadOwn(chunks: seq<seq<Reading>>, n: nat, i: nat)
    requires |chunks| <= n && i < n
    ensures Spread(chunks, n, Id)[i] == if i < |chunks| then Aggregate(chunks[i]) else map[]
  {
    if chunks != [] {
      var k := |chunks| - 1;
      var d := Spread(chunks[..k], n, Id);
      SpreadOwn(chunks[..k], n, i);
      SpreadOwn(chunks[..k], n, k);
      SmallMod(k, n);
      assert Spread(chunks, n, Id) == d[k := AggregateFrom(d[k], chunks[k])];
    }
  }

  /** The table of span `i` is shard `i` of the spread, and it cannot
      overflow when the whole buffer has fewer keys than slots. */
  lemma ShardTable(data: seq<byte>, spans: seq<Span>, i: nat, ok: bool, c: map<Key, Stats>, capacity: nat)
    requires ChunksWellFormed(data, spans) && i < |spans|
    requires ok ==> c == Aggregate(Readings(Rows(data, spans[i].lo, spans[i].hi), TableValue))
    requires capacity == SLOTS && |KeysOf(Readings(Rows(data, spans[i].lo, spans[i].hi), TableValue))| < SLOTS ==> ok
    ensures ok ==> c == Spread(ChunksOf(data, spans), |spans|, Id)[i]
    ensures capacity == SLOTS && |KeysOf(Readings(Rows(data, 0, |data|), TableValue))| < SLOTS ==> ok
  {
    var chunks := ChunksOf(data, spans);
    SubsetCard(KeysOf(chunks[i]), KeysOf(Readings(Rows(data, 0, |data|), TableValue)));
    SpreadOwn(chunks, |chunks|, i);
  }

  /** `dbs[i] = process_input(chunks[i])`: shard `i` of the spread. */
  method RunShard(data: seq<byte>, spans: seq<Span>, i: nat, capacity: nat) returns (db: DB, ok: bool, ghost c: map<Key, Stats>)
    requires ChunksWellFormed(data, spans) && i < |spans|
    requires capacity == SLOTS - 1 || capacity == SLOTS
    ensures fresh(db) && fresh(db.keys) && fresh(db.values) && db.home == RollingHash
    ensures db.Valid() && db.Contents() == c && AllWF(c)
    ensures ok ==> c == Spread(ChunksOf(data, spans), |spans|, Id)[i]
    ensures capacity == SLOTS && |KeysOf(Readings(Rows(data, 0, |data|), TableValue))| < SLOTS ==> ok
  {
    db, ok, c := ProcessSpan(data, spans[i].lo, spans[i].hi, capacity);
    ShardTable(data, spans, i, ok, c, capacity);
  }

  /** Span `|dbs|` is processed into a fresh table, which joins the others. */
  method AddShard(data: seq<byte>, spans: seq<Span>, capacity: nat,
                  dbs: seq<DB>, ghost tables: seq<map<Key, Stats>>, ok: bool)
    returns (dbs': seq<DB>, ok': bool, ghost tables': seq<map<Key, Stats>>)
    requires ChunksWellFormed(data, spans) && |dbs| < |spans|
    requires capacity == SLOTS - 1 || capacity == SLOTS
    requires ShardsHold(dbs, tables) && (ok ==> tables == Spread(ChunksOf(data, spans), |spans|, Id)[..|dbs|])
    ensures |dbs'| == |dbs| + 1 && ShardsHold(dbs', tables')
    ensures ok' ==> tables' == Spread(ChunksOf(data, spans), |spans|, Id)[..|dbs'|]
    ensures ok' ==> ok
    ensures ok && capacity == SLOTS && |KeysOf(Readings(Rows(data, 0, |data|), TableValue))| < SLOTS ==> ok'
  {
    ghost var chunks := ChunksOf(data, spans);
    ghost var spread := Spread(chunks, |spans|, Id);
    var i := |dbs|;
    var db, okShard;
    ghost var c;
    db, okShard, c := RunShard(data, spans, i, capacity);
    ShardsSnoc(dbs, tables, db, c);
    PrefixSnoc(spread, i);
    dbs', tables', ok' := dbs + [db], tables + [c], ok && okShard;
  }

  /** `process_parallel(mfile.chunked(n))`: span `i` is processed into a fresh
      table `dbs[i]`, then the tables are merged. Without overflow the result
      is the table of all records of the buffer. */
  method ProcessParallelStatic(data: seq<byte>, n: nat, capacity: nat) returns (merged: map<Key, Stats>, ok: bool)
    requires n > 0 && WellFormed(data, 0, |data|) && NamesNonEmpty(Rows(data, 0, |data|))
    requires capacity == SLOTS - 1 || capacity == SLOTS
    ensures ok ==> merged == Aggregate(Readings(Rows(data, 0, |data|), TableValue))
    ensures capacity == SLOTS && |KeysOf(Readings(Rows(data, 0, |data|), TableValue))| < SLOTS ==> ok
  {
    var spans := Chunked(data, n);
    TilingWellFormed(data, spans);
    ghost var spread := Spread(ChunksOf(data, spans), n, Id);
    var dbs: seq<DB> := [];
    ghost var tables: seq<map<Key, Stats>> := [];
    ok := true;
    while |dbs| < n
      invariant |dbs| <= n && ShardsHold(dbs, tables)
      invariant ok ==> tables == spread[..|dbs|]
      invariant capacity == SLOTS && |KeysOf(Readings(Rows(data, 0, |data|), TableValue))| < SLOTS ==> ok
      decreases n - |dbs|
    {
      dbs, ok, tables := AddShard(data, spans, capacity, dbs, tables, ok);
    }
    merged := MergeShards(dbs, tables);
    if ok {
      assert spread[..n] == spread;
      TilingMerge(data, spans, n, Id);
    }
  }

  // ---------------------------------------------------------------------------
  // Version 09: workers pull chunks from the cursor

  /** The worker's turn at chunk `j`: it processes the chunk when the chunk
      is its own, and skips it otherwise. */
  method WorkerStep(data: seq<byte>, spans: seq<Span>, workers: nat, assign: nat -> nat, w: nat, capacity: nat,
                    db: DB, j: nat, ok: bool) returns (ok': bool)
    requires ChunksWellFormed(data, spans) && w < workers && j < |spans|
    requires db.Valid() && db.capacity == capacity && db.home == RollingHash
    requires ok ==> db.Contents() == Spread(ChunksOf(data, spans)[..j], workers, assign)[w]
    requires db.Contents().Keys <= KeysOf(Readings(Rows(data, 0, |data|), TableValue))
    modifies db, db.keys, db.values
    ensures db.Valid()
    ensures ok' ==> db.Contents() == Spread(ChunksOf(data, spans)[..j + 1], workers, assign)[w]
    ensures db.Contents().Keys <= KeysOf(Readings(Rows(data, 0, |data|), TableValue))
    ensures ok' ==> ok
    ensures ok && capacity == SLOTS && |KeysOf(Readings(Rows(data, 0, |data|), TableValue))| < SLOTS ==> ok'
  {
    ghost var all := KeysOf(Readings(Rows(data, 0, |data|), TableValue));
    ghost var chunks := ChunksOf(data, spans);
    SpreadNext(chunks, j, workers, assign, w);
    ok' := ok;
    if assign(j) % workers == w {
      SubsetCard(db.Contents().Keys + KeysOf(chunks[j]), all);
      var okChunk := db.ProcessInput(data, spans[j].lo, spans[j].hi);
      ok' := ok && okChunk;
    }
  }

  /** One worker thread of version 09: it processes every chunk it draws into
      its own table. Which chunks it draws is up to the scheduler: chunk `j`
      goes to worker `assign(j) % workers`. */
  method RunWorker(data: seq<byte>, spans: seq<Span>, workers: nat, assign: nat -> nat, w: nat, capacity: nat)
    returns (db: DB, ok: bool, ghost c: map<Key, Stats>)
    requires ChunksWellFormed(data, spans) && w < workers
    requires capacity == SLOTS - 1 || capacity == SLOTS
    ensures fresh(db) && fresh(db.keys) && fresh(db.values) && db.home == RollingHash
    ensures db.Valid() && db.Contents() == c && AllWF(c)
    ensures ok ==> c == Spread(ChunksOf(data, spans), workers, assign)[w]
    ensures capacity == SLOTS && |KeysOf(Readings(Rows(data, 0, |data|), TableValue))| < SLOTS ==> ok
  {
    ghost var all := KeysOf(Readings(Rows(data, 0, |data|), TableValue));
    ghost var chunks := ChunksOf(data, spans);
    db := new DB(capacity, RollingHash);
    ok := true;
    var j := 0;
    while j < |spans|
      invariant j <= |spans| && db.Valid() && db.capacity == capacity && db.home == RollingHash
      invariant fresh(db.keys) && fresh(db.values)
      invariant ok ==> db.Contents() == Spread(chunks[..j], workers, assign)[w]
      invariant db.Contents().Keys <= all
      invariant capacity == SLOTS && |all| < SLOTS ==> ok
    {
      ok := WorkerStep(data, spans, workers, assign, w, capacity, db, j, ok);
      j := j + 1;
    }
    SpreadWhole(chunks, j, workers, assign);
    c := db.Contents();
    ContentsWF(db.State(), capacity, RollingHash);
  }

  /** Worker `|dbs|` runs and its table joins the others. */
  method AddWorker(data: seq<byte>, spans: seq<Span>, workers: nat, capacity: nat, assign: nat -> nat,
                   dbs: seq<DB>, ghost tables: seq<map<Key, Stats>>, ok: bool)
    returns (dbs': seq<DB>, ok': bool, ghost tables': seq<map<Key, Stats>>)
    requires ChunksWellFormed(data, spans) && |dbs| < workers
    requires capacity == SLOTS - 1 || capacity == SLOTS
    requires ShardsHold(dbs, tables) && (ok ==> tables == Spread(ChunksOf(data, spans), workers, assign)[..|dbs|])
    ensures |dbs'| == |dbs| + 1 && ShardsHold(dbs', tables')
    ensures ok' ==> tables' == Spread(ChunksOf(data, spans), workers, assign)[..|dbs'|]
    ensures ok' ==> ok
    ensures ok && capacity == SLOTS && |KeysOf(Readings(Rows(data, 0, |data|), TableValue))| < SLOTS ==> ok'
  {
    ghost var spread := Spread(ChunksOf(data, spans), workers, assign);
    var db, okWorker;
    ghost var c;
    db, okWorker, c := RunWorker(data, spans, workers, assign, |dbs|, capacity);
    ShardsSnoc(dbs, tables, db, c);
    PrefixSnoc(spread, |dbs|);
    dbs', tables', ok' := dbs + [db], tables + [c], ok && okWorker;
  }

  /** The `workers` threads of version 09, each with its own table. The
      threads' tables are disjoint, so running them one after the other
      builds the same tables. */
  method RunWorkers(data: seq<byte>, spans: seq<Span>, workers: nat, capacity: nat, assign: nat -> nat)
    returns (dbs: seq<DB>, ok: bool, ghost tables: seq<map<Key, Stats>>)
    requires ChunksWellFormed(data, spans) && workers > 0
    requires capacity == SLOTS - 1 || capacity == SLOTS
    ensures |dbs| == workers && ShardsHold(dbs, tables)
    ensures ok ==> tables == Spread(ChunksOf(data, spans), workers, assign)
    ensures capacity == SLOTS && |KeysOf(Readings(Rows(data, 0, |data|), TableValue))| < SLOTS ==> ok
  {
    ghost var spread := Spread(ChunksOf(data, spans), workers, assign);
    ok := true;
    dbs, tables := [], [];
    while |dbs| < workers
      invariant |dbs| <= workers && ShardsHold(dbs, tables)
      invariant ok ==> tables == spread[..|dbs|]
      invariant capacity == SLOTS && |KeysOf(Readings(Rows(data, 0, |data|), TableValue))| < SLOTS ==> ok
      decreases workers - |dbs|
    {
      dbs, ok, tables := AddWorker(data, spans, workers, capacity, assign, dbs, tables, ok);
    }
    assert spread[..workers] == spread;
  }

  /** `process_parallel(mfile, workers)`: `workers` threads each run its loop
      over the chunks it draws from the cursor, then the tables are merged.
      Without overflow the result is the table of all records of the buffer,
      for every schedule and chunk size. */
  method ProcessParallelDynamic(data: seq<byte>, workers: nat, chunkSize: nat, capacity: nat, assign: nat -> nat)
    returns (merged: map<Key, Stats>, ok: bool)
    requires WellFormed(data, 0, |data|) && NamesNonEmpty(Rows(data, 0, |data|))
    requires capacity == SLOTS - 1 || capacity == SLOTS
    ensures workers == 0 ==> merged == map[]
    ensures workers > 0 && ok ==> merged == Aggregate(Readings(Rows(data, 0, |data|), TableValue))
    ensures capacity == SLOTS && |KeysOf(Readings(Rows(data, 0, |data|), TableValue))| < SLOTS ==> ok
  {
    if workers == 0 {
      return map[], true;
    }
    var spans := CursorChunks(data, chunkSize);
    TilingWellFormed(data, spans);
    var dbs;
    ghost var tables;
    dbs, ok, tables := RunWorkers(data, spans, workers, capacity, assign);
    merged := MergeShards(dbs, tables);
    if ok {
      TilingMerge(data, spans, workers, assign);
    }
  }
}

