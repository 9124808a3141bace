/** Version 05: the table is the library's hash map from station name to
    record, and `process_input` scans one buffer into a fresh table. */
module StationMap {
  import opened Bytes
  import opened Aggregation
  import opened ValueParser
  import opened RecordScanner

  /** `DB`, an `unordered_map<std::string, Record>`; its lookup and insertion
      are the map's own, so the model keeps the map as a value. */
  class StationDB {
    var entries: map<Key, Stats>

    constructor ()
      ensures entries == map[]
    {
      entries := map[];
    }

    /** `record`: a name not yet in the map gets `{1, v, v, v}`; otherwise the
        stored record is updated in place, minimum and maximum in exclusive
        branches. */
    method Record(station: Key, value: int)
      modifies this
      ensures entries == Insert(old(entries), Reading(station, value))
    {
      if station !in entries {
        entries := entries[station := Stats(1, value, value, value)];
        return;
      }
      var rec := entries[station];
      if value < rec.min {
        rec := rec.(min := value);
      } else if value > rec.max {
        rec := rec.(max := value);
      }
      rec := rec.(sum := rec.sum + value);
      rec := rec.(cnt := rec.cnt + 1);
      entries := entries[station := rec];
    }
  }

  /** `process_input`: `parse_station`, `parse_value` and `record` for every
      record of the buffer. The table then holds, for every name, the count,
      total, minimum and maximum of the values read for it. */
  method ProcessInput(data: seq<byte>) returns (db: StationDB)
    requires WellFormed(data, 0, |data|)
    ensures fresh(db)
    ensures db.entries == Aggregate(Readings(Rows(data, 0, |data|), BranchValue))
  {
    db := new StationDB();
    ghost var rows := Rows(data, 0, |data|);
    ghost var rs := Readings(rows, BranchValue);
    ghost var n: nat := 0;
    var iter := 0;
    while iter != |data|
      invariant 0 <= iter <= |data| && WellFormed(data, iter, |data|)
      invariant n <= |rows| && Rows(data, iter, |data|) == rows[n..]
      invariant |rs| == |rows| && db.entries == AggregateFrom(map[], rs[..n])
      decreases |data| - iter
    {
      RowsStep(data, iter, |data|, rows, n);
      ghost var before := db.entries;
      var station, after := ParseStation(data, iter);
      var value, next := ParseValue(data, after);
      StationValueIsRow(data, iter, station, after, value, next);
      db.Record(station, value);
      ProcessStep(map[], rows, BranchValue, rs, n, before, db.entries, RowAt(data, iter));
      iter, n := next, n + 1;
    }
    assert rs[..n] == rs;
  }
}
