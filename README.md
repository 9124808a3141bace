# One Billion Row Challenge aggregator — a Dafny model

The program reads a file of lines `station;value\n`. Each value has one
fractional digit. For every station it prints the minimum, the rounded mean
and the maximum, in ascending byte order of the station names. The versions
modelled here share one design:

- values are parsed as fixed-point integers in tenths of a degree;
- each station keeps a record `{cnt, sum, min, max}`.

The versions differ in where the records live and how the input is split:

- **05:** the library hash map from name to record.
- **06 to 09:** an open-addressing table `DB`. Its parallel arrays `keys_` and
  `values_` are indexed by a 16-bit hash with linear probing. A list
  `filled_` holds the occupied slots.
- **07 to 09:** names are hashed on the fly by `hash = hash * 7 + c`, and a
  table-driven value parser is used.
- **08:** the buffer is cut into `n` chunks at line boundaries. Each chunk
  goes into its own table, and the tables are merged.
- **09:** worker threads pull fixed-size chunks from a shared cursor, each into
  its own table, and the tables are merged.
- **Benchmarks:** the two benchmark files compare the value parsers and the
  record scanners.

The model is split into modules:

- `Bytes`: bytes, 16-bit wrap-around, C++ division, byte search.
- `ValueParser`: `parse_value`, `parse_int_table`, `parse_int_base`, the
  parse table and the benchmark loops.
- `RecordScanner`: `parse`, `parse_station`, `parse_base`, `parse_v1`, the
  rolling hash, and the record structure of a buffer.
- `Aggregation`: records, `record` on a map, merging of tables.
- `StationMap`: version 05's table.
- `HashTable`: the `DB` class of versions 06 to 09.
- `KeyOrder`: the byte order of names and sorting.
- `Chunks`: `chunked`, and `next_chunk` as the class `ChunkCursor`.
- `Driver`: `process_parallel` of 08 and 09.
- `Format`: the integer part of `format_output`.

Each parser and table method is proved against a reference function of the
bytes or of the readings. The main results are:

- **All versions print the same listing.** On a buffer of whole records
  whose value tokens are well formed (an optional `-`, then digits and `.`),
  every version that finishes builds the table `Aggregate` of the input's
  readings (`parse_value` and `parse_int_table` read the same values there,
  `RecordScanner.ReadingsAgree`), and the listing of a table is unique, so
  they print the same (`Format.ParsersPrintSameListing`). The 65535-slot
  versions 06, 08 and 09 promise this only when no lookup runs off the
  arrays' end (see Findings); with 65536 slots and fewer than 65536
  stations the lookup cannot fail. On other value tokens (say `1x`) the two
  parsers disagree, and so may the versions.
- **Each station's record is its readings' summary.** `cnt` is the number of
  the station's readings and `sum` is their total. `min` and `max` bound the
  readings and are attained.
- **The printed mean is correctly rounded.** It is the nearest integer to
  `sum / cnt`, ties away from zero, and lies between `min` and `max`.
- **The merge is order-independent.** The merged table does not depend on
  how chunks are spread over workers or in which order shards are merged.
- **The parsers agree.** The branching `parse_value` and the table-driven
  `parse_int_table` agree on every well-formed token.

## Model

| member | source | states |
|---|---|---|
| Bytes.SignedChar | src/07_better_parsing.cpp:188 | a plain `char` read as a signed value: in -128..127, equal to the byte below 128, the byte minus 256 from 128 on |
| Bytes.Int16 | src/05_fixed_point.cpp:132-141 | conversion to `int16_t`: always in -32768..32767, the identity on values in range |
| Bytes.UInt16 | src/07_better_parsing.cpp:186-190 | conversion to `uint16_t`: always below 65536, the identity on values in range |
| Bytes.Int16MulAdd | src/07_better_parsing.cpp:172-173 | wrapping `result` to 16 bits before each multiply-add gives the same value as wrapping once at the end |
| Bytes.Int16Step | src/05_fixed_point.cpp:135-136 | one step `result *= m; result += v` of a 16-bit accumulator tracks the unbounded fold wrapped once |
| Bytes.Int16Neg | src/05_fixed_point.cpp:140-141 | negation commutes with the 16-bit conversion |
| Bytes.UInt16MulAdd | src/07_better_parsing.cpp:188 | wrapping the hash to 16 bits after each step gives the same value as wrapping the polynomial once |
| Bytes.TruncDiv | src/05_fixed_point.cpp:185 | C++ integer division of `sum / cnt`: the quotient has the sign of the dividend (zero or positive for `sum >= 0`, zero or negative for `sum <= 0`) |
| Bytes.TruncDivTowardZero | src/05_fixed_point.cpp:185 | the quotient truncates toward zero: for `sum >= 0` the largest `q` with `q * cnt <= sum`, for `sum < 0` the smallest `q` with `sum <= q * cnt` |
| Bytes.IndexFrom | src/05_fixed_point.cpp:123 | `std::ranges::find(iter, unreachable_sentinel, c)`: an index at or after the start that holds `c` |
| Bytes.IndexFromFirst | src/05_fixed_point.cpp:123 | no byte before the found index holds `c` |
| Bytes.IndexFromUnique | src/05_fixed_point.cpp:123 | any index holding `c` with no `c` before it is the one found |
| ValueParser.ParseTable | src/07_better_parsing.cpp:152-164 | the row of `int_parse_table` for a byte: `(c - '0', 10)` for a digit, `(0, 1)` for any other byte |
| ValueParser.IntParseTable | src/07_better_parsing.cpp:152-164 | the loop fills a 256-entry array: `(c - '0', 10)` for digits and `(0, 1)` for every other byte |
| ValueParser.TableAccIsDecimal | src/07_better_parsing.cpp:171-175 | the fold `result = result * mul + val` over the table's rows is the decimal number of the token's digits, every other byte ignored |
| ValueParser.BranchAccIsDecimal | src/05_fixed_point.cpp:133-139 | the fold `result = result * 10 + (c - '0')` over the bytes other than `.` is the decimal number of those byte values |
| ValueParser.ParseIntTable | src/07_better_parsing.cpp:168-180 | `parse_int_table`: the cursor ends one past the first `\n`; the value is the 16-bit digits number, negated iff the first byte is `-` |
| ValueParser.TableValueSign | src/07_better_parsing.cpp:177-179 | the sign test on the first byte turns the folded digits into the token's value |
| ValueParser.BranchLoop | src/05_fixed_point.cpp:132-139 | the digit loop stops at the first `\n`, with the 16-bit decimal value of the byte values before it |
| ValueParser.ParseValue | src/05_fixed_point.cpp:128-144 | `parse_value`: steps over a leading `-`, returns the 16-bit value of the rest, negated for `-`; the cursor ends one past the `\n` |
| ValueParser.SkipSign | src/05_fixed_point.cpp:129-131 | stepping over the `-` does not move the `\n` the scan stops at |
| ValueParser.BranchValueNegative | src/05_fixed_point.cpp:140-141 | for a token with `-`, `result *= -1` on the 16-bit value of the rest is the token's value |
| ValueParser.BranchValuePositive | src/05_fixed_point.cpp:132-139 | for a token without `-`, the loop's 16-bit result is the token's value |
| ValueParser.ParseIntBase | src/bench_parse_int.cpp:5-19 | `parse_int_base`: the cursor ends one past the `\n`; the value reads the whole token, `-` included, and is negated iff it starts with `-` |
| ValueParser.DigitValuesConcat | src/07_better_parsing.cpp:171-175 | the digits of two byte strings put together are the digits of each, in order |
| ValueParser.DecimalConcat | src/07_better_parsing.cpp:172-173 | the decimal number of `a + b` is that of `a` shifted by `|b|` places plus that of `b` |
| ValueParser.CharValuesOfDigits | src/05_fixed_point.cpp:134-137 | on bytes that are digits or `.`, the branching parser adds the same values as the table parser |
| ValueParser.DecimalRange | src/07_better_parsing.cpp:171-175 | `n` digits 0..9 read as a number in 0..10^n - 1 |
| ValueParser.BranchMatchesTable | src/07_better_parsing.cpp:168-180 | on every well-formed token (optional `-`, then digits and `.`), `parse_value` and `parse_int_table` return the same value |
| ValueParser.BenchBaseMatchesTableOnNonNegative | src/bench_parse_int.cpp:5-19 | on a well-formed token without `-`, `parse_int_base` returns what `parse_int_table` returns |
| ValueParser.BenchBaseOnNegative | src/bench_parse_int.cpp:6-18 | on `-t`, with `d` the number of the `n` digits of `t`, `parse_int_base` returns the 16-bit value of `3 * 10^n - d`, where `parse_int_table` returns `-d` |
| ValueParser.SignCharValues | src/bench_parse_int.cpp:9-11 | before digits and `.`, the `-` is added as `'-' - '0'`, that is -3 |
| ValueParser.BenchBaseNegativeCounterexample | src/bench_parse_int.cpp:6-18 | `-1.5` reads as 285 under `parse_int_base` and as -15 under `parse_int_table` |
| ValueParser.FractionDecimal | src/07_better_parsing.cpp:171-175 | the digits of `i.f` read as `10 * i + f`: the `.` only drops out |
| ValueParser.OneFractionIsScaledByTen | src/07_better_parsing.cpp:168-180 | a token `i.f` with one fractional digit that fits 16 bits reads as the fixed-point value `10 * i + f` |
| ValueParser.NegativeOneFractionIsScaledByTen | src/07_better_parsing.cpp:177-179 | a token `-i.f` reads as `-(10 * i + f)` |
| ValueParser.NoFractionIsNotScaled | src/07_better_parsing.cpp:168-180 | a token without `.` reads as its integer, not scaled |
| ValueParser.TableValueExact | src/07_better_parsing.cpp:168-180 | when the digits fit 16 bits, the table parser's result is the exact signed number, no wrap-around |
| ValueParser.LinesUnfold | src/bench_parse_int.cpp:74-77 | one parser call consumes exactly the first remaining line |
| ValueParser.LinesCover | src/bench_parse_int.cpp:74-77 | the lines put back with their `\n` are the data: the loop skips no byte and reads none twice |
| ValueParser.LinesHaveNoNewline | src/bench_parse_int.cpp:74-77 | no token handed to a parser holds a `\n` |
| ValueParser.ScanWithTable | src/bench_parse_int.cpp:106-115 | the benchmark loop over `parse_int_table` returns one value per line, the table value of that line |
| ValueParser.ScanWithBase | src/bench_parse_int.cpp:70-79 | the benchmark loop over `parse_int_base` returns one value per line, the `parse_int_base` value of that line |
| Aggregation.Single | src/05_fixed_point.cpp:108 | `Record{1, value, value, value}` is a well-formed record |
| Aggregation.Update | src/05_fixed_point.cpp:112-117 | a hit adds one to `cnt` and the value to `sum`; on a well-formed record `min` and `max` become the minimum and maximum with the value |
| Aggregation.Combine | src/08_chunks.cpp:246-251 | merging two well-formed records gives a well-formed record |
| Aggregation.CombineComm | src/08_chunks.cpp:246-251 | merging two records is commutative |
| Aggregation.CombineAssoc | src/08_chunks.cpp:246-251 | merging records is associative |
| Aggregation.UpdateIsCombine | src/05_fixed_point.cpp:112-117 | a hit with value `v` is the merge with the record `{1, v, v, v}` |
| Aggregation.Insert | src/05_fixed_point.cpp:103-118 | `record` on a map: the keys gain the reading's station and no other; every other station keeps its record; well-formed records stay well formed |
| Aggregation.AggregateFromWF | src/05_fixed_point.cpp:146-161 | recording readings into a table of well-formed records keeps every record well formed |
| Aggregation.AggregateFromKeys | src/05_fixed_point.cpp:146-161 | recording adds exactly the keys the readings hold |
| Aggregation.AggregateKeys | src/05_fixed_point.cpp:146-161 | the table of the readings holds exactly the keys that occur in them |
| Aggregation.AggregateCountSum | src/05_fixed_point.cpp:116-117 | a key is in the table iff it has a reading; its `cnt` is the number of its readings and its `sum` their total |
| Aggregation.AggregateBounds | src/05_fixed_point.cpp:112-115 | every reading of a key lies between its `min` and `max` |
| Aggregation.AggregateAttained | src/05_fixed_point.cpp:112-115 | a key's `min` and `max` are values of its readings |
| Aggregation.NotInAggregate | src/05_fixed_point.cpp:106-109 | a key missing from the table has no reading |
| Aggregation.AggregateFromConcat | src/09_dynamic_chunks.cpp:234-237 | recording `a + b` into one table is recording `a`, then `b` |
| Aggregation.MergeEntry | src/08_chunks.cpp:241-252 | one step of the merge loop: the keys gain the shard's station and no other; every other station keeps its record |
| Aggregation.MergeMapsWF | src/08_chunks.cpp:238-254 | merging well-formed tables gives a well-formed table |
| Aggregation.MergeMapsComm | src/08_chunks.cpp:238-254 | merging two tables is commutative |
| Aggregation.MergeMapsAssoc | src/08_chunks.cpp:238-254 | merging tables is associative |
| Aggregation.MergeMapsEmpty | src/08_chunks.cpp:238 | the empty `merged` map is neutral |
| Aggregation.MergeEntryStep | src/08_chunks.cpp:241-252 | merging one more record whose key the right table lacks is one merge step |
| Aggregation.InsertMerge | src/08_chunks.cpp:238-254 | recording a reading into a merged table is recording it into its right side |
| Aggregation.AggregateFromIsMerge | src/09_dynamic_chunks.cpp:234-237 | a table built on top of `m` is `m` merged with the table of the new readings |
| Aggregation.AggregateConcat | src/08_chunks.cpp:227-256 | the table of `a + b` is the merge of the tables of `a` and of `b` |
| Aggregation.MergeAllKeys | src/08_chunks.cpp:239-254 | the merged table holds a key iff some shard holds it |
| Aggregation.MergeAllUpdate | src/09_dynamic_chunks.cpp:244-259 | growing one shard by `x` grows the merged table by `x` |
| Aggregation.MergeAllExtract | src/08_chunks.cpp:239 | taking one shard out of the middle and merging it last changes nothing |
| Aggregation.MergeAllPermutation | src/08_chunks.cpp:239 | the merged table does not depend on the order of the shards |
| RecordScanner.RollingHash | src/07_better_parsing.cpp:186-190 | the 16-bit rolling hash of a name is below 65536 |
| RecordScanner.RollingHashIsPolynomial | src/07_better_parsing.cpp:186-190 | the rolling hash is the polynomial `sum of c_i * 7^(n-1-i)` over the signed bytes, wrapped to 16 bits once |
| RecordScanner.HashAccIsRolling | src/07_better_parsing.cpp:187-190 | the hash the scan loop keeps over a name is its rolling hash |
| RecordScanner.RowAtShape | src/07_better_parsing.cpp:182-197 | the record at a cursor is its name, `;`, its value token and `\n`, with no `;` in the name and no `\n` in the token |
| RecordScanner.Parse | src/07_better_parsing.cpp:182-197 | `parse`: the name is the bytes before the first `;`, the hash is its rolling hash, the value is the table value of the token, and the cursor ends after the record |
| RecordScanner.ParseStation | src/05_fixed_point.cpp:121-126 | `parse_station`: the name is the bytes before the first `;` and the cursor ends one past it |
| RecordScanner.ParseBase | src/bench_parse_together.cpp:32-43 | `parse_base`: the record's name, the library hash cut to 16 bits, the `parse_int_base` value, the cursor after the record |
| RecordScanner.ParseV1 | src/bench_parse_together.cpp:75-86 | `parse_v1`: as `parse_base`, with the table value |
| RecordScanner.BaseAgreesWithV1OnNonNegative | src/bench_parse_together.cpp:16-30 | `parse_base` and `parse_v1` read the same value from a record whose token is well formed and not negative |
| RecordScanner.RecordEndIsLineEnd | src/07_better_parsing.cpp:192-194 | a record ends right after the first `\n` from its start |
| RecordScanner.WellFormedEndsWithNewline | src/07_better_parsing.cpp:219-224 | a buffer of whole records ends with `\n` |
| RecordScanner.SplitWellFormed | src/08_chunks.cpp:84-87 | cutting a buffer of whole records right after a `\n` leaves two buffers of whole records |
| RecordScanner.RowsSplit | src/08_chunks.cpp:84-88 | such a cut falls between records: the records of the halves concatenate to those of the whole |
| RecordScanner.RowsConcat | src/08_chunks.cpp:87-91 | the records of adjacent spans of whole records concatenate |
| Driver.CutAt | src/08_chunks.cpp:84-88 | a buffer of whole records cut at a record boundary gives two buffers of whole records, and its records are theirs concatenated |
| RecordScanner.ScanRecords | src/bench_parse_together.cpp:153-157 | the `parse_v2` benchmark loop yields one measurement per record, in order |
| RecordScanner.ScanRecordsBase | src/bench_parse_together.cpp:115-119 | the `parse_base` benchmark loop yields one measurement per record, in order |
| RecordScanner.ScanRecordsMeaning | src/bench_parse_together.cpp:153-157 | the `i`-th measurement holds the `i`-th record's name, its rolling hash and its table value |
| RecordScanner.ReadingsConcat | src/08_chunks.cpp:227-256 | the readings of concatenated records are the concatenated readings |
| RecordScanner.ReadingsAgree | src/07_better_parsing.cpp:168-180 | on records whose value tokens are all well formed, `parse_value` and `parse_int_table` yield the same readings |
| RecordScanner.StationValueIsRow | src/05_fixed_point.cpp:153-155 | `parse_station` then `parse_value` read the record's name and value and end after the record |
| RecordScanner.ProcessStep | src/05_fixed_point.cpp:151-158 | one more record recorded: the table holds the readings of one more row |
| RecordScanner.ProcessedKeys | src/05_fixed_point.cpp:151-158 | after any prefix of the input the table holds no key from outside the input |
| KeyOrder.LessIrreflexive | src/06_custom_hash.cpp:145 | the byte order of `std::string`'s `<` is irreflexive |
| KeyOrder.LessTransitive | src/06_custom_hash.cpp:145 | it is transitive |
| KeyOrder.LessTotal | src/06_custom_hash.cpp:145 | two different names are ordered one way or the other |
| KeyOrder.LessAsymmetric | src/06_custom_hash.cpp:145 | it is asymmetric |
| KeyOrder.SortBy | src/05_fixed_point.cpp:169 | the sorted sequence is a permutation of its input |
| KeyOrder.SortBySorted | src/05_fixed_point.cpp:169 | the sorted sequence is in ascending order |
| KeyOrder.SortedDistinctIsStrict | src/06_custom_hash.cpp:143-148 | ascending order on pairwise different names is strict |
| HashTable.ProbeDist | src/06_custom_hash.cpp:135 | `++slot` on a `uint16_t` wraps: probe `Dist(h, s)` from `h` is slot `s` |
| HashTable.DistProbe | src/06_custom_hash.cpp:135 | the distance to the `j`-th probe of fewer than 65536 is `j` |
| HashTable.ProbeNext | src/06_custom_hash.cpp:135 | the probe after slot `s` is `s + 1`, and 0 after 65535 |
| HashTable.ContentsWF | src/06_custom_hash.cpp:150-155 | a valid table's records are well formed and its stations are its stored keys |
| HashTable.MissValid | src/06_custom_hash.cpp:109-113 | storing a new key in the empty slot its probe reached, with `push_back` of the slot, keeps the table valid |
| HashTable.InsertContents | src/06_custom_hash.cpp:109-113 | storing a new key and `{1, v, v, v}` in an empty slot adds exactly that station's record |
| HashTable.MissContents | src/06_custom_hash.cpp:109-113 | storing `{1, v, v, v}` for a new name at the slot its probe stopped at makes the contents `Insert` of the reading |
| HashTable.HitContents | src/06_custom_hash.cpp:117-122 | updating a stored key's slot records the reading in that station's record only |
| HashTable.HitStats | src/06_custom_hash.cpp:117-122 | updating a stored station's slot keeps every record well formed |
| HashTable.ChainReach | src/06_custom_hash.cpp:130-133 | the probe path of a stored key is occupied up to its slot, so a lookup never stops early |
| HashTable.ProbedAll | src/06_custom_hash.cpp:130-136 | 65536 failed probes have visited every slot |
| HashTable.StoppedKeys | src/07_better_parsing.cpp:219-224 | a table that took in a prefix of the readings holds no key outside the old keys and the readings' keys |
| HashTable.ScanComplete | src/07_better_parsing.cpp:219-224 | a table that took in all readings is their aggregate |
| HashTable.DistinctCover | src/06_custom_hash.cpp:155 | distinct slots covering `0..n-1` and nothing else number `n` |
| HashTable.FullTableSize | src/07_better_parsing.cpp:145-149 | a table whose every slot is occupied holds as many stations as it has slots |
| HashTable.PermutationDistinct | src/06_custom_hash.cpp:147 | a permutation of distinct values is distinct |
| HashTable.PermutedFilled | src/06_custom_hash.cpp:147 | any permutation of `filled_` still lists every occupied slot once |
| HashTable.SortedSlotsStrict | src/06_custom_hash.cpp:143-148 | occupied slots hold different keys, so sorting `filled_` by key is strict |
| HashTable.SortedSlotsValid | src/06_custom_hash.cpp:143-148 | sorting `filled_` keeps the table valid and orders the slots strictly by key |
| HashTable.FilledMapPrefix | src/08_chunks.cpp:240-253 | reading the first `n` entries of `filled_` yields the stations stored in those slots |
| HashTable.FilledMapSnoc | src/08_chunks.cpp:240-253 | reading one more entry of `filled_` adds the station stored at that slot |
| HashTable.FilledMapFresh | src/08_chunks.cpp:240-241 | the next entry of `filled_` holds a station not read yet |
| HashTable.FilledMapContents | src/08_chunks.cpp:240-253 | reading all of `filled_` yields the table's contents |
| HashTable.DB.constructor | src/06_custom_hash.cpp:102 | `DB()`: a valid table with the given size and hash, no station and an empty `filled_` |
| HashTable.DB.LookupSlot | src/07_better_parsing.cpp:120-134 | `lookup_slot`: the returned slot is empty or holds the name, and every slot before it on the probe path holds another name; a stored key is found at its own slot; off the end of 65535 slots, or after 65536 probes, no slot |
| HashTable.DB.Record | src/07_better_parsing.cpp:99-118 | `record(m)`: on a slot, the contents become `Insert` of the reading; on a miss the slot is appended to `filled_`; with no slot nothing changes, and either the 65536-slot table is full without the key or in the 65535-slot table every slot from `m.hash` through the last one, index 65534, holds another key, so the probe stepped to index 65535, past the end |
| HashTable.DB.StoreNew | src/07_better_parsing.cpp:104-108 | the miss branch: `filled_` gains the slot, the key and `{1, v, v, v}` are stored there, the table stays valid |
| HashTable.DB.UpdateSlot | src/07_better_parsing.cpp:111-117 | the hit branch: only the slot's record changes, to its update with the value |
| HashTable.DB.RecordStation | src/06_custom_hash.cpp:104-123 | version 06's `record(station, value)`: the contents become `Insert` of the reading, or nothing changes when no slot is found: the 65536-slot table is then full, or in the 65535-slot table every slot from the station's hash through the last one, index 65534, holds another key, so the probe stepped past the end |
| HashTable.DB.ParseAndRecord | src/07_better_parsing.cpp:219-223 | one loop iteration of `process_input`: the record at the cursor is parsed and recorded, and the cursor moves past it |
| HashTable.DB.ParseAndRecordStation | src/06_custom_hash.cpp:188-194 | version 06's loop iteration: `parse_station`, `parse_value` and `record` of the record at the cursor |
| HashTable.DB.TableRow | src/07_better_parsing.cpp:219-223 | the iteration on the `n`-th record: the table holds the readings of the first `n + 1` records |
| HashTable.DB.StationRow | src/06_custom_hash.cpp:188-194 | the same for version 06's iteration |
| HashTable.DB.ProcessInput | src/07_better_parsing.cpp:214-227 | `process_input`: the table holds the old contents with every record's reading, in order; it cannot stop early with 65536 slots and fewer than 65536 stations |
| HashTable.DB.ProcessStations | src/06_custom_hash.cpp:183-198 | version 06's `process_input`: the table holds the readings of every record, read by `parse_value`; it cannot stop early with 65536 slots and fewer than 65536 stations |
| HashTable.DB.SortSlots | src/06_custom_hash.cpp:143-148 | `sort_slots`: `filled_` is permuted into strictly ascending order of its keys; the contents are unchanged |
| HashTable.LastSlotHash | src/09_dynamic_chunks.cpp:203-205 | the one-byte name `0xFF` (signed `char` -1) hashes to 65535 |
| HashTable.EmptyProbeFromLast | src/09_dynamic_chunks.cpp:144-157 | in an empty table the probe from 65535 stops at its first slot |
| HashTable.LastSlotOverflows | src/09_dynamic_chunks.cpp:160-163 | with 65535 slots, recording the name `0xFF` into an empty table reaches past the arrays' end |
| HashTable.LastSlotFits | src/07_better_parsing.cpp:144-147 | with 65536 slots the same record lands in slot 65535 |
| Chunks.ScanEnd | src/08_chunks.cpp:84-85 | the scan stops at a `\n` or at the buffer end |
| Chunks.ScanEndFirst | src/08_chunks.cpp:84-85 | no `\n` lies between the scan start and where it stops |
| Chunks.AlignedEndMeaning | src/08_chunks.cpp:82-86 | the aligned chunk end is a record boundary at or after the nominal end, with no `\n` in between |
| Chunks.AlignEnd | src/08_chunks.cpp:82-86 | the newline scan, stepping past the `\n` only when one was found, returns the aligned end |
| Chunks.StepPastNewlineAsWritten | src/08_chunks.cpp:84-86 | the scan as written ends one past where it stopped; that is one past the buffer iff no `\n` follows the start |
| Chunks.NextChunkOvershoot | src/09_dynamic_chunks.cpp:85-91 | on `a;1\n` with a chunk size of 4, `next_chunk` as written ends the chunk at 5, past the 4-byte buffer |
| Chunks.ChunkedOvershoot | src/08_chunks.cpp:79-87 | `chunked(3)` as written on `a;1\n` three times (12 bytes) makes the spans `[0, 8)` and `[8, 13)`: the second ends past the buffer |
| Chunks.ChunkCursor.constructor | src/09_dynamic_chunks.cpp:68 | the cursor starts at the beginning of the buffer |
| Chunks.ChunkCursor.NextChunk | src/09_dynamic_chunks.cpp:76-96 | `next_chunk`: the chunk starts at the old cursor and ends at the new one, a record boundary; it is empty iff the cursor was at the end; the end is the buffer end when the nominal end passes it, the aligned end otherwise |
| Chunks.CursorChunks | src/09_dynamic_chunks.cpp:233-237 | drawing chunks until the empty one cuts the buffer into consecutive non-empty spans at record boundaries |
| Chunks.CursorSpansSnoc | src/09_dynamic_chunks.cpp:233-237 | appending a non-empty chunk that `next_chunk` cut keeps the spans a valid cutting of the buffer |
| Chunks.CursorEndOf | src/09_dynamic_chunks.cpp:85-92 | the two branches of `next_chunk` are the two cases of the chunk end |
| Chunks.ContiguousSnoc | src/08_chunks.cpp:87-88 | appending a span from the last end to a boundary keeps the spans consecutive |
| Chunks.AlignedSnoc | src/08_chunks.cpp:80-88 | appending the span from a start to its aligned nominal end keeps every span cut as `chunked` cuts it |
| Chunks.Chunked | src/08_chunks.cpp:76-94 | `chunked(n)`: `n` consecutive spans cover the buffer, each cut at a record boundary; all but the last end at the aligned end of their start plus `sz / n`, clamped to the buffer |
| Driver.MergeSlots | src/08_chunks.cpp:240-253 | the inner merge loop merges the records in the listed slots into `merged` |
| Driver.MergeShard | src/08_chunks.cpp:240-253 | one shard's loop merges its contents into `merged` |
| Driver.MergeShards | src/08_chunks.cpp:238-255 | the outer merge loop yields the merge of all shard tables, in order |
| Driver.SpanFacts | src/08_chunks.cpp:87-91 | a chunk between two record boundaries holds whole records, whose readings continue those before it |
| Driver.ChunksOf | src/08_chunks.cpp:231-234 | the readings of each chunk of a tiling, one sequence per chunk |
| Driver.FlattenSnoc | src/08_chunks.cpp:231-234 | the readings of the first `k + 1` chunks are those of the first `k` followed by chunk `k`'s |
| Driver.ShardStep | src/09_dynamic_chunks.cpp:235 | processing one more chunk into any shard grows the shards' merge by the chunk's readings |
| Driver.Spread | src/09_dynamic_chunks.cpp:231-240 | the shard tables of a schedule: one per worker, each built from the chunks that worker drew (the step is `SpreadNext`) |
| Driver.SpreadNext | src/09_dynamic_chunks.cpp:234-237 | one more chunk changes only the table of the worker that draws it |
| Driver.SpreadWF | src/09_dynamic_chunks.cpp:229-240 | every record of every shard table is well formed |
| Driver.SpreadMerge | src/09_dynamic_chunks.cpp:226-261 | however chunks are spread over the workers, the shards merge to the table of all readings |
| Driver.TilingWellFormed | src/08_chunks.cpp:76-94 | every span of a tiling of a well-formed buffer holds whole records with non-empty names |
| Driver.TilingFlatten | src/08_chunks.cpp:76-94 | the readings of the first `k` spans are those of the buffer up to the end of span `k` |
| Driver.TilingMerge | src/08_chunks.cpp:227-256 | however a tiling's chunks are spread over the workers, the merged table is the table of the whole buffer |
| Driver.ProcessSpan | src/08_chunks.cpp:211-224 | version 08's `process_input(span)`: a fresh table that holds the span's readings, unless it fills up |
| Driver.SpreadOwn | src/08_chunks.cpp:231-234 | with one shard per chunk, shard `i` holds the readings of chunk `i` |
| Driver.ShardTable | src/08_chunks.cpp:232-233 | the table of span `i` is shard `i` of the spread and cannot fill up when the buffer has fewer than 65536 names |
| Driver.RunShard | src/08_chunks.cpp:232-233 | `dbs[i] = process_input(chunks[i])`: a fresh table that is shard `i` of the spread |
| Driver.AddShard | src/08_chunks.cpp:231-234 | one more span processed: the tables are the spread's first shards |
| Driver.ShardsSnoc | src/08_chunks.cpp:232-233 | one more valid table of the rolling hash extends the shards and the tables they hold |
| Driver.ProcessParallelStatic | src/08_chunks.cpp:227-256 | version 08's `process_parallel(chunked(n))`: the merged table is the table of all readings of the buffer |
| Driver.WorkerStep | src/09_dynamic_chunks.cpp:234-237 | a worker's turn at chunk `j`: its table grows by the chunk's readings when it draws the chunk, and is unchanged otherwise |
| Driver.RunWorker | src/09_dynamic_chunks.cpp:232-238 | a worker's loop: its table is its shard of the spread |
| Driver.AddWorker | src/09_dynamic_chunks.cpp:231-239 | one more worker run: the tables are the spread's first shards |
| Driver.RunWorkers | src/09_dynamic_chunks.cpp:229-240 | all workers run: the tables are the spread |
| Driver.ProcessParallelDynamic | src/09_dynamic_chunks.cpp:226-261 | version 09's `process_parallel`: the merged table is the table of all readings of the buffer; with no worker it is empty |
| StationMap.StationDB.constructor | src/05_fixed_point.cpp:147 | the map starts empty |
| StationMap.StationDB.Record | src/05_fixed_point.cpp:103-118 | version 05's `record`: the map becomes `Insert` of the reading |
| StationMap.ProcessInput | src/05_fixed_point.cpp:146-161 | version 05's `process_input`: the map is the table of all readings of the buffer, read by `parse_value` |
| Format.HalfUpNearest | src/05_fixed_point.cpp:180-181 | `(a + c/2) / c` lies within half a `c` of `a / c`, and a tie rounds up |
| Format.RoundedMeanSign | src/05_fixed_point.cpp:180-185 | the two branches of the rounding are rounding of the magnitude, with the sign put back |
| Format.RoundedMeanNearest | src/05_fixed_point.cpp:178-185 | the printed mean is an integer nearest to `sum / cnt`; a tie is broken away from zero |
| Format.RoundedMeanUnique | src/05_fixed_point.cpp:178-185 | any integer strictly within half a `cnt` of the sum is the printed mean |
| Format.RoundedMeanSymmetric | src/05_fixed_point.cpp:180-183 | negating the sum negates the printed mean |
| Format.RoundedMeanExamples | src/05_fixed_point.cpp:178-185 | 7.0 / 3 prints 2.3, -3.0 / 2 prints -1.5, 0.5 / 2 prints 0.3 and -0.5 / 2 prints -0.3 |
| Format.RoundedMeanWithin | src/05_fixed_point.cpp:178-185 | when the sum lies between `cnt * min` and `cnt * max`, the printed mean lies between `min` and `max` |
| Format.TotalBounds | src/05_fixed_point.cpp:112-116 | readings between `lo` and `hi` total between `lo` and `hi` times their number |
| Format.AggregateMeanWithin | src/05_fixed_point.cpp:184-185 | for every station of the readings' table, `min <= mean <= max` |
| Format.LineOf | src/05_fixed_point.cpp:184-185 | a station's entry carries its name, `min` and `max`, and a mean within half a `cnt` of `sum / cnt` |
| Format.ListingOnce | src/05_fixed_point.cpp:164-169 | every station of the table occurs in the listing exactly once |
| Format.AscendingUnique | src/05_fixed_point.cpp:169 | two strictly ascending sequences of the same names are equal |
| Format.ListingUnique | src/06_custom_hash.cpp:200-221 | the listing is determined by the table's contents, so every version prints the same for the same table |
| Format.ParsersPrintSameListing | src/07_better_parsing.cpp:229-250 | on a buffer of whole records with well-formed value tokens, the `parse_value` versions (05, 06) and the `parse_int_table` versions (07 to 09) print the same listing of their tables |
| Format.ListingOfReadings | src/05_fixed_point.cpp:163-188 | the listing of the readings' table names every station with a reading and only those, each with `min <= mean <= max` |
| Format.KeysOfMap | src/05_fixed_point.cpp:164-166 | copying the map's keys yields every station once |
| Format.SortedNames | src/05_fixed_point.cpp:169 | sorting the distinct keys yields the same names in strictly ascending order |
| Format.MapListing | src/05_fixed_point.cpp:175-186 | one entry per sorted name, from the map's record, makes the map's listing |
| Format.FormatMap | src/08_chunks.cpp:258-284 | `format_output` of versions 05, 08 and 09: the entries are the listing of the map |
| Format.SlotLines | src/06_custom_hash.cpp:207-219 | the loop over `filled_` builds one entry per slot, in that order, from the slot's key and record |
| Format.SlotListing | src/06_custom_hash.cpp:200-221 | the entries of a sorted `filled_` make the table's listing |
| Format.SlotNamesCover | src/06_custom_hash.cpp:207-208 | the names read through `filled_` are exactly the table's stations |
| Format.SlotLinesRecords | src/06_custom_hash.cpp:207-219 | each entry built through `filled_` carries a station of the table and that station's record |
| Format.FormatTable | src/06_custom_hash.cpp:200-221 | `format_output` of versions 06 and 07: after `sort_slots`, the entries are the listing of the table's contents, which are unchanged |

## Left out

- Reading the file and `mmap`: the buffer is a byte sequence parameter, and its size is `|data|`.
- Threads, `std::jthread` and the mutex of `next_chunk`: the workers of version 09 run one after the other. The chunk each worker draws is a schedule parameter, `assign`, so the merge result is proved for every schedule, not for every interleaving.
- Printing with `/ 10.0`, `setprecision(1)`, the `", "` delimiters and the braces: floating point and stream formatting are not modelled. The output is the sequence of integer entries `name=min/mean/max` in tenths.
- `std::hash`: it is a function parameter (`home` of `DB`, `stdHash` of `parse_base` and `parse_v1`). The library's algorithm is not visible.
- `parse_v2` of version 07, which finds the `;` with `strchr` and hashes with `std::hash`, is not modelled. The `parse_v2` of the benchmark file is modelled by `RecordScanner.Parse`.
- `int64_t` overflow of `cnt` and `sum`: both are unbounded integers. The inputs never come near 2^63.
- `params[*iter]` with a byte of 0x80 or more indexes the table at a negative position (plain `char` is signed). The model reads the row of the unsigned byte instead.
- HashTable.DB.LookupSlot: with 65536 slots all occupied by other names, the source loops forever. The model stops after 65536 probes with `TableFull`.
- HashTable.DB.ProcessInput: after a `TableFull` or off-the-end result the model stops and reports it; the source's behaviour there is undefined.
- HashTable.DB.ProcessInput: keeps its promise only for non-empty station names, since an empty key marks an empty slot. The same holds for every table method.
- `std::ranges::sort` is an insertion sort (`KeyOrder.SortBy`): only its result, a sorted permutation, is used.
- Driver.ProcessParallelDynamic: the chunk size is a parameter, not the fixed 64 MB.
- The iteration order of `std::unordered_map` in `format_output`: `Format.KeysOfMap` picks the keys in an unspecified order.
- The benchmark framework (`benchmark::State`, `DoNotOptimize`, the `test_data` literal) is not modelled. Each benchmark's inner loop is modelled.
- Versions 01, 02 and 04 are not part of this model.
- Chunks.Chunked: besides guarding the `++end`, the model clamps the scan start `chunk_begin + chunk_sz` to the buffer end. In the source that start lies past the buffer once there are more chunks than lines: `a;1\n` three times with `chunked(6)` gives `chunk_sz` 2, and the fourth scan starts at byte 14 of 12, where `end != begin_ + sz_` never fails and the scan reads past the mapping. The model's spans there are empty spans at the buffer end.
- Malformed input is excluded by the preconditions (`WellFormed`: every line is a name, `;`, a value token and `\n`, the buffer ending with `\n`). On a line without `;`, a missing final `\n` or a `\n` inside a name the source's scans read past the buffer; that behaviour is not modelled.

## Findings

| source | as written | input that shows it | evidently intended | confidence | as-written member | corrected member |
|---|---|---|---|---|---|---|
| src/09_dynamic_chunks.cpp:160-163 | `keys_` and `values_` have `UINT16_MAX` (65535) slots, but the `uint16_t` probe index reaches 65535 | the name `\xFF` (signed `char` -1) hashes to 65535, so the first `record` of it indexes past the arrays; 06 and 08 declare the same size | `UINT16_MAX + 1` slots, as in version 07 | not executed | HashTable.LastSlotOverflows | HashTable.LastSlotFits |
| src/bench_parse_int.cpp:5-19 | `parse_int_base` tests for `-` but never steps over it, so it adds `'-' - '0'` (-3) as a leading digit; the same parser is in bench_parse_together.cpp | `-1.5\n` reads as 285 | -15, as `parse_value` and `parse_int_table` read it | not executed | ValueParser.BenchBaseNegativeCounterexample | ValueParser.ParseValue |
| src/09_dynamic_chunks.cpp:85-91 | when the nominal chunk end is exactly the buffer end, the `else` branch runs, the scan stops at the end, and `++end` moves one byte past the buffer | buffer `a;1\n` with a chunk size of 4: the chunk is `[0, 5)` | the chunk `[0, 4)` | not executed | Chunks.NextChunkOvershoot | Chunks.ChunkCursor.NextChunk |
| src/08_chunks.cpp:79-87 | `++end` runs even when the scan stopped at the buffer end, so a span can end past the buffer | `a;1\n` three times (12 bytes) with `chunked(3)`: `chunk_sz` is 4 and the second span is `[8, 13)` | stop at the buffer end | not executed | Chunks.ChunkedOvershoot | Chunks.Chunked |
