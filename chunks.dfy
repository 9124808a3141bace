/** Splitting the buffer into spans of whole records: the static splitter
    `MappedFile::chunked` of version 08 and the cursor-based `next_chunk` of
    version 09. A span is a pair of offsets into the buffer. */
module Chunks {
  import opened Bytes

  /** The half-open span `[lo, hi)` of the buffer. */
  datatype Span = Span(lo: nat, hi: nat)

  /** A cut that does not split a record: the buffer's ends, or right after a `\n`. */
  predicate Boundary(data: seq<byte>, k: nat)
  {
    k <= |data| && (k == 0 || k == |data| || data[k - 1] == NL)
  }

  /** Where `while (end != begin_ + sz_ && *end != '\n') ++end;` stops:
      the first `\n` at or after `from`, or the buffer end. */
  function ScanEnd(data: seq<byte>, from: nat): (e: nat)
    requires from <= |data|
    ensures from <= e <= |data|
    ensures e < |data| ==> data[e] == NL
    decreases |data| - from
  {
    if from == |data| || data[from] == NL then from else ScanEnd(data, from + 1)
  }

  /** No `\n` lies between the scan start and where it stops. */
  lemma {:induction false} ScanEndFirst(data: seq<byte>, from: nat, k: nat)
    requires from <= k < |data| && k < ScanEnd(data, from)
    ensures data[k] != NL
    decreases k - from
  {
    if from < k {
      ScanEndFirst(data, from + 1, k);
    }
  }

  /** The aligned end of a chunk whose nominal end is `from`: one past the
      first `\n` at or after `from`, or the buffer end when there is none. */
  function AlignedEnd(data: seq<byte>, from: nat): nat
    requires from <= |data|
  {
    var e := ScanEnd(data, from);
    if e < |data| then e + 1 else |data|
  }

  /** The aligned end is a record boundary after the nominal end, and no `\n`
      lies between the nominal end and the aligned end's last byte. */
  lemma AlignedEndMeaning(data: seq<byte>, from: nat)
    requires from <= |data|
    ensures from <= AlignedEnd(data, from) <= |data| && Boundary(data, AlignedEnd(data, from))
    ensures from < |data| ==> from < AlignedEnd(data, from)
    ensures forall k :: from <= k < AlignedEnd(data, from) - 1 ==> data[k] != NL
  {
    forall k | from <= k < AlignedEnd(data, from) - 1 ensures data[k] != NL {
      ScanEndFirst(data, from, k);
    }
  }

  /** The newline scan, stepping past the `\n` only when there is one. */
  method AlignEnd(data: seq<byte>, from: nat) returns (end: nat)
    requires from <= |data|
    ensures end == AlignedEnd(data, from)
  {
    end := from;
    while end != |data| && data[end] != NL
      invariant from <= end <= |data| && ScanEnd(data, end) == ScanEnd(data, from)
      decreases |data| - end
    {
      end := end + 1;
    }
    if end != |data| {
      end := end + 1;
    }
  }

  /** The scan of both splitters as they are written: `++end` also when the
      scan stopped at the buffer end. */
  method StepPastNewlineAsWritten(data: seq<byte>, from: nat) returns (end: nat)
    requires from <= |data|
    ensures end == ScanEnd(data, from) + 1
    ensures end == |data| + 1 <==> forall k :: from <= k < |data| ==> data[k] != NL
  {
    end := from;
    while end != |data| && data[end] != NL
      invariant from <= end <= |data| && ScanEnd(data, end) == ScanEnd(data, from)
      invariant forall k :: from <= k < end ==> data[k] != NL
      decreases |data| - end
    {
      end := end + 1;
    }
    end := end + 1;
  }

  /** `next_chunk` on the four-byte buffer `a;1\n` with a chunk size of 4:
      the nominal end is the buffer end, the `else` branch runs, and the chunk
      ends one byte past the buffer. */
  method NextChunkOvershoot() returns (end: nat)
    ensures end == 5
  {
    var data: seq<byte> := [97, SEMI, 49, NL];
    var cursor, chunkSize := 0, 4;
    assert !(cursor + chunkSize > |data|);
    end := StepPastNewlineAsWritten(data, cursor + chunkSize);
  }

  /** `chunked(3)` on the twelve-byte buffer `a;1\n` three times, as it is
      written: `chunk_sz` is 4, the first span is `[0, 8)`, and the scan for the
      second starts at the buffer end, so the second span is `[8, 13)`. */
  method ChunkedOvershoot() returns (spans: seq<Span>)
    ensures spans == [Span(0, 8), Span(8, 13)]
  {
    var line: seq<byte> := [97, SEMI, 49, NL];
    var data := line + line + line;
    var chunkSize := |data| / 3;
    assert chunkSize == 4;
    var first := StepPastNewlineAsWritten(data, 0 + chunkSize);
    assert data[4] != NL && data[5] != NL && data[6] != NL && data[7] == NL;
    assert ScanEnd(data, 7) == 7 && ScanEnd(data, 6) == 7 && ScanEnd(data, 5) == 7 && ScanEnd(data, 4) == 7;
    var second := StepPastNewlineAsWritten(data, first + chunkSize);
    spans := [Span(0, first), Span(first, second)];
  }

  // ---------------------------------------------------------------------------
  // Version 09: a shared cursor

  /** The chunk cursor of `MappedFile` (the mutex is left out: the model is
      sequential). `chunkSize` is the constant 64 MiB of the source. */
  class ChunkCursor {
    const data: seq<byte>
    const chunkSize: nat
    var cursor: nat

    /** The cursor sits at a record boundary. */
    predicate Valid()
      reads this
    {
      Boundary(data, cursor)
    }

    constructor (data: seq<byte>, chunkSize: nat)
      ensures Valid() && this.data == data && this.chunkSize == chunkSize && cursor == 0
    {
      this.data := data;
      this.chunkSize := chunkSize;
      cursor := 0;
    }

    /** `next_chunk` with the step past the `\n` guarded: the chunk starts at
        the cursor, the cursor moves to its end, and the end is the buffer end
        when the nominal end is past it, otherwise the aligned end. */
    method NextChunk() returns (chunk: Span)
      requires Valid()
      modifies this
      ensures Valid()
      ensures chunk.lo == old(cursor) && chunk.hi == cursor && chunk.lo <= chunk.hi
      ensures chunk.lo == chunk.hi <==> old(cursor) == |data|
      ensures old(cursor) + chunkSize > |data| ==> cursor == |data|
      ensures old(cursor) + chunkSize <= |data| ==> cursor == AlignedEnd(data, old(cursor) + chunkSize)
      ensures old(cursor) + chunkSize < |data| ==> cursor > old(cursor) + chunkSize
    {
      if cursor == |data| {
        return Span(cursor, cursor);
      }
      var end: nat;
      if cursor + chunkSize > |data| {
        end := |data|;
      } else {
        end := AlignEnd(data, cursor + chunkSize);
        AlignedEndMeaning(data, cursor + chunkSize);
      }
      chunk := Span(cursor, end);
      cursor := end;
    }
  }

  /** Where `next_chunk` ends a chunk that starts at `lo`. */
  function CursorEnd(data: seq<byte>, lo: nat, size: nat): nat
    requires lo <= |data|
  {
    if lo + size > |data| then |data| else AlignedEnd(data, lo + size)
  }

  /** The chunks a cursor hands out, in order, until it returns an empty one. */
  method CursorChunks(data: seq<byte>, chunkSize: nat) returns (spans: seq<Span>)
    ensures Contiguous(data, spans, 0, |data|)
    ensures forall i :: 0 <= i < |spans| ==> spans[i].lo < spans[i].hi == CursorEnd(data, spans[i].lo, chunkSize)
  {
    var cursor := new ChunkCursor(data, chunkSize);
    spans := [];
    var chunk := cursor.NextChunk();
    CursorEndOf(data, chunk.lo, chunkSize, chunk.hi);
    while chunk.lo != chunk.hi
      invariant cursor.Valid() && cursor.data == data && cursor.chunkSize == chunkSize
      invariant chunk.lo <= chunk.hi == cursor.cursor && (chunk.lo == chunk.hi <==> chunk.lo == |data|)
      invariant chunk.hi == CursorEnd(data, chunk.lo, chunkSize)
      invariant Contiguous(data, spans, 0, chunk.lo) && Boundary(data, chunk.lo)
      invariant CursorSpans(data, spans, chunkSize)
      decreases |data| - chunk.lo
    {
      ContiguousSnoc(data, spans, 0, chunk.lo, chunk.hi);
      CursorSpansSnoc(data, spans, chunkSize, chunk);
      spans := spans + [chunk];
      chunk := cursor.NextChunk();
      CursorEndOf(data, chunk.lo, chunkSize, chunk.hi);
    }
  }

  /** Every span is non-empty and ends where `next_chunk` ends a chunk at its start. */
  predicate CursorSpans(data: seq<byte>, spans: seq<Span>, size: nat)
  {
    forall i :: 0 <= i < |spans| ==> spans[i].lo < spans[i].hi && spans[i].lo <= |data| && spans[i].hi == CursorEnd(data, spans[i].lo, size)
  }

  lemma CursorSpansSnoc(data: seq<byte>, spans: seq<Span>, size: nat, chunk: Span)
    requires CursorSpans(data, spans, size)
    requires chunk.lo < chunk.hi && chunk.lo <= |data| && chunk.hi == CursorEnd(data, chunk.lo, size)
    ensures CursorSpans(data, spans + [chunk], size)
  {
  }

  /** The two cases of `next_chunk`'s end are the two cases of `CursorEnd`. */
  lemma CursorEndOf(data: seq<byte>, lo: nat, size: nat, hi: nat)
    requires lo <= |data|
    requires lo + size > |data| ==> hi == |data|
    requires lo + size <= |data| ==> hi == AlignedEnd(data, lo + size)
    ensures hi == CursorEnd(data, lo, size)
  {
  }

  // ---------------------------------------------------------------------------
  // Version 08: a fixed number of spans

  /** A nominal chunk end, not past the buffer end. */
  function Clamp(x: nat, size: nat): nat { if x <= size then x else size }

  /** `spans` are consecutive, from `lo` to `hi`, each ending at a record boundary. */
  predicate Contiguous(data: seq<byte>, spans: seq<Span>, lo: nat, hi: nat)
  {
    && (spans == [] ==> lo == hi)
    && (spans != [] ==> spans[0].lo == lo && spans[|spans| - 1].hi == hi)
    && (forall i :: 0 <= i < |spans| ==> spans[i].lo <= spans[i].hi <= |data| && Boundary(data, spans[i].hi))
    && (forall i :: 0 <= i < |spans| - 1 ==> spans[i].hi == spans[i + 1].lo)
  }

  /** `spans` cut the whole buffer into consecutive spans at record boundaries. */
  predicate Tiling(data: seq<byte>, spans: seq<Span>)
  {
    |spans| > 0 && Contiguous(data, spans, 0, |data|)
  }

  /** Every span ends at the aligned end of its start plus `size`, clamped. */
  predicate Aligned(data: seq<byte>, spans: seq<Span>, size: nat)
  {
    forall i :: 0 <= i < |spans| ==> spans[i].lo <= |data| && spans[i].hi == AlignedEnd(data, Clamp(spans[i].lo + size, |data|))
  }

  lemma ContiguousSnoc(data: seq<byte>, spans: seq<Span>, lo: nat, mid: nat, hi: nat)
    requires Contiguous(data, spans, lo, mid) && mid <= hi && Boundary(data, hi)
    ensures Contiguous(data, spans + [Span(mid, hi)], lo, hi)
  {
  }

  lemma AlignedSnoc(data: seq<byte>, spans: seq<Span>, size: nat, lo: nat)
    requires Aligned(data, spans, size) && lo <= |data|
    ensures Aligned(data, spans + [Span(lo, AlignedEnd(data, Clamp(lo + size, |data|)))], size)
  {
  }

  /** `chunked(n)` with the scan start clamped to the buffer end and the step
      past the `\n` guarded: `n` spans that tile the buffer, each of the first
      `n - 1` ending at the aligned end of its start plus `sz / n`. */
  method Chunked(data: seq<byte>, n: nat) returns (spans: seq<Span>)
    requires n > 0
    ensures |spans| == n && Tiling(data, spans)
    ensures Aligned(data, spans[..n - 1], |data| / n)
  {
    var chunkSize: nat := |data| / n;
    var begin: nat := 0;
    spans := [];
    var i := 0;
    while i < n - 1
      invariant 0 <= i <= n - 1 && |spans| == i && Boundary(data, begin)
      invariant Contiguous(data, spans, 0, begin) && Aligned(data, spans, chunkSize)
    {
      var from := Clamp(begin + chunkSize, |data|);
      var end := AlignEnd(data, from);
      AlignedEndMeaning(data, from);
      ContiguousSnoc(data, spans, 0, begin, end);
      AlignedSnoc(data, spans, chunkSize, begin);
      spans := spans + [Span(begin, end)];
      begin := end;
      i := i + 1;
    }
    ContiguousSnoc(data, spans, 0, begin, |data|);
    assert (spans + [Span(begin, |data|)])[..n - 1] == spans;
    spans := spans + [Span(begin, |data|)];
  }
}
