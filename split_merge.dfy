/** The batching step of scripts/4_split_merge.py: old `chunk*.csv` files are removed from
    the output directory, then the rows of the merged table are cut into consecutive
    chunks of `chunk_size` rows, written as `chunk-1.csv`, `chunk-2.csv`, ... with the
    table's header. Reading and writing CSV is outside the model: a table is its header and
    its list of rows, and a row is any value. */
module SplitMerge {
  import opened Common
  import opened Text

  /** `(total_rows + chunk_size - 1) // chunk_size`. */
  function ChunkCount(total: nat, size: nat): nat
    requires size > 0
  {
    (total + size - 1) / size
  }

  /** The chunk count is the ceiling of total / size: that many chunks of `size` rows
      hold every row, and one chunk fewer does not. */
  lemma ChunkCountIsCeiling(total: nat, size: nat)
    requires size > 0
    ensures ChunkCount(total, size) * size >= total
    ensures ChunkCount(total, size) == 0 || (ChunkCount(total, size) - 1) * size < total
  {
    var c := ChunkCount(total, size);
    var r := (total + size - 1) % size;
    assert total + size - 1 == c * size + r;
    if c > 0 {
      assert (c - 1) * size == c * size - size;
    }
  }

  /** The rows that the slice starting at `start` takes: `rows[start:start + size]`. */
  function SliceAt<R>(rows: seq<R>, start: nat, size: nat): (s: seq<R>)
    requires start <= |rows|
  {
    rows[start..if start + size <= |rows| then start + size else |rows|]
  }

  /** The slices the loop `for start in range(begin, len(rows), size)` takes. */
  function SlicesFrom<R>(rows: seq<R>, size: nat, begin: nat): seq<seq<R>>
    requires size > 0
    decreases |rows| - begin
  {
    if begin >= |rows| then []
    else [SliceAt(rows, begin, size)] + SlicesFrom(rows, size, begin + size)
  }

  /** The chunks of a table: its rows cut from the first one on. */
  function Slices<R>(rows: seq<R>, size: nat): seq<seq<R>>
    requires size > 0
  {
    SlicesFrom(rows, size, 0)
  }

  /** `"".join` on lists: the chunks one after another. */
  function Flatten<R>(parts: seq<seq<R>>): seq<R>
  {
    if |parts| == 0 then [] else parts[0] + Flatten(parts[1..])
  }

  /** Putting the chunks from `begin` on back together gives the rows from `begin` on. */
  lemma {:induction false} FlattenSlicesFrom<R>(rows: seq<R>, size: nat, begin: nat)
    requires size > 0 && begin <= |rows|
    ensures Flatten(SlicesFrom(rows, size, begin)) == rows[begin..]
    decreases |rows| - begin
  {
    if begin < |rows| {
      var next := if begin + size <= |rows| then begin + size else |rows|;
      FlattenSlicesFrom(rows, size, next);
      if begin + size > |rows| {
        assert SlicesFrom(rows, size, begin + size) == [];
      }
      assert rows[begin..] == rows[begin..next] + rows[next..];
    }
  }

  /** Concatenating the chunks in index order gives back the table's rows exactly. */
  lemma FlattenSlices<R>(rows: seq<R>, size: nat)
    requires size > 0
    ensures Flatten(Slices(rows, size)) == rows
  {
    FlattenSlicesFrom(rows, size, 0);
  }

  /** As many chunks from `begin` on as the ceiling of the remaining rows over `size`. */
  lemma {:induction false} SlicesFromCount<R>(rows: seq<R>, size: nat, begin: nat)
    requires size > 0 && begin <= |rows|
    ensures |SlicesFrom(rows, size, begin)| == ChunkCount(|rows| - begin, size)
    decreases |rows| - begin
  {
    var left := |rows| - begin;
    if left == 0 {
      DivUnique(size - 1, size, 0, size - 1);
    } else if left <= size {
      assert SlicesFrom(rows, size, begin + size) == [];
      DivUnique(left + size - 1, size, 1, left - 1);
    } else {
      SlicesFromCount(rows, size, begin + size);
      var rest := left - size;
      assert left + size - 1 == (rest + size - 1) + size;
      DivPlusOne(rest + size - 1, size);
    }
  }

  lemma {:induction false} MulAtLeast(k: int, d: int)
    requires k >= 1 && d > 0
    ensures k * d >= d
    decreases k
  {
    if k > 1 {
      MulAtLeast(k - 1, d);
      assert k * d == (k - 1) * d + d;
    }
  }

  /** Floor division is determined by quotient and remainder. */
  lemma DivUnique(a: int, d: int, q: int, r: int)
    requires d > 0 && 0 <= r < d && a == q * d + r
    ensures a / d == q
  {
    var q0, r0 := a / d, a % d;
    assert a == q0 * d + r0;
    assert (q0 - q) * d == r - r0;
    if q0 > q {
      MulAtLeast(q0 - q, d);
    } else if q0 < q {
      MulAtLeast(q - q0, d);
    }
  }

  lemma DivPlusOne(a: nat, size: nat)
    requires size > 0
    ensures (a + size) / size == a / size + 1
  {
    DivUnique(a + size, size, a / size + 1, a % size);
  }

  /** The number of chunks is `ChunkCount`. */
  lemma SlicesCount<R>(rows: seq<R>, size: nat)
    requires size > 0
    ensures |Slices(rows, size)| == ChunkCount(|rows|, size)
  {
    SlicesFromCount(rows, size, 0);
  }

  /** Chunk `k` (from 0) starting at `begin` holds `rows[begin + k * size:][:size]`. */
  lemma {:induction false} SlicesFromAt<R>(rows: seq<R>, size: nat, begin: nat, k: nat)
    requires size > 0 && k < |SlicesFrom(rows, size, begin)|
    ensures begin + k * size < |rows|
    ensures SlicesFrom(rows, size, begin)[k] == SliceAt(rows, begin + k * size, size)
    decreases k
  {
    var rest := SlicesFrom(rows, size, begin + size);
    assert begin < |rows| && SlicesFrom(rows, size, begin) == [SliceAt(rows, begin, size)] + rest;
    if k > 0 {
      assert SlicesFrom(rows, size, begin)[k] == rest[k - 1];
      SlicesFromAt(rows, size, begin + size, k - 1);
      assert begin + size + (k - 1) * size == begin + k * size by {
        assert (k - 1) * size + size == k * size;
      }
    } else {
      assert begin + k * size == begin;
    }
  }

  /** Every chunk holds between 1 and `size` rows, and every chunk but the last holds
      exactly `size`. */
  lemma {:induction false} SlicesFromSizes<R>(rows: seq<R>, size: nat, begin: nat)
    requires size > 0
    ensures forall k :: 0 <= k < |SlicesFrom(rows, size, begin)| ==>
      0 < |SlicesFrom(rows, size, begin)[k]| <= size
    ensures forall k :: 0 <= k < |SlicesFrom(rows, size, begin)| - 1 ==>
      |SlicesFrom(rows, size, begin)[k]| == size
    decreases |rows| - begin
  {
    if begin < |rows| {
      SlicesFromSizes(rows, size, begin + size);
      if begin + size >= |rows| {
        assert SlicesFrom(rows, size, begin + size) == [];
      }
    }
  }

  /** The name of chunk `index`: `chunk-{index}.csv`. */
  function ChunkName(index: nat): string
  {
    "chunk-" + Decimal(index) + ".csv"
  }

  /** A chunk file: its index (from 1), name, header and rows. */
  datatype ChunkFile<R> = ChunkFile(index: nat, name: string, header: seq<string>, rows: seq<R>)

  /** One turn of the splitting loop: the chunk index and the slice taken at `start`. */
  lemma SplitStep<R>(rows: seq<R>, size: nat, start: nat, n: nat)
    requires size > 0 && start < |rows| && start == n * size
    ensures start / size + 1 == n + 1 && start + size == (n + 1) * size
    ensures SlicesFrom(rows, size, start) ==
      [rows[start..if start + size <= |rows| then start + size else |rows|]] + SlicesFrom(rows, size, start + size)
  {
    DivUnique(start, size, n, 0);
  }

  /** The splitting loop: chunk `k` (from 0) is `chunk-{k+1}.csv` with the header and the
      slice of rows starting at `k * size`. */
  method SplitRows<R>(header: seq<string>, rows: seq<R>, size: nat) returns (chunks: seq<ChunkFile<R>>)
    requires size > 0
    ensures |chunks| == |Slices(rows, size)|
    ensures forall k :: 0 <= k < |chunks| ==>
      chunks[k] == ChunkFile(k + 1, ChunkName(k + 1), header, Slices(rows, size)[k])
  {
    chunks := [];
    ghost var done: seq<seq<R>> := [];
    var start := 0;
    while start < |rows|
      invariant start == |done| * size
      invariant done + SlicesFrom(rows, size, start) == Slices(rows, size)
      invariant |chunks| == |done|
      invariant forall k :: 0 <= k < |chunks| ==>
        chunks[k] == ChunkFile(k + 1, ChunkName(k + 1), header, done[k])
      decreases |rows| - start
    {
      var chunkRows := rows[start..if start + size <= |rows| then start + size else |rows|];
      var chunkIndex := start / size + 1;
      SplitStep(rows, size, start, |done|);
      MoveHead(done, chunkRows, SlicesFrom(rows, size, start + size), SlicesFrom(rows, size, start));
      chunks := chunks + [ChunkFile(chunkIndex, ChunkName(chunkIndex), header, chunkRows)];
      done := done + [chunkRows];
      start := start + size;
    }
  }

  /** The cleanup test: a file whose name starts with "chunk" and ends with ".csv". */
  predicate IsChunkFile(name: string)
  {
    StartsWith(name, "chunk") && EndsWith(name, ".csv")
  }

  /** Every chunk file written is one the next run's cleanup removes. */
  lemma ChunkNameCleaned(index: nat)
    ensures IsChunkFile(ChunkName(index))
  {
    var n := ChunkName(index);
    assert n == "chunk" + ("-" + Decimal(index) + ".csv");
    assert n[..5] == "chunk";
    assert n == ("chunk-" + Decimal(index)) + ".csv";
    assert n[|n| - 4..] == ".csv";
  }

  /** The cleanup loop: the names of the files it removes, in listing order. */
  method Cleanup(listing: seq<string>) returns (removed: seq<string>)
    ensures removed == Filter(listing, IsChunkFile)
    ensures forall name :: name in removed <==> name in listing && IsChunkFile(name)
  {
    removed := FilterBy(listing, IsChunkFile);
  }

  /** What a run does: exit with a code before touching anything, or the removed old
      chunks and the chunks written. */
  datatype Outcome<R> = Exit(code: int) | Done(removed: seq<string>, chunks: seq<ChunkFile<R>>)

  /** `split_deep_scan`: `input` is the table (`None` when the file does not exist) and
      `listing` the output directory's file names. */
  method SplitDeepScan<R>(input: Option<(seq<string>, seq<R>)>, size: nat, listing: seq<string>)
    returns (out: Outcome<R>)
    requires size > 0
    ensures input.None? <==> out == Exit(1)
    ensures out.Done? ==>
      out.removed == Filter(listing, IsChunkFile) &&
      |out.chunks| == |Slices(input.value.1, size)| == ChunkCount(|input.value.1|, size) &&
      forall k :: 0 <= k < |out.chunks| ==>
        out.chunks[k] == ChunkFile(k + 1, ChunkName(k + 1), input.value.0, Slices(input.value.1, size)[k])
  {
    if input.None? {
      return Exit(1);
    }
    var removed := Cleanup(listing);
    var (header, rows) := input.value;
    var chunks := SplitRows(header, rows, size);
    SlicesCount(rows, size);
    return Done(removed, chunks);
  }

  /** The chunks written by a run cover the table exactly, in index order, each with
      between 1 and `size` rows and all but the last with exactly `size`. */
  lemma ChunksCoverTable<R>(header: seq<string>, rows: seq<R>, size: nat, chunks: seq<ChunkFile<R>>)
    requires size > 0
    requires |chunks| == |Slices(rows, size)|
    requires forall k :: 0 <= k < |chunks| ==>
      chunks[k] == ChunkFile(k + 1, ChunkName(k + 1), header, Slices(rows, size)[k])
    ensures Flatten(seq(|chunks|, k requires 0 <= k < |chunks| => chunks[k].rows)) == rows
    ensures forall k :: 0 <= k < |chunks| ==> 0 < |chunks[k].rows| <= size
    ensures forall k :: 0 <= k < |chunks| - 1 ==> |chunks[k].rows| == size
    ensures forall k :: 0 <= k < |chunks| ==>
      k * size < |rows| && chunks[k].rows == SliceAt(rows, k * size, size)
  {
    assert seq(|chunks|, k requires 0 <= k < |chunks| => chunks[k].rows) == Slices(rows, size);
    FlattenSlices(rows, size);
    SlicesFromSizes(rows, size, 0);
    forall k | 0 <= k < |chunks|
      ensures k * size < |rows| && chunks[k].rows == SliceAt(rows, k * size, size)
    {
      SlicesFromAt(rows, size, 0, k);
    }
  }
}
