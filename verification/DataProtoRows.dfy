/** Row by row, what the resharding operations of a batch (verl/verl/protocol.py) put where: each
    row of a result is named by the operand and the row it came from. */
module DataProtoRows {
  import opened Flattening
  import opened Arithmetic
  import opened Cuts
  import opened DataProto

  // Every column of r has as many rows as r reports, and row `to` of it is row `from` of d's.
  ghost predicate RowIs<V>(r: Data<V>, to: int, d: Data<V>, from: nat)
    requires d.Aligned() && from < d.rows
  {
    && 0 <= to < r.rows
    && r.tensors.Keys == d.tensors.Keys && r.others.Keys == d.others.Keys
    && (forall k :: k in d.tensors ==> |r.tensors[k]| == r.rows && r.tensors[k][to] == d.tensors[k][from])
    && (forall k :: k in d.others ==> |r.others[k]| == r.rows && r.others[k][to] == d.others[k][from])
  }

  lemma SelectedRow<V>(d: Data<V>, idx: seq<nat>, j: nat)
    requires d.Aligned() && InRange(idx, d.rows) && j < |idx|
    ensures RowIs(Select(d, idx), j, d, idx[j])
  {
  }

  // Rows start, start + 1, ... of d, as many as p has.
  ghost predicate RowsAre<V>(p: Data<V>, d: Data<V>, start: int)
    requires d.Aligned()
  {
    forall j :: 0 <= j < p.rows ==> RowComesFrom(p, d, start, j)
  }

  ghost predicate RowComesFrom<V>(p: Data<V>, d: Data<V>, start: int, j: nat)
    requires d.Aligned()
  {
    0 <= start + j < d.rows && RowIs(p, j, d, start + j)
  }

  lemma RangeRows<V>(d: Data<V>, a: nat, b: nat)
    requires d.Aligned() && a <= b <= d.rows
    ensures InRange(Range(a, b), d.rows) && Select(d, Range(a, b)).rows == b - a
    ensures RowsAre(Select(d, Range(a, b)), d, a)
  {
    hide Select, Data.Aligned, RowIs;
    forall j | 0 <= j < b - a ensures RowComesFrom(Select(d, Range(a, b)), d, a, j) {
      SelectedRow(d, Range(a, b), j);
    }
  }

  // ---------------------------------------------------------------------- slicing

  /** A slice from start to stop, both counted from the front, holds exactly the rows from start up
      to stop that there are. */
  lemma SliceHoldsRows<V>(d: Data<V>, start: nat, stop: nat)
    requires d.Aligned()
    ensures Slice(d, start, stop).rows
            == (if start < AtMost(stop, d.rows) then AtMost(stop, d.rows) - start else 0)
    ensures RowsAre(Slice(d, start, stop), d, start)
  {
    SliceIsSelect(d, start, stop);
    if start < AtMost(stop, d.rows) {
      assert SliceRows(d.rows, start, stop) == Range(start, AtMost(stop, d.rows));
      RangeRows(d, start, AtMost(stop, d.rows));
    } else {
      assert SliceRows(d.rows, start, stop) == [];
    }
  }

  lemma SameRows(n: nat, start: int, stop: int, back: nat)
    requires 0 < back
    ensures var front := if back < n then n - back else 0;
      && SliceRows(n, 0 - back, stop) == SliceRows(n, front, stop)
      && SliceRows(n, start, 0 - back) == SliceRows(n, start, front)
  {
    var front := if back < n then n - back else 0;
    assert Clamp(0 - back, n) == Clamp(front, n);
    hide Clamp, Range;
  }

  /** A bound counted from the back is the one as far from the front, or the front when there are
      not so many rows. */
  lemma NegativeBounds<V>(d: Data<V>, start: int, stop: int, back: nat)
    requires d.Aligned() && 0 < back
    ensures Slice(d, 0 - back, stop) == Slice(d, if back < d.rows then d.rows - back else 0, stop)
    ensures Slice(d, start, 0 - back) == Slice(d, start, if back < d.rows then d.rows - back else 0)
  {
    var front := if back < d.rows then d.rows - back else 0;
    SameRows(d.rows, start, stop, back);
    hide *;
    SliceIsSelect(d, 0 - back, stop);
    SliceIsSelect(d, start, 0 - back);
    SliceIsSelect(d, front, stop);
    SliceIsSelect(d, start, front);
  }

  // -------------------------------------------------------------------- splitting

  lemma {:induction false} RangeAt(i: nat, rows: nat, size: nat, k: nat)
    requires 0 < size && i + Product(k, size) < rows
    ensures var r, a := RangesFrom(i, rows, size), i + Product(k, size);
      k < |r| && r[k] == Range(a, AtMost(a + size, rows))
    decreases k
  {
    hide Product;
    ZeroProduct(size);
    if k > 0 {
      Spread(1, k - 1, size);
      OneProduct(size);
      Nonnegative(k - 1, size);
      RangeAt(i + size, rows, size, k - 1);
    }
  }

  lemma {:induction false} RangeCount(i: nat, rows: nat, size: nat, k: nat)
    requires 0 < size && rows <= i + Product(k, size)
    ensures |RangesFrom(i, rows, size)| <= k
    decreases k
  {
    hide Product;
    ZeroProduct(size);
    if k > 0 {
      Spread(1, k - 1, size);
      OneProduct(size);
      RangeCount(i + size, rows, size, k - 1);
    }
  }

  /** Part k of a split holds the rows from k*size on: `size` of them, or what is left, and there is
      a part k exactly when there are such rows. */
  lemma SplitHoldsRows<V>(d: Data<V>, size: nat, k: nat)
    requires d.Aligned() && 0 < size
    ensures k < |SplitFrom(d, 0, size)| <==> Product(k, size) < d.rows
    ensures 0 <= Product(k, size) < d.rows ==>
      && SplitFrom(d, 0, size)[k].rows == AtMost(size, d.rows - Product(k, size))
      && RowsAre(SplitFrom(d, 0, size)[k], d, Product(k, size))
  {
    hide Product, Select, SplitFrom, RangesFrom, Data.Aligned, RowsAre;
    Nonnegative(k, size);
    SplitIsSelect(d, 0, size);
    var a := Product(k, size);
    if a < d.rows {
      RangeAt(0, d.rows, size, k);
      RangeRows(d, a, AtMost(a + size, d.rows));
    } else {
      RangeCount(0, d.rows, size, k);
    }
  }

  // --------------------------------------------------------------------- chunking

  // The first row of chunk i, and how many it holds.
  function ChunkStart(batched: bool, rows: nat, chunks: nat, i: nat): int
    requires 0 < chunks
  {
    if batched then Product(i, CeilDiv(rows, chunks)) else Product(i, rows / chunks) + AtMost(i, rows % chunks)
  }

  function ChunkSize(batched: bool, rows: nat, chunks: nat, i: nat): int
    requires 0 < chunks
  {
    if batched then
      var size, left := CeilDiv(rows, chunks), rows - Product(i, CeilDiv(rows, chunks));
      if size < left then size else left
    else
      rows / chunks + if i < rows % chunks then 1 else 0
  }

  lemma TensorPieceOfRows(rows: nat, chunks: nat, i: nat)
    requires 0 < chunks && i < |TorchChunk(Range(0, rows), chunks)| == chunks
    ensures var a, n := ChunkStart(true, rows, chunks, i), ChunkSize(true, rows, chunks, i);
      0 <= a <= a + n <= rows && TorchChunk(Range(0, rows), chunks)[i] == Range(a, a + n)
  {
    var all := Range(0, rows);
    if rows > 0 {
      CeilPositive(rows, chunks);
      hide Product, CeilDiv, Pieces;
      var size := CeilDiv(rows, chunks);
      PieceAt(all, size, i);
      var a := Product(i, size);
      assert all[a..AtMost(a + size, rows)] == Range(a, AtMost(a + size, rows));
    } else {
      NothingToRound(chunks, i);
    }
  }

  lemma NothingToRound(chunks: nat, i: nat)
    requires 0 < chunks
    ensures CeilDiv(0, chunks) == 0 && Product(i, 0) == 0
  {
  }

  lemma ArrayPieceOfRows(rows: nat, chunks: nat, i: nat)
    requires i < chunks
    ensures var a, n := ChunkStart(false, rows, chunks, i), ChunkSize(false, rows, chunks, i);
      0 <= a <= a + n <= rows && ArraySplit(Range(0, rows), chunks)[i] == Range(a, a + n)
  {
    hide Product;
    PartInRange(rows, chunks, i);
    PartInRange(rows, chunks, i + 1);
    PartSize(rows, chunks, i);
  }

  lemma PieceOfRows(batched: bool, rows: nat, chunks: nat, i: nat)
    requires 0 < chunks && i < |PiecesOf(batched, rows, chunks)| == chunks
    ensures var a, n := ChunkStart(batched, rows, chunks, i), ChunkSize(batched, rows, chunks, i);
      0 <= a <= a + n <= rows && PiecesOf(batched, rows, chunks)[i] == Range(a, a + n)
  {
    hide ChunkStart, ChunkSize, TorchChunk, ArraySplit;
    if batched {
      TensorPieceOfRows(rows, chunks, i);
    } else {
      ArrayPieceOfRows(rows, chunks, i);
    }
  }

  /** Chunk i holds consecutive rows: with tensors, those of torch.chunk, all pieces but the last of
      the rounded-up size; without, those of numpy.array_split, the first rows mod chunks pieces
      taking one row more. */
  lemma ChunkHoldsRows<V>(d: Data<V>, chunks: nat, paddingEnabled: bool, i: nat)
    requires d.Aligned() && Chunks(d, chunks, paddingEnabled).Ok? && i < chunks
    ensures i < |Chunks(d, chunks, paddingEnabled).value|
    ensures var part := Chunks(d, chunks, paddingEnabled).value[i];
      && part.rows == ChunkSize(d.batched, d.rows, chunks, i)
      && RowsAre(part, d, ChunkStart(d.batched, d.rows, chunks, i))
  {
    ChunkIsSelect(d, chunks, paddingEnabled);
    assert 0 < chunks;
    hide *;
    PieceOfRows(d.batched, d.rows, chunks, i);
    assert Chunks(d, chunks, paddingEnabled).value[i] == Select(d, PiecesOf(d.batched, d.rows, chunks)[i]);
    var a := ChunkStart(d.batched, d.rows, chunks, i);
    RangeRows(d, a, a + ChunkSize(d.batched, d.rows, chunks, i));
  }

  // --------------------------------------------------------------- concatenation

  // Batches of one shape: all with tensors or all without, and the same columns.
  ghost predicate Alike<V>(ds: seq<Data<V>>) {
    forall i :: 0 <= i < |ds| ==>
      && ds[i].Aligned() && ds[i].batched == ds[0].batched
      && ds[i].tensors.Keys == ds[0].tensors.Keys && ds[i].others.Keys == ds[0].others.Keys
  }

  // Every batch has the tensor, with as many rows as it reports.
  predicate TensorThroughout<V>(ds: seq<Data<V>>, k: string) {
    forall i :: 0 <= i < |ds| ==> k in ds[i].tensors && |ds[i].tensors[k]| == ds[i].rows
  }

  lemma {:induction false} JoinedTensorLength<V>(ds: seq<Data<V>>, k: string)
    requires TensorThroughout(ds, k)
    ensures |JoinTensor(ds, k)| == Rows(ds)
    decreases |ds|
  {
    if ds != [] {
      JoinedTensorLength(ds[1..], k);
    }
  }

  lemma {:induction false} JoinedTensorRow<V>(ds: seq<Data<V>>, i: nat, j: nat, k: string)
    requires TensorThroughout(ds, k) && i < |ds| && j < ds[i].rows
    ensures |JoinTensor(ds, k)| == Rows(ds) && Rows(ds[..i]) + j < Rows(ds)
    ensures JoinTensor(ds, k)[Rows(ds[..i]) + j] == ds[i].tensors[k][j]
    decreases |ds|
  {
    JoinedTensorLength(ds, k);
    RowsBefore(ds, i, j);
    if i > 0 {
      JoinedTensorRow(ds[1..], i - 1, j, k);
      assert ds[..i][0] == ds[0] && ds[..i][1..] == ds[1..][..i - 1];
    }
  }

  // Every batch has the column, with as many rows as it reports.
  predicate OtherThroughout<V>(ds: seq<Data<V>>, k: string) {
    forall i :: 0 <= i < |ds| ==> k in ds[i].others && |ds[i].others[k]| == ds[i].rows
  }

  lemma {:induction false} JoinedOtherLength<V>(ds: seq<Data<V>>, k: string)
    requires OtherThroughout(ds, k)
    ensures |JoinOther(ds, k)| == Rows(ds)
    decreases |ds|
  {
    if ds != [] {
      JoinedOtherLength(ds[1..], k);
    }
  }

  lemma {:induction false} JoinedOtherRow<V>(ds: seq<Data<V>>, i: nat, j: nat, k: string)
    requires OtherThroughout(ds, k) && i < |ds| && j < ds[i].rows
    ensures |JoinOther(ds, k)| == Rows(ds) && Rows(ds[..i]) + j < Rows(ds)
    ensures JoinOther(ds, k)[Rows(ds[..i]) + j] == ds[i].others[k][j]
    decreases |ds|
  {
    JoinedOtherLength(ds, k);
    RowsBefore(ds, i, j);
    if i > 0 {
      JoinedOtherRow(ds[1..], i - 1, j, k);
      assert ds[..i][0] == ds[0] && ds[..i][1..] == ds[1..][..i - 1];
    }
  }

  lemma {:induction false} RowsBefore<V>(ds: seq<Data<V>>, i: nat, j: nat)
    requires i < |ds| && j < ds[i].rows
    ensures Rows(ds[..i]) + j < Rows(ds)
    decreases |ds|
  {
    if i > 0 {
      RowsBefore(ds[1..], i - 1, j);
      assert ds[..i][0] == ds[0] && ds[..i][1..] == ds[1..][..i - 1];
    }
  }

  lemma {:induction false} NoColumnsNoRowsAtAll<V>(ds: seq<Data<V>>)
    requires Alike(ds) && ds != [] && !ds[0].batched && ds[0].others == map[]
    ensures Rows(ds) == 0
    decreases |ds|
  {
    assert forall i :: 0 <= i < |ds| ==> ds[i].others.Keys == {};
    if |ds| > 1 {
      NoColumnsNoRowsAtAll(ds[1..]);
    }
  }

  /** Concatenating batches of one shape always succeeds, with all their rows. */
  lemma ConcatOfAlike<V>(ds: seq<Data<V>>)
    requires Alike(ds) && ds != []
    ensures Concat(ds).Ok? && Concat(ds).value.rows == Rows(ds) && Concat(ds).value.Aligned()
  {
    forall k | k in ds[0].others ensures |JoinOther(ds, k)| == Rows(ds) {
      JoinedOtherLength(ds, k);
    }
    forall k | k in ds[0].tensors ensures |JoinTensor(ds, k)| == Rows(ds) {
      JoinedTensorLength(ds, k);
    }
    hide JoinOther, JoinTensor, Rows;
    assert ds[0].Aligned();
    if !ds[0].batched && ds[0].others == map[] {
      NoColumnsNoRowsAtAll(ds);
      JoinNothing(ds, ds[0].lead);
    }
  }

  /** Row j of batch i stands behind all rows of the batches before it, in every column. */
  lemma ConcatHoldsRows<V>(ds: seq<Data<V>>, i: nat, j: nat)
    requires Alike(ds) && i < |ds| && j < ds[i].rows
    ensures Concat(ds).Ok? && RowIs(Concat(ds).value, Rows(ds[..i]) + j, ds[i], j)
  {
    ConcatOfAlike(ds);
    RowsBefore(ds, i, j);
    forall k | k in ds[0].tensors
      ensures |JoinTensor(ds, k)| == Rows(ds) && JoinTensor(ds, k)[Rows(ds[..i]) + j] == ds[i].tensors[k][j]
    {
      JoinedTensorRow(ds, i, j, k);
    }
    forall k | k in ds[0].others
      ensures |JoinOther(ds, k)| == Rows(ds) && JoinOther(ds, k)[Rows(ds[..i]) + j] == ds[i].others[k][j]
    {
      JoinedOtherRow(ds, i, j, k);
    }
    hide JoinOther, JoinTensor, Rows;
  }

  // --------------------------------------------------------------------- repeating

  lemma {:induction false} InterleavedLength<V>(column: seq<V>, n: nat)
    ensures |Interleaved(column, n)| == Product(|column|, n)
    decreases |column|
  {
    hide Product;
    ZeroProduct(n);
    if column != [] {
      InterleavedLength(column[..|column| - 1], n);
      Spread(|column| - 1, 1, n);
      OneProduct(n);
    }
  }

  lemma {:induction false} TiledLength<V>(column: seq<V>, n: nat)
    ensures |Tiled(column, n)| == Product(|column|, n)
    decreases n
  {
    hide Product;
    ZeroProduct(|column|);
    Commute(|column|, n);
    if n > 0 {
      TiledLength(column, n - 1);
      Commute(|column|, n - 1);
      Spread(n - 1, 1, |column|);
      OneProduct(|column|);
    }
  }

  lemma RepeatedLength<V>(d: Data<V>, n: nat, interleave: bool)
    requires d.Aligned()
    ensures Repeat(d, n, interleave).rows == Product(d.rows, n) && Repeat(d, n, interleave).Aligned()
    ensures Repeat(d, n, interleave).batched == d.batched && Repeat(d, n, interleave).lead == d.lead
  {
    hide Interleaved, Tiled, Product;
    ZeroProduct(n);
    InterleavedLength(Range(0, d.rows), n);
    TiledLength(Range(0, d.rows), n);
    forall k | k in d.tensors ensures |Repeated(d.tensors[k], n, interleave)| == Product(d.rows, n) {
      InterleavedLength(d.tensors[k], n);
      TiledLength(d.tensors[k], n);
    }
    forall k | k in d.others ensures |Repeated(d.others[k], n, interleave)| == Product(d.rows, n) {
      InterleavedLength(d.others[k], n);
      TiledLength(d.others[k], n);
    }
  }

  /** Interleaved, the n copies of a row stand together: row q*n + j of every column is row q. */
  lemma RepeatInterleavedRow<V>(d: Data<V>, n: nat, q: nat, j: nat)
    requires d.Aligned() && q < d.rows && j < n
    ensures RowIs(Repeat(d, n, true), Product(q, n) + j, d, q)
  {
    hide Interleaved, Tiled, Product;
    RepeatedLength(d, n, true);
    InterleavedRow(Range(0, d.rows), n, q, j);
    forall k | k in d.tensors
      ensures Repeat(d, n, true).tensors[k][Product(q, n) + j] == d.tensors[k][q]
    {
      InterleavedRow(d.tensors[k], n, q, j);
    }
    forall k | k in d.others
      ensures Repeat(d, n, true).others[k][Product(q, n) + j] == d.others[k][q]
    {
      InterleavedRow(d.others[k], n, q, j);
    }
  }

  /** Otherwise the copies of the whole batch follow one another: row q*len + j of every column is
      row j. */
  lemma RepeatTiledRow<V>(d: Data<V>, n: nat, q: nat, j: nat)
    requires d.Aligned() && j < d.rows && q < n
    ensures RowIs(Repeat(d, n, false), Product(q, d.rows) + j, d, j)
  {
    hide Interleaved, Tiled, Product;
    RepeatedLength(d, n, false);
    TiledRow(Range(0, d.rows), n, q, j);
    forall k | k in d.tensors
      ensures Repeat(d, n, false).tensors[k][Product(q, d.rows) + j] == d.tensors[k][j]
    {
      TiledRow(d.tensors[k], n, q, j);
    }
    forall k | k in d.others
      ensures Repeat(d, n, false).others[k][Product(q, d.rows) + j] == d.others[k][j]
    {
      TiledRow(d.others[k], n, q, j);
    }
  }
}
