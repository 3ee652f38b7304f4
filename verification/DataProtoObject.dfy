/** The DataProto operations that change the object they are called on (verl/verl/protocol.py). */
module DataProtoObject {
  import opened Flattening
  import opened DataProto
  import opened Cuts

  predicate HasColumns<V>(d: Data<V>) {
    d.tensors.Keys + d.others.Keys != {}
  }

  // Tensor and array indices may count from the end.
  predicate Indexable(indices: seq<int>, n: nat) {
    forall i :: 0 <= i < |indices| ==> 0 <= indices[i] + n && indices[i] < n
  }

  function Wrap(indices: seq<int>, n: nat): (r: seq<nat>)
    requires Indexable(indices, n)
    ensures |r| == |indices| && InRange(r, n)
    ensures forall i :: 0 <= i < |r| ==> r[i] == if indices[i] < 0 then indices[i] + n else indices[i]
  {
    seq(|indices|, i requires 0 <= i < |indices| => if indices[i] < 0 then indices[i] + n else indices[i])
  }

  // A batch of so many rows without columns.
  function Bare<V>(rows: nat, like: Data<V>): Data<V> {
    Data(rows, like.batched, like.lead, map[], map[])
  }

  // Indices are only looked at where there is a column to index.
  function SelectIdxs<V>(d: Data<V>, indices: seq<int>): Outcome<Data<V>>
    requires d.Aligned()
  {
    if !HasColumns(d) then Ok(Bare(if d.batched then |indices| else 0, d))
    else if Indexable(indices, d.rows) then Ok(Select(d, Wrap(indices, d.rows)))
    else Raises
  }

  // The batch followed by one of its rows, repeated.
  function PaddedRows(n: nat, row: nat, size: nat): seq<nat> {
    Range(0, n) + Times(row, size)
  }

  class Proto<V> {
    var rows: nat
    var batched: bool
    var lead: string
    var tensors: map<string, seq<V>>
    var others: map<string, seq<V>>

    function View(): Data<V>
      reads this
    {
      Data(rows, batched, lead, tensors, others)
    }

    constructor (d: Data<V>)
      requires d.Counted() && d.Consistent()
      ensures View() == d
    {
      rows, batched, lead, tensors, others := d.rows, d.batched, d.lead, d.tensors, d.others;
    }

    method Assign(d: Data<V>)
      modifies this
      ensures View() == d
    {
      rows, batched, lead, tensors, others := d.rows, d.batched, d.lead, d.tensors, d.others;
    }

    /** Reordering in place moves every column's rows the same way, or, when it raises,
        changes nothing; without a tensor batch it always raises. */
    method Reorder(indices: seq<int>) returns (ok: bool)
      requires View().Aligned()
      modifies this
      ensures ok <==>
        && old(batched)
        && (old(HasColumns(View())) ==>
              forall i :: 0 <= i < |indices| ==> 0 <= indices[i] + old(rows) && indices[i] < old(rows))
      ensures View().Aligned()
      ensures !ok ==> View() == old(View())
      ensures ok && old(HasColumns(View())) ==> View() == Select(old(View()), Wrap(indices, old(rows)))
      ensures ok && !old(HasColumns(View())) ==> View() == Bare(|indices|, old(View()))
    {
      hide Select;
      if !batched {
        return false;
      }
      var moved := SelectIdxs(View(), indices);
      if moved.Raises? {
        return false;
      }
      Assign(moved.value);
      ok := true;
    }

    /** Padding in place appends the first or the last row; an empty batch with columns raises
        and stays as it was. */
    method Padding(size: nat, first: bool) returns (ok: bool)
      requires View().Aligned()
      modifies this
      ensures ok <==> size == 0 || !old(HasColumns(View())) || 0 < old(rows)
      ensures !ok || size == 0 ==> View() == old(View())
      ensures ok && old(HasColumns(View())) && size > 0 ==>
        var n := old(rows);
        var row := if first then 0 else n - 1;
        InRange(PaddedRows(n, row, size), n) && View() == Select(old(View()), PaddedRows(n, row, size))
      ensures ok && !old(HasColumns(View())) && size > 0 ==>
        View() == Bare(if old(batched) then old(rows) + size else 0, old(View()))
    {
      hide Select, Repeat, Concat;
      if size == 0 {
        return true;
      }
      var d := View();
      var row: int := if first then 0 else d.rows - 1;
      var candidate := SelectIdxs(d, [row]);
      PickRow(d, row);
      if candidate.Raises? {
        return false;
      }
      var padded := Concat([d, Repeat(candidate.value, size, true)]);
      if HasColumns(d) {
        PaddingIsSelect(d, row, size);
      } else {
        PaddingNothing(d, size);
      }
      Assign(padded.value);
      ok := true;
    }
  }

  // Picking the first or last row works exactly when there is one.
  lemma PickRow<V>(d: Data<V>, row: int)
    requires d.Aligned() && (row == 0 || row == d.rows - 1)
    ensures HasColumns(d) && 0 < d.rows ==> 0 <= row < d.rows && SelectIdxs(d, [row]) == Ok(Select(d, [row]))
    ensures HasColumns(d) && d.rows == 0 ==> SelectIdxs(d, [row]).Raises?
    ensures !HasColumns(d) ==> SelectIdxs(d, [row]) == Ok(Bare(if d.batched then 1 else 0, d))
  {
    hide Select;
    var one := [row];
    if HasColumns(d) && 0 < d.rows {
      assert Indexable(one, d.rows);
      assert Wrap(one, d.rows) == one;
    } else if d.rows == 0 {
      assert one[0] == row;
    }
  }

  lemma RepeatOne(size: nat)
    ensures Repeated(Range(0, 1), size, true) == Times<nat>(0, size)
  {
    var one := Range(0, 1);
    assert one[..0] == [] && one[0] == 0;
    assert Interleaved(one[..0], size) == [];
  }

  lemma PaddingIsSelect<V>(d: Data<V>, row: nat, size: nat)
    requires d.Aligned() && row < d.rows
    ensures InRange(PaddedRows(d.rows, row, size), d.rows)
    ensures Concat([d, Repeat(Select(d, [row]), size, true)]) == Ok(Select(d, PaddedRows(d.rows, row, size)))
  {
    hide Select, Concat, Repeat, Flatten;
    RepeatIsSelect(Select(d, [row]), size, true);
    RepeatOne(size);
    SelectTwice(d, [row], Times(0, size));
    assert Gather([row], Times(0, size)) == Times(row, size);
    SelectAll(d);
    var idxs := [Range(0, d.rows), Times(row, size)];
    assert Selections(d, idxs) == [d, Repeat(Select(d, [row]), size, true)];
    ConcatOfSelections(d, idxs);
    TwoPieces(Range(0, d.rows), Times(row, size));
  }

  lemma TwoPieces(x: seq<nat>, y: seq<nat>)
    ensures Flatten([x, y]) == x + y
  {
    var none: seq<seq<nat>> := [];
    assert [x, y] == [x] + [y] && none + [x] == [x];
    FlattenSnoc([x], y);
    FlattenSnoc(none, x);
    assert Flatten(none) + x == x;
  }

  lemma NothingRepeats<V>(d: Data<V>, size: nat)
    requires !HasColumns(d)
    ensures Repeat(Bare(if d.batched then 1 else 0, d), size, true) == Bare(if d.batched then size else 0, d)
  {
    var part := Repeat(Bare(if d.batched then 1 else 0, d), size, true);
    RepeatOne(size);
    assert Repeated(Range(0, 0), size, true) == [];
    assert part.tensors.Keys == {} && part.others.Keys == {};
  }

  lemma PaddingNothing<V>(d: Data<V>, size: nat)
    requires d.Aligned() && !HasColumns(d)
    ensures var part := Repeat(Bare(if d.batched then 1 else 0, d), size, true);
      Concat([d, part]) == Ok(Bare(if d.batched then d.rows + size else 0, d))
  {
    NothingRepeats(d, size);
    assert d.tensors.Keys == {} && d.others.Keys == {};
    assert d.tensors == map[] && d.others == map[];
    var part := Bare(if d.batched then size else 0, d);
    var ds, rest, none := [d, part], [part], [];
    assert ds == [d] + rest && rest == [part] + none;
    JoinCons(d, rest, d.lead);
    JoinCons(part, none, d.lead);
    JoinNothing(ds, d.lead);
    hide JoinOther, JoinTensor, Repeat;
    assert JoinTensors(ds).Keys == {} && JoinOthers(ds).Keys == {};
  }
}
