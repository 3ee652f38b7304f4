/** Row-aligned batches and their resharding (verl/verl/protocol.py).  Tensor and non-tensor
    columns are kept by name; every reshaping operation is shown to be one selection of rows,
    the same for every column. */
module DataProto {
  import opened Flattening
  import opened Arithmetic
  import opened Cuts

  // lead: the non-tensor column that was put in first.
  datatype Data<V> = Data(
    rows: nat, batched: bool, lead: string, tensors: map<string, seq<V>>, others: map<string, seq<V>>)
  {
    // rows is what len() reports: the size of the tensor batch, or else the length of the first column.
    predicate Counted() {
      if batched then HasLength(tensors, rows)
      else tensors == map[] && (if others == map[] then rows == 0 else lead in others && |others[lead]| == rows)
    }

    // What check_consistency asserts: only a tensor batch ties the other columns to its size.
    predicate Consistent() {
      batched ==> HasLength(others, rows)
    }

    // Every column has the same number of rows.
    predicate Aligned() {
      Counted() && HasLength(tensors, rows) && HasLength(others, rows)
    }
  }

  datatype Outcome<T> = Ok(value: T) | Raises

  predicate HasLength<V>(columns: map<string, seq<V>>, n: nat) {
    forall k :: k in columns ==> |columns[k]| == n
  }

  // -------------------------------------------------------- what the check guarantees

  // For this kind of batch and these non-tensor columns, passing the check means being aligned.
  ghost predicate CheckSuffices<V(!new)>(batched: bool, keys: set<string>) {
    forall d: Data<V> :: d.batched == batched && d.others.Keys == keys && d.Counted() && d.Consistent() ==> d.Aligned()
  }

  lemma OnlyMember(s: set<string>, x: string, y: string)
    requires |s| <= 1 && x in s && y in s
    ensures x == y
  {
    assert |s - {x}| == |s| - 1;
    assert s - {x} == {};
    assert y != x ==> y in s - {x};
  }

  lemma TwoMembers(s: set<string>) returns (x: string, y: string)
    requires |s| >= 2
    ensures x in s && y in s && x != y
  {
    x :| x in s;
    assert |s - {x}| >= 1;
    y :| y in s - {x};
  }

  // One row in the first column, none in the others.
  function Uneven<V>(keys: set<string>, lead: string, v: V): Data<V> {
    Data(1, false, lead, map[], map k | k in keys :: if k == lead then [v] else [])
  }

  /** The consistency check guarantees that the columns line up if and only if there is a tensor
      batch, or at most one column to line up. */
  lemma CheckSufficesIff<V(!new)>(batched: bool, keys: set<string>, v: V)
    ensures CheckSuffices<V>(batched, keys) <==> batched || |keys| <= 1
  {
    if batched || |keys| <= 1 {
      forall d: Data<V> | d.batched == batched && d.others.Keys == keys && d.Counted() && d.Consistent()
          ensures d.Aligned() {
        forall k | k in d.others ensures |d.others[k]| == d.rows {
          if !batched {
            OnlyMember(keys, k, d.lead);
          }
        }
      }
    } else {
      var x, y := TwoMembers(keys);
      UnevenPasses(keys, x, y, v);
    }
  }

  lemma UnevenPasses<V>(keys: set<string>, lead: string, k: string, v: V)
    requires lead in keys && k in keys && k != lead
    ensures var d := Uneven(keys, lead, v);
      !d.batched && d.others.Keys == keys && d.Counted() && d.Consistent() && !d.Aligned()
  {
    var d := Uneven(keys, lead, v);
    assert d.others[k] == [] && d.others[lead] == [v];
  }

  /** Two columns without tensors pass the check and need not line up. */
  lemma CheckMissesUnevenColumns<V>(v: V)
    ensures var d := Data(1, false, "a", map[], map["a" := [v], "b" := []]);
      d.Counted() && d.Consistent() && !d.Aligned()
  {
    var d := Data(1, false, "a", map[], map["a" := [v], "b" := []]);
    assert "a" != "b" by {
      assert "a"[0] != "b"[0];
    }
    UnevenPasses({"a", "b"}, "a", "b", v);
    assert d.others == Uneven({"a", "b"}, "a", v).others;
    assert d == Uneven({"a", "b"}, "a", v);
  }

  // ---------------------------------------------------------------- row selection

  predicate InRange(idx: seq<nat>, n: nat) {
    forall i :: 0 <= i < |idx| ==> idx[i] < n
  }

  predicate AllInRange(idxs: seq<seq<nat>>, n: nat) {
    forall i :: 0 <= i < |idxs| ==> InRange(idxs[i], n)
  }

  function Gather<V>(column: seq<V>, idx: seq<nat>): (r: seq<V>)
    requires InRange(idx, |column|)
    ensures |r| == |idx| && forall i :: 0 <= i < |idx| ==> r[i] == column[idx[i]]
  {
    seq(|idx|, i requires 0 <= i < |idx| => column[idx[i]])
  }

  function GatherAll<V>(columns: map<string, seq<V>>, idx: seq<nat>, n: nat): (r: map<string, seq<V>>)
    requires HasLength(columns, n) && InRange(idx, n)
    ensures r.Keys == columns.Keys && HasLength(r, |idx|)
  {
    map k | k in columns :: Gather(columns[k], idx)
  }

  // The same rows, in the same order, of every column.
  function Select<V>(d: Data<V>, idx: seq<nat>): (r: Data<V>)
    requires d.Aligned() && InRange(idx, d.rows)
    ensures r.Aligned() && r.rows == |idx|
  {
    NoColumnsNoRows(d, idx);
    Data(|idx|, d.batched, d.lead, GatherAll(d.tensors, idx, d.rows), GatherAll(d.others, idx, d.rows))
  }

  lemma NoColumnsNoRows<V>(d: Data<V>, idx: seq<nat>)
    requires d.Aligned() && InRange(idx, d.rows)
    ensures d.rows == 0 ==> idx == []
  {
    if idx != [] {
      assert idx[0] < d.rows;
    }
  }

  function Range(a: nat, b: nat): (r: seq<nat>)
    requires a <= b
    ensures |r| == b - a && forall i :: 0 <= i < b - a ==> r[i] == a + i
  {
    seq(b - a, i requires 0 <= i < b - a => a + i)
  }

  lemma SelectAll<V>(d: Data<V>)
    requires d.Aligned()
    ensures Select(d, Range(0, d.rows)) == d
  {
    var r := Select(d, Range(0, d.rows));
    forall k | k in d.tensors ensures r.tensors[k] == d.tensors[k] {
    }
    forall k | k in d.others ensures r.others[k] == d.others[k] {
    }
  }

  lemma SelectTwice<V>(d: Data<V>, idx: seq<nat>, sub: seq<nat>)
    requires d.Aligned() && InRange(idx, d.rows) && InRange(sub, |idx|)
    ensures InRange(Gather(idx, sub), d.rows)
    ensures Select(Select(d, idx), sub) == Select(d, Gather(idx, sub))
  {
    var l, r := Select(Select(d, idx), sub), Select(d, Gather(idx, sub));
    forall k | k in d.tensors ensures l.tensors[k] == r.tensors[k] {
    }
    forall k | k in d.others ensures l.others[k] == r.others[k] {
    }
  }

  // -------------------------------------------------------------------- slicing

  // A slice bound: negative counts from the end, and everything is clamped.
  function Clamp(i: int, n: nat): (r: nat)
    ensures r <= n
  {
    if i < 0 then (if i + n < 0 then 0 else i + n) else if i > n then n else i
  }

  function PySlice<V>(s: seq<V>, start: int, stop: int): seq<V> {
    var a, b := Clamp(start, |s|), Clamp(stop, |s|);
    if a <= b then s[a..b] else []
  }

  function SliceAll<V>(columns: map<string, seq<V>>, start: int, stop: int): map<string, seq<V>> {
    map k | k in columns :: PySlice(columns[k], start, stop)
  }

  function SliceRows(n: nat, start: int, stop: int): (idx: seq<nat>)
    ensures InRange(idx, n)
  {
    var a, b := Clamp(start, n), Clamp(stop, n);
    if a <= b then Range(a, b) else []
  }

  function Slice<V>(d: Data<V>, start: int, stop: int): Data<V>
  {
    Data(|SliceRows(d.rows, start, stop)|, d.batched, d.lead, SliceAll(d.tensors, start, stop),
        SliceAll(d.others, start, stop))
  }

  lemma ColumnSlice<V>(c: seq<V>, start: int, stop: int)
    ensures PySlice(c, start, stop) == Gather(c, SliceRows(|c|, start, stop))
  {
  }

  lemma SliceColumns<V>(columns: map<string, seq<V>>, n: nat, start: int, stop: int)
    requires HasLength(columns, n)
    ensures SliceAll(columns, start, stop) == GatherAll(columns, SliceRows(n, start, stop), n)
  {
    hide PySlice, SliceRows;
    forall k | k in columns ensures PySlice(columns[k], start, stop) == Gather(columns[k], SliceRows(n, start, stop)) {
      ColumnSlice(columns[k], start, stop);
    }
    assert SliceAll(columns, start, stop).Keys == columns.Keys;
  }

  lemma SliceIsSelect<V>(d: Data<V>, start: int, stop: int)
    requires d.Aligned()
    ensures Slice(d, start, stop) == Select(d, SliceRows(d.rows, start, stop))
  {
    hide SliceAll, GatherAll, SliceRows;
    SliceColumns(d.tensors, d.rows, start, stop);
    SliceColumns(d.others, d.rows, start, stop);
  }

  // -------------------------------------------------------------- concatenation

  function Rows<V>(ds: seq<Data<V>>): nat {
    if ds == [] then 0 else ds[0].rows + Rows(ds[1..])
  }

  // The named column of every entry that has one, end to end.
  function JoinTensor<V>(ds: seq<Data<V>>, k: string): seq<V> {
    if ds == [] then [] else (if k in ds[0].tensors then ds[0].tensors[k] else []) + JoinTensor(ds[1..], k)
  }

  function JoinOther<V>(ds: seq<Data<V>>, k: string): seq<V> {
    if ds == [] then [] else (if k in ds[0].others then ds[0].others[k] else []) + JoinOther(ds[1..], k)
  }

  // torch.cat needs every entry batched with the first one's keys; the non-tensor
  // dictionaries may only repeat the first one's keys.
  predicate Joinable<V>(ds: seq<Data<V>>) {
    && ds != []
    && (ds[0].batched ==> forall i :: 0 <= i < |ds| ==> ds[i].batched && ds[i].tensors.Keys == ds[0].tensors.Keys)
    && (forall i :: 0 <= i < |ds| ==> ds[i].others.Keys <= ds[0].others.Keys)
  }

  function Joined<V>(ds: seq<Data<V>>): Data<V>
    requires ds != []
  {
    var first := ds[0];
    Data(if first.batched then Rows(ds) else |JoinOther(ds, first.lead)|, first.batched, first.lead,
         if first.batched then JoinTensors(ds) else map[], JoinOthers(ds))
  }

  function JoinTensors<V>(ds: seq<Data<V>>): (r: map<string, seq<V>>)
    requires ds != []
  {
    map k | k in ds[0].tensors :: JoinTensor(ds, k)
  }

  function JoinOthers<V>(ds: seq<Data<V>>): (r: map<string, seq<V>>)
    requires ds != []
  {
    map k | k in ds[0].others :: JoinOther(ds, k)
  }

  function Concat<V>(ds: seq<Data<V>>): Outcome<Data<V>> {
    if Joinable(ds) && Joined(ds).Consistent() then Ok(Joined(ds)) else Raises
  }

  function Selections<V>(d: Data<V>, idxs: seq<seq<nat>>): (r: seq<Data<V>>)
    requires d.Aligned() && AllInRange(idxs, d.rows)
    ensures |r| == |idxs| && forall i :: 0 <= i < |idxs| ==> r[i] == Select(d, idxs[i])
  {
    seq(|idxs|, i requires 0 <= i < |idxs| => Select(d, idxs[i]))
  }

  lemma {:induction false} SelectionRows<V>(d: Data<V>, idxs: seq<seq<nat>>)
    requires d.Aligned() && AllInRange(idxs, d.rows)
    ensures InRange(Flatten(idxs), d.rows) && Rows(Selections(d, idxs)) == |Flatten(idxs)|
    decreases |idxs|
  {
    hide Select;
    if idxs != [] {
      SelectionRows(d, idxs[1..]);
      assert Selections(d, idxs)[1..] == Selections(d, idxs[1..]);
    }
  }

  lemma GatherAppend<V>(column: seq<V>, x: seq<nat>, y: seq<nat>)
    requires InRange(x, |column|) && InRange(y, |column|)
    ensures InRange(x + y, |column|) && Gather(column, x + y) == Gather(column, x) + Gather(column, y)
  {
  }

  lemma {:induction false} SelectionTensors<V>(d: Data<V>, idxs: seq<seq<nat>>, k: string)
    requires d.Aligned() && AllInRange(idxs, d.rows)
    requires k in d.tensors && InRange(Flatten(idxs), d.rows)
    ensures JoinTensor(Selections(d, idxs), k) == Gather(d.tensors[k], Flatten(idxs))
    decreases |idxs|
  {
    if idxs != [] {
      SelectionRows(d, idxs[1..]);
      SelectionTensors(d, idxs[1..], k);
      assert Selections(d, idxs)[1..] == Selections(d, idxs[1..]);
      GatherAppend(d.tensors[k], idxs[0], Flatten(idxs[1..]));
    }
  }

  lemma {:induction false} SelectionOthers<V>(d: Data<V>, idxs: seq<seq<nat>>, k: string)
    requires d.Aligned() && AllInRange(idxs, d.rows)
    requires k in d.others && InRange(Flatten(idxs), d.rows)
    ensures JoinOther(Selections(d, idxs), k) == Gather(d.others[k], Flatten(idxs))
    decreases |idxs|
  {
    if idxs != [] {
      SelectionRows(d, idxs[1..]);
      SelectionOthers(d, idxs[1..], k);
      assert Selections(d, idxs)[1..] == Selections(d, idxs[1..]);
      GatherAppend(d.others[k], idxs[0], Flatten(idxs[1..]));
    }
  }

  lemma JoinedTensors<V>(d: Data<V>, idxs: seq<seq<nat>>)
    requires d.Aligned() && idxs != [] && AllInRange(idxs, d.rows) && InRange(Flatten(idxs), d.rows)
    ensures JoinTensors(Selections(d, idxs)) == GatherAll(d.tensors, Flatten(idxs), d.rows)
  {
    var ds, all := Selections(d, idxs), Flatten(idxs);
    hide Flatten, Selections, JoinTensor, InRange, AllInRange;
    assert ds[0].tensors.Keys == d.tensors.Keys;
    var l, r := JoinTensors(ds), GatherAll(d.tensors, all, d.rows);
    forall k | k in l ensures l[k] == r[k] {
      SelectionTensors(d, idxs, k);
    }
  }

  lemma JoinedOthers<V>(d: Data<V>, idxs: seq<seq<nat>>)
    requires d.Aligned() && idxs != [] && AllInRange(idxs, d.rows) && InRange(Flatten(idxs), d.rows)
    ensures JoinOthers(Selections(d, idxs)) == GatherAll(d.others, Flatten(idxs), d.rows)
  {
    var ds, all := Selections(d, idxs), Flatten(idxs);
    hide Flatten, Selections, JoinOther, InRange, AllInRange;
    assert ds[0].others.Keys == d.others.Keys;
    var l, r := JoinOthers(ds), GatherAll(d.others, all, d.rows);
    forall k | k in l ensures l[k] == r[k] {
      SelectionOthers(d, idxs, k);
    }
  }

  lemma NoTensors<V>(d: Data<V>, idx: seq<nat>)
    requires d.Aligned() && InRange(idx, d.rows) && !d.batched
    ensures GatherAll(d.tensors, idx, d.rows) == map[]
  {
    assert GatherAll(d.tensors, idx, d.rows).Keys == {};
  }

  // A column that no entry has joins to nothing.
  lemma {:induction false} JoinNothing<V>(ds: seq<Data<V>>, k: string)
    requires forall i :: 0 <= i < |ds| ==> k !in ds[i].others
    ensures JoinOther(ds, k) == []
    decreases |ds|
  {
    if ds != [] {
      JoinNothing(ds[1..], k);
    }
  }

  lemma JoinedRows<V>(d: Data<V>, idxs: seq<seq<nat>>)
    requires d.Aligned() && idxs != [] && AllInRange(idxs, d.rows)
    ensures InRange(Flatten(idxs), d.rows)
    ensures Joined(Selections(d, idxs)).rows == |Flatten(idxs)| && Joined(Selections(d, idxs)).batched == d.batched
    ensures Joined(Selections(d, idxs)).lead == d.lead
  {
    SelectionRows(d, idxs);
    NoColumnsNoRows(d, Flatten(idxs));
    var ds := Selections(d, idxs);
    if d.lead in d.others {
      SelectionOthers(d, idxs, d.lead);
    } else {
      SelectionsLack(d, idxs, d.lead);
      JoinNothing(ds, d.lead);
    }
    hide Flatten, Selections, JoinTensors, JoinOthers, JoinOther, Rows;
    assert ds[0].others.Keys == d.others.Keys && ds[0].batched == d.batched && ds[0].lead == d.lead;
    assert d.others == map[] <==> d.others.Keys == {};
  }

  lemma SelectionsLack<V>(d: Data<V>, idxs: seq<seq<nat>>, k: string)
    requires d.Aligned() && AllInRange(idxs, d.rows) && k !in d.others
    ensures forall i :: 0 <= i < |Selections(d, idxs)| ==> k !in Selections(d, idxs)[i].others
  {
  }

  lemma SelectionsJoinable<V>(d: Data<V>, idxs: seq<seq<nat>>)
    requires d.Aligned() && idxs != [] && AllInRange(idxs, d.rows)
    ensures Joinable(Selections(d, idxs))
  {
    var ds := Selections(d, idxs);
    hide Selections;
    assert forall i :: 0 <= i < |ds| ==>
        ds[i].batched == d.batched && ds[i].tensors.Keys == d.tensors.Keys && ds[i].others.Keys == d.others.Keys;
  }

  /** Concatenating selections of one batch is selecting the concatenated rows. */
  lemma ConcatOfSelections<V>(d: Data<V>, idxs: seq<seq<nat>>)
    requires d.Aligned() && idxs != [] && AllInRange(idxs, d.rows)
    ensures InRange(Flatten(idxs), d.rows) && Concat(Selections(d, idxs)) == Ok(Select(d, Flatten(idxs)))
  {
    hide Flatten, Selections, Joinable, InRange, GatherAll, JoinTensors, JoinOthers, Data.Aligned;
    SelectionsJoinable(d, idxs);
    JoinedRows(d, idxs);
    JoinedTensors(d, idxs);
    JoinedOthers(d, idxs);
    if !d.batched {
      NoTensors(d, Flatten(idxs));
    }
    assert Joined(Selections(d, idxs)) == Select(d, Flatten(idxs));
  }

  // --------------------------------------------------------------------- padding

  // Rows 0, 1, ..., n-1, 0, 1, ... up to the given length.
  function Cyclic(n: nat, length: nat): (r: seq<nat>)
    requires 0 < n
    ensures |r| == length && forall i :: 0 <= i < length ==> r[i] == Mod(i, n)
    ensures InRange(r, n)
  {
    seq(length, i requires 0 <= i < length => Mod(i, n))
  }

  function PadSize(n: nat, divisor: nat): nat
    requires 0 < divisor
  {
    if Mod(n, divisor) != 0 then divisor - Mod(n, divisor) else 0
  }

  // What the padding loop appends to a column, pass by pass over at most n rows.
  function Passes<V>(c: seq<V>, n: nat, pad: nat): seq<V>
    requires 0 < n
    decreases pad
  {
    if pad == 0 then []
    else
      var take := if pad < n then pad else n;
      PySlice(c, 0, take) + Passes(c, n, pad - take)
  }

  function PadAll<V>(columns: map<string, seq<V>>, n: nat, pad: nat): map<string, seq<V>>
    requires 0 < n
  {
    map k | k in columns :: columns[k] + Passes(columns[k], n, pad)
  }

  // The batch with every column padded, whether or not the columns are of one length.
  function Padded<V>(d: Data<V>, pad: nat): Data<V>
    requires 0 < d.rows
  {
    Data(d.rows + pad, d.batched, d.lead, PadAll(d.tensors, d.rows, pad), PadAll(d.others, d.rows, pad))
  }

  // The slices the loop appends.
  function PaddingOf<V>(d: Data<V>, pad: nat): (r: seq<Data<V>>)
    requires 0 < d.rows
    ensures forall i :: 0 <= i < |r| ==>
      r[i].batched == d.batched && r[i].lead == d.lead && r[i].tensors.Keys == d.tensors.Keys &&
          r[i].others.Keys == d.others.Keys
    decreases pad
  {
    if pad == 0 then []
    else
      var take := if pad < d.rows then pad else d.rows;
      [Slice(d, 0, take)] + PaddingOf(d, pad - take)
  }

  method PadToDivisor<V>(d: Data<V>, divisor: nat) returns (r: Outcome<Data<V>>, pad: nat)
    requires d.Counted() && d.Consistent()
    ensures r.Raises? <==> divisor == 0
    ensures divisor > 0 ==> pad == PadSize(d.rows, divisor)
    ensures divisor > 0 && pad == 0 ==> r == Ok(d)
    ensures divisor > 0 && pad > 0 ==> 0 < d.rows && r == Ok(Padded(d, pad))
    ensures divisor > 0 && pad > 0 && d.Aligned() ==> r == Ok(Select(d, Cyclic(d.rows, d.rows + pad)))
  {
    hide Select, Cyclic, Data.Aligned;
    hide Mod, Padded, PaddingOf, Concat, Slice, Data.Counted, Data.Consistent;
    if divisor == 0 {
      return Raises, 0;
    }
    if Mod(d.rows, divisor) == 0 {
      return Ok(d), 0;
    }
    pad := divisor - Mod(d.rows, divisor);
    ModIs(divisor, 0, 0);
    ZeroProduct(divisor);
    var protos := [d];
    var remaining := pad;
    while remaining > 0
      invariant 0 <= remaining <= pad
      invariant protos + PaddingOf(d, remaining) == [d] + PaddingOf(d, pad)
    {
      var take := if remaining < d.rows then remaining else d.rows;
      PaddingStep(d, remaining);
      protos := protos + [Slice(d, 0, take)];
      remaining := remaining - take;
    }
    NoPadding(d);
    assert protos == [d] + PaddingOf(d, pad);
    ConcatOfPadding(d, pad);
    if d.Aligned() {
      PaddedIsCyclic(d, pad);
    }
    r := Concat(protos);
  }

  lemma PaddingStep<V>(d: Data<V>, pad: nat)
    requires 0 < d.rows && 0 < pad
    ensures var take := if pad < d.rows then pad else d.rows;
      PaddingOf(d, pad) == [Slice(d, 0, take)] + PaddingOf(d, pad - take)
  {
  }

  lemma NoPadding<V>(d: Data<V>)
    requires 0 < d.rows
    ensures PaddingOf(d, 0) == []
  {
  }

  lemma JoinCons<V>(d: Data<V>, rest: seq<Data<V>>, k: string)
    ensures JoinOther([d] + rest, k) == (if k in d.others then d.others[k] else []) + JoinOther(rest, k)
    ensures JoinTensor([d] + rest, k) == (if k in d.tensors then d.tensors[k] else []) + JoinTensor(rest, k)
    ensures Rows([d] + rest) == d.rows + Rows(rest)
  {
    assert ([d] + rest)[1..] == rest;
  }

  lemma PassesStep<V>(c: seq<V>, n: nat, pad: nat)
    requires 0 < n && 0 < pad
    ensures var take := if pad < n then pad else n;
      Passes(c, n, pad) == PySlice(c, 0, take) + Passes(c, n, pad - take)
  {
  }

  lemma {:induction false} JoinPadding<V>(d: Data<V>, pad: nat, k: string)
    requires 0 < d.rows
    ensures k in d.others ==> JoinOther(PaddingOf(d, pad), k) == Passes(d.others[k], d.rows, pad)
    ensures k in d.tensors ==> JoinTensor(PaddingOf(d, pad), k) == Passes(d.tensors[k], d.rows, pad)
    decreases pad
  {
    if pad == 0 {
      NoPadding(d);
    } else {
      var take := if pad < d.rows then pad else d.rows;
      PaddingStep(d, pad);
      JoinPadding(d, pad - take, k);
      JoinCons(Slice(d, 0, take), PaddingOf(d, pad - take), k);
      if k in d.others {
        PassesStep(d.others[k], d.rows, pad);
      }
      if k in d.tensors {
        PassesStep(d.tensors[k], d.rows, pad);
      }
      hide PaddingOf, Passes, JoinOther, JoinTensor, PySlice, Rows;
    }
  }

  lemma {:induction false} PaddingRows<V>(d: Data<V>, pad: nat)
    requires 0 < d.rows
    ensures Rows(PaddingOf(d, pad)) == pad
    decreases pad
  {
    if pad == 0 {
      NoPadding(d);
    } else {
      var take := if pad < d.rows then pad else d.rows;
      PaddingStep(d, pad);
      PaddingRows(d, pad - take);
      JoinCons(Slice(d, 0, take), PaddingOf(d, pad - take), "");
      HeadRows(d, take);
      hide Slice, PaddingOf, Rows, JoinOther, JoinTensor;
    }
  }

  lemma HeadRows<V>(d: Data<V>, take: nat)
    requires take <= d.rows
    ensures Slice(d, 0, take).rows == take
  {
  }

  // A full-length column is passed over cyclically.
  lemma {:induction false} PassesCycle<V>(c: seq<V>, pad: nat)
    requires 0 < |c|
    ensures |Passes(c, |c|, pad)| == pad && forall i :: 0 <= i < pad ==> Passes(c, |c|, pad)[i] == c[Mod(i, |c|)]
    decreases pad
  {
    if pad > 0 {
      var n := |c|;
      var take := if pad < n then pad else n;
      PassesCycle(c, pad - take);
      var rest := Passes(c, n, pad - take);
      assert PySlice(c, 0, take) == c[..take];
      hide Mod, Passes;
      forall i | 0 <= i < pad ensures (c[..take] + rest)[i] == c[Mod(i, n)] {
        if i < take {
          ModIs(n, 0, i);
          ZeroProduct(n);
        } else {
          ModBack(i, n);
        }
      }
    }
  }

  lemma ModBack(i: nat, n: nat)
    requires 0 < n <= i
    ensures Mod(i, n) == Mod(i - n, n)
  {
    DivisionIdentity(i - n, n);
    var q := (i - n) / n;
    Room(q + 1, n);
    hide Product;
    ModIs(n, q + 1, Mod(i - n, n));
  }

  lemma PaddingJoins<V>(d: Data<V>, pad: nat)
    requires 0 < d.rows
    ensures JoinOthers([d] + PaddingOf(d, pad)) == PadAll(d.others, d.rows, pad)
    ensures JoinTensors([d] + PaddingOf(d, pad)) == PadAll(d.tensors, d.rows, pad)
  {
    var rest := PaddingOf(d, pad);
    var ds := [d] + rest;
    assert ds[1..] == rest;
    hide PaddingOf, Passes;
    forall k | k in d.others ensures JoinOther(ds, k) == d.others[k] + Passes(d.others[k], d.rows, pad) {
      JoinPadding(d, pad, k);
    }
    forall k | k in d.tensors ensures JoinTensor(ds, k) == d.tensors[k] + Passes(d.tensors[k], d.rows, pad) {
      JoinPadding(d, pad, k);
    }
    hide JoinOther, JoinTensor;
  }

  lemma PaddingJoinable<V>(d: Data<V>, pad: nat)
    requires 0 < d.rows
    ensures Joinable([d] + PaddingOf(d, pad))
    ensures Rows([d] + PaddingOf(d, pad)) == d.rows + pad
  {
    var rest := PaddingOf(d, pad);
    var ds := [d] + rest;
    assert ds[1..] == rest;
    PaddingRows(d, pad);
    hide PaddingOf;
    assert forall i :: 0 <= i < |ds| ==>
      ds[i].batched == d.batched && ds[i].tensors.Keys == d.tensors.Keys && ds[i].others.Keys == d.others.Keys;
  }

  // The concatenation reports d.rows + pad rows.
  lemma PaddingCounts<V>(d: Data<V>, pad: nat)
    requires d.Counted() && 0 < d.rows
    ensures !d.batched ==> |JoinOther([d] + PaddingOf(d, pad), d.lead)| == d.rows + pad
    ensures !d.batched ==> PadAll(d.tensors, d.rows, pad) == map[]
  {
    var rest := PaddingOf(d, pad);
    assert ([d] + rest)[1..] == rest;
    if !d.batched {
      JoinPadding(d, pad, d.lead);
      PassesCycle(d.others[d.lead], pad);
      assert PadAll(d.tensors, d.rows, pad).Keys == {};
    }
  }

  lemma ConcatOfPadding<V>(d: Data<V>, pad: nat)
    requires d.Counted() && d.Consistent() && 0 < d.rows
    ensures Concat([d] + PaddingOf(d, pad)) == Ok(Padded(d, pad))
  {
    PaddingJoinable(d, pad);
    PaddingJoins(d, pad);
    PaddingCounts(d, pad);
    PaddedLengths(d, pad);
    hide JoinOther, JoinTensor, Rows, PaddingOf, JoinOthers, JoinTensors, Passes, Joinable;
    assert Joined([d] + PaddingOf(d, pad)) == Padded(d, pad);
  }

  // Columns of full length are padded to full length.
  lemma PaddedLengths<V>(d: Data<V>, pad: nat)
    requires 0 < d.rows
    ensures forall k :: k in d.others && |d.others[k]| == d.rows ==>
        |d.others[k] + Passes(d.others[k], d.rows, pad)| == d.rows + pad
    ensures forall k :: k in d.tensors && |d.tensors[k]| == d.rows ==>
        |d.tensors[k] + Passes(d.tensors[k], d.rows, pad)| == d.rows + pad
  {
    forall k | k in d.others && |d.others[k]| == d.rows ensures |Passes(d.others[k], d.rows, pad)| == pad {
      PassesCycle(d.others[k], pad);
    }
    forall k | k in d.tensors && |d.tensors[k]| == d.rows ensures |Passes(d.tensors[k], d.rows, pad)| == pad {
      PassesCycle(d.tensors[k], pad);
    }
  }

  /** Padding aligned columns is one selection of rows: row i is row i mod len. */
  lemma PaddedIsCyclic<V>(d: Data<V>, pad: nat)
    requires d.Aligned() && 0 < d.rows
    ensures Padded(d, pad) == Select(d, Cyclic(d.rows, d.rows + pad))
  {
    var idx := Cyclic(d.rows, d.rows + pad);
    forall k | k in d.others ensures d.others[k] + Passes(d.others[k], d.rows, pad) == Gather(d.others[k], idx) {
      ColumnIsCyclic(d.others[k], pad);
    }
    forall k | k in d.tensors ensures d.tensors[k] + Passes(d.tensors[k], d.rows, pad) == Gather(d.tensors[k], idx) {
      ColumnIsCyclic(d.tensors[k], pad);
    }
    hide Passes, Cyclic, Gather;
    assert PadAll(d.others, d.rows, pad) == GatherAll(d.others, idx, d.rows);
    assert PadAll(d.tensors, d.rows, pad) == GatherAll(d.tensors, idx, d.rows);
  }

  lemma ColumnIsCyclic<V>(c: seq<V>, pad: nat)
    requires 0 < |c|
    ensures c + Passes(c, |c|, pad) == Gather(c, Cyclic(|c|, |c| + pad))
  {
    var n := |c|;
    PassesCycle(c, pad);
    var l, r := c + Passes(c, n, pad), Gather(c, Cyclic(n, n + pad));
    hide Mod, Passes;
    forall i | 0 <= i < n + pad ensures l[i] == r[i] {
      if i < n {
        ModIs(n, 0, i);
        ZeroProduct(n);
      } else {
        ModBack(i, n);
      }
    }
  }

  /** The padded length is the least multiple of the divisor that holds every row. */
  lemma PaddedIsLeastMultiple(n: nat, divisor: nat, m: nat)
    requires 0 < divisor
    ensures Mod(n + PadSize(n, divisor), divisor) == 0 && PadSize(n, divisor) < divisor
    ensures n <= m && Mod(m, divisor) == 0 ==> n + PadSize(n, divisor) <= m
  {
    var q, r, pad := n / divisor, Mod(n, divisor), PadSize(n, divisor);
    DivisionIdentity(n, divisor);
    DivisionIdentity(m, divisor);
    var k := m / divisor;
    hide Mod, Product;
    Nonnegative(q, divisor);
    Room(q + 1, divisor);
    if r != 0 {
      ModIs(divisor, q + 1, 0);
      if n <= m && Mod(m, divisor) == 0 {
        MultipleAbove(q, k, divisor, r);
      }
    }
  }

  lemma MultipleAbove(q: nat, k: nat, d: nat, r: nat)
    requires 0 < r < d && Product(q, d) + r <= Product(k, d)
    ensures Product(q + 1, d) <= Product(k, d)
  {
    hide Product;
    if k <= q {
      ProductGrows(k, q, d);
      assert false;
    } else {
      ProductGrows(q + 1, k, d);
    }
  }

  // data[:-pad_size], when there is padding at all.
  function Unpad<V>(d: Data<V>, pad: int): Data<V> {
    if pad != 0 then Slice(d, 0, -pad) else d
  }

  /** Unpadding a padded batch gives back the batch. */
  lemma UnpadInvertsPad<V>(d: Data<V>, pad: nat)
    requires d.Aligned() && 0 < d.rows
    ensures Unpad(Select(d, Cyclic(d.rows, d.rows + pad)), pad) == d
  {
    hide Select, Slice, Mod, Data.Aligned, SliceRows, Clamp, Range, Cyclic;
    HeadOfCycle(d.rows, pad);
    if pad > 0 {
      DropBack(d, Cyclic(d.rows, d.rows + pad), pad, 0 - pad);
    } else {
      WholeCycle(d.rows);
      SelectAll(d);
    }
  }

  lemma WholeCycle(n: nat)
    requires 0 < n
    ensures Cyclic(n, n) == Range(0, n)
  {
    hide Mod;
    var l, r := Cyclic(n, n), Range(0, n);
    forall i | 0 <= i < n ensures l[i] == r[i] {
      ModIs(n, 0, i);
      ZeroProduct(n);
    }
    assert l == r;
  }

  // Dropping what comes after the batch's own rows.
  lemma DropBack<V>(d: Data<V>, idx: seq<nat>, pad: nat, stop: int)
    requires d.Aligned() && InRange(idx, d.rows) && |idx| == d.rows + pad && 0 < pad && stop + pad == 0
    requires InRange(Range(0, d.rows), |idx|) && Gather(idx, Range(0, d.rows)) == Range(0, d.rows)
    ensures Slice(Select(d, idx), 0, stop) == d
  {
    hide Select, Slice, Data.Aligned, SliceRows, Range;
    SliceIsSelect(Select(d, idx), 0, stop);
    DroppedTail(d.rows, pad, stop);
    SelectTwice(d, idx, Range(0, d.rows));
    SelectAll(d);
  }

  lemma DroppedTail(n: nat, pad: nat, stop: int)
    requires 0 < pad && stop + pad == 0
    ensures SliceRows(n + pad, 0, stop) == Range(0, n)
  {
  }

  lemma HeadOfCycle(n: nat, pad: nat)
    requires 0 < n
    ensures InRange(Range(0, n), n + pad) && Gather(Cyclic(n, n + pad), Range(0, n)) == Range(0, n)
  {
    hide Mod;
    var all := Gather(Cyclic(n, n + pad), Range(0, n));
    forall i | 0 <= i < n ensures all[i] == i {
      ModIs(n, 0, i);
      ZeroProduct(n);
    }
  }

  // -------------------------------------------------------------------- chunking

  // Where the pieces begin: torch.chunk decides for a tensor batch (and the other columns
  // follow its cumulative sizes), numpy.array_split otherwise.
  function PiecesOf(batched: bool, rows: nat, chunks: nat): seq<seq<nat>>
    requires 0 < chunks
  {
    if batched then TorchChunk(Range(0, rows), chunks) else ArraySplit(Range(0, rows), chunks)
  }

  function Starts(pieces: seq<seq<nat>>, i: nat): nat
    requires i <= |pieces|
  {
    |Flatten(pieces[..i])|
  }

  function Chunks<V>(d: Data<V>, chunks: nat, paddingEnabled: bool): Outcome<seq<Data<V>>> {
    if chunks == 0 || (!paddingEnabled && Mod(d.rows, chunks) != 0) ||
        |PiecesOf(d.batched, d.rows, chunks)| != chunks then Raises
    else if d.batched then Ok(CutAt(d, PiecesOf(d.batched, d.rows, chunks)))
    else Ok(SplitColumns(d, chunks))
  }

  // Without a tensor batch each column is split by its own length.
  function SplitColumns<V>(d: Data<V>, chunks: nat): (r: seq<Data<V>>)
    requires 0 < chunks
    ensures |r| == chunks
  {
    seq(chunks, i requires 0 <= i < chunks => ColumnParts(d, chunks, i))
  }

  function ColumnParts<V>(d: Data<V>, chunks: nat, i: nat): Data<V>
    requires i < chunks
  {
    Data(|Part(Range(0, d.rows), chunks, i)|, false, d.lead, map[],
        map k | k in d.others :: Part(d.others[k], chunks, i))
  }

  lemma PartIsGather<V>(c: seq<V>, chunks: nat, i: nat)
    requires i < chunks
    ensures var idx := Part(Range(0, |c|), chunks, i); InRange(idx, |c|) && Part(c, chunks, i) == Gather(c, idx)
  {
    PartInRange(|c|, chunks, i);
    PartInRange(|c|, chunks, i + 1);
    PartSize(|c|, chunks, i);
    hide PartStart, Share;
  }

  lemma ColumnPartsAreSelections<V>(d: Data<V>, chunks: nat)
    requires d.Aligned() && !d.batched && 0 < chunks
    ensures AllInRange(ArraySplit(Range(0, d.rows), chunks), d.rows)
    ensures SplitColumns(d, chunks) == Selections(d, ArraySplit(Range(0, d.rows), chunks))
  {
    var pieces := ArraySplit(Range(0, d.rows), chunks);
    hide Part, Range;
    forall i | 0 <= i < chunks ensures InRange(pieces[i], d.rows) && ColumnParts(d, chunks, i) == Select(d, pieces[i]) {
      ColumnPartIsSelection(d, chunks, i);
    }
    hide ColumnParts, Select;
    var l, r := SplitColumns(d, chunks), Selections(d, pieces);
    assert forall i :: 0 <= i < chunks ==> l[i] == r[i];
  }

  lemma ColumnPartIsSelection<V>(d: Data<V>, chunks: nat, i: nat)
    requires d.Aligned() && !d.batched && i < chunks
    ensures var idx := Part(Range(0, d.rows), chunks, i);
      InRange(idx, d.rows) && ColumnParts(d, chunks, i) == Select(d, idx)
  {
    var idx := Part(Range(0, d.rows), chunks, i);
    RangeInRange(d.rows, chunks, i);
    forall k | k in d.others ensures Part(d.others[k], chunks, i) == Gather(d.others[k], idx) {
      PartIsGather(d.others[k], chunks, i);
    }
    hide Part, Range;
    assert ColumnParts(d, chunks, i).others == GatherAll(d.others, idx, d.rows);
    assert GatherAll(d.tensors, idx, d.rows).Keys == {};
  }

  lemma RangeInRange(rows: nat, chunks: nat, i: nat)
    requires i < chunks
    ensures InRange(Part(Range(0, rows), chunks, i), rows)
  {
    PartInRange(rows, chunks, i);
    PartInRange(rows, chunks, i + 1);
    PartSize(rows, chunks, i);
    hide PartStart, Share;
  }

  // Columns given piece by piece join to the pieces' concatenation.
  lemma {:induction false} JoinPieces<V>(ds: seq<Data<V>>, k: string, parts: seq<seq<V>>)
    requires |ds| == |parts| && forall i :: 0 <= i < |ds| ==> k in ds[i].others && ds[i].others[k] == parts[i]
    ensures JoinOther(ds, k) == Flatten(parts)
    decreases |ds|
  {
    if ds != [] {
      JoinPieces(ds[1..], k, parts[1..]);
    }
  }

  lemma SplitColumnsJoin<V>(d: Data<V>, chunks: nat, k: string)
    requires 0 < chunks && k in d.others
    ensures JoinOther(SplitColumns(d, chunks), k) == d.others[k]
  {
    var c := d.others[k];
    FlattenParts(c, chunks, chunks);
    PartInRange(|c|, chunks, chunks);
    assert ArraySplit(c, chunks)[..chunks] == ArraySplit(c, chunks);
    assert c[..|c|] == c;
    WholePart(|c|, chunks);
    hide Part, PartStart, Flatten;
    JoinPieces(SplitColumns(d, chunks), k, ArraySplit(c, chunks));
  }

  lemma WholePart(total: nat, n: nat)
    requires 0 < n
    ensures PartStart(total, n, n) == total
  {
  }

  lemma ConcatOfSplitColumns<V>(d: Data<V>, chunks: nat)
    requires d.Counted() && !d.batched && 0 < chunks
    ensures Concat(SplitColumns(d, chunks)) == Ok(d)
  {
    var ds := SplitColumns(d, chunks);
    forall k | k in d.others ensures JoinOther(ds, k) == d.others[k] {
      SplitColumnsJoin(d, chunks, k);
    }
    hide Part, JoinOther;
    assert ds[0].others.Keys == d.others.Keys && ds[0].lead == d.lead && !ds[0].batched;
    assert Joinable(ds);
    assert JoinOthers(ds) == d.others;
    if d.others == map[] {
      assert d.lead !in ds[0].others;
      assert JoinOther(ds, d.lead) == [] by {
        JoinNothing(ds, d.lead);
      }
    }
    assert Joined(ds) == d;
  }

  // One batch per piece, every column cut at the same starts.
  function CutAt<V>(d: Data<V>, pieces: seq<seq<nat>>): (r: seq<Data<V>>)
    ensures |r| == |pieces|
  {
    seq(|pieces|, i requires 0 <= i < |pieces| => Slice(d, Starts(pieces, i), Starts(pieces, i + 1)))
  }

  lemma CutsAreSelections<V>(d: Data<V>, pieces: seq<seq<nat>>)
    requires d.Aligned() && Flatten(pieces) == Range(0, d.rows)
    ensures AllInRange(pieces, d.rows) && CutAt(d, pieces) == Selections(d, pieces)
  {
    hide Select, Slice, Starts, Flatten, Data.Aligned, Range;
    forall i | 0 <= i < |pieces|
      ensures InRange(pieces[i], d.rows)
      ensures Slice(d, Starts(pieces, i), Starts(pieces, i + 1)) == Select(d, pieces[i])
    {
      RangeIsSelect(d, pieces, i);
    }
    var l, r := CutAt(d, pieces), Selections(d, pieces);
    assert forall i :: 0 <= i < |pieces| ==> l[i] == r[i];
  }

  lemma {:induction false} FlattenPiecesBack<T>(t: seq<T>, size: nat)
    requires 0 < size && t != []
    ensures Flatten(Pieces(t, size)) == t
    decreases |t|
  {
    if |t| <= size {
      assert [t][1..] == [] && Flatten([t]) == t + Flatten([]);
    } else {
      FlattenPiecesBack(t[size..], size);
      assert Pieces(t, size)[1..] == Pieces(t[size..], size);
      assert t == t[..size] + t[size..];
    }
  }

  lemma {:induction false} FlattenEmpties<T>(n: nat)
    ensures Flatten<T>(seq(n, i => [])) == []
  {
    if n > 0 {
      FlattenEmpties<T>(n - 1);
      assert seq(n, i => [])[1..] == seq<seq<T>>(n - 1, i => []);
    }
  }

  lemma PiecesCoverRows(batched: bool, rows: nat, chunks: nat)
    requires 0 < chunks
    ensures Flatten(PiecesOf(batched, rows, chunks)) == Range(0, rows)
  {
    var t := Range(0, rows);
    if batched {
      if t == [] {
        FlattenEmpties<nat>(chunks);
      } else {
        CeilPositive(rows, chunks);
        FlattenPiecesBack(t, CeilDiv(rows, chunks));
      }
    } else {
      FlattenParts(t, chunks, chunks);
      assert ArraySplit(t, chunks)[..chunks] == ArraySplit(t, chunks);
      assert t[..rows] == t;
    }
  }

  lemma PieceIsSlice<T>(pieces: seq<seq<T>>, i: nat)
    requires i < |pieces|
    ensures |Flatten(pieces[..i])| + |pieces[i]| == |Flatten(pieces[..i + 1])| <= |Flatten(pieces)|
    ensures Flatten(pieces)[|Flatten(pieces[..i])|..|Flatten(pieces[..i + 1])|] == pieces[i]
  {
    hide Flatten;
    assert pieces[..i + 1] == pieces[..i] + [pieces[i]];
    FlattenSnoc(pieces[..i], pieces[i]);
    assert pieces == pieces[..i + 1] + pieces[i + 1..];
    FlattenAppend(pieces[..i + 1], pieces[i + 1..]);
  }

  // The i-th piece of the rows is the range between its start and the next.
  lemma PieceIsRange(pieces: seq<seq<nat>>, rows: nat, i: nat)
    requires Flatten(pieces) == Range(0, rows) && i < |pieces|
    ensures Starts(pieces, i) <= Starts(pieces, i + 1) <= rows
    ensures pieces[i] == Range(Starts(pieces, i), Starts(pieces, i + 1))
  {
    hide Flatten;
    PieceIsSlice(pieces, i);
    var a, b := Starts(pieces, i), Starts(pieces, i + 1);
    var l, r := Range(0, rows)[a..b], Range(a, b);
    assert forall j :: 0 <= j < b - a ==> l[j] == r[j];
  }

  lemma ChunkIsSelect<V>(d: Data<V>, chunks: nat, paddingEnabled: bool)
    requires d.Aligned() && Chunks(d, chunks, paddingEnabled).Ok?
    ensures var pieces := PiecesOf(d.batched, d.rows, chunks);
      && |pieces| == chunks && Flatten(pieces) == Range(0, d.rows) && AllInRange(pieces, d.rows)
      && Chunks(d, chunks, paddingEnabled).value == Selections(d, pieces)
  {
    hide Select, CutAt, SplitColumns, Flatten, Data.Aligned, Mod, Selections, ArraySplit, TorchChunk;
    PiecesCoverRows(d.batched, d.rows, chunks);
    if d.batched {
      CutsAreSelections(d, PiecesOf(d.batched, d.rows, chunks));
    } else {
      ColumnPartsAreSelections(d, chunks);
    }
  }

  lemma RangeIsSelect<V>(d: Data<V>, pieces: seq<seq<nat>>, i: nat)
    requires d.Aligned() && Flatten(pieces) == Range(0, d.rows) && i < |pieces|
    ensures InRange(pieces[i], d.rows) && Slice(d, Starts(pieces, i), Starts(pieces, i + 1)) == Select(d, pieces[i])
  {
    hide Starts, Flatten, Slice, Select, Data.Aligned;
    PieceIsRange(pieces, d.rows, i);
    SliceIsSelect(d, Starts(pieces, i), Starts(pieces, i + 1));
  }

  lemma BatchedIsAligned<V>(d: Data<V>)
    requires d.Counted() && d.Consistent() && d.batched
    ensures d.Aligned()
  {
  }

  /** Whenever chunking succeeds, concatenating the chunks gives back the batch, even one whose
      columns do not line up. */
  lemma ConcatInvertsChunk<V>(d: Data<V>, chunks: nat, paddingEnabled: bool)
    requires d.Counted() && d.Consistent() && Chunks(d, chunks, paddingEnabled).Ok?
    ensures |Chunks(d, chunks, paddingEnabled).value| == chunks
    ensures Concat(Chunks(d, chunks, paddingEnabled).value) == Ok(d)
  {
    hide Select, Concat, Flatten, PiecesOf, SplitColumns, CutAt, Data.Aligned, Data.Counted, Data.Consistent;
    if d.batched {
      BatchedIsAligned(d);
      ChunkIsSelect(d, chunks, paddingEnabled);
      ConcatOfSelections(d, PiecesOf(d.batched, d.rows, chunks));
      SelectAll(d);
    } else {
      ConcatOfSplitColumns(d, chunks);
    }
  }

  lemma {:induction false} PieceCount<T>(t: seq<T>, size: nat)
    requires 0 < size && t != []
    ensures |Pieces(t, size)| == CeilDiv(|t|, size)
    decreases |t|
  {
    if |t| <= size {
      assert CeilDiv(|t|, size) == 1 by {
        hide CeilDiv, Product;
        CeilDivBounds(|t|, size, 1);
        CeilDivBounds(|t|, size, 0);
        OneProduct(size);
        ZeroProduct(size);
      }
    } else {
      PieceCount(t[size..], size);
      CeilStep(|t| - size, size);
    }
  }

  lemma CeilStep(a: int, size: nat)
    requires 0 < size
    ensures CeilDiv(a + size, size) == CeilDiv(a, size) + 1
  {
    hide CeilDiv, Product;
    var c := CeilDiv(a, size);
    CeilDivBounds(a, size, c);
    CeilDivBounds(a, size, c - 1);
    CeilDivBounds(a + size, size, c + 1);
    CeilDivBounds(a + size, size, c);
    Spread(c, 1, size);
    Spread(c - 1, 1, size);
    OneProduct(size);
  }

  /** When chunking succeeds: an even split always does; an uneven one needs padding enabled,
      and then a tensor batch still fails unless rounding the piece size up leaves exactly
      `chunks` pieces. */
  lemma ChunkSucceedsIff<V>(d: Data<V>, chunks: nat, paddingEnabled: bool)
    ensures Chunks(d, chunks, paddingEnabled).Ok? <==>
      && 0 < chunks && (paddingEnabled || Mod(d.rows, chunks) == 0)
      && (d.batched && 0 < d.rows ==> 0 < CeilDiv(d.rows, chunks) && CeilDiv(d.rows, CeilDiv(d.rows, chunks)) == chunks)
    ensures 0 < chunks && Mod(d.rows, chunks) == 0 ==> Chunks(d, chunks, paddingEnabled).Ok?
  {
    if 0 < chunks {
      if d.batched && 0 < d.rows {
        CeilPositive(d.rows, chunks);
        PieceCount(Range(0, d.rows), CeilDiv(d.rows, chunks));
        if Mod(d.rows, chunks) == 0 {
          EvenPieces(d.rows, chunks);
        }
      }
    }
  }

  lemma EvenPieces(rows: nat, chunks: nat)
    requires 0 < rows && 0 < chunks && Mod(rows, chunks) == 0
    ensures 0 < CeilDiv(rows, chunks) == rows / chunks && CeilDiv(rows, CeilDiv(rows, chunks)) == chunks
  {
    var q := rows / chunks;
    assert rows == Product(q, chunks) == Product(chunks, q);
    hide CeilDiv, Product;
    ExactCeil(q, chunks, rows);
    ZeroProduct(chunks);
    ExactCeil(chunks, q, rows);
  }

  // ---------------------------------------------------------------- fan-in, fan-out

  // DataProtoFuture.get on chunk i: fetch all outputs, concatenate, chunk, keep one.
  function Get<V>(outputs: seq<Data<V>>, i: nat, chunks: nat, paddingEnabled: bool): Outcome<Data<V>>
    requires i < chunks
  {
    var whole := Concat(outputs);
    if whole.Raises? then Raises
    else
      var parts := Chunks(whole.value, chunks, paddingEnabled);
      if parts.Ok? && i < |parts.value| then Ok(parts.value[i]) else Raises
  }

  // The parts a fan-out hands to its workers.
  function Gets<V>(outputs: seq<Data<V>>, chunks: nat, paddingEnabled: bool): seq<Outcome<Data<V>>> {
    seq(chunks, i requires 0 <= i < chunks => Get(outputs, i, chunks, paddingEnabled))
  }

  function Values<V>(parts: seq<Outcome<Data<V>>>): seq<Data<V>>
    requires forall i :: 0 <= i < |parts| ==> parts[i].Ok?
  {
    seq(|parts|, i requires 0 <= i < |parts| => parts[i].value)
  }

  /** Workers that each take their chunk of the gathered outputs partition them exactly: put
      back together, their inputs are the concatenation of the outputs, whatever the two sizes. */
  lemma FanOutPartitionsFanIn<V>(outputs: seq<Data<V>>, chunks: nat, paddingEnabled: bool)
    requires forall i :: 0 <= i < |outputs| ==> outputs[i].Counted()
    requires Concat(outputs).Ok? && Chunks(Concat(outputs).value, chunks, paddingEnabled).Ok?
    ensures var parts := Gets(outputs, chunks, paddingEnabled);
      && (forall i :: 0 <= i < |parts| ==> parts[i].Ok?)
      && Concat(Values(parts)) == Concat(outputs)
  {
    hide Joinable, Joined, Chunks, Data.Counted, Data.Consistent;
    var whole := Concat(outputs).value;
    JoinedIsCounted(outputs);
    assert whole.Counted() && whole.Consistent();
    hide Concat;
    ConcatInvertsChunk(whole, chunks, paddingEnabled);
    var parts := Gets(outputs, chunks, paddingEnabled);
    assert Values(parts) == Chunks(whole, chunks, paddingEnabled).value;
  }

  // len() of a concatenation is what its columns say.
  lemma JoinedIsCounted<V>(ds: seq<Data<V>>)
    requires Joinable(ds) && forall i :: 0 <= i < |ds| ==> ds[i].Counted()
    ensures Joined(ds).Counted()
  {
    var first := ds[0];
    if first.batched {
      forall k | k in first.tensors ensures |JoinTensor(ds, k)| == Rows(ds) {
        JoinedLength(ds, k);
      }
    } else if first.others == map[] {
      assert forall i :: 0 <= i < |ds| ==> ds[i].others.Keys <= {};
      JoinNothing(ds, first.lead);
      assert JoinOthers(ds).Keys == {};
    }
  }

  lemma {:induction false} JoinedLength<V>(ds: seq<Data<V>>, k: string)
    requires forall i :: 0 <= i < |ds| ==> ds[i].Counted() && ds[i].batched && k in ds[i].tensors
    ensures |JoinTensor(ds, k)| == Rows(ds)
    decreases |ds|
  {
    if ds != [] {
      JoinedLength(ds[1..], k);
    }
  }

  // ---------------------------------------------------------------------- repeating

  function Times<V>(v: V, n: nat): (r: seq<V>)
    ensures |r| == n && forall i :: 0 <= i < n ==> r[i] == v
  {
    seq(n, i => v)
  }

  // repeat_interleave: each row n times in place.
  function Interleaved<V>(column: seq<V>, n: nat): seq<V> {
    if column == [] then [] else Interleaved(column[..|column| - 1], n) + Times(column[|column| - 1], n)
  }

  // expand and reshape, or numpy.tile: the whole column n times.
  function Tiled<V>(column: seq<V>, n: nat): seq<V> {
    if n == 0 then [] else Tiled(column, n - 1) + column
  }

  function Repeated<V>(column: seq<V>, n: nat, interleave: bool): seq<V> {
    if interleave then Interleaved(column, n) else Tiled(column, n)
  }

  function Repeat<V>(d: Data<V>, n: nat, interleave: bool): Data<V> {
    Data(|Repeated(Range(0, d.rows), n, interleave)|, d.batched, d.lead,
         map k | k in d.tensors :: Repeated(d.tensors[k], n, interleave),
         map k | k in d.others :: Repeated(d.others[k], n, interleave))
  }

  lemma {:induction false} InterleavedGather<V>(column: seq<V>, idx: seq<nat>, n: nat)
    requires InRange(idx, |column|)
    ensures InRange(Interleaved(idx, n), |column|)
    ensures Interleaved(Gather(column, idx), n) == Gather(column, Interleaved(idx, n))
    decreases |idx|
  {
    if idx != [] {
      var m := |idx| - 1;
      InterleavedGather(column, idx[..m], n);
      assert Gather(column, idx)[..m] == Gather(column, idx[..m]);
      GatherAppend(column, Interleaved(idx[..m], n), Times(idx[m], n));
      assert Gather(column, Times(idx[m], n)) == Times(column[idx[m]], n);
    }
  }

  lemma {:induction false} TiledGather<V>(column: seq<V>, idx: seq<nat>, n: nat)
    requires InRange(idx, |column|)
    ensures InRange(Tiled(idx, n), |column|) && Tiled(Gather(column, idx), n) == Gather(column, Tiled(idx, n))
  {
    if n > 0 {
      TiledGather(column, idx, n - 1);
      GatherAppend(column, Tiled(idx, n - 1), idx);
    }
  }

  lemma RepeatedGather<V>(column: seq<V>, n: nat, interleave: bool)
    ensures var idx := Repeated(Range(0, |column|), n, interleave);
      InRange(idx, |column|) && Repeated(column, n, interleave) == Gather(column, idx)
  {
    var all := Range(0, |column|);
    InterleavedGather(column, all, n);
    TiledGather(column, all, n);
    assert Gather(column, all) == column;
  }

  /** Repeating is one row selection for tensor and other columns alike. */
  lemma RepeatIsSelect<V>(d: Data<V>, n: nat, interleave: bool)
    requires d.Aligned()
    ensures InRange(Repeated(Range(0, d.rows), n, interleave), d.rows)
    ensures Repeat(d, n, interleave) == Select(d, Repeated(Range(0, d.rows), n, interleave))
  {
    var idx := Repeated(Range(0, d.rows), n, interleave);
    RepeatedGather(Range(0, d.rows), n, interleave);
    forall k | k in d.tensors ensures Repeated(d.tensors[k], n, interleave) == Gather(d.tensors[k], idx) {
      RepeatedGather(d.tensors[k], n, interleave);
    }
    forall k | k in d.others ensures Repeated(d.others[k], n, interleave) == Gather(d.others[k], idx) {
      RepeatedGather(d.others[k], n, interleave);
    }
    hide Repeated;
    assert Repeat(d, n, interleave).tensors == Select(d, idx).tensors;
    assert Repeat(d, n, interleave).others == Select(d, idx).others;
  }

  // Row q*n + j of an interleaved repetition is row q; row q*m + j of a tiled one is row j.
  lemma {:induction false} InterleavedRow<V>(column: seq<V>, n: nat, q: nat, j: nat)
    requires q < |column| && j < n
    ensures |Interleaved(column, n)| == Product(|column|, n)
    ensures 0 <= Product(q, n) + j < |Interleaved(column, n)| && Interleaved(column, n)[Product(q, n) + j] == column[q]
    decreases |column|
  {
    hide Product;
    var m := |column| - 1;
    Nonnegative(q, n);
    ZeroProduct(n);
    Spread(m, 1, n);
    OneProduct(n);
    if q < m {
      InterleavedRow(column[..m], n, q, j);
    } else if m > 0 {
      InterleavedRow(column[..m], n, 0, j);
    }
  }

  lemma {:induction false} TiledRow<V>(column: seq<V>, n: nat, q: nat, j: nat)
    requires j < |column| && q < n
    ensures |Tiled(column, n)| == Product(n, |column|)
    ensures 0 <= Product(q, |column|) + j < |Tiled(column, n)| &&
        Tiled(column, n)[Product(q, |column|) + j] == column[j]
    decreases n
  {
    hide Product;
    Nonnegative(q, |column|);
    ZeroProduct(|column|);
    Spread(n - 1, 1, |column|);
    OneProduct(|column|);
    if q < n - 1 {
      TiledRow(column, n - 1, q, j);
    } else if n > 1 {
      TiledRow(column, n - 1, 0, j);
    }
  }

  // ---------------------------------------------------------------------- splitting

  // [self[i : i + size] for i in range(0, len(self), size)]
  function SplitFrom<V>(d: Data<V>, i: nat, size: nat): seq<Data<V>>
    requires 0 < size
    decreases if i < d.rows then d.rows - i else 0
  {
    if d.rows <= i then [] else [Slice(d, i, i + size)] + SplitFrom(d, i + size, size)
  }

  function RangesFrom(i: nat, rows: nat, size: nat): (r: seq<seq<nat>>)
    requires 0 < size
    ensures i < rows ==> r != []
    decreases if i < rows then rows - i else 0
  {
    if rows <= i then [] else [Range(i, if i + size < rows then i + size else rows)] + RangesFrom(i + size, rows, size)
  }

  lemma {:induction false} SplitIsSelect<V>(d: Data<V>, i: nat, size: nat)
    requires d.Aligned() && 0 < size && i <= d.rows
    ensures AllInRange(RangesFrom(i, d.rows, size), d.rows)
    ensures SplitFrom(d, i, size) == Selections(d, RangesFrom(i, d.rows, size))
    ensures Flatten(RangesFrom(i, d.rows, size)) == Range(i, d.rows)
    decreases d.rows - i
  {
    hide Select, Slice, Data.Aligned, Range;
    if i < d.rows {
      var stop := if i + size < d.rows then i + size else d.rows;
      SliceOfRange(d, i, size, stop);
      var idxs, rest := RangesFrom(i, d.rows, size), RangesFrom(i + size, d.rows, size);
      if i + size <= d.rows {
        SplitIsSelect(d, i + size, size);
      } else {
        assert Range(d.rows, d.rows) == [];
      }
      assert idxs[1..] == rest;
      SelectionsCons(d, Range(i, stop), rest);
      JoinRanges(i, stop, d.rows);
    } else {
      assert Range(d.rows, d.rows) == [];
    }
  }

  lemma JoinRanges(a: nat, b: nat, c: nat)
    requires a <= b <= c
    ensures Range(a, b) + Range(b, c) == Range(a, c)
  {
  }

  lemma SelectionsCons<V>(d: Data<V>, idx: seq<nat>, rest: seq<seq<nat>>)
    requires d.Aligned() && InRange(idx, d.rows) && AllInRange(rest, d.rows)
    ensures AllInRange([idx] + rest, d.rows) && Selections(d, [idx] + rest) == [Select(d, idx)] + Selections(d, rest)
  {
    hide Select, Data.Aligned, InRange;
  }

  lemma SliceOfRange<V>(d: Data<V>, i: nat, size: nat, stop: nat)
    requires d.Aligned() && i < d.rows && stop == if i + size < d.rows then i + size else d.rows
    ensures i <= stop && InRange(Range(i, stop), d.rows) && Slice(d, i, i + size) == Select(d, Range(i, stop))
  {
    hide Select, Slice, Data.Aligned;
    SliceIsSelect(d, i, i + size);
    assert SliceRows(d.rows, i, i + size) == Range(i, stop);
  }

  /** Concatenating the parts of a split gives back any batch that has rows. */
  lemma ConcatInvertsSplit<V>(d: Data<V>, size: nat)
    requires d.Aligned() && 0 < size && 0 < d.rows
    ensures Concat(SplitFrom(d, 0, size)) == Ok(d)
  {
    hide Select, Concat, Flatten, Data.Aligned;
    SplitIsSelect(d, 0, size);
    ConcatOfSelections(d, RangesFrom(0, d.rows, size));
    SelectAll(d);
  }
}
