/** A sequence of sequences end to end: the chunks of a list of buckets, the rows of a list of shards. */
module Flattening {
  function Flatten<T>(blocks: seq<seq<T>>): seq<T> {
    if blocks == [] then [] else blocks[0] + Flatten(blocks[1..])
  }

  lemma {:induction false} FlattenAppend<T>(x: seq<seq<T>>, y: seq<seq<T>>)
    ensures Flatten(x + y) == Flatten(x) + Flatten(y)
    decreases |x|
  {
    if x == [] {
      assert x + y == y;
    } else {
      assert (x + y)[1..] == x[1..] + y;
      FlattenAppend(x[1..], y);
    }
  }

  lemma FlattenSnoc<T>(x: seq<seq<T>>, last: seq<T>)
    ensures Flatten(x + [last]) == Flatten(x) + last
  {
    FlattenAppend(x, [last]);
    assert [last][1..] == [] && Flatten([last]) == last + Flatten([]);
  }

  lemma FlattenTake<T>(bs: seq<seq<T>>, k: nat)
    requires k < |bs|
    ensures Flatten(bs[..k + 1]) == Flatten(bs[..k]) + bs[k]
  {
    assert bs[..k + 1] == bs[..k] + [bs[k]];
    FlattenSnoc(bs[..k], bs[k]);
  }

  // All of element k after those before it is none of element k + 1 after those up to k.
  lemma FlattenNext<T>(bs: seq<seq<T>>, k: nat)
    requires k + 1 < |bs|
    ensures Flatten(bs[..k]) + bs[k][..|bs[k]|] == Flatten(bs[..k + 1]) + bs[k + 1][..0]
  {
    FlattenTake(bs, k);
    hide Flatten;
    assert bs[k][..|bs[k]|] == bs[k];
    assert bs[k + 1][..0] == [];
  }

  lemma FlattenPrefix<T>(bs: seq<seq<T>>, k: nat, j: nat)
    requires k < |bs| && j <= |bs[k]|
    ensures Flatten(bs[..k]) + bs[k][..j] <= Flatten(bs)
  {
    hide Flatten;
    FlattenTake(bs, k);
    FlattenAppend(bs[..k + 1], bs[k + 1..]);
    assert bs[..k + 1] + bs[k + 1..] == bs;
    assert bs[k] == bs[k][..j] + bs[k][j..];
  }
}
