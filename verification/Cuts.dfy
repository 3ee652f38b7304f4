/** Cutting rows into pieces: torch.chunk and numpy.array_split, and putting them back together. */
module Cuts {
  import opened Arithmetic
  import opened Flattening

  // Consecutive pieces of one size; the last may be shorter.
  function Pieces<T>(t: seq<T>, size: nat): (r: seq<seq<T>>)
    requires 0 < size && t != []
    decreases |t|
  {
    if |t| <= size then [t] else [t[..size]] + Pieces(t[size..], size)
  }

  // min(i, n)
  function AtMost(i: nat, n: nat): nat {
    if i < n then i else n
  }

  lemma {:induction false} PieceAt<T>(t: seq<T>, size: nat, k: nat)
    requires 0 < size && t != [] && k < |Pieces(t, size)|
    ensures 0 <= Product(k, size) < |t|
    ensures Pieces(t, size)[k] == t[Product(k, size)..AtMost(Product(k, size) + size, |t|)]
    decreases k
  {
    hide Product;
    ZeroProduct(size);
    if k > 0 {
      Spread(1, k - 1, size);
      OneProduct(size);
      PieceAt(t[size..], size, k - 1);
      var a := Product(k - 1, size);
      var rest := t[size..];
      assert rest[a..AtMost(a + size, |rest|)] == t[size + a..AtMost(size + a + size, |t|)];
    }
  }

  // torch.chunk
  function TorchChunk<T>(t: seq<T>, n: nat): seq<seq<T>>
    requires 0 < n
  {
    if t == [] then seq(n, i => []) else CeilPositive(|t|, n); Pieces(t, CeilDiv(|t|, n))
  }

  lemma CeilPositive(a: nat, n: nat)
    requires 0 < a && 0 < n
    ensures 0 < CeilDiv(a, n)
  {
    assert a + n - 1 >= n;
  }

  predicate Uniform<T>(blocks: seq<seq<T>>, size: nat) {
    forall i :: 0 <= i < |blocks| ==> |blocks[i]| == size
  }

  lemma {:induction false} PiecesOfBlocks<T>(blocks: seq<seq<T>>, size: nat)
    requires 0 < size && blocks != [] && Uniform(blocks, size)
    ensures Flatten(blocks) != [] && Pieces(Flatten(blocks), size) == blocks
    decreases |blocks|
  {
    var t := Flatten(blocks);
    if |blocks| == 1 {
      assert Flatten(blocks[1..]) == [];
      assert t == blocks[0];
      assert blocks == [blocks[0]];
    } else {
      PiecesOfBlocks(blocks[1..], size);
      assert t[..size] == blocks[0] && t[size..] == Flatten(blocks[1..]);
      assert blocks == [blocks[0]] + blocks[1..];
    }
  }

  lemma {:induction false} PiecesAreUniform<T>(t: seq<T>, size: nat, n: nat)
    requires 0 < size && t != [] && |t| == Product(n, size)
    ensures |Pieces(t, size)| == n && Uniform(Pieces(t, size), size) && Flatten(Pieces(t, size)) == t
    decreases n
  {
    hide Product;
    ZeroProduct(size);
    if n > 0 {
      Spread(n - 1, 1, size);
      OneProduct(size);
      if n == 1 {
        assert Flatten([t]) == t + Flatten([]);
      } else {
        ProductGrows(1, n - 1, size);
        var rest := t[size..];
        PiecesAreUniform(rest, size, n - 1);
        assert Pieces(t, size)[1..] == Pieces(rest, size);
        assert t == t[..size] + rest;
      }
    }
  }

  lemma {:induction false} PiecesAppend<T>(s: seq<T>, t: seq<T>, size: nat, n: nat)
    requires 0 < size && s != [] && t != [] && |s| == Product(n, size)
    ensures Pieces(s + t, size) == Pieces(s, size) + Pieces(t, size)
    decreases n
  {
    hide Product;
    ZeroProduct(size);
    if n > 0 {
      Room(n, size);
      assert (s + t)[..size] == s[..size];
      if n == 1 {
        assert (s + t)[size..] == t;
      } else {
        ProductGrows(1, n - 1, size);
        OneProduct(size);
        assert (s + t)[size..] == s[size..] + t;
        PiecesAppend(s[size..], t, size, n - 1);
      }
    }
  }

  function Share(total: nat, n: nat): nat
    requires 0 < n
  {
    total / n
  }

  function Extra(total: nat, n: nat): nat
    requires 0 < n
  {
    total % n
  }

  // numpy.array_split: the first |keys| % n parts get one more.
  function PartStart(total: nat, n: nat, j: nat): int
    requires 0 < n && j <= n
  {
    Product(j, Share(total, n)) + (if j < Extra(total, n) then j else Extra(total, n))
  }

  function ArraySplit<T>(keys: seq<T>, n: nat): (parts: seq<seq<T>>)
    requires 0 < n
    ensures |parts| == n
  {
    seq(n, j requires 0 <= j < n => Part(keys, n, j))
  }

  function Part<T>(keys: seq<T>, n: nat, j: nat): seq<T>
    requires 0 < n && j < n
  {
    PartInRange(|keys|, n, j);
    PartInRange(|keys|, n, j + 1);
    PartSize(|keys|, n, j);
    keys[PartStart(|keys|, n, j)..PartStart(|keys|, n, j + 1)]
  }

  lemma PartInRange(total: nat, n: nat, j: nat)
    requires 0 < n && j <= n
    ensures 0 <= PartStart(total, n, j) <= total
  {
    PartGrows(total, n, 0, j);
    PartGrows(total, n, j, n);
  }

  lemma PartGrows(total: nat, n: nat, i: nat, j: nat)
    requires 0 < n && i <= j <= n
    ensures PartStart(total, n, i) <= PartStart(total, n, j)
  {
    hide Product, Share, Extra;
    ProductGrows(i, j, Share(total, n));
  }

  lemma PartSize(total: nat, n: nat, j: nat)
    requires 0 < n && j < n
    ensures PartStart(total, n, j + 1) - PartStart(total, n, j)
            == Share(total, n) + if j < Extra(total, n) then 1 else 0
  {
    hide Product, Share, Extra;
    Spread(j, 1, Share(total, n));
    OneProduct(Share(total, n));
  }

  lemma {:induction false} FlattenParts<T>(keys: seq<T>, n: nat, j: nat)
    requires 0 < n && j <= n
    ensures 0 <= PartStart(|keys|, n, j) <= |keys|
    ensures Flatten(ArraySplit(keys, n)[..j]) == keys[..PartStart(|keys|, n, j)]
  {
    PartInRange(|keys|, n, j);
    if j > 0 {
      FlattenParts(keys, n, j - 1);
      PartGrows(|keys|, n, j - 1, j);
      hide PartStart, Share, Extra, Product;
      var parts := ArraySplit(keys, n);
      assert parts[..j] == parts[..j - 1] + [Part(keys, n, j - 1)];
      FlattenSnoc(parts[..j - 1], Part(keys, n, j - 1));
    }
  }
}
