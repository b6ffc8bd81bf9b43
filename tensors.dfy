/** Tensors as far as the checkpoint code uses them: a tensor is the sequence
    of its slices along dimension 0 ("rows"), `torch.cat` along dimension 0 is
    concatenation, and `torch.split` / `torch.chunk` along dimension 0 cut the
    sequence into consecutive pieces. The numbers inside a row never matter. */
module Tensors {
  import opened Results

  type Row = seq<real>
  type Tensor = seq<Row>

  /** `torch.cat(parts)` along dimension 0. */
  function Cat(parts: seq<Tensor>): (t: Tensor)
    ensures parts == [] ==> t == []
  {
    if parts == [] then [] else Cat(parts[..|parts| - 1]) + parts[|parts| - 1]
  }

  lemma CatOfThree(a: Tensor, b: Tensor, c: Tensor)
    ensures Cat([a, b, c]) == a + b + c
  {
    assert [a, b, c][..2] == [a, b];
    assert [a, b][..1] == [a];
    assert [a][..0] == [];
    assert Cat([a]) == a;
    assert Cat([a, b]) == a + b;
  }

  /** `torch.split(t, [n, n, n], 0)`: three pieces of `n` rows, or `None` (a
      `RuntimeError`) when `t` does not have exactly `3 * n` rows. */
  function SplitThree(t: Tensor, n: nat): (r: Option<seq<Tensor>>)
    ensures r.Some? <==> |t| == 3 * n
    ensures r.Some? ==> |r.value| == 3 && forall j :: 0 <= j < 3 ==> |r.value[j]| == n
  {
    if |t| == 3 * n then Some([t[..n], t[n..2 * n], t[2 * n..]]) else None
  }

  /** The pieces of a split concatenate back to the tensor. */
  lemma CatOfSplit(t: Tensor, n: nat)
    requires |t| == 3 * n
    ensures Cat(SplitThree(t, n).value) == t
  {
    CatOfThree(t[..n], t[n..2 * n], t[2 * n..]);
    assert t[..n] + t[n..2 * n] + t[2 * n..] == t;
  }

  /** Splitting a concatenation of three `n`-row tensors gives them back. */
  lemma SplitOfCat(a: Tensor, b: Tensor, c: Tensor, n: nat)
    requires |a| == n && |b| == n && |c| == n
    ensures SplitThree(Cat([a, b, c]), n) == Some([a, b, c])
  {
    CatOfThree(a, b, c);
    var t := a + b + c;
    assert t[..n] == a;
    assert t[n..2 * n] == b;
    assert t[2 * n..] == c;
  }

  /** The three `n`-row blocks of a concatenation of three `n`-row tensors. */
  lemma ThirdsOfConcat(a: Tensor, b: Tensor, c: Tensor, n: nat)
    requires |a| == n && |b| == n && |c| == n
    ensures var t := a + b + c;
      t[..n] == a && t[n..2 * n] == b && t[2 * n..3 * n] == c
  {
    var t := a + b + c;
    assert t[..n] == a;
    assert t[n..2 * n] == b;
    assert t[2 * n..3 * n] == c;
  }

  /** The `j`-th piece of a split is rows `j * n` up to `(j + 1) * n`. */
  lemma SplitThreePiece(t: Tensor, n: nat, j: nat)
    requires |t| == 3 * n && j < 3
    ensures SplitThree(t, n).value[j] == t[j * n..(j + 1) * n]
  {
    if j == 2 {
      assert t[2 * n..] == t[2 * n..3 * n];
    }
  }

  /** Consecutive pieces of `size` rows, the last one possibly shorter
      (`torch.split(t, size, 0)` for a positive size). */
  function Pieces(t: Tensor, size: nat): (ps: seq<Tensor>)
    requires size > 0 && t != []
    ensures |ps| >= 1
    decreases |t|
  {
    if |t| <= size then [t] else [t[..size]] + Pieces(t[size..], size)
  }

  /** `torch.chunk(t, 3, 0)`: pieces of `ceil(rows / 3)` rows; a tensor with no
      rows gives three empty chunks. */
  function ChunkThree(t: Tensor): seq<Tensor> {
    if t == [] then [[], [], []] else Pieces(t, (|t| + 2) / 3)
  }

  lemma {:induction false} CatOfPieces(t: Tensor, size: nat)
    requires size > 0 && t != []
    ensures Cat(Pieces(t, size)) == t
    decreases |t|
  {
    if |t| > size {
      var rest := Pieces(t[size..], size);
      CatOfPieces(t[size..], size);
      CatCons(t[..size], rest);
      assert t[..size] + t[size..] == t;
    } else {
      assert [t][..0] == [];
    }
  }

  lemma {:induction false} CatCons(a: Tensor, ps: seq<Tensor>)
    ensures Cat([a] + ps) == a + Cat(ps)
    decreases |ps|
  {
    if ps == [] {
      assert [a] + ps == [a];
      assert [a][..0] == [];
    } else {
      var q := [a] + ps;
      assert q[..|q| - 1] == [a] + ps[..|ps| - 1];
      CatCons(a, ps[..|ps| - 1]);
    }
  }

  /** The chunks always concatenate back to the tensor. */
  lemma CatOfChunks(t: Tensor)
    ensures Cat(ChunkThree(t)) == t
  {
    if t == [] {
      var z: Tensor := [];
      CatOfThree(z, z, z);
    } else {
      CatOfPieces(t, (|t| + 2) / 3);
    }
  }

  /** There are exactly three chunks unless the tensor has 1, 2 or 4 rows,
      which give 1, 2 and 2 chunks; never more than three. */
  lemma ChunkCount(t: Tensor)
    ensures |ChunkThree(t)| <= 3
    ensures |ChunkThree(t)| == 3 <==> |t| != 1 && |t| != 2 && |t| != 4
  {
    if t != [] {
      var n := |t|;
      var s := (n + 2) / 3;
      assert n <= 3 * s;
      if n <= s {
        assert Pieces(t, s) == [t];
        assert n == 1 || n == 2 || n == 4 by {
          assert s * 3 <= n + 2;
        }
      } else if n <= 2 * s {
        var r := t[s..];
        assert |r| <= s;
        assert Pieces(t, s) == [t[..s]] + [r];
        assert n == 1 || n == 2 || n == 4 by {
          assert s * 3 <= n + 2;
        }
      } else {
        var r := t[s..];
        assert |r| > s && |r[s..]| <= s;
        assert Pieces(r, s) == [r[..s]] + [r[s..]];
        assert n != 1 && n != 2 && n != 4;
      }
    }
  }

  /** When the rows divide by three, the chunks are the three equal thirds. */
  lemma ChunksOfThirds(t: Tensor, n: nat)
    requires |t| == 3 * n
    ensures ChunkThree(t) == [t[..n], t[n..2 * n], t[2 * n..]]
  {
    if n > 0 {
      assert (|t| + 2) / 3 == n;
      var r := t[n..];
      assert r[..n] == t[n..2 * n] && r[n..] == t[2 * n..];
      assert Pieces(r[n..], n) == [r[n..]];
      assert Pieces(r, n) == [r[..n]] + [r[n..]];
    }
  }
}
