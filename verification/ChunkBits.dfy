/**
 The bitmap of pages in use: one bit for each page, the bits of a block in whole bytes of their own. It stands for a
 set of pages, which is what the other parts of the model work with.
 */
module ChunkBits {
  import opened Space
  import ChunkMath
  import Ecc

  type Byte = Ecc.Byte

  predicate Bit(x: Byte, j: nat)
    requires j < 8
  {
    x & Ecc.Mask(j) != 0
  }

  function With(x: Byte, k: nat): Byte
    requires k < 8
  {
    x | Ecc.Mask(k)
  }

  function Without(x: Byte, k: nat): Byte
    requires k < 8
  {
    x & !Ecc.Mask(k)
  }

  lemma OneBit(x: Byte, k: nat, j: nat)
    requires k < 8 && j < 8
    ensures Bit(With(x, k), j) <==> j == k || Bit(x, j)
    ensures Bit(Without(x, k), j) <==> j != k && Bit(x, j)
  {
  }

  function One(b: bool): nat { if b then 1 else 0 }

  lemma WeightIs(x: Byte)
    ensures Ecc.Weight8(x) == One(Bit(x, 0)) + One(Bit(x, 1)) + One(Bit(x, 2)) + One(Bit(x, 3))
                              + One(Bit(x, 4)) + One(Bit(x, 5)) + One(Bit(x, 6)) + One(Bit(x, 7))
  {
  }

  lemma NoBit(x: Byte)
    ensures x == 0 <==> forall j :: 0 <= j < 8 ==> !Bit(x, j)
  {
    assert (x & 0x01 != 0) == Bit(x, 0) && (x & 0x02 != 0) == Bit(x, 1) && (x & 0x04 != 0) == Bit(x, 2);
    assert (x & 0x08 != 0) == Bit(x, 3) && (x & 0x10 != 0) == Bit(x, 4) && (x & 0x20 != 0) == Bit(x, 5);
    assert (x & 0x40 != 0) == Bit(x, 6) && (x & 0x80 != 0) == Bit(x, 7);
  }

  /** The bits of a block in bytes, rounded up. */
  function Stride(cpb: nat): nat { (cpb + 7) / 8 }

  /** Where the bit of a page is. */
  function At(stride: nat, b: nat, p: nat): nat { b * stride + p / 8 }

  /** Places in different blocks, or in different bytes of a block, do not collide. */
  lemma AtApart(stride: nat, n: nat, b: nat, p: nat, b': nat, p': nat)
    requires b < n && b' < n && p / 8 < stride && p' / 8 < stride
    ensures At(stride, b, p) < stride * n
    ensures At(stride, b, p) == At(stride, b', p') <==> b == b' && p / 8 == p' / 8
  {
    ChunkMath.QuotientIs(stride, b, At(stride, b, p));
    ChunkMath.QuotientIs(stride, b', At(stride, b', p'));
    ChunkMath.MultipleSign(stride, n - b - 1);
    assert (n - b - 1) * stride == stride * n - b * stride - stride;
  }

  /** Whether the bit of page `p` of block `b` is set; `p` may be in the padding of the last byte. */
  ghost predicate On(bytes: seq<Byte>, stride: nat, b: nat, p: nat) {
    At(stride, b, p) < |bytes| && Bit(bytes[At(stride, b, p)], p % 8)
  }

  /** The pages of block `b` below `n` with their bits set. */
  ghost function Below(bytes: seq<Byte>, stride: nat, b: nat, n: nat): set<Chunk> {
    set p | 0 <= p < n && On(bytes, stride, b, p) :: Chunk(b, p)
  }

  lemma BelowStep(bytes: seq<Byte>, stride: nat, b: nat, n: nat)
    ensures |Below(bytes, stride, b, n + 1)| == |Below(bytes, stride, b, n)| + One(On(bytes, stride, b, n))
  {
    hide On;
    if On(bytes, stride, b, n) {
      assert Below(bytes, stride, b, n + 1) == Below(bytes, stride, b, n) + {Chunk(b, n)};
    } else {
      assert Below(bytes, stride, b, n + 1) == Below(bytes, stride, b, n);
    }
  }

  lemma BelowBit(bytes: seq<Byte>, stride: nat, b: nat, i: nat, j: nat)
    requires b * stride + i < |bytes| && j < 8
    ensures |Below(bytes, stride, b, 8 * i + j + 1)| == |Below(bytes, stride, b, 8 * i + j)|
            + One(Bit(bytes[b * stride + i], j))
  {
    hide Below, Bit;
    BelowStep(bytes, stride, b, 8 * i + j);
  }

  lemma NoneBelow(bytes: seq<Byte>, stride: nat, b: nat)
    ensures Below(bytes, stride, b, 0) == {}
  {
  }

  /** A byte adds as many pages as it has bits. */
  lemma BelowByte(bytes: seq<Byte>, stride: nat, b: nat, i: nat)
    requires b * stride + i < |bytes|
    ensures |Below(bytes, stride, b, 8 * i + 8)| == |Below(bytes, stride, b, 8 * i)|
            + Ecc.Weight8(bytes[b * stride + i])
  {
    hide Below, Bit, Ecc.Weight8, One;
    WeightIs(bytes[b * stride + i]);
    BelowBit(bytes, stride, b, i, 0);
    BelowBit(bytes, stride, b, i, 1);
    BelowBit(bytes, stride, b, i, 2);
    BelowBit(bytes, stride, b, i, 3);
    BelowBit(bytes, stride, b, i, 4);
    BelowBit(bytes, stride, b, i, 5);
    BelowBit(bytes, stride, b, i, 6);
    BelowBit(bytes, stride, b, i, 7);
  }

  /** All pages of `nBlocks` blocks of `cpb` pages with their bits set. */
  ghost function Pages(bytes: seq<Byte>, cpb: nat, nBlocks: nat): set<Chunk> {
    set b, p | 0 <= b < nBlocks && 0 <= p < cpb && On(bytes, Stride(cpb), b, p) :: Chunk(b, p)
  }

  /** The bits beyond the last page of a block are clear. */
  ghost predicate Padded(bytes: seq<Byte>, cpb: nat, nBlocks: nat) {
    && |bytes| == Stride(cpb) * nBlocks
    && forall b, p :: 0 <= b < nBlocks && cpb <= p < 8 * Stride(cpb) ==> !On(bytes, Stride(cpb), b, p)
  }

  lemma BlockPages(bytes: seq<Byte>, cpb: nat, nBlocks: nat, b: nat)
    requires Padded(bytes, cpb, nBlocks) && b < nBlocks
    ensures In(Pages(bytes, cpb, nBlocks), b) == Below(bytes, Stride(cpb), b, 8 * Stride(cpb))
  {
    hide On;
  }

  /** A byte changed at the place of page `p` so that only the bit of this page may differ. */
  lemma Changed(bytes: seq<Byte>, cpb: nat, nBlocks: nat, b: nat, p: nat, x: Byte, on: bool)
    requires Padded(bytes, cpb, nBlocks) && b < nBlocks && p < cpb && At(Stride(cpb), b, p) < |bytes|
    requires forall j :: 0 <= j < 8 ==> (Bit(x, j) <==> if j == p % 8 then on else Bit(bytes[At(Stride(cpb), b, p)], j))
    ensures Padded(bytes[At(Stride(cpb), b, p) := x], cpb, nBlocks)
    ensures Pages(bytes[At(Stride(cpb), b, p) := x], cpb, nBlocks) ==
            if on then Pages(bytes, cpb, nBlocks) + {Chunk(b, p)} else Pages(bytes, cpb, nBlocks) - {Chunk(b, p)}
  {
    hide Bit, At;
    var s := Stride(cpb);
    var bytes' := bytes[At(s, b, p) := x];
    forall b', p' | 0 <= b' < nBlocks && 0 <= p' < 8 * s
      ensures On(bytes', s, b', p') <==> if b' == b && p' == p then on else On(bytes, s, b', p')
    {
      AtApart(s, nBlocks, b', p', b, p);
    }
  }

  class Bitmap {
    const cpb: nat
    const nBlocks: nat
    const chunkBits: array<Byte>

    ghost predicate Valid()
      reads chunkBits
    {
      chunkBits.Length == Stride(cpb) * nBlocks && Padded(chunkBits[..], cpb, nBlocks)
    }

    /** The set that the bitmap stands for. */
    ghost function Bits(): set<Chunk>
      reads chunkBits
    {
      Pages(chunkBits[..], cpb, nBlocks)
    }

    constructor (cpb: nat, nBlocks: nat)
      ensures Valid() && fresh(chunkBits) && this.cpb == cpb && this.nBlocks == nBlocks && Bits() == {}
    {
      this.cpb, this.nBlocks := cpb, nBlocks;
      chunkBits := new Byte[Stride(cpb) * nBlocks](_ => 0);
      new;
      forall b: nat, p: nat ensures !On(chunkBits[..], Stride(cpb), b, p) { NoBit(0); }
    }

    lemma PlaceOk(b: nat, p: nat)
      requires chunkBits.Length == Stride(cpb) * nBlocks && b < nBlocks && (p < cpb || p < 8 * Stride(cpb))
      ensures At(Stride(cpb), b, p) < chunkBits.Length
    {
      AtApart(Stride(cpb), nBlocks, b, p, b, p);
    }

    method SetChunkBit(b: nat, p: nat)
      requires Valid() && b < nBlocks && p < cpb
      modifies chunkBits
      ensures Valid() && Bits() == old(Bits()) + {Chunk(b, p)}
    {
      hide Bit, At, Padded, Pages, With, Without, Stride;
      PlaceOk(b, p);
      var i := At(Stride(cpb), b, p);
      ghost var was := chunkBits[..];
      chunkBits[i] := With(chunkBits[i], p % 8);
      assert chunkBits[..] == was[i := With(was[i], p % 8)];
      forall j | 0 <= j < 8 ensures Bit(chunkBits[i], j) <==> if j == p % 8 then true else Bit(was[i], j) {
        OneBit(was[i], p % 8, j);
      }
      Changed(was, cpb, nBlocks, b, p, chunkBits[i], true);
    }

    method ClearChunkBit(b: nat, p: nat)
      requires Valid() && b < nBlocks && p < cpb
      modifies chunkBits
      ensures Valid() && Bits() == old(Bits()) - {Chunk(b, p)}
    {
      hide Bit, At, Padded, Pages, With, Without, Stride;
      PlaceOk(b, p);
      var i := At(Stride(cpb), b, p);
      ghost var was := chunkBits[..];
      chunkBits[i] := Without(chunkBits[i], p % 8);
      assert chunkBits[..] == was[i := Without(was[i], p % 8)];
      forall j | 0 <= j < 8 ensures Bit(chunkBits[i], j) <==> if j == p % 8 then false else Bit(was[i], j) {
        OneBit(was[i], p % 8, j);
      }
      Changed(was, cpb, nBlocks, b, p, chunkBits[i], false);
    }

    method CheckChunkBit(b: nat, p: nat) returns (r: bool)
      requires Valid() && b < nBlocks && p < cpb
      ensures r <==> Chunk(b, p) in Bits()
    {
      PlaceOk(b, p);
      r := Bit(chunkBits[At(Stride(cpb), b, p)], p % 8);
    }

    /** Clears the bits of a whole block. */
    method ClearChunkBits(b: nat)
      requires Valid() && b < nBlocks
      modifies chunkBits
      ensures Valid() && Bits() == old(Bits()) - In(old(Bits()), b)
    {
      hide Padded, Pages;
      var s := Stride(cpb);
      ghost var was := chunkBits[..];
      for i := 0 to s
        invariant forall k :: 0 <= k < chunkBits.Length ==> chunkBits[k] == if b * s <= k < b * s + i then 0 else was[k]
      {
        PlaceOk(b, 8 * i);
        chunkBits[b * s + i] := 0;
      }
      Wiped(was, chunkBits[..], cpb, nBlocks, b);
    }

    method StillSomeChunks(b: nat) returns (r: bool)
      requires Valid() && b < nBlocks
      ensures r <==> In(Bits(), b) != {}
    {
      hide Padded, Pages, Bit;
      var s := Stride(cpb);
      BlockPages(chunkBits[..], cpb, nBlocks, b);
      for i := 0 to s
        invariant Below(chunkBits[..], s, b, 8 * i) == {}
      {
        PlaceOk(b, 8 * i);
        NoBit(chunkBits[b * s + i]);
        if chunkBits[b * s + i] != 0 {
          ghost var j :| 0 <= j < 8 && Bit(chunkBits[b * s + i], j);
          assert Chunk(b, 8 * i + j) in Below(chunkBits[..], s, b, 8 * s);
          return true;
        }
      }
      return false;
    }

    method CountChunkBits(b: nat) returns (n: nat)
      requires Valid() && b < nBlocks
      ensures n == |In(Bits(), b)|
    {
      hide Padded, Pages, Below, Ecc.Weight8;
      var s := Stride(cpb);
      n := 0;
      NoneBelow(chunkBits[..], s, b);
      for i := 0 to s
        invariant n == |Below(chunkBits[..], s, b, 8 * i)|
      {
        PlaceOk(b, 8 * i);
        BelowByte(chunkBits[..], s, b, i);
        n := n + Ecc.Weight8(chunkBits[b * s + i]);
      }
      BlockPages(chunkBits[..], cpb, nBlocks, b);
    }
  }

  /** Zeroing the bytes of a block empties that block and no other. */
  lemma Wiped(bytes: seq<Byte>, bytes': seq<Byte>, cpb: nat, nBlocks: nat, b: nat)
    requires Padded(bytes, cpb, nBlocks) && b < nBlocks && |bytes'| == |bytes|
    requires var s := Stride(cpb); forall k :: 0 <= k < |bytes| ==> bytes'[k] == if b * s <= k < b * s + s then 0
             else bytes[k]
    ensures Padded(bytes', cpb, nBlocks)
    ensures Pages(bytes', cpb, nBlocks) == Pages(bytes, cpb, nBlocks) - In(Pages(bytes, cpb, nBlocks), b)
  {
    hide Bit;
    var s := Stride(cpb);
    forall b', p | 0 <= b' < nBlocks && 0 <= p < 8 * s
      ensures On(bytes', s, b', p) <==> b' != b && On(bytes, s, b', p)
    {
      AtApart(s, nBlocks, b', p, b', p);
      NoBit(0);
      var d := b' - b;
      ChunkMath.MultipleSign(s, d);
      assert d * s == b' * s - b * s;
    }
  }
}
