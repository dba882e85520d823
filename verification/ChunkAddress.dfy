/** Splitting file positions into chunks, and the width and grouping of the chunk numbers that tnodes store. */
module ChunkAddress {
  import opened ChunkMath
  import opened Common
  import opened PackedLeaf

  // ---------- Shifts ----------

  /** Number of times by which `x` can be halved. */
  method CalcShifts(x: nat) returns (shifts: nat)
    ensures x == 0 ==> shifts == 0
    ensures x > 0 ==> shifts == ShiftOf(x) && x == DivOf(x) * Pow2(shifts)
  {
    shifts := 0;
    if x == 0 { return; }
    SizeIs(x);
    var y := x;
    while y % 2 == 0
      invariant y > 0 && ShiftOf(x) == shifts + ShiftOf(y)
      decreases y
    {
      y := y / 2;
      shifts := shifts + 1;
    }
  }

  lemma Regroup(h: nat, p: nat)
    ensures (2 * h) * p == h * (2 * p)
  {
  }

  /** The ceiling of the binary logarithm. */
  method CalcShiftsCeiling(x: nat) returns (shifts: nat)
    ensures x <= Pow2(shifts)
    ensures shifts > 0 ==> Pow2(shifts - 1) < x
  {
    shifts := 0;
    var y, extraBits := x, 0;
    ghost var low: nat := 0;
    while y > 1
      invariant x == 0 || y >= 1
      invariant x == 0 ==> y == 0 && shifts == 0
      invariant x == y * Pow2(shifts) + low && low < Pow2(shifts)
      invariant extraBits >= 0 && (extraBits > 0 <==> low > 0)
    {
      HalfStep(y, Pow2(shifts), low);
      if y % 2 == 1 {
        extraBits := extraBits + 1;
        low := low + Pow2(shifts);
      }
      y := y / 2;
      shifts := shifts + 1;
    }
    if extraBits > 0 { shifts := shifts + 1; }
  }

  lemma HalfStep(y: nat, p: nat, low: nat)
    ensures y * p + low == y / 2 * (2 * p) + (low + if y % 2 == 1 then p else 0)
  {
    var h := y / 2;
    assert y == 2 * h + y % 2;
    Regroup(h, p);
    if y % 2 == 1 { assert (2 * h + 1) * p == 2 * h * p + p; }
  }

  // ---------- Positions ----------

  const TWO31 := 0x8000_0000
  const TWO32 := 0x1_0000_0000

  /** An unsigned 32-bit number taken as a signed one. */
  function ToInt32(u: int): int { if u >= TWO31 then u - TWO32 else u }

  /** What remains of a position after whole chunks, in 32 bits. */
  function Rest(addr: nat, chunk: nat, size: nat): nat { (addr - chunk * size) % TWO32 }

  /** Chunk and offset of position `addr`; the shifted position is cut down to 32 bits. */
  function AddrToChunk(addr: nat, shift: nat, div: nat, size: nat): (int, nat)
    requires div > 0
  {
    var chunk := Quo(Pow2(shift), addr) % TWO32;
    if div == 1 then (ToInt32(chunk), Rem(Pow2(shift), addr))
    else (Quo(div, chunk), Rest(addr, Quo(div, chunk), size))
  }

  /** The split is exact. */
  predicate Exact(addr: nat, size: nat, split: (int, int)) {
    split.0 * size + split.1 == addr && 0 <= split.1 < size
  }

  /** The split is exact as long as the shifted position fits, and no longer. */
  lemma AddrToChunkExact(addr: nat, shift: nat, div: nat, size: nat)
    requires 0 < div && div % 2 == 1 && size == div * Pow2(shift) < TWO32
    ensures Exact(addr, size, AddrToChunk(addr, shift, div, size)) <==>
            Quo(Pow2(shift), addr) < if div == 1 then TWO31 else TWO32
  {
    hide Pow2, Exact, Quo, Rem, Rest;
    var p := Pow2(shift);
    if div == 1 { ByShift(addr, p); } else { ByBoth(addr, p, div, size); }
  }

  /** The last position that is split right and the one after it, for chunks of 2048 and of 1536 bytes. */
  lemma PastTheLimit()
    ensures AddrToChunk(0x3ff_ffff_ffff, 11, 1, 2048) == (0x7fff_ffff, 2047)
    ensures AddrToChunk(0x400_0000_0000, 11, 1, 2048) == (-0x8000_0000, 0)
    ensures AddrToChunk(0x1ff_ffff_ffff, 9, 3, 1536) == (0x5555_5555, 511)
    ensures AddrToChunk(0x200_0000_0000, 9, 3, 1536) == (0, 0)
  {
    assert Pow2(4) == 16;
    assert Pow2(9) == 512;
    assert Pow2(11) == 2048;
  }

  lemma ByShift(addr: nat, p: nat)
    requires p > 0
    ensures Exact(addr, p, (ToInt32(Quo(p, addr) % TWO32), Rem(p, addr))) <==> Quo(p, addr) < TWO31
  {
    hide Quo, Rem;
    Split(p, addr);
    OnlyQuotient(p, addr, Quo(p, addr), ToInt32(Quo(p, addr) % TWO32), Rem(p, addr));
  }

  lemma ByBoth(addr: nat, p: nat, div: nat, size: nat)
    requires p > 0 && div > 0 && size == div * p < TWO32
    ensures var chunk := Quo(div, Quo(p, addr) % TWO32);
            Exact(addr, size, (chunk, Rest(addr, chunk, size))) <==> Quo(p, addr) < TWO32
  {
    hide Exact, Quo, Rest;
    Nested(p, div, addr);
    MultipleSign(div, p - 1);
    assert (p - 1) * div == size - div;
    ByDivision(addr, Quo(p, addr), div, size, Quo(div, Quo(p, addr) % TWO32));
  }

  /** The case of a chunk size that is no power of two. */
  lemma ByDivision(addr: nat, q: nat, div: nat, size: nat, chunk: nat)
    requires 0 < div <= size < TWO32 && Quo(size, addr) == Quo(div, q)
    requires chunk == Quo(div, q % TWO32)
    ensures Exact(addr, size, (chunk, Rest(addr, chunk, size))) <==> q < TWO32
  {
    hide Exact, Quo, Rem;
    ExactIs(addr, size, chunk, Rest(addr, chunk, size));
    if q < TWO32 {
      Split(size, addr);
    } else {
      Shorter(q, div);
    }
  }

  lemma ExactIs(addr: nat, size: nat, chunk: nat, o: nat)
    requires size > 0
    ensures Exact(addr, size, (chunk, o)) <==> chunk == Quo(size, addr) && o == addr - chunk * size
  {
    hide Quo, Rem;
    Split(size, addr);
    if Exact(addr, size, (chunk, o)) { QuotientIs(size, chunk, addr); }
  }

  lemma OnlyQuotient(p: nat, addr: nat, q: nat, c: int, r: nat)
    requires p > 0 && addr == q * p + r
    ensures c * p + r == addr <==> c == q
  {
    assert (c - q) * p == c * p - q * p;
    MultipleSign(p, c - q);
    MultipleSign(p, q - c);
    assert (q - c) * p == q * p - c * p;
  }

  lemma Nested(p: nat, div: nat, addr: nat)
    requires p > 0 && div > 0
    ensures div * p > 0 && Quo(div * p, addr) == Quo(div, Quo(p, addr))
  {
    hide Quo, Rem;
    var q := Quo(p, addr);
    var d, e := Quo(div, q), Rem(div, q);
    Split(p, addr);
    Split(div, q);
    MultipleSign(p, div);
    Distribute(d, div, e, p);
    MultipleSign(p, div - 1 - e);
    assert (div - 1 - e) * p == div * p - p - e * p;
    QuotientIs(div * p, d, addr);
  }

  lemma Distribute(d: nat, div: nat, e: nat, p: nat)
    ensures (d * div + e) * p == d * (div * p) + e * p
  {
  }

  lemma Shorter(q: nat, div: nat)
    requires q >= TWO32 && 0 < div < TWO32
    ensures Quo(div, q % TWO32) < Quo(div, q)
  {
    var r := q % TWO32;
    assert r + div <= q;
    QuotientStep(div, r, q);
  }

  lemma QuotientStep(div: nat, r: nat, q: nat)
    requires div > 0 && r + div <= q
    ensures Quo(div, r) < Quo(div, q)
  {
    hide Quo, Rem;
    Order(div, r + div, q);
    Split(div, r);
    assert (Quo(div, r) + 1) * div == Quo(div, r) * div + div;
    QuotientIs(div, Quo(div, r) + 1, r + div);
  }

  // ---------- Positions of limited width ----------

  /** The number of values that the type of positions and sizes has: it is 32 bits wide, or 64. */
  predicate IsWidth(w: nat) { w == TWO32 || w == TWO32 * TWO32 }

  /** Exponent of two and odd factor of a chunk size. */
  function ShiftOf(size: nat): nat
    requires size > 0
  {
    if size % 2 == 1 then 0 else 1 + ShiftOf(size / 2)
  }

  function DivOf(size: nat): (div: nat)
    requires size > 0
    ensures 0 < div <= size && div % 2 == 1
  {
    if size % 2 == 1 then size else DivOf(size / 2)
  }

  lemma {:induction false} SizeIs(size: nat)
    requires size > 0
    ensures size == DivOf(size) * Pow2(ShiftOf(size))
  {
    if size % 2 == 0 {
      SizeIs(size / 2);
      Regroup(DivOf(size / 2), Pow2(ShiftOf(size / 2)));
      assert DivOf(size) * (2 * Pow2(ShiftOf(size / 2))) == 2 * (DivOf(size / 2) * Pow2(ShiftOf(size / 2)));
    }
  }

  /** Chunk and offset of position `pos`, which is cut down to the width of positions. */
  function SplitPos(c: nat, w: nat, pos: nat): (int, nat)
    requires c > 0 && w > 0
  {
    AddrToChunk(pos % w, ShiftOf(c), DivOf(c), c)
  }

  /** Where the positions end that are split right. */
  function Limit(c: nat, w: nat): nat
    requires c > 0
  {
    Min(w, Pow2(ShiftOf(c)) * if DivOf(c) == 1 then TWO31 else TWO32)
  }

  /** The positions below the limit are split right, and only these. */
  lemma SplitExactIff(c: nat, w: nat, pos: nat)
    requires 0 < c < TWO32 && IsWidth(w)
    ensures Exact(pos, c, SplitPos(c, w, pos)) <==> pos < Limit(c, w)
  {
    hide Pow2, ShiftOf, DivOf, AddrToChunk, Quo, Rem, Exact;
    var p, n := Pow2(ShiftOf(c)), if DivOf(c) == 1 then TWO31 else TWO32;
    SizeIs(c);
    if pos < w {
      AddrToChunkExact(pos, ShiftOf(c), DivOf(c), c);
      BelowQuotient(p, pos, n);
    } else {
      TooFar(c, w, pos);
    }
  }

  lemma TooFar(c: nat, w: nat, pos: nat)
    requires 0 < c < TWO32 && IsWidth(w) && pos >= w
    ensures !Exact(pos, c, SplitPos(c, w, pos))
  {
    hide SplitPos, Quo, Rem, ToWord;
    SplitLands(c, w, pos);
    WordAtLeast(c, SplitPos(c, w, pos).0);
    assert pos % w < w;
  }

  lemma WordAtLeast(c: nat, chunk: int)
    requires c > 0 && chunk < TWO32
    ensures chunk * c <= ToWord(chunk) * c
  {
    MultipleSign(c, ToWord(chunk) - chunk);
    assert (ToWord(chunk) - chunk) * c == ToWord(chunk) * c - chunk * c;
  }

  lemma BelowQuotient(p: nat, x: nat, n: nat)
    requires p > 0
    ensures Quo(p, x) < n <==> x < p * n
  {
    hide Quo, Rem;
    Split(p, x);
    assert (n - Quo(p, x)) * p == p * n - Quo(p, x) * p;
    MultipleSign(p, n - Quo(p, x));
    MultipleSign(p, n - Quo(p, x) - 1);
    assert (n - Quo(p, x) - 1) * p == p * n - Quo(p, x) * p - p;
  }

  /** A chunk number taken as an unsigned one of 32 bits. */
  function ToWord(chunk: int): nat { chunk % TWO32 }

  /** The position that the chunk and the offset found for `pos` stand for. */
  function Landing(c: nat, w: nat, pos: nat): nat
    requires c > 0 && w > 0
  {
    ToWord(SplitPos(c, w, pos).0) * c + SplitPos(c, w, pos).1
  }

  /** Every position is taken for one that is not beyond it; below the limit it is taken for what it is. */
  lemma SplitLands(c: nat, w: nat, pos: nat)
    requires 0 < c < TWO32 && IsWidth(w)
    ensures var (chunk, start) := SplitPos(c, w, pos);
            && -TWO32 < chunk < TWO32 && start < c && Landing(c, w, pos) <= pos % w <= pos
            && Quo(c, Landing(c, w, pos)) == ToWord(chunk) && Rem(c, Landing(c, w, pos)) == start
            && (pos < Limit(c, w) ==> Landing(c, w, pos) == pos && chunk == Quo(c, pos) && start == Rem(c, pos))
  {
    hide Pow2, ShiftOf, DivOf, Quo, Rem, Folded, Rest, ToInt32, ToWord;
    var p, x := Pow2(ShiftOf(c)), pos % w;
    SizeIs(c);
    AtMostWhole(pos, w);
    if DivOf(c) == 1 {
      LandsByShift(c, x);
      BelowQuotient(p, pos, TWO31);
    } else {
      LandsByBoth(c, p, DivOf(c), x);
      WordIs(Quo(DivOf(c), Quo(p, x) % TWO32));
      BelowQuotient(p, pos, TWO32);
    }
  }

  lemma AtMostWhole(pos: nat, w: nat)
    requires w > 0
    ensures 0 <= pos % w <= pos && (pos < w ==> pos % w == pos)
  {
  }

  lemma WordIs(chunk: int)
    requires 0 <= chunk < TWO32
    ensures ToWord(chunk) == chunk
  {
  }

  /** A position that, cut down to the width of positions, lies in the first chunk. */
  lemma SmallPosition(c: nat, w: nat, pos: nat)
    requires 0 < c < TWO32 && IsWidth(w) && w <= pos < w + c
    ensures SplitPos(c, w, pos).0 == 0
  {
    hide SplitPos, Quo, Rem;
    assert pos % w == pos - w;
    SplitLands(c, w, pos);
    QuotientIs(c, 0, Landing(c, w, pos));
  }

  /** `x` with the part of its quotient by `p` that does not fit into 32 bits taken away. */
  function Folded(p: nat, x: nat): nat
    requires p > 0
  {
    Quo(p, x) % TWO32 * p + Rem(p, x)
  }

  lemma FoldedIs(p: nat, x: nat)
    requires p > 0
    ensures Folded(p, x) <= x && Quo(p, Folded(p, x)) == Quo(p, x) % TWO32 && Rem(p, Folded(p, x)) == Rem(p, x)
    ensures (x - Folded(p, x)) % TWO32 == 0 && (Quo(p, x) < TWO32 ==> Folded(p, x) == x)
  {
    hide Quo, Rem;
    var q := Quo(p, x);
    Split(p, x);
    QuotientIs(p, q % TWO32, Folded(p, x));
    var k := q / TWO32;
    assert q == k * TWO32 + q % TWO32;
    assert x - Folded(p, x) == (q - q % TWO32) * p == (k * TWO32) * p == (k * p) * TWO32;
  }

  lemma LandsByShift(p: nat, x: nat)
    requires p > 0
    ensures var chunk := ToInt32(Quo(p, x) % TWO32);
            && -TWO32 < chunk < TWO32 && ToWord(chunk) * p + Rem(p, x) == Folded(p, x) <= x && Rem(p, x) < p
            && Quo(p, Folded(p, x)) == ToWord(chunk) && Rem(p, Folded(p, x)) == Rem(p, x)
            && (Quo(p, x) < TWO31 ==> Folded(p, x) == x && chunk == Quo(p, x))
  {
    hide Quo, Rem, Folded, ToInt32, ToWord;
    Split(p, x);
    FoldedIs(p, x);
    Split(p, Folded(p, x));
    SignedWord(Quo(p, x));
  }

  lemma SignedWord(q: nat)
    ensures var x := ToInt32(q % TWO32); -TWO32 < x < TWO32 && ToWord(x) == q % TWO32 && (q < TWO31 ==> x == q)
  {
  }

  lemma LandsByBoth(c: nat, p: nat, div: nat, x: nat)
    requires p > 0 && div > 0 && c == div * p < TWO32
    ensures var chunk := Quo(div, Quo(p, x) % TWO32); var start := Rest(x, chunk, c);
            && 0 <= chunk < TWO32 && chunk * c + start == Folded(p, x) <= x && start < c
            && Quo(c, Folded(p, x)) == chunk && Rem(c, Folded(p, x)) == start
            && (Quo(p, x) < TWO32 ==> Folded(p, x) == x && chunk == Quo(c, x) && start == Rem(c, x))
  {
    hide Quo, Rem, Folded, Rest;
    FoldedIs(p, x);
    Nested(p, div, Folded(p, x));
    QuotientAtMost(div, Quo(p, x) % TWO32);
    RestIs(c, x, Folded(p, x));
  }

  lemma QuotientAtMost(div: nat, q: nat)
    requires div > 0
    ensures Quo(div, q) <= q
  {
    hide Quo, Rem;
    Split(div, q);
    MultipleSign(div, Quo(div, q));
    assert (div - 1) * Quo(div, q) >= 0;
  }

  lemma RestIs(c: nat, x: nat, y: nat)
    requires 0 < c < TWO32 && (x - y) % TWO32 == 0
    ensures Rest(x, Quo(c, y), c) == Rem(c, y) < c && Quo(c, y) * c + Rem(c, y) == y
  {
    hide Quo, Rem;
    Split(c, y);
    SameRest(x - Quo(c, y) * c, Rem(c, y));
  }

  lemma SameRest(a: int, b: int)
    requires (a - b) % TWO32 == 0 && 0 <= b < TWO32
    ensures a % TWO32 == b
  {
  }

  /** With 32 bits, all positions are split right for chunks of more than one byte. */
  lemma Limit32(c: nat)
    requires 1 < c < TWO32
    ensures Limit(c, TWO32) == TWO32
  {
    if c % 2 == 0 { assert Pow2(ShiftOf(c)) == 2 * Pow2(ShiftOf(c / 2)); }
  }

  lemma Wrapped(c: nat)
    requires 0 < c < TWO32
    ensures Landing(c, TWO32, TWO32) == 0
  {
    hide SplitPos, Quo, Rem;
    SplitLands(c, TWO32, TWO32);
  }

  /** With 32 bits, the byte behind the last position is the first one of the file; with 64 bits a position beyond the
      limit is taken for the first one, too. */
  lemma BeyondTheLimit()
    ensures Limit(2048, TWO32) == TWO32 && SplitPos(2048, TWO32, 0xffff_ffff) == (0x1f_ffff, 2047)
    ensures SplitPos(2048, TWO32, 0x1_0000_0000) == (0, 0)
    ensures Limit(2048, TWO32 * TWO32) == 0x400_0000_0000 && SplitPos(2048, TWO32 * TWO32, 0x800_0000_0000) == (0, 0)
  {
    hide Pow2, ShiftOf, DivOf;
    Size2048();
  }

  lemma Size2048()
    ensures Pow2(11) == 2048 && ShiftOf(2048) == 11 && DivOf(2048) == 1
  {
    assert Pow2(4) == 16;
    assert ShiftOf(32) == 5 && DivOf(32) == 1;
    assert ShiftOf(256) == 3 + ShiftOf(32) && DivOf(256) == DivOf(32);
    assert ShiftOf(2048) == 3 + ShiftOf(256) && DivOf(2048) == DivOf(256);
  }

  // ---------- Chunk numbers in tnodes ----------

  /** Entry width and group bits for chunk numbers of `bits` bits. */
  function Widths(bits: nat, wide: bool): (nat, nat) {
    var bits' := if wide && bits % 2 == 1 then bits + 1 else bits;
    var width := if wide && bits' >= 16 then bits' else 16;
    (width, if bits' <= width then 0 else bits' - width)
  }

  lemma {:induction false} Pow2Grows(m: nat, n: nat)
    requires m <= n
    ensures Pow2(m) <= Pow2(n)
  {
    if m < n { Pow2Grows(m, n - 1); }
  }

  lemma Pow2At30()
    ensures Pow2(30) == 0x4000_0000
  {
    assert Pow2(10) == 1024;
    assert Pow2(20) == 1024 * 1024;
  }

  /** For a device of up to 2^30 chunks, the entry width suits the packed leaves, and what an entry gives back for a
      chunk is the start of a group that contains it. */
  lemma GroupWindow(chunks: nat, bits: nat, wide: bool, val: Word)
    requires chunks <= Pow2(bits) && (bits > 0 ==> Pow2(bits - 1) < chunks) && chunks <= 0x4000_0000
    requires Number(val) < chunks
    ensures var (width, grpBits) := Widths(bits, wide);
            && 16 <= width <= 30 && width % 2 == 0 && (wide ==> grpBits == 0)
            && var b := Number(Widened(Stored(val, grpBits, width), grpBits)); b <= Number(val) < b + Pow2(grpBits)
  {
    hide Pow2, Number, Widened, Stored;
    var (width, grpBits) := Widths(bits, wide);
    Pow2At30();
    if bits > 30 { Pow2Grows(30, bits - 1); }
    Pow2Grows(bits, width + grpBits);
    GroupContains(val, grpBits, width);
  }

  /** Chunk `n` is in use and, unless a group is a single chunk, carries the right tags. */
  predicate Matches(n: nat, grpSize: nat, inUse: set<nat>, tagged: set<nat>) {
    n in inUse && (grpSize == 1 || n in tagged)
  }

  /** `r` is the first chunk that matches in the group that starts at `base`, -1 if there is none.  Group 0 is none. */
  ghost predicate FirstMatch(r: int, base: nat, grpSize: nat, inUse: set<nat>, tagged: set<nat>) {
    if base == 0 then r == -1
    else if r == -1 then forall n :: base <= n < base + grpSize ==> !Matches(n, grpSize, inUse, tagged)
    else && base <= r < base + grpSize && Matches(r, grpSize, inUse, tagged)
         && forall n :: base <= n < r ==> !Matches(n, grpSize, inUse, tagged)
  }

  /** Searches the group that starts at `base`. */
  method FindChunkInGroup(base: nat, grpSize: nat, inUse: set<nat>, tagged: set<nat>) returns (r: int)
    ensures FirstMatch(r, base, grpSize, inUse, tagged)
  {
    var j, chunk := 0, base;
    while chunk != 0 && j < grpSize
      invariant chunk == base + j && j <= grpSize && (base == 0 ==> j == 0)
      invariant forall n :: base <= n < base + j ==> !Matches(n, grpSize, inUse, tagged)
      decreases grpSize - j
    {
      if chunk in inUse {
        if grpSize == 1 || chunk in tagged { return chunk; }
      }
      chunk := chunk + 1;
      j := j + 1;
    }
    return -1;
  }
}
