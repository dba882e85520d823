/**
 The books of a YAFFS2 device: the state of every block, the bitmap of pages in use, the pages
 given up by soft deletion, the counters of free chunks and erased blocks, the block being
 allocated from, and the oldest sequence number of a block with discarded pages.

 Blocks are numbered from 0 here, the device's own numbers starting at its first internal block.
 */
module Space {
  import opened Common

  datatype BlockState = Empty | Allocating | Full | Collecting | Dead

  datatype BlockInfo = BlockInfo(state: BlockState, pagesInUse: int, softDelPages: int,
                                 hasShrinkHdr: bool, needsRetiring: bool, seqNo: nat)

  datatype Chunk = Chunk(block: nat, page: nat)

  /** The chunks of `s` that lie in block `b`. */
  function In(s: set<Chunk>, b: nat): set<Chunk> { set c | c in s && c.block == b }

  // ---------- Totals over all blocks ----------

  datatype Measure = ErasedBlocks | FreeChunks

  /** What a block adds to a counter: an erased block counts one; a block that is not dead has its pages free
      that are not in use or were given up. */
  function Weight(m: Measure, cpb: nat, bi: BlockInfo): int {
    match m
    case ErasedBlocks => if bi.state.Empty? then 1 else 0
    case FreeChunks => if bi.state.Dead? then 0 else cpb - bi.pagesInUse + bi.softDelPages
  }

  function Total(m: Measure, cpb: nat, blocks: seq<BlockInfo>): int {
    if blocks == [] then 0 else Total(m, cpb, blocks[..|blocks| - 1]) + Weight(m, cpb, blocks[|blocks| - 1])
  }

  lemma {:induction false} TotalUpdate(m: Measure, cpb: nat, blocks: seq<BlockInfo>, b: nat, bi: BlockInfo)
    requires b < |blocks|
    ensures Total(m, cpb, blocks[b := bi]) == Total(m, cpb, blocks) - Weight(m, cpb, blocks[b]) + Weight(m, cpb, bi)
  {
    var n := |blocks| - 1;
    if b == n {
      assert blocks[b := bi][..n] == blocks[..n];
    } else {
      assert blocks[b := bi][..n] == blocks[..n][b := bi];
      TotalUpdate(m, cpb, blocks[..n], b, bi);
    }
  }

  /** A positive count of erased blocks means that there is one. */
  lemma {:induction false} ErasedExists(cpb: nat, blocks: seq<BlockInfo>)
    ensures Total(ErasedBlocks, cpb, blocks) >= 0
    ensures Total(ErasedBlocks, cpb, blocks) > 0 <==> exists b :: 0 <= b < |blocks| && blocks[b].state.Empty?
  {
    if blocks != [] {
      var n := |blocks| - 1;
      ErasedExists(cpb, blocks[..n]);
      if b :| 0 <= b < |blocks| && blocks[b].state.Empty? {
        if b < n { assert blocks[..n][b].state.Empty?; }
      }
    }
  }

  // ---------- The books ----------

  /** All the bookkeeping fields of the device; `soft` are the soft-deleted chunks. */
  datatype Books = Books(blocks: seq<BlockInfo>, bits: set<Chunk>, soft: set<Chunk>, nErased: int, nFree: int,
                         allocBlock: int, allocPage: nat, seqNumber: nat, oldestSeq: nat)

  ghost predicate BlockOk(cpb: nat, bits: set<Chunk>, soft: set<Chunk>, seqNumber: nat, b: nat, bi: BlockInfo) {
    && bi.pagesInUse == |In(bits, b)| && bi.softDelPages == |In(soft, b)|
    && (bi.state.Empty? || bi.state.Dead? ==> bi.pagesInUse == 0)
    && (InService(bi) ==> LOWEST_SEQUENCE_NUMBER < bi.seqNo <= seqNumber)
  }

  /** A block that is full, or being collected, and has pages that were given up. */
  predicate IsDirty(cpb: nat, bi: BlockInfo) {
    (bi.state.Full? || bi.state.Collecting?) && bi.pagesInUse - bi.softDelPages < cpb
  }

  /** A block that may hold pages. */
  predicate InService(bi: BlockInfo) { bi.state.Allocating? || bi.state.Full? || bi.state.Collecting? }

  /** One block at most is being allocated from, by increasing page; it is the newest. */
  ghost predicate AllocOk(cpb: nat, k: Books) {
    && -1 <= k.allocBlock < |k.blocks|
    && (forall b :: 0 <= b < |k.blocks| && k.blocks[b].state.Allocating? ==> b == k.allocBlock)
    && (k.allocBlock >= 0 ==>
          && k.blocks[k.allocBlock].state.Allocating? && k.allocPage < cpb
          && k.blocks[k.allocBlock].seqNo == k.seqNumber
          && (forall c :: c in In(k.bits, k.allocBlock) ==> c.page < k.allocPage)
          && forall b :: 0 <= b < |k.blocks| && b != k.allocBlock && InService(k.blocks[b]) ==>
               k.blocks[b].seqNo < k.seqNumber)
  }

  /** A sequence number that is kept is at most that of every dirty block. */
  ghost predicate OldestOk(cpb: nat, k: Books) {
    k.oldestSeq != 0 ==>
      && k.oldestSeq <= k.seqNumber
      && forall b :: 0 <= b < |k.blocks| && IsDirty(cpb, k.blocks[b]) ==> k.oldestSeq <= k.blocks[b].seqNo
  }

  /** Every block agrees with the bitmap, and the counters with the blocks. */
  ghost predicate BlocksOk(cpb: nat, k: Books) {
    && (forall b :: 0 <= b < |k.blocks| ==> BlockOk(cpb, k.bits, k.soft, k.seqNumber, b, k.blocks[b]))
    && k.nErased == Total(ErasedBlocks, cpb, k.blocks)
    && k.nFree == Total(FreeChunks, cpb, k.blocks)
  }

  /** The books balance. */
  ghost predicate Balanced(cpb: nat, k: Books) {
    && k.soft <= k.bits && (forall c :: c in k.bits ==> c.block < |k.blocks| && c.page < cpb)
    && BlocksOk(cpb, k) && AllocOk(cpb, k) && OldestOk(cpb, k) && k.seqNumber >= LOWEST_SEQUENCE_NUMBER
  }

  // ---------- How the books change ----------

  function TakeBlock(k: Books, b: nat): Books
    requires b < |k.blocks|
  {
    k.(blocks := k.blocks[b := k.blocks[b].(state := Allocating, seqNo := k.seqNumber + 1)],
       seqNumber := k.seqNumber + 1, nErased := k.nErased - 1, allocBlock := b, allocPage := 0)
  }

  function TakePage(cpb: nat, k: Books): Books
    requires 0 <= k.allocBlock < |k.blocks|
  {
    var b, full := k.allocBlock, k.allocPage + 1 >= cpb;
    var bi := k.blocks[b].(pagesInUse := k.blocks[b].pagesInUse + 1);
    k.(blocks := k.blocks[b := if full then bi.(state := Full) else bi],
       bits := k.bits + {Chunk(b, k.allocPage)}, allocPage := k.allocPage + 1, nFree := k.nFree - 1,
       allocBlock := if full then -1 else b)
  }

  /** A page is taken, of block `b` if a fresh block is needed for it. */
  function Taken(cpb: nat, k: Books, b: nat): Books
    requires b < |k.blocks| && k.allocBlock < |k.blocks|
  {
    TakePage(cpb, if k.allocBlock >= 0 then k else TakeBlock(k, b))
  }

  function SkipRest(k: Books): Books
    requires 0 <= k.allocBlock < |k.blocks|
  {
    k.(blocks := k.blocks[k.allocBlock := k.blocks[k.allocBlock].(state := Full)], allocBlock := -1)
  }

  /** The oldest dirty sequence number, if it is kept at all, goes down to that of a block just dirtied. */
  function Older(oldest: nat, seqNo: nat): nat { if oldest != 0 && oldest > seqNo then seqNo else oldest }

  function SoftDelete(k: Books, c: Chunk): Books
    requires c.block < |k.blocks|
  {
    var bi := k.blocks[c.block];
    k.(blocks := k.blocks[c.block := bi.(softDelPages := bi.softDelPages + 1)], soft := k.soft + {c},
       nFree := k.nFree + 1, oldestSeq := Older(k.oldestSeq, bi.seqNo))
  }

  /** A soft-deleted chunk is about to be deleted for good, and is no longer counted as free. */
  function Forget(k: Books, c: Chunk): Books
    requires c.block < |k.blocks|
  {
    var bi := k.blocks[c.block];
    k.(blocks := k.blocks[c.block := bi.(softDelPages := bi.softDelPages - 1)], soft := k.soft - {c},
       nFree := k.nFree - 1)
  }

  function Release(k: Books, c: Chunk): Books
    requires c.block < |k.blocks|
  {
    var bi := k.blocks[c.block];
    k.(blocks := k.blocks[c.block := bi.(pagesInUse := bi.pagesInUse - 1)], bits := k.bits - {c},
       nFree := k.nFree + 1, oldestSeq := Older(k.oldestSeq, bi.seqNo))
  }

  function Cleared(oldest: nat, seqNo: nat): nat { if oldest == seqNo then 0 else oldest }

  function Erased(k: Books, b: nat): Books
    requires b < |k.blocks|
  {
    k.(blocks := k.blocks[b := BlockInfo(Empty, 0, 0, false, k.blocks[b].needsRetiring, 0)],
       bits := k.bits - In(k.bits, b), nErased := k.nErased + 1, oldestSeq := Cleared(k.oldestSeq, k.blocks[b].seqNo))
  }

  function Retired(cpb: nat, k: Books, b: nat): Books
    requires b < |k.blocks|
  {
    k.(blocks := k.blocks[b := k.blocks[b].(state := Dead, needsRetiring := false)], nFree := k.nFree - cpb,
       oldestSeq := Cleared(k.oldestSeq, k.blocks[b].seqNo))
  }

  /** Collection of a full block starts. */
  function Collect(k: Books, b: nat): Books
    requires b < |k.blocks|
  {
    var bi := k.blocks[b];
    k.(blocks := k.blocks[b := bi.(state := if bi.state.Full? then Collecting else bi.state, hasShrinkHdr := false)])
  }

  function Suspend(k: Books, b: nat): Books
    requires b < |k.blocks|
  {
    k.(blocks := k.blocks[b := k.blocks[b].(state := Full)])
  }

  // ---------- Every change keeps the books balanced ----------

  lemma InAdd(s: set<Chunk>, c: Chunk, b: nat)
    requires c !in s
    ensures |In(s + {c}, b)| == |In(s, b)| + if c.block == b then 1 else 0
  {
    if c.block == b { assert In(s + {c}, b) == In(s, b) + {c}; } else { assert In(s + {c}, b) == In(s, b); }
  }

  lemma InRemove(s: set<Chunk>, c: Chunk, b: nat)
    requires c in s
    ensures |In(s - {c}, b)| == |In(s, b)| - if c.block == b then 1 else 0
  {
    assert s - {c} + {c} == s;
    InAdd(s - {c}, c, b);
  }

  lemma SoftAtMostUsed(cpb: nat, k: Books, b: nat)
    requires Balanced(cpb, k) && b < |k.blocks|
    ensures 0 <= k.blocks[b].softDelPages <= k.blocks[b].pagesInUse <= cpb
  {
    ThisBlock(cpb, k, b);
    AtMostAll(cpb, k.bits, b);
    assert In(k.soft, b) <= In(k.bits, b);
    Subset(In(k.soft, b), In(k.bits, b));
  }

  /** A block has at most `cpb` pages. */
  lemma AtMostAll(cpb: nat, s: set<Chunk>, b: nat)
    requires forall c :: c in s ==> c.page < cpb
    ensures |In(s, b)| <= cpb
    ensures |In(s, b)| == cpb ==> forall p: nat :: p < cpb ==> Chunk(b, p) in s
  {
    var all := set p | 0 <= p < cpb :: Chunk(b, p);
    AllPages(cpb, b);
    assert In(s, b) <= all;
    Subset(In(s, b), all);
    if |In(s, b)| == cpb {
      SameSize(In(s, b), all);
      assert forall p: nat :: p < cpb ==> Chunk(b, p) in all;
    }
  }

  lemma {:induction false} AllPages(n: nat, b: nat)
    ensures |set p | 0 <= p < n :: Chunk(b, p)| == n
  {
    if n > 0 {
      AllPages(n - 1, b);
      var s := set p | 0 <= p < n - 1 :: Chunk(b, p);
      assert (set p | 0 <= p < n :: Chunk(b, p)) == s + {Chunk(b, n - 1)};
    }
  }

  lemma SameSize(s: set<Chunk>, t: set<Chunk>)
    requires s <= t && |s| == |t|
    ensures s == t
  {
    assert t == s + (t - s);
  }

  lemma Subset(s: set<Chunk>, t: set<Chunk>)
    requires s <= t
    ensures |s| <= |t|
  {
    assert t == s + (t - s);
  }

  /** A chunk in use lies in a block that is being written, full, or being collected. */
  lemma InUseNotEmpty(cpb: nat, k: Books, c: Chunk)
    requires Balanced(cpb, k) && c in k.bits
    ensures k.blocks[c.block].pagesInUse > 0
    ensures !k.blocks[c.block].state.Empty? && !k.blocks[c.block].state.Dead?
  {
    assert BlockOk(cpb, k.bits, k.soft, k.seqNumber, c.block, k.blocks[c.block]);
    assert c in In(k.bits, c.block);
  }

  /** A block without pages in use has no bit set and nothing soft-deleted. */
  lemma NothingIn(cpb: nat, k: Books, b: nat)
    requires Balanced(cpb, k) && b < |k.blocks| && k.blocks[b].pagesInUse == 0
    ensures In(k.bits, b) == {} && In(k.soft, b) == {} && k.blocks[b].softDelPages == 0
  {
    assert BlockOk(cpb, k.bits, k.soft, k.seqNumber, b, k.blocks[b]);
    assert In(k.soft, b) <= In(k.bits, b);
  }

  /** Only block `b` changed: if it is right again, and the counters moved with it, all is. */
  lemma OneBlock(cpb: nat, k: Books, k': Books, b: nat)
    requires BlocksOk(cpb, k) && b < |k.blocks| == |k'.blocks| && k'.blocks == k.blocks[b := k'.blocks[b]]
    requires k.seqNumber <= k'.seqNumber
    requires forall j: nat :: j != b ==> In(k'.bits, j) == In(k.bits, j) && In(k'.soft, j) == In(k.soft, j)
    requires BlockOk(cpb, k'.bits, k'.soft, k'.seqNumber, b, k'.blocks[b])
    requires k'.nErased - k.nErased == Weight(ErasedBlocks, cpb, k'.blocks[b]) - Weight(ErasedBlocks, cpb, k.blocks[b])
    requires k'.nFree - k.nFree == Weight(FreeChunks, cpb, k'.blocks[b]) - Weight(FreeChunks, cpb, k.blocks[b])
    ensures BlocksOk(cpb, k')
  {
    TotalUpdate(ErasedBlocks, cpb, k.blocks, b, k'.blocks[b]);
    TotalUpdate(FreeChunks, cpb, k.blocks, b, k'.blocks[b]);
    forall j | 0 <= j < |k.blocks| ensures BlockOk(cpb, k'.bits, k'.soft, k'.seqNumber, j, k'.blocks[j]) {
      assert BlockOk(cpb, k.bits, k.soft, k.seqNumber, j, k.blocks[j]);
    }
  }

  lemma ThisBlock(cpb: nat, k: Books, b: nat)
    requires BlocksOk(cpb, k) && b < |k.blocks|
    ensures BlockOk(cpb, k.bits, k.soft, k.seqNumber, b, k.blocks[b])
  {
  }

  lemma TakeBlockBalanced(cpb: nat, k: Books, b: nat)
    requires Balanced(cpb, k) && cpb > 0 && b < |k.blocks| && k.blocks[b].state.Empty? && k.allocBlock < 0
    ensures Balanced(cpb, TakeBlock(k, b))
  {
    hide BlocksOk;
    forall j | 0 <= j < |k.blocks| && InService(k.blocks[j]) ensures k.blocks[j].seqNo <= k.seqNumber {
      ThisBlock(cpb, k, j);
    }
    ThisBlock(cpb, k, b);
    OneBlock(cpb, k, TakeBlock(k, b), b);
  }

  lemma TakePageBalanced(cpb: nat, k: Books)
    requires Balanced(cpb, k) && k.allocBlock >= 0
    ensures Balanced(cpb, TakePage(cpb, k)) && Chunk(k.allocBlock, k.allocPage) !in k.bits
  {
    hide BlocksOk;
    var b, c := k.allocBlock, Chunk(k.allocBlock, k.allocPage);
    ThisBlock(cpb, k, b);
    assert c !in In(k.bits, b);
    InAdd(k.bits, c, b);
    OneBlock(cpb, k, TakePage(cpb, k), b);
  }

  lemma SkipRestBalanced(cpb: nat, k: Books)
    requires Balanced(cpb, k) && k.allocBlock >= 0
    ensures Balanced(cpb, SkipRest(k))
  {
    hide BlocksOk;
    ThisBlock(cpb, k, k.allocBlock);
    OneBlock(cpb, k, SkipRest(k), k.allocBlock);
  }

  lemma SoftDeleteBalanced(cpb: nat, k: Books, c: Chunk)
    requires Balanced(cpb, k) && c in k.bits && c !in k.soft
    ensures Balanced(cpb, SoftDelete(k, c))
  {
    hide BlocksOk;
    ThisBlock(cpb, k, c.block);
    InUseNotEmpty(cpb, k, c);
    InAdd(k.soft, c, c.block);
    OneBlock(cpb, k, SoftDelete(k, c), c.block);
  }

  lemma ForgetBalanced(cpb: nat, k: Books, c: Chunk)
    requires Balanced(cpb, k) && c in k.soft
    ensures Balanced(cpb, Forget(k, c)) && c !in Forget(k, c).soft && c in Forget(k, c).bits
  {
    hide BlocksOk;
    ThisBlock(cpb, k, c.block);
    InUseNotEmpty(cpb, k, c);
    InRemove(k.soft, c, c.block);
    OneBlock(cpb, k, Forget(k, c), c.block);
  }

  lemma ReleaseBalanced(cpb: nat, k: Books, c: Chunk)
    requires Balanced(cpb, k) && c in k.bits && c !in k.soft
    ensures Balanced(cpb, Release(k, c))
  {
    hide BlocksOk;
    ThisBlock(cpb, k, c.block);
    InUseNotEmpty(cpb, k, c);
    InRemove(k.bits, c, c.block);
    OneBlock(cpb, k, Release(k, c), c.block);
  }

  lemma ErasedBalanced(cpb: nat, k: Books, b: nat)
    requires Balanced(cpb, k) && b < |k.blocks| && k.blocks[b].pagesInUse == 0
    requires k.blocks[b].state.Full? || k.blocks[b].state.Collecting?
    ensures Balanced(cpb, Erased(k, b)) && Erased(k, b).bits == k.bits
  {
    hide BlocksOk;
    ThisBlock(cpb, k, b);
    NothingIn(cpb, k, b);
    assert Erased(k, b).bits == k.bits;
    OneBlock(cpb, k, Erased(k, b), b);
  }

  lemma RetiredBalanced(cpb: nat, k: Books, b: nat)
    requires Balanced(cpb, k) && b < |k.blocks| && k.blocks[b].pagesInUse == 0
    requires k.blocks[b].state.Full? || k.blocks[b].state.Collecting?
    ensures Balanced(cpb, Retired(cpb, k, b))
  {
    hide BlocksOk;
    ThisBlock(cpb, k, b);
    NothingIn(cpb, k, b);
    OneBlock(cpb, k, Retired(cpb, k, b), b);
  }

  lemma CollectBalanced(cpb: nat, k: Books, b: nat)
    requires Balanced(cpb, k) && b < |k.blocks|
    ensures Balanced(cpb, Collect(k, b))
  {
    hide BlocksOk;
    ThisBlock(cpb, k, b);
    OneBlock(cpb, k, Collect(k, b), b);
  }

  lemma SuspendBalanced(cpb: nat, k: Books, b: nat)
    requires Balanced(cpb, k) && b < |k.blocks| && k.blocks[b].state.Collecting?
    ensures Balanced(cpb, Suspend(k, b))
  {
    hide BlocksOk;
    ThisBlock(cpb, k, b);
    OneBlock(cpb, k, Suspend(k, b), b);
  }

  // ---------- The width of the counters ----------

  /** A number as it is read back from a signed bit field of ten bits. */
  function Field10(x: int): (r: int)
    ensures -512 <= r < 512 && (r - x) % 1024 == 0
    ensures r == x <==> -512 <= x < 512
  {
    (x + 512) % 1024 - 512
  }

  /** A block's counters as they are kept, in ten bits each. */
  function InTenBits(bi: BlockInfo): BlockInfo {
    bi.(pagesInUse := Field10(bi.pagesInUse), softDelPages := Field10(bi.softDelPages))
  }

  /** An erased device of one block, `n` pages of which have been allocated. */
  function Allocated(cpb: nat, n: nat): (k: Books)
    requires cpb > 0
    ensures |k.blocks| == 1 && k.allocBlock <= 0
  {
    if n == 0 then
      var bi := BlockInfo(Empty, 0, 0, false, false, 0);
      TakeBlock(Books([bi], {}, {}, 1, cpb, -1, 0, LOWEST_SEQUENCE_NUMBER, 0), 0)
    else
      var k := Allocated(cpb, n - 1);
      if k.allocBlock < 0 then k else TakePage(cpb, k)
  }

  lemma {:induction false} AllocatedIs(cpb: nat, n: nat)
    requires cpb > 0 && n <= cpb
    ensures var k := Allocated(cpb, n); var bi := k.blocks[0];
            && Balanced(cpb, k) && |In(k.bits, 0)| == n && bi.pagesInUse == n && bi.softDelPages == 0
            && if n < cpb then k.allocBlock == 0 && k.allocPage == n else k.allocBlock == -1 && bi.state.Full?
  {
    hide Balanced;
    if n == 0 {
      AllocatedNone(cpb);
    } else {
      AllocatedIs(cpb, n - 1);
      var k := Allocated(cpb, n - 1);
      TakePageBalanced(cpb, k);
      InAdd(k.bits, Chunk(0, k.allocPage), 0);
    }
  }

  lemma TotalOfOne(m: Measure, cpb: nat, bi: BlockInfo)
    ensures Total(m, cpb, [bi]) == Weight(m, cpb, bi)
  {
    assert [bi][..0] == [];
    assert Total(m, cpb, [bi][..0]) == 0;
  }

  lemma AllocatedNone(cpb: nat)
    requires cpb > 0
    ensures var k := Allocated(cpb, 0);
            Balanced(cpb, k) && In(k.bits, 0) == {} && k.blocks[0].pagesInUse == 0 && k.blocks[0].softDelPages == 0
            && k.allocBlock == 0 && k.allocPage == 0
  {
    var bi := BlockInfo(Empty, 0, 0, false, false, 0);
    var k := Books([bi], {}, {}, 1, cpb, -1, 0, LOWEST_SEQUENCE_NUMBER, 0);
    TotalOfOne(ErasedBlocks, cpb, bi);
    TotalOfOne(FreeChunks, cpb, bi);
    assert Balanced(cpb, k);
    TakeBlockBalanced(cpb, k, 0);
  }

  /** The counters are kept right on every device whose books balance exactly if a block has at most 511 pages. */
  lemma CountersFitIff(cpb: nat)
    requires cpb > 0
    ensures cpb <= 511 <==>
            forall k: Books, b: nat :: Balanced(cpb, k) && b < |k.blocks| ==> InTenBits(k.blocks[b]) == k.blocks[b]
  {
    hide Balanced;
    if cpb <= 511 {
      forall k: Books, b: nat | Balanced(cpb, k) && b < |k.blocks| ensures InTenBits(k.blocks[b]) == k.blocks[b] {
        SoftAtMostUsed(cpb, k, b);
      }
    } else {
      AllocatedIs(cpb, 512);
      var k := Allocated(cpb, 512);
      var b: nat := 0;
      assert InTenBits(k.blocks[b]).pagesInUse != 512;
      assert Balanced(cpb, k) && b < |k.blocks| && InTenBits(k.blocks[b]) != k.blocks[b];
    }
  }

  /** With the 512th page allocated in a block the counter of its pages reads -512, and the recount of free chunks
      finds 1024 too many.  If these are all the pages of the block, it also passes for one with discarded pages. */
  lemma CounterWraps(cpb: nat)
    requires cpb >= 512
    ensures var k := Allocated(cpb, 512); var bi := k.blocks[0];
            && Balanced(cpb, k) && |In(k.bits, 0)| == 512 && InTenBits(bi).pagesInUse == -512
            && Weight(FreeChunks, cpb, InTenBits(bi)) == Weight(FreeChunks, cpb, bi) + 1024
            && (cpb == 512 ==> IsDirty(cpb, InTenBits(bi)) && !IsDirty(cpb, bi))
  {
    hide Balanced;
    AllocatedIs(cpb, 512);
    ThisBlockAlive(cpb, Allocated(cpb, 512));
  }

  lemma ThisBlockAlive(cpb: nat, k: Books)
    requires Balanced(cpb, k) && |k.blocks| == 1 && k.blocks[0].pagesInUse > 0
    ensures !k.blocks[0].state.Dead?
  {
    ThisBlock(cpb, k, 0);
  }
}
