/**
 The block manager and the garbage collector, with the books of module Space, the flash pages and the objects that own
 them.  Summaries and checkpoints are not part of this device; an erase, and the write of a page, may fail at any time
 if the device is one on which they can.  A page whose write failed is one that a scan does not believe.
 */
module Device {
  import opened Common
  import opened DeviceLog
  import opened Journal
  import opened Owners
  import opened Space
  import L = FlashLog

  const WR_ATTEMPTS := 320
  const COPIES_PER_PASS := 5

  // ---------- Blocks before and after ----------

  /** A page of block `b` was deleted: unless it was the last one, and nothing speaks against erasing the block,
      only the number of pages in use has changed.  A block that is to be retired is never erased. */
  ghost predicate PageDeleted(blocks: seq<BlockInfo>, blocks': seq<BlockInfo>, bits': set<Chunk>, b: nat) {
    && b < |blocks| == |blocks'| && blocks' == blocks[b := blocks'[b]]
    && (if In(bits', b) == {} && !blocks[b].hasShrinkHdr && !blocks[b].state.Allocating?
        then blocks'[b].state.Dead? || (blocks'[b].state.Empty? && !blocks[b].needsRetiring)
        else blocks'[b] == blocks[b].(pagesInUse := blocks[b].pagesInUse - 1))
  }

  lemma CopiedAndDeleted(blocks0: seq<BlockInfo>, blocks1: seq<BlockInfo>, blocks2: seq<BlockInfo>, bits': set<Chunk>,
                         b: nat)
    requires Undisturbed(blocks0, blocks1) && Busy(blocks0, b) && PageDeleted(blocks1, blocks2, bits', b)
    ensures AfterDelete(blocks0, blocks2, b) && Finished(blocks0, blocks2, bits', b)
  {
  }

  lemma ForgottenAndDeleted(blocks0: seq<BlockInfo>, blocks1: seq<BlockInfo>, blocks2: seq<BlockInfo>,
                            bits': set<Chunk>, b: nat)
    requires Busy(blocks0, b) && PageDeleted(blocks1, blocks2, bits', b)
    requires blocks1 == blocks0[b := blocks0[b].(softDelPages := blocks0[b].softDelPages - 1)]
    ensures AfterDelete(blocks0, blocks2, b) && Finished(blocks0, blocks2, bits', b)
  {
  }

  lemma DeletedQuietly(blocks: seq<BlockInfo>, blocks': seq<BlockInfo>, bits': set<Chunk>, b: nat)
    requires PageDeleted(blocks, blocks', bits', b) && !blocks[b].state.Empty? && !blocks[b].state.Dead?
    ensures Quiet(blocks, blocks') && UndisturbedBut(blocks, blocks', b)
  {
  }

  /** After a page of block `b` was deleted: the block is as it was but for its counters, or it was erased or
      retired; the other blocks that were full or being collected are as they were. */
  ghost predicate AfterDelete(blocks: seq<BlockInfo>, blocks': seq<BlockInfo>, b: nat) {
    && b < |blocks| && UndisturbedBut(blocks, blocks', b)
    && ((blocks'[b].state == blocks[b].state && blocks'[b].hasShrinkHdr == blocks[b].hasShrinkHdr)
        || blocks'[b].state.Empty? || blocks'[b].state.Dead?)
  }

  ghost predicate NoNewCollecting(blocks: seq<BlockInfo>, blocks': seq<BlockInfo>) {
    |blocks'| == |blocks| && forall b :: 0 <= b < |blocks| && blocks'[b].state.Collecting? ==>
      blocks[b].state.Collecting?
  }

  /** Erased and retired blocks are as they were, and no other block is being collected. */
  ghost predicate Quiet(blocks: seq<BlockInfo>, blocks': seq<BlockInfo>) {
    && NoNewCollecting(blocks, blocks')
    && forall b :: 0 <= b < |blocks| && (blocks[b].state.Empty? || blocks[b].state.Dead?) ==> blocks'[b] == blocks[b]
  }

  /** A block being collected does not stay around when its last page has gone. */
  ghost predicate Finished(blocks: seq<BlockInfo>, blocks': seq<BlockInfo>, bits': set<Chunk>, b: nat) {
    Busy(blocks, b) && !blocks[b].hasShrinkHdr && In(bits', b) == {} && b < |blocks'| ==>
      blocks'[b].state.Empty? || blocks'[b].state.Dead?
  }

  lemma NoneNew(blocks: seq<BlockInfo>)
    ensures NoNewCollecting(blocks, blocks)
  {
  }

  /** What has become of the block being collected when one of its pages was dealt with. */
  lemma AfterOne(blocks: seq<BlockInfo>, blocks': seq<BlockInfo>, bits': set<Chunk>, b: nat, ok: bool)
    requires b < |blocks| && blocks[b].state.Collecting? && !blocks[b].hasShrinkHdr
    requires if ok then AfterDelete(blocks, blocks', b) && Finished(blocks, blocks', bits', b)
             else Undisturbed(blocks, blocks')
    ensures NoNewCollecting(blocks, blocks')
    ensures blocks'[b].state.Collecting? || blocks'[b].state.Empty? || blocks'[b].state.Dead?
    ensures blocks'[b].state.Collecting? ==> !blocks'[b].hasShrinkHdr && (ok ==> In(bits', b) != {})
  {
    assert Busy(blocks, b);
  }

  lemma UsedPages(cpb: nat, k: Books, b: nat)
    requires Balanced(cpb, k) && b < |k.blocks|
    ensures k.blocks[b].pagesInUse == |In(k.bits, b)|
  {
    ThisBlock(cpb, k, b);
  }

  lemma PagesBelow(cpb: nat, k: Books)
    requires Balanced(cpb, k)
    ensures forall x :: x in k.bits ==> x.page < cpb && x.block < |k.blocks|
  {
  }

  lemma GuardedAt(c: nat, cpb: nat, k: Books, nand: Nand, objs: Objs, log: seq<L.Page>, b: nat)
    requires Journaled(c, cpb, k, nand, objs, log) && b < |k.blocks|
    ensures cpb > 0 && (InService(k.blocks[b]) && !k.blocks[b].hasShrinkHdr ==> Vetted(c, cpb, log, b))
  {
  }

  lemma OldestBelow(cpb: nat, k: Books, b: nat)
    requires Balanced(cpb, k) && b < |k.blocks| && 0 < k.blocks[b].seqNo <= k.oldestSeq
    ensures forall j :: 0 <= j < |k.blocks| && IsDirty(cpb, k.blocks[j]) ==> k.blocks[b].seqNo <= k.blocks[j].seqNo
  {
  }

  lemma ServiceSeq(cpb: nat, k: Books, b: nat)
    requires Balanced(cpb, k) && b < |k.blocks| && InService(k.blocks[b])
    ensures k.blocks[b].seqNo > 0
  {
    ThisBlock(cpb, k, b);
  }

  lemma OwnedWithout(bits: set<Chunk>, soft: set<Chunk>, nand: Nand, objs: Objs, b: nat)
    requires Owned(bits, soft, nand, objs) && In(bits, b) == {}
    ensures Owned(bits, soft, Without(nand, b), objs) && SameReads(nand, objs, Without(nand, b), objs)
    ensures forall x :: x in bits ==> x in nand && x in Without(nand, b) && Without(nand, b)[x] == nand[x]
  {
    forall x | x in bits ensures x in nand && x.block != b {
      OwnerOf(bits, soft, nand, objs, x);
      assert x.block == b ==> x in In(bits, b);
    }
    OwnedSame(bits, soft, nand, objs, Without(nand, b));
  }

  lemma ShrinkBalanced(cpb: nat, k: Books, b: nat)
    requires Balanced(cpb, k) && b < |k.blocks|
    ensures Balanced(cpb, k.(blocks := k.blocks[b := k.blocks[b].(hasShrinkHdr := true)]))
  {
    hide BlocksOk;
    ThisBlock(cpb, k, b);
    OneBlock(cpb, k, k.(blocks := k.blocks[b := k.blocks[b].(hasShrinkHdr := true)]), b);
  }

  lemma {:induction false} AllErased(cpb: nat, blocks: seq<BlockInfo>)
    requires forall b :: 0 <= b < |blocks| ==> blocks[b] == BlockInfo(Empty, 0, 0, false, false, 0)
    ensures Total(ErasedBlocks, cpb, blocks) == |blocks| && Total(FreeChunks, cpb, blocks) == |blocks| * cpb
  {
    if blocks != [] { AllErased(cpb, blocks[..|blocks| - 1]); }
  }

  lemma SoftInUse(cpb: nat, k: Books)
    requires Balanced(cpb, k)
    ensures k.soft <= k.bits
  {
  }

  lemma RetirementBalanced(cpb: nat, k: Books, b: nat)
    requires Balanced(cpb, k) && b < |k.blocks|
    ensures Balanced(cpb, k.(blocks := k.blocks[b := k.blocks[b].(needsRetiring := true)]))
  {
    hide BlocksOk;
    ThisBlock(cpb, k, b);
    OneBlock(cpb, k, k.(blocks := k.blocks[b := k.blocks[b].(needsRetiring := true)]), b);
  }

  ghost predicate Idle(blocks: seq<BlockInfo>) { forall b :: 0 <= b < |blocks| ==> !blocks[b].state.Collecting? }

  lemma DirtySeqs(cpb: nat, k: Books)
    requires Balanced(cpb, k)
    ensures forall b :: 0 <= b < |k.blocks| && IsDirty(cpb, k.blocks[b]) ==> 0 < k.blocks[b].seqNo <= k.seqNumber
  {
    forall b | 0 <= b < |k.blocks| ensures IsDirty(cpb, k.blocks[b]) ==> 0 < k.blocks[b].seqNo <= k.seqNumber {
      ThisBlock(cpb, k, b);
    }
  }

  lemma NewOldest(cpb: nat, k: Books, s: nat)
    requires Balanced(cpb, k) && s <= k.seqNumber
    requires forall b :: 0 <= b < |k.blocks| && IsDirty(cpb, k.blocks[b]) ==> s <= k.blocks[b].seqNo
    ensures Balanced(cpb, k.(oldestSeq := s))
  {
    var k' := k.(oldestSeq := s);
    forall b | 0 <= b < |k.blocks| ensures BlockOk(cpb, k'.bits, k'.soft, k'.seqNumber, b, k'.blocks[b]) {
      ThisBlock(cpb, k, b);
    }
  }

  lemma InRange(cpb: nat, k: Books, c: Chunk)
    requires Balanced(cpb, k) && c in k.bits
    ensures c.block < |k.blocks| && c.page < cpb
  {
  }

  /** Full blocks, and the block being collected, which are not written to. */
  predicate Busy(blocks: seq<BlockInfo>, b: nat) {
    b < |blocks| && (blocks[b].state.Full? || blocks[b].state.Collecting?)
  }

  /** Blocks that were full or being collected are as they were; no other is being collected. */
  ghost predicate Undisturbed(blocks: seq<BlockInfo>, blocks': seq<BlockInfo>) {
    && |blocks'| == |blocks| && (forall b: nat :: Busy(blocks, b) ==> blocks'[b] == blocks[b])
    && (forall b :: 0 <= b < |blocks| && blocks'[b].state.Collecting? ==> blocks[b].state.Collecting?)
  }

  ghost predicate UndisturbedBut(blocks: seq<BlockInfo>, blocks': seq<BlockInfo>, but: nat) {
    && |blocks'| == |blocks| && (forall b: nat :: Busy(blocks, b) && b != but ==> blocks'[b] == blocks[b])
    && (forall b :: 0 <= b < |blocks| && blocks'[b].state.Collecting? ==> blocks[b].state.Collecting?)
  }

  lemma AllocPageFree(cpb: nat, k: Books)
    requires Balanced(cpb, k) && k.allocBlock < 0
    ensures Balanced(cpb, k.(allocPage := 0, allocBlock := -1))
  {
    var k' := k.(allocPage := 0, allocBlock := -1);
    assert BlocksOk(cpb, k') by {
      forall b | 0 <= b < |k.blocks| ensures BlockOk(cpb, k'.bits, k'.soft, k'.seqNumber, b, k'.blocks[b]) {
        ThisBlock(cpb, k, b);
      }
    }
  }

  lemma BalancedAlloc(cpb: nat, k: Books)
    requires Balanced(cpb, k)
    ensures -1 <= k.allocBlock < |k.blocks|
    ensures k.allocBlock >= 0 ==> k.blocks[k.allocBlock].state.Allocating?
  {
  }

  /** The `j`-th position after `start` on a circle of `n`. */
  function Cyclic(start: nat, j: nat, n: nat): (r: nat)
    requires start < n && j < n
    ensures r < n
  {
    if start + j < n then start + j else start + j - n
  }

  lemma NoneAllocating(cpb: nat, k: Books)
    requires Balanced(cpb, k) && k.allocBlock < 0
    ensures forall b :: 0 <= b < |k.blocks| ==> !k.blocks[b].state.Allocating?
  {
  }

  lemma DeletedNoCollecting(blocks: seq<BlockInfo>, blocks1: seq<BlockInfo>, blocks': seq<BlockInfo>,
                            bits': set<Chunk>, b: nat)
    requires NoNewCollecting(blocks, blocks1) && PageDeleted(blocks1, blocks', bits', b)
    ensures NoNewCollecting(blocks, blocks')
  {
  }

  lemma ReadsButThen(nand: Nand, objs: Objs, nand1: Nand, objs1: Objs, nand': Nand, p: Page)
    requires ReadsBut(nand, objs, nand1, objs1, p) && SameReads(nand1, objs1, nand', objs1)
    ensures ReadsBut(nand, objs, nand', objs1, p)
  {
  }

  lemma OwnedInUse(bits: set<Chunk>, soft: set<Chunk>, nand: Nand, objs: Objs)
    requires Owned(bits, soft, nand, objs)
    ensures forall x :: x in bits ==> x in nand
  {
    forall x | x in bits ensures x in nand { OwnerOf(bits, soft, nand, objs, x); }
  }

  lemma GoodIds(c: nat, cpb: nat, k: Books, nand: Nand, objs: Objs, log: seq<L.Page>)
    requires Journaled(c, cpb, k, nand, objs, log)
    ensures forall o :: o in objs ==> GoodId(o)
  {
  }

  lemma PageOkOf(c: nat, cpb: nat, k: Books, nand: Nand, objs: Objs, log: seq<L.Page>, x: Chunk)
    requires Journaled(c, cpb, k, nand, objs, log) && x in nand
    ensures PageOk(c, nand[x])
  {
  }

  lemma ForgottenIsThere(bits: set<Chunk>, soft: set<Chunk>, nand: Nand, objs: Objs, x: Chunk)
    requires Owned(bits, soft, nand, objs) && x in soft
    ensures x in nand && nand[x].obj in objs
  {
    OwnerOf(bits, soft, nand, objs, x);
  }

  // ---------- Passes over a block ----------

  /** No page before position `g`. */
  ghost predicate AllFrom(used: set<Chunk>, g: nat) { forall x :: x in used ==> x.page >= g }

  /** A pass from position `g` to `g'` over the pages in use of a block: those outside of the positions passed are
      left, and if all copies succeeded no others; otherwise a page that was passed is left as well. */
  ghost predicate Passed(used: set<Chunk>, used': set<Chunk>, g: nat, g': nat, ok: bool) {
    && g <= g' && used' <= used
    && (forall x :: x in used && (x.page < g || x.page >= g') ==> x in used')
    && if ok then forall x :: x in used' ==> x.page < g || x.page >= g'
       else exists x :: x in used' && x.page < g'
  }

  lemma FreeIsUnused(cpb: nat, k: Books, b: nat)
    requires Balanced(cpb, k) && b < |k.blocks|
    ensures k.blocks[b].state.Empty? || k.blocks[b].state.Dead? ==> In(k.bits, b) == {}
  {
    ThisBlock(cpb, k, b);
  }

  lemma NonePassed(used: set<Chunk>, g: nat)
    ensures Passed(used, used, g, g, true)
  {
  }

  lemma OnePassed(used: set<Chunk>, used0: set<Chunk>, used': set<Chunk>, b: nat, g: nat, at: nat, ok: bool)
    requires Passed(used, used0, g, at, true) && forall x :: x in used ==> x.block == b
    requires used' == used0 - (if ok then {Chunk(b, at)} else {}) && (!ok ==> Chunk(b, at) in used')
    ensures Passed(used, used', g, at + 1, ok)
    ensures ok ==> |used'| == |used0| - if Chunk(b, at) in used0 then 1 else 0
  {
    if ok && Chunk(b, at) !in used0 { assert used' == used0; }
  }

  lemma AllPassed(used: set<Chunk>, used': set<Chunk>, g: nat, g': nat, cpb: nat, copies: nat, maxCopies: int, ok: bool)
    requires Passed(used, used', g, g', ok) && g' <= cpb && maxCopies >= 0 && forall x :: x in used ==> x.page < cpb
    requires ok ==> copies - maxCopies == |used| - |used'|
    requires !ok || g' == cpb || maxCopies <= 0 || used' == {}
    ensures used' == {} <==> ok && AllFrom(used, g) && |used| <= copies
  {
    if ok && used' != {} && AllFrom(used, g) {
      var x :| x in used';
      assert |used'| > 0;
    }
  }

  /** After two pages were taken of an erased device of two blocks of one page each, both blocks are full. */
  lemma TwoTaken(k0: Books, k1: Books, k2: Books, b1: nat, b2: nat)
    requires k0 == Books([BlockInfo(Empty, 0, 0, false, false, 0), BlockInfo(Empty, 0, 0, false, false, 0)], {}, {},
                         2, 2, -1, k0.allocPage, LOWEST_SEQUENCE_NUMBER, 0)
    requires b1 < 2 && k1 == Taken(1, k0, b1) && b2 < 2 && k1.allocBlock < 2 && k2 == Taken(1, k1, b2)
             && Balanced(1, k2)
    ensures b1 != b2 && k2.allocBlock == -1 && k2.nErased == 0
    ensures k2.bits == {Chunk(b1, 0), Chunk(b2, 0)}
    ensures k2.blocks[b1].state.Full? && !k2.blocks[b1].hasShrinkHdr
  {
    ThisBlock(1, k2, b2);
    assert In(k2.bits, b2) <= {Chunk(b2, 0)};
    Subset(In(k2.bits, b2), {Chunk(b2, 0)});
  }

  lemma DataKeepsHeader(c: nat, cpb: nat, o: nat, ob: Obj, log: seq<L.Page>, ob': Obj, log': seq<L.Page>, id: nat,
                        n: nat)
    requires DataIn(c, cpb, o, ob, log, ob', log', id, n)
    ensures ob'.hdr == ob.hdr && ob'.size == ob.size && ob'.softDeleted == ob.softDeleted
    ensures ob'.chunks.Keys == ob.chunks.Keys + {id}
  {
  }

  /** No block has failed. */
  ghost predicate Sturdy(blocks: seq<BlockInfo>) { forall b :: 0 <= b < |blocks| ==> !blocks[b].needsRetiring }

  function RoomOf(cpb: nat, reserve: nat, k: Books): int {
    Min(k.nFree - reserve - 1, k.nErased * cpb + if k.allocBlock >= 0 then cpb - k.allocPage else 0)
  }

  lemma DeletedRoom(cpb: nat, reserve: nat, k: Books, k': Books)
    requires k'.nFree >= k.nFree && k'.nErased >= k.nErased
    requires k'.allocBlock == k.allocBlock && k'.allocPage == k.allocPage
    ensures RoomOf(cpb, reserve, k') >= RoomOf(cpb, reserve, k)
  {
    assert (k'.nErased - k.nErased) * cpb >= 0;
    assert k'.nErased * cpb == k.nErased * cpb + (k'.nErased - k.nErased) * cpb;
  }

  /** The blocks after page `p` was programmed in block `b`. */
  function FlaggedBy(blocks: seq<BlockInfo>, b: nat, p: Page): seq<BlockInfo>
    requires b < |blocks|
  {
    if p.isShrink then blocks[b := blocks[b].(hasShrinkHdr := true)] else blocks
  }

  lemma FlaggedQuiet(blocks: seq<BlockInfo>, blocks1: seq<BlockInfo>, b: nat, p: Page)
    requires b < |blocks1| && Undisturbed(blocks, blocks1)
    ensures NoNewCollecting(blocks, FlaggedBy(blocks1, b, p))
  {
  }

  /** Taking a page makes one page less to be had. */
  lemma TakenRoom(cpb: nat, reserve: nat, k: Books, b: nat)
    requires cpb > 0 && b < |k.blocks| && -1 <= k.allocBlock < |k.blocks| && (k.allocBlock >= 0 ==> k.allocPage < cpb)
    ensures RoomOf(cpb, reserve, Taken(cpb, k, b)) == RoomOf(cpb, reserve, k) - 1
  {
    assert (k.nErased - 1) * cpb == k.nErased * cpb - cpb;
    if k.allocBlock >= 0 {
      TakenPageRoom(cpb, reserve, k);
    } else {
      TakenPageRoom(cpb, reserve, TakeBlock(k, b));
    }
  }

  lemma TakenPageRoom(cpb: nat, reserve: nat, k: Books)
    requires 0 <= k.allocBlock < |k.blocks| && k.allocPage < cpb
    ensures var k' := TakePage(cpb, k);
            && k'.nErased == k.nErased && k'.nFree == k.nFree - 1
            && (if k'.allocBlock >= 0 then cpb - k'.allocPage else 0) == cpb - k.allocPage - 1
  {
  }

  lemma InstalledRoom(cpb: nat, reserve: nat, k: Books, b: nat, p: Page, k': Books)
    requires cpb > 0 && Balanced(cpb, k) && b < |k.blocks| && k.allocBlock < |k.blocks|
    requires var k1 := Taken(cpb, k, b); b < |k1.blocks| && k' == k1.(blocks := FlaggedBy(k1.blocks, b, p))
    ensures RoomOf(cpb, reserve, k') == RoomOf(cpb, reserve, k) - 1
  {
    hide Taken;
    TakenRoom(cpb, reserve, k, b);
  }

  // ---------- The device ----------

  class Dev {
    const c: nat          // data bytes per chunk
    const cpb: nat        // chunks per block
    const reserve: nat    // chunks kept back for the collector and for a checkpoint
    const nandFails: bool // whether pages may turn out unusable, and erasing may fail

    var blocks: seq<BlockInfo>
    var bits: set<Chunk>
    ghost var soft: set<Chunk>
    var nErased: int
    var nFree: int
    var allocBlock: int
    var allocPage: nat
    var finder: int
    var seqNumber: nat
    var oldestSeq: nat
    var oldestBlock: int
    var gcBlock: int
    var gcChunk: nat
    var cleanUps: seq<nat>
    var nand: Nand
    var objs: Objs
    ghost var log: seq<L.Page> // the pages in the order in which they were programmed
    ghost var refusals: nat    // how often a page was asked for and there was none

    /** A device of `n` erased blocks. */
    constructor (c: nat, cpb: nat, reserve: nat, nandFails: bool, n: nat)
      requires c > 0 && cpb > 0
      ensures Valid() && Idle(blocks) && nErased == n && nFree == n * cpb && objs == map[] && log == [] && gcChunk == 0
      ensures bits == {} && cleanUps == [] && blocks == seq(n, _ => BlockInfo(Empty, 0, 0, false, false, 0))
      ensures soft == {} && allocBlock == -1 && seqNumber == LOWEST_SEQUENCE_NUMBER && oldestSeq == 0
      ensures this.c == c && this.cpb == cpb && this.reserve == reserve && this.nandFails == nandFails
    {
      this.c, this.cpb, this.reserve, this.nandFails := c, cpb, reserve, nandFails;
      blocks, bits, soft := seq(n, _ => BlockInfo(Empty, 0, 0, false, false, 0)), {}, {};
      nErased, nFree, allocBlock, allocPage, finder := n, n * cpb, -1, 0, -1;
      seqNumber, oldestSeq, oldestBlock, gcBlock, gcChunk, cleanUps := LOWEST_SEQUENCE_NUMBER, 0, -1, -1, 0, [];
      nand, objs, log, refusals := map[], map[], [], 0;
      new;
      AllErased(cpb, blocks);
    }

    /** A device the books of which have been set up from what is on flash. */
    constructor Restarted (c: nat, cpb: nat, reserve: nat, nandFails: bool, blocks: seq<BlockInfo>, bits: set<Chunk>,
                           nErased: int, nFree: int, allocPage: nat, seqNumber: nat, nand: Nand, objs: Objs,
                           ghost log: seq<L.Page>)
      requires c > 0 && Owned(bits, {}, nand, objs) && (!nandFails ==> Sturdy(blocks))
      requires forall o :: o in objs ==> !objs[o].softDeleted
      requires var k := Books(blocks, bits, {}, nErased, nFree, -1, allocPage, seqNumber, 0);
               Balanced(cpb, k) && Journaled(c, cpb, k, nand, objs, log)
      ensures Valid() && this.blocks == blocks && this.objs == objs && this.nand == nand && this.log == log
      ensures this.c == c && this.cpb == cpb && this.reserve == reserve && this.nandFails == nandFails
      ensures gcChunk == 0 && cleanUps == []
    {
      this.c, this.cpb, this.reserve, this.nandFails := c, cpb, reserve, nandFails;
      this.blocks, this.bits, this.soft, this.nErased, this.nFree := blocks, bits, {}, nErased, nFree;
      this.allocBlock, this.allocPage, this.finder, this.seqNumber := -1, allocPage, -1, seqNumber;
      this.oldestSeq, this.oldestBlock, this.gcBlock, this.gcChunk, this.cleanUps := 0, -1, -1, 0, [];
      this.nand, this.objs, this.log, this.refusals := nand, objs, log, 0;
    }

    ghost function Now(): Books
      reads this
    {
      Books(blocks, bits, soft, nErased, nFree, allocBlock, allocPage, seqNumber, oldestSeq)
    }

    /** The books balance, and the log is what is on flash. */
    ghost predicate InOrder()
      reads this
    {
      (!nandFails ==> Sturdy(blocks)) && c > 0 && cpb > 0 && Balanced(cpb, Now())
        && Journaled(c, cpb, Now(), nand, objs, log)
    }

    ghost predicate Valid()
      reads this
    {
      InOrder() && Owned(bits, soft, nand, objs) && Scheduled(cleanUps, objs)
    }

    /** All is well but for page `x`, which no object points to any more. */
    ghost predicate ValidBut(x: Chunk)
      reads this
    {
      InOrder() && Owned(bits - {x}, soft, nand, objs) && Scheduled(cleanUps, objs)
    }

    /** The next erased block after the last one taken, cyclically.  The count of erased blocks is right, so that
        the search never comes back empty-handed. */
    method SearchErased() returns (r: nat)
      requires BlocksOk(cpb, Now()) && nErased >= 1
      modifies this`finder
      ensures r < |blocks| && blocks[r].state.Empty? && finder == r
    {
      ErasedExists(cpb, blocks);
      ghost var start := if finder + 1 < 0 || finder + 1 >= |blocks| then 0 else finder + 1;
      for i := 0 to |blocks|
        invariant i > 0 ==> finder == Cyclic(start, i - 1, |blocks|)
        invariant i == 0 ==> finder == old(finder)
        invariant forall j :: 0 <= j < i ==> !blocks[Cyclic(start, j, |blocks|)].state.Empty?
      {
        finder := finder + 1;
        if finder < 0 || finder >= |blocks| { finder := 0; }
        if blocks[finder].state.Empty? { return finder; }
      }
      forall b | 0 <= b < |blocks| ensures !blocks[b].state.Empty? {
        var j := if b >= start then b - start else b - start + |blocks|;
        assert b == Cyclic(start, j, |blocks|);
      }
      assert false;
    }

    /** Takes an erased block to allocate from; fails exactly when the count of erased blocks is 0. */
    method FindAllocBlock() returns (r: int)
      requires cpb > 0 && Balanced(cpb, Now()) && allocBlock < 0
      modifies this`blocks, this`seqNumber, this`nErased, this`finder
      ensures r == -1 <==> old(nErased) < 1
      ensures r == -1 ==> Now() == old(Now())
      ensures r != -1 ==> 0 <= r < |old(blocks)| && old(blocks)[r].state.Empty? &&
                          Now().(allocBlock := r, allocPage := 0) == TakeBlock(old(Now()), r)
    {
      if nErased < 1 { return -1; }
      r := SearchErased();
      seqNumber := seqNumber + 1;
      blocks := blocks[r := blocks[r].(state := Allocating, seqNo := seqNumber)];
      nErased := nErased - 1;
    }

    predicate AllocAvailable(n: nat)
      reads this`nFree
    {
      nFree > reserve + n
    }

    /** There is a page to be had. */
    predicate CanAlloc(useReserve: bool)
      reads this`nFree, this`nErased, this`allocBlock
    {
      (useReserve || AllocAvailable(1)) && (allocBlock >= 0 || nErased >= 1)
    }

    /** How many pages can be had, one after another, without touching the reserve. */
    ghost function Room(): int
      reads this
    {
      RoomOf(cpb, reserve, Now())
    }

    /** With room left there is a page to be had. */
    lemma RoomCanAlloc()
      requires cpb > 0 && Balanced(cpb, Now()) && Room() > 0
      ensures CanAlloc(false) && CanAlloc(true)
    {
      assert nErased < 1 ==> nErased * cpb <= 0;
    }

    /** Sees to it that there is a block to allocate from. */
    method NextBlock()
      requires InOrder()
      modifies this`blocks, this`seqNumber, this`nErased, this`finder, this`allocBlock, this`allocPage
      ensures InOrder() && Undisturbed(old(blocks), blocks)
      ensures allocBlock < 0 <==> old(allocBlock) < 0 && old(nErased) < 1
      ensures allocBlock < 0 ==> nErased == old(nErased)
      ensures allocBlock >= 0 ==> !Busy(old(blocks), allocBlock) && allocBlock < |old(blocks)|
      ensures allocBlock >= 0 ==>
                && -1 <= old(allocBlock) < |old(blocks)|
                && Now() == if old(allocBlock) >= 0 then old(Now()) else TakeBlock(old(Now()), allocBlock)
    {
      hide Balanced, Journaled, Vetted;
      BalancedAlloc(cpb, Now());
      if allocBlock < 0 {
        allocBlock := FindAllocBlock();
        allocPage := 0;
        if allocBlock >= 0 {
          TakeBlockBalanced(cpb, old(Now()), allocBlock);
          TakeBlockJournaled(c, cpb, old(Now()), nand, objs, log, allocBlock);
        } else {
          AllocPageFree(cpb, old(Now()));
          JournaledFrame(c, cpb, old(Now()), Now(), nand, objs, log);
        }
      }
    }

    /** The next page of the block being written, or of a fresh one.  `None` when there is no erased block, or
        when only the reserve is left and the caller may not use it.  Pages are given out in the order of the
        sequence numbers of their blocks, and of their positions. */
    method AllocChunk(useReserve: bool) returns (r: Option<Chunk>)
      requires InOrder()
      modifies this`blocks, this`seqNumber, this`nErased, this`finder, this`allocBlock, this`allocPage, this`bits,
               this`nFree, this`refusals
      ensures InOrder() && Undisturbed(old(blocks), blocks)
      ensures r.None? ==> bits == old(bits)
      ensures r.Some? ==> r.value !in old(bits) && bits == old(bits) + {r.value} && !Busy(old(blocks), r.value.block)
      ensures r.Some? ==> Newest(cpb, blocks, log, r.value) && Placed(cpb, Now(), r.value)
      ensures r.Some? <==> old(CanAlloc(useReserve))
      ensures r.None? ==> !CanAlloc(useReserve)
      ensures refusals == old(refusals) + if r.None? then 1 else 0
      ensures r.Some? && !useReserve ==> nFree > reserve
      ensures r.Some? ==>
                && r.value.block < |old(blocks)| && old(allocBlock) < |old(blocks)|
                && Now() == Taken(cpb, old(Now()), r.value.block)
    {
      hide Balanced, Journaled, Newest, Placed;
      NextBlock();
      refusals := refusals + if (!useReserve && !AllocAvailable(1)) || allocBlock < 0 then 1 else 0;
      if !useReserve && !AllocAvailable(1) { return None; }
      if allocBlock < 0 { return None; }
      var ch := NextPage();
      r := Some(ch);
    }

    /** The next page of the block being written. */
    method NextPage() returns (ch: Chunk)
      requires InOrder() && allocBlock >= 0
      modifies this`blocks, this`allocBlock, this`allocPage, this`bits, this`nFree
      ensures InOrder() && old(allocBlock) < |old(blocks)| && Now() == TakePage(cpb, old(Now()))
      ensures ch == Chunk(old(allocBlock), old(allocPage)) && ch !in old(bits)
      ensures Newest(cpb, blocks, log, ch) && Placed(cpb, Now(), ch)
      ensures Undisturbed(old(blocks), blocks)
    {
      hide Balanced, Journaled, Newest, Placed;
      ghost var k := Now();
      var b := allocBlock;
      BalancedAlloc(cpb, k);
      TakePageBalanced(cpb, k);
      TakePageJournaled(c, cpb, k, nand, objs, log);
      ch := Chunk(b, allocPage);
      var full := allocPage + 1 >= cpb;
      blocks := blocks[b := blocks[b].(pagesInUse := blocks[b].pagesInUse + 1,
                                       state := if full then Full else blocks[b].state)];
      bits := bits + {ch};
      allocPage, nFree := allocPage + 1, nFree - 1;
      if full { allocBlock := -1; }
      assert Now() == TakePage(cpb, k);
    }

    /** Gives up the rest of the block being written. */
    method SkipRestOfBlock()
      requires InOrder()
      modifies this`blocks, this`allocBlock
      ensures InOrder() && Undisturbed(old(blocks), blocks) && allocBlock < 0
      ensures old(allocBlock) < 0 ==> blocks == old(blocks)
      ensures old(allocBlock) >= 0 ==>
                && old(allocBlock) < |old(blocks)|
                && blocks == old(blocks)[old(allocBlock) := old(blocks)[old(allocBlock)].(state := Full)]
    {
      hide Balanced, Journaled, Vetted;
      BalancedAlloc(cpb, Now());
      if allocBlock >= 0 {
        SkipRestBalanced(cpb, Now());
        blocks := blocks[allocBlock := blocks[allocBlock].(state := Full)];
        allocBlock := -1;
        assert Now() == SkipRest(old(Now()));
        JournaledFrame(c, cpb, old(Now()), Now(), nand, objs, log);
      }
    }

    /** Counts the free chunks block by block; the counter is always right. */
    method CountFreeChunks() returns (n: int)
      requires BlocksOk(cpb, Now())
      ensures n == nFree
    {
      n := 0;
      for b := 0 to |blocks|
        invariant n == Total(FreeChunks, cpb, blocks[..b])
      {
        assert blocks[..b + 1][..b] == blocks[..b];
        if !blocks[b].state.Dead? { n := n + (cpb - blocks[b].pagesInUse + blocks[b].softDelPages); }
      }
      assert blocks[..|blocks|] == blocks;
    }

    // ---------- Oldest dirty block ----------

    /** Finds the full block with discarded pages that has the smallest sequence number, if there is one.  No
        collection is under way. */
    method CalcOldestDirtySeq()
      requires Balanced(cpb, Now()) && Idle(blocks)
      modifies this`oldestSeq, this`oldestBlock
      ensures Balanced(cpb, Now())
      ensures (forall b :: 0 <= b < |blocks| ==> !IsDirty(cpb, blocks[b])) ==> oldestSeq == old(oldestSeq)
      ensures (exists b :: 0 <= b < |blocks| && IsDirty(cpb, blocks[b])) ==>
                && 0 <= oldestBlock < |blocks| && IsDirty(cpb, blocks[oldestBlock])
                && blocks[oldestBlock].seqNo == oldestSeq
                && forall b :: 0 <= b < |blocks| && IsDirty(cpb, blocks[b]) ==> oldestSeq <= blocks[b].seqNo
    {
      var s, blockNo := seqNumber + 1, -1;
      DirtySeqs(cpb, Now());
      for i := 0 to |blocks|
        invariant blockNo == -1 ==> s == seqNumber + 1 && forall b :: 0 <= b < i ==> !IsDirty(cpb, blocks[b])
        invariant blockNo != -1 ==>
                    0 <= blockNo < i && IsDirty(cpb, blocks[blockNo]) && blocks[blockNo].seqNo == s
        invariant forall b :: 0 <= b < i && IsDirty(cpb, blocks[b]) ==> s <= blocks[b].seqNo
      {
        if blocks[i].state.Full? && blocks[i].pagesInUse - blocks[i].softDelPages < cpb && blocks[i].seqNo < s {
          s, blockNo := blocks[i].seqNo, i;
        }
      }
      if blockNo >= 0 {
        oldestSeq, oldestBlock := s, blockNo;
        NewOldest(cpb, old(Now()), s);
      }
    }

    /** May block `b` be collected?  With a shrink header only if no older full block has discarded pages, and then
        no cut in the block matters any more. */
    method BlockOkForGc(b: nat) returns (ok: bool)
      requires Valid() && Idle(blocks) && b < |blocks|
      modifies this`oldestSeq, this`oldestBlock
      ensures Valid()
      ensures !blocks[b].hasShrinkHdr ==> ok
      ensures old(oldestSeq) == 0 && (exists j :: 0 <= j < |blocks| && IsDirty(cpb, blocks[j])) ==>
                (ok <==> !blocks[b].hasShrinkHdr ||
                         forall j :: 0 <= j < |blocks| && IsDirty(cpb, blocks[j]) ==>
                                     blocks[b].seqNo <= blocks[j].seqNo)
      ensures ok && InService(blocks[b]) ==> Vetted(c, cpb, log, b)
      ensures ok && blocks[b].hasShrinkHdr && blocks[b].seqNo > 0 ==>
                forall j :: 0 <= j < |blocks| && IsDirty(cpb, blocks[j]) ==> blocks[b].seqNo <= blocks[j].seqNo
    {
      hide Balanced, Journaled, Vetted, Owned;
      if !blocks[b].hasShrinkHdr { GuardedAt(c, cpb, Now(), nand, objs, log, b); return true; }
      if oldestSeq == 0 { CalcOldestDirtySeq(); }
      JournaledFrame(c, cpb, old(Now()), Now(), nand, objs, log);
      ok := blocks[b].seqNo <= oldestSeq;
      if ok && blocks[b].seqNo > 0 { OldestBelow(cpb, Now(), b); }
      if ok && InService(blocks[b]) {
        ServiceSeq(cpb, Now(), b);
        GuardVets(c, cpb, Now(), nand, objs, log, b);
      }
    }

    // ---------- Deleting and erasing ----------

    method ClearOldestDirtySeq(b: nat)
      requires b < |blocks|
      modifies this`oldestSeq, this`oldestBlock
      ensures oldestSeq == Cleared(old(oldestSeq), blocks[b].seqNo)
      ensures oldestBlock == if blocks[b].seqNo == old(oldestSeq) then -1 else old(oldestBlock)
    {
      if blocks[b].seqNo == oldestSeq { oldestSeq, oldestBlock := 0, -1; }
    }

    method UpdateOldestDirtySeq(b: nat)
      requires b < |blocks|
      modifies this`oldestSeq, this`oldestBlock
      ensures oldestSeq == Older(old(oldestSeq), blocks[b].seqNo)
      ensures oldestBlock == if blocks[b].seqNo < old(oldestSeq) then b else old(oldestBlock)
    {
      if oldestSeq != 0 && oldestSeq > blocks[b].seqNo { oldestSeq, oldestBlock := blocks[b].seqNo, b; }
    }

    /** Takes a block without pages in use out of service. */
    method RetireBlock(b: nat)
      requires Balanced(cpb, Now()) && b < |blocks| && Busy(blocks, b) && blocks[b].pagesInUse == 0
      modifies this`blocks, this`nFree, this`oldestSeq, this`oldestBlock
      ensures Balanced(cpb, Now())
      ensures |blocks| == |old(blocks)| && blocks == old(blocks)[b := blocks[b]] && blocks[b].state.Dead?
    {
      hide Balanced;
      RetiredBalanced(cpb, Now(), b);
      ClearOldestDirtySeq(b);
      nFree := nFree - cpb;
      blocks := blocks[b := blocks[b].(state := Dead, needsRetiring := false)];
      assert Now() == Retired(cpb, old(Now()), b);
    }

    /** The books after a block without pages in use was erased. */
    method BlockErased(b: nat)
      requires Balanced(cpb, Now()) && b < |blocks| && Busy(blocks, b) && blocks[b].pagesInUse == 0
      modifies this`blocks, this`bits, this`nErased, this`oldestSeq, this`oldestBlock
      ensures Balanced(cpb, Now()) && bits == old(bits)
      ensures |blocks| == |old(blocks)| && blocks == old(blocks)[b := blocks[b]] && blocks[b].state.Empty?
      ensures blocks[b].needsRetiring == old(blocks[b]).needsRetiring && nErased == old(nErased) + 1
    {
      hide Balanced;
      ErasedBalanced(cpb, Now(), b);
      ClearOldestDirtySeq(b);
      blocks := blocks[b := BlockInfo(Empty, 0, 0, false, blocks[b].needsRetiring, 0)];
      nErased := nErased + 1;
      bits := bits - In(bits, b);
      assert Now() == Erased(old(Now()), b);
    }

    /** The books after a block without pages in use was erased, or after that failed. */
    method EraseOrRetire(b: nat)
      requires Balanced(cpb, Now()) && b < |blocks| && Busy(blocks, b) && blocks[b].pagesInUse == 0
      modifies this`blocks, this`bits, this`nErased, this`nFree, this`oldestSeq, this`oldestBlock, this`gcBlock
      ensures Balanced(cpb, Now()) && bits == old(bits)
      ensures |blocks| == |old(blocks)| && blocks == old(blocks)[b := blocks[b]]
      ensures blocks[b].state.Empty? || blocks[b].state.Dead?
      ensures old(blocks[b]).needsRetiring ==> blocks[b].state.Dead?
      ensures gcBlock == if b == old(gcBlock) then -1 else old(gcBlock)
      ensures !nandFails && !old(blocks[b]).needsRetiring ==>
                blocks[b].state.Empty? && !blocks[b].needsRetiring && nErased == old(nErased) + 1 && nFree == old(nFree)
    {
      hide Balanced;
      if b == gcBlock { gcBlock := -1; }
      var erasedOk := false;
      if !blocks[b].needsRetiring {
        erasedOk := true;
        if nandFails { erasedOk := *; }
      }
      if erasedOk { BlockErased(b); } else { RetireBlock(b); }
    }

    /** Erases a block without pages in use, or retires it when it cannot be erased or has failed before.  What a scan
        makes of any object stays the same. */
    method BlockBecameDirty(b: nat)
      requires Valid() && b < |blocks| && Busy(blocks, b) && blocks[b].pagesInUse == 0 && Vetted(c, cpb, log, b)
      modifies this`blocks, this`bits, this`nErased, this`nFree, this`oldestSeq, this`oldestBlock, this`nand,
               this`gcBlock, this`log
      ensures Valid() && bits == old(bits) && SameReads(old(nand), objs, nand, objs)
      ensures AllEroded(c, cpb, objs, old(log), log)
      ensures |blocks| == |old(blocks)| && blocks == old(blocks)[b := blocks[b]]
      ensures blocks[b].state.Empty? || blocks[b].state.Dead?
      ensures old(blocks[b]).needsRetiring ==> blocks[b].state.Dead?
      ensures gcBlock == if b == old(gcBlock) then -1 else old(gcBlock)
      ensures !nandFails ==> blocks[b].state.Empty? && nErased == old(nErased) + 1 && nFree == old(nFree)
      ensures forall x :: x in bits && x in old(nand) ==> x in nand && nand[x] == old(nand)[x]
    {
      hide Balanced, Journaled, Vetted, Owned, SameReads, AllEroded, Erase, Without;
      NothingIn(cpb, Now(), b);
      PagesBelow(cpb, Now());
      EraseOrRetire(b);
      nand := Without(nand, b);
      log := Erase(log, cpb, b + 1);
      EraseJournaled(c, cpb, old(Now()), Now(), old(nand), objs, old(log), b);
      OwnedWithout(bits, soft, old(nand), objs, b);
    }

    /** Deletes a chunk in use that is not counted as soft-deleted, and that no object points to any more; the last
        one takes its block with it. */
    method ChunkDel(x: Chunk)
      requires ValidBut(x) && x in bits && x !in soft
      modifies this`blocks, this`bits, this`nErased, this`nFree, this`oldestSeq, this`oldestBlock, this`nand,
               this`gcBlock, this`log
      ensures Valid() && bits == old(bits) - {x} && SameReads(old(nand), objs, nand, objs)
      ensures AllEroded(c, cpb, objs, old(log), log)
      ensures forall y :: y in bits && y in old(nand) ==> y in nand && nand[y] == old(nand)[y]
      ensures PageDeleted(old(blocks), blocks, bits, x.block)
      ensures !nandFails ==> nErased >= old(nErased) && nFree == old(nFree) + 1
    {
      hide Balanced, Journaled, Vetted, Owned, SameReads, AllEroded, Erase;
      ghost var k := Now();
      InRange(cpb, k, x);
      InUseNotEmpty(cpb, k, x);
      ReleaseBalanced(cpb, k, x);
      var b := x.block;
      UpdateOldestDirtySeq(b);
      nFree := nFree + 1;
      bits := bits - {x};
      blocks := blocks[b := blocks[b].(pagesInUse := blocks[b].pagesInUse - 1)];
      assert Now() == Release(k, x);
      JournaledFrame(c, cpb, k, Now(), nand, objs, log);
      UsedPages(cpb, Now(), b);
      ErodedSame(c, cpb, objs, log);
      ReadsSame(nand, objs);
      if blocks[b].pagesInUse == 0 && !blocks[b].hasShrinkHdr && !blocks[b].state.Allocating? {
        GuardedAt(c, cpb, Now(), nand, objs, log, b);
        BlockBecameDirty(b);
      }
    }

    method SoftDelChunk(x: Chunk)
      requires InOrder() && x in bits && x !in soft
      modifies this`blocks, this`soft, this`nFree, this`oldestSeq, this`oldestBlock
      ensures InOrder() && soft == old(soft) + {x} && Now() == SoftDelete(old(Now()), x)
    {
      hide Balanced, Journaled, Vetted;
      InRange(cpb, Now(), x);
      SoftDeleteBalanced(cpb, Now(), x);
      blocks := blocks[x.block := blocks[x.block].(softDelPages := blocks[x.block].softDelPages + 1)];
      nFree := nFree + 1;
      UpdateOldestDirtySeq(x.block);
      soft := soft + {x};
      JournaledFrame(c, cpb, old(Now()), Now(), nand, objs, log);
    }

    // ---------- Writing ----------

    method MarkForRetirement(b: nat)
      requires nandFails && InOrder() && b < |blocks|
      modifies this`blocks
      ensures InOrder() && blocks == old(blocks)[b := old(blocks[b]).(needsRetiring := true)]
    {
      hide Balanced, Journaled, Vetted;
      blocks := blocks[b := blocks[b].(needsRetiring := true)];
      RetirementBalanced(cpb, old(Now()), b);
      JournaledFrame(c, cpb, old(Now()), Now(), nand, objs, log);
    }

    /** A page turned out not to be erased, or could not be written: it is deleted again, its block gets no more
        writes, and after a failed write the block is to be retired. */
    method AbandonChunk(x: Chunk, erasedOk: bool)
      requires nandFails && ValidBut(x) && x in bits && x !in soft
      modifies this`blocks, this`bits, this`nErased, this`nFree, this`oldestSeq, this`oldestBlock, this`nand,
               this`gcBlock, this`allocBlock, this`log
      ensures Valid() && bits == old(bits) - {x} && SameReads(old(nand), objs, nand, objs)
      ensures AllEroded(c, cpb, objs, old(log), log)
      ensures forall y :: y in bits && y in old(nand) ==> y in nand && nand[y] == old(nand)[y]
      ensures UndisturbedBut(old(blocks), blocks, x.block)
      ensures allocBlock < 0 && x.block < |blocks| && !blocks[x.block].state.Allocating?
      ensures erasedOk && (blocks[x.block].state.Full? || blocks[x.block].state.Collecting?) ==>
                blocks[x.block].needsRetiring
    {
      hide Balanced, Journaled, Vetted, Owned, SameReads, AllEroded;
      InRange(cpb, Now(), x);
      if erasedOk { MarkForRetirement(x.block); }
      ChunkDel(x);
      BalancedAlloc(cpb, Now());
      SkipRestOfBlock();
      NoneAllocating(cpb, Now());
    }

    /** Programs a page.  After a failure another page is tried, up to a limit: the write fails only when there is no
        page left, or when 321 pages have failed. */
    method WriteNewChunk(p: Page, useReserve: bool)
      returns (r: Option<Chunk>, ghost before: seq<L.Page>, ghost failed: nat)
      requires Valid() && PageOk(c, p)
      modifies this`blocks, this`bits, this`nErased, this`nFree, this`oldestSeq, this`oldestBlock, this`nand,
               this`gcBlock, this`allocBlock, this`allocPage, this`seqNumber, this`finder, this`log, this`refusals
      ensures r.None? ==> Valid() && bits == old(bits) && SameReads(old(nand), objs, nand, objs) && log == before
      ensures r.Some? ==>
                && Balanced(cpb, Now()) && (!nandFails ==> Sturdy(blocks))
                && Pending(c, cpb, Now(), nand, objs, log, before, r.value, p)
                && r.value !in old(bits) && bits == old(bits) + {r.value}
                && r.value in nand && nand[r.value] == p && !Busy(old(blocks), r.value.block)
      ensures AllEroded(c, cpb, objs, old(log), before) && Undisturbed(old(blocks), blocks)
      ensures forall x :: x in old(bits) ==> x in nand && x in old(nand) && nand[x] == old(nand)[x]
      ensures !nandFails ==> (r.Some? <==> old(CanAlloc(useReserve))) && (r.None? ==> !CanAlloc(useReserve))
      ensures !nandFails && r.Some? ==>
                && r.value.block < |old(blocks)| && old(allocBlock) < |old(blocks)|
                && Now() == Taken(cpb, old(Now()), r.value.block)
      ensures failed <= 321 && (refusals == old(refusals) ==> (r.None? <==> failed == 321))
      ensures refusals >= old(refusals) && (!nandFails ==> refusals == old(refusals) + if r.None? then 1 else 0)
    {
      hide Balanced, Journaled, Owned, SameReads, AllEroded, Pending, Vetted, Scheduled;
      OwnedInUse(bits, soft, nand, objs);
      ErodedSame(c, cpb, objs, log);
      ReadsSame(nand, objs);
      var attempts := 0;
      failed := 0;
      while attempts <= WR_ATTEMPTS
        invariant Valid() && bits == old(bits) && Undisturbed(old(blocks), blocks)
        invariant !nandFails ==> attempts == 0 && Now() == old(Now())
        invariant refusals == old(refusals) && failed == attempts <= WR_ATTEMPTS + 1
        invariant SameReads(old(nand), objs, nand, objs) && AllEroded(c, cpb, objs, old(log), log)
        invariant forall x :: x in old(bits) ==> x in nand && x in old(nand) && nand[x] == old(nand)[x]
        decreases WR_ATTEMPTS - attempts
      {
        ghost var nand0, log0 := nand, log;
        var again, erasedOk, writeOk;
        r, again, erasedOk, writeOk, before := Attempt(p, useReserve);
        ReadsThen(old(nand), objs, nand0, objs, if r.None? then nand else nand0, objs);
        ErodedThen(c, cpb, objs, old(log), log0, before);
        if !again { return; }
        attempts := attempts + 1;
        failed := failed + 1;
      }
      r, before := None, log;
    }

    /** Programs one page, if there is one, and abandons it when that fails. */
    method Attempt(p: Page, useReserve: bool)
      returns (r: Option<Chunk>, again: bool, erasedOk: bool, writeOk: bool, ghost before: seq<L.Page>)
      requires Valid() && PageOk(c, p)
      modifies this`blocks, this`bits, this`nErased, this`nFree, this`oldestSeq, this`oldestBlock, this`nand,
               this`gcBlock, this`allocBlock, this`allocPage, this`seqNumber, this`finder, this`log, this`refusals
      ensures r.None? ==> Valid() && bits == old(bits) && SameReads(old(nand), objs, nand, objs) && log == before
      ensures r.Some? ==>
                && Balanced(cpb, Now()) && (!nandFails ==> Sturdy(blocks))
                && Pending(c, cpb, Now(), nand, objs, log, before, r.value, p)
                && r.value !in old(bits) && bits == old(bits) + {r.value}
                && r.value in nand && nand[r.value] == p && !Busy(old(blocks), r.value.block) && !again
      ensures r.Some? ==> SameReads(old(nand), objs, old(nand), objs)
      ensures AllEroded(c, cpb, objs, old(log), before) && Undisturbed(old(blocks), blocks)
      ensures forall x :: x in old(bits) ==> x in nand && x in old(nand) && nand[x] == old(nand)[x]
      ensures again ==> nandFails
      ensures r.Some? <==> old(CanAlloc(useReserve)) && erasedOk && writeOk
      ensures !again && r.None? ==> !old(CanAlloc(useReserve)) && !CanAlloc(useReserve)
      ensures r.Some? ==>
                && old(CanAlloc(useReserve)) && r.value.block < |old(blocks)| && old(allocBlock) < |old(blocks)|
                && Now() == Taken(cpb, old(Now()), r.value.block)
      ensures again <==> old(CanAlloc(useReserve)) && !(erasedOk && writeOk)
      ensures refusals == old(refusals) + if !again && r.None? then 1 else 0
    {
      hide Balanced, Journaled, Owned, SameReads, AllEroded, Pending, Newest, Placed, Vetted, Scheduled;
      OwnedInUse(bits, soft, nand, objs);
      r, erasedOk, writeOk := TryPage(p, useReserve);
      again, before := false, log;
      ErodedSame(c, cpb, objs, log);
      ReadsSame(nand, objs);
      if r.None? { return; }
      var ch := r.value;
      if erasedOk && writeOk {
        AppendPending(c, cpb, Now(), nand, objs, log, ch, p);
        nand := nand[ch := p];
        log := log + [ToLog(cpb, ch, p)];
      } else {
        AbandonChunk(ch, erasedOk);
        r, again, before := None, true, log;
      }
    }

    /** Takes a page, which may turn out not to be erased, or not to be writable. */
    method TryPage(p: Page, useReserve: bool) returns (r: Option<Chunk>, erasedOk: bool, writeOk: bool)
      requires Valid()
      modifies this`blocks, this`bits, this`nErased, this`nFree, this`allocBlock, this`allocPage, this`seqNumber,
               this`finder, this`refusals
      ensures InOrder() && Undisturbed(old(blocks), blocks) && (!nandFails ==> erasedOk && writeOk)
      ensures r.None? ==> Valid() && bits == old(bits)
      ensures r.Some? ==>
                && r.value !in old(bits) && bits == old(bits) + {r.value} && r.value !in nand && r.value !in soft
                && !Busy(old(blocks), r.value.block)
                && Newest(cpb, blocks, log, r.value) && Placed(cpb, Now(), r.value) && ValidBut(r.value)
      ensures r.Some? <==> old(CanAlloc(useReserve))
      ensures r.None? ==> !CanAlloc(useReserve)
      ensures r.Some? ==>
                && r.value.block < |old(blocks)| && old(allocBlock) < |old(blocks)|
                && Now() == Taken(cpb, old(Now()), r.value.block)
      ensures refusals == old(refusals) + if r.None? then 1 else 0
    {
      hide Balanced, Journaled, Owned, Newest;
      SoftInUse(cpb, Now());
      r := AllocChunk(useReserve);
      erasedOk, writeOk := true, true;
      if nandFails { erasedOk, writeOk := *, *; }
      if r.Some? {
        assert bits - {r.value} == old(bits);
        NotOnFlash(c, cpb, Now(), nand, objs, log, r.value);
      }
    }

    // ---------- Files ----------

    /** The page an object has for chunk `id`, or for its header. */
    function PageOf(o: nat, id: nat): Option<Chunk>
      requires o in objs
      reads this`objs
    {
      if id == 0 then objs[o].hdr else if id in objs[o].chunks then Some(objs[o].chunks[id]) else None
    }

    /** A page can become the one of its object. */
    ghost predicate Fitting(p: Page)
      reads this`objs
    {
      && PageOk(c, p) && p.obj in objs && !objs[p.obj].softDeleted
      && (p.id == 0 ==> p.size == objs[p.obj].size)
      && (p.isShrink ==> p.id == 0 && forall id :: id in objs[p.obj].chunks ==> L.Base(c, id) < p.size)
    }

    /** The object `ob` with page `p` at `ch`, which may take the place of another. */
    function With(ob: Obj, p: Page, ch: Chunk): Obj {
      if (p.id == 0 && ob.hdr.Some?) || (p.id > 0 && p.id in ob.chunks) then Moved(ob, p.id, ch)
          else Grown(ob, p.id, ch)
    }

    /** A page that was just written becomes the object's; a shrink header flags its block.  The page that it
        replaces is still to be given up. */
    method Commit(p: Page, ch: Chunk, ghost before: seq<L.Page>, ghost nand0: Nand)
      requires c > 0 && cpb > 0 && (!nandFails ==> Sturdy(blocks)) && Balanced(cpb, Now()) && Scheduled(cleanUps, objs)
      requires Fitting(p) && Pending(c, cpb, Now(), nand, objs, log, before, ch, p)
      requires ch in bits && ch in nand && nand[ch] == p && Owned(bits - {ch}, soft, nand0, objs)
      requires forall x :: x in bits - {ch} ==> x in nand && x in nand0 && nand[x] == nand0[x]
      modifies this`objs, this`blocks
      ensures objs == old(objs)[p.obj := With(old(objs)[p.obj], p, ch)]
      ensures ReadsBut(nand0, old(objs), nand, objs, p)
      ensures WroteTo(c, cpb, p.obj, old(objs)[p.obj], before, objs[p.obj], log, p)
      ensures OthersEroded(c, cpb, old(objs), before, log, p.obj)
      ensures ch.block < |old(blocks)| && blocks == FlaggedBy(old(blocks), ch.block, p)
      ensures match old(PageOf(p.obj, p.id))
              case None => Valid()
              case Some(prev) => ValidBut(prev) && prev in bits && prev !in soft && prev != ch
    {
      hide Balanced, Journaled, Owned, ReadsBut, Pending, WroteTo, OthersEroded, CurrentOf, PageOk;
      var o, prev := p.obj, PageOf(p.obj, p.id);
      var ob' := With(objs[o], p, ch);
      TakesPage(c, cpb, Now(), nand, objs, log, before, ch, p, ob');
      OwnedInstall(bits - {ch}, soft, nand0, objs, nand, ch, p, prev);
      assert bits - {ch} + {ch} == bits && bits - {ch} + {ch} - {} == bits;
      ghost var k := Now();
      InRange(cpb, k, ch);
      if p.isShrink {
        ShrinkBalanced(cpb, k, ch.block);
        blocks := blocks[ch.block := blocks[ch.block].(hasShrinkHdr := true)];
      }
      Adopt(c, cpb, k, Now(), nand, objs, log, before, ch, p, ob');
      objs := objs[o := ob'];
    }

    /** Writes a page and makes it the object's. */
    method Install(p: Page, useReserve: bool) returns (r: Option<Chunk>, ghost before: seq<L.Page>)
      requires Valid() && Fitting(p)
      modifies this
      ensures NoNewCollecting(old(blocks), blocks) && cleanUps == old(cleanUps) && gcChunk == old(gcChunk)
      ensures r.None? ==> Valid() && objs == old(objs) && SameReads(old(nand), objs, nand, objs) && log == before
      ensures r.Some? ==>
                && objs == old(objs)[p.obj := With(old(objs)[p.obj], p, r.value)]
                && ReadsBut(old(nand), old(objs), nand, objs, p)
                && WroteTo(c, cpb, p.obj, old(objs)[p.obj], before, objs[p.obj], log, p)
                && OthersEroded(c, cpb, old(objs), before, log, p.obj)
                && r.value in bits && r.value in nand && nand[r.value] == p
      ensures r.Some? ==> match old(PageOf(p.obj, p.id))
                          case None => Valid()
                          case Some(prev) => ValidBut(prev) && prev in bits && prev !in soft && prev != r.value
      ensures AllEroded(c, cpb, old(objs), old(log), before)
      ensures !nandFails ==> (r.Some? <==> old(CanAlloc(useReserve))) && (r.None? ==> !CanAlloc(useReserve))
      ensures !nandFails && r.Some? ==>
                && r.value.block < |old(blocks)| && old(allocBlock) < |old(blocks)|
                && var k := Taken(cpb, old(Now()), r.value.block);
                   r.value.block < |k.blocks| && Now() == k.(blocks := FlaggedBy(k.blocks, r.value.block, p))
      ensures refusals >= old(refusals) && (!nandFails ==> refusals == old(refusals) + if r.None? then 1 else 0)
    {
      hide Balanced, Journaled, Owned, SameReads, ReadsBut, AllEroded, OthersEroded, WroteTo, Pending, Taken, PageOk;
      OwnedInUse(bits, soft, nand, objs);
      ghost var failed;
      r, before, failed := WriteNewChunk(p, useReserve);
      if r.None? { return; }
      assert bits - {r.value} == old(bits);
      ghost var blocks1 := blocks;
      Commit(p, r.value, before, old(nand));
      FlaggedQuiet(old(blocks), blocks1, r.value.block, p);
    }

    /** Writes a page of an object and gives up the one it replaces. */
    method ReplacePage(p: Page, useReserve: bool) returns (ok: bool)
      requires Valid() && Fitting(p)
      modifies this
      ensures Valid() && NoNewCollecting(old(blocks), blocks) && cleanUps == old(cleanUps) && gcChunk == old(gcChunk)
      ensures !ok ==> objs == old(objs) && SameReads(old(nand), old(objs), nand, objs) &&
                      AllEroded(c, cpb, objs, old(log), log)
      ensures ok ==>
                && p.obj in objs && PageOf(p.obj, p.id).Some?
                && objs == old(objs)[p.obj := With(old(objs)[p.obj], p, PageOf(p.obj, p.id).value)]
                && PageOf(p.obj, p.id).value in nand && nand[PageOf(p.obj, p.id).value] == p
                && ReadsBut(old(nand), old(objs), nand, objs, p)
                && WroteTo(c, cpb, p.obj, old(objs)[p.obj], old(log), objs[p.obj], log, p)
                && OthersEroded(c, cpb, old(objs), old(log), log, p.obj)
      ensures !nandFails ==> (ok <==> old(CanAlloc(useReserve))) && (!ok ==> !CanAlloc(useReserve))
      ensures !nandFails && ok ==> Room() >= old(Room()) - 1
      ensures !nandFails && ok && old(PageOf(p.obj, p.id)).None? && !p.isShrink ==>
                var b := PageOf(p.obj, p.id).value.block;
                b < |old(blocks)| && old(allocBlock) < |old(blocks)| && Now() == Taken(cpb, old(Now()), b)
      ensures refusals >= old(refusals) && (!nandFails ==> refusals == old(refusals) + if ok then 0 else 1)
    {
      hide Balanced, Journaled, Owned, SameReads, ReadsBut, AllEroded, OthersEroded, WroteTo, Taken, RoomOf, PageOk;
      var o, prev := p.obj, PageOf(p.obj, p.id);
      var r, before := Install(p, useReserve);
      ok := r.Some?;
      if !ok { return; }
      ghost var k1, nand1, log1 := Now(), nand, log;
      if !nandFails { InstalledRoom(cpb, reserve, old(Now()), r.value.block, p, k1); }
      ErodedSame(c, cpb, objs, log);
      ReadsSame(nand, objs);
      if prev.Some? {
        ChunkDel(prev.value);
        DeletedNoCollecting(old(blocks), k1.blocks, blocks, bits, prev.value.block);
        if !nandFails { DeletedRoom(cpb, reserve, k1, Now()); }
      }
      ReadsButThen(old(nand), old(objs), nand1, objs, nand, p);
      WroteThen(c, cpb, o, old(objs), old(log), before, objs, log1, log, p);
      OthersThen(c, cpb, old(objs), old(log), before, objs, log1, log, o);
    }

    /** Writes the first bytes of a chunk.  A chunk beyond the largest id is dropped, which callers do not take for a
        failure. */
    method WrDataObj(o: nat, id: nat, data: seq<bv8>, useReserve: bool) returns (r: int)
      requires Valid() && o in objs && !objs[o].softDeleted && id > 0 && |data| <= c
      modifies this
      ensures Valid() && NoNewCollecting(old(blocks), blocks) && cleanUps == old(cleanUps) && gcChunk == old(gcChunk)
      ensures r == 0 <==> id > MAX_CHUNK_ID
      ensures r <= 0 ==> objs == old(objs) && SameReads(old(nand), objs, nand, objs) &&
                         AllEroded(c, cpb, objs, old(log), log)
      ensures r > 0 ==>
                && objs.Keys == old(objs.Keys) && objs == old(objs)[o := objs[o]] && id in objs[o].chunks
                && objs[o].chunks[id] in nand && nand[objs[o].chunks[id]] == DataPage(o, id, data)
                && ReadsBut(old(nand), old(objs), nand, objs, DataPage(o, id, data))
                && DataIn(c, cpb, o, old(objs)[o], old(log), objs[o], log, id, |data|)
                && OthersEroded(c, cpb, old(objs), old(log), log, o)
      ensures !nandFails ==> (r >= 0 <==> id > MAX_CHUNK_ID || old(CanAlloc(useReserve)))
      ensures !nandFails && r < 0 ==> !CanAlloc(useReserve)
      ensures !nandFails && r >= 0 ==> Room() >= old(Room()) - 1
      ensures !nandFails && r > 0 && id !in old(objs)[o].chunks ==>
                var b := objs[o].chunks[id].block;
                b < |old(blocks)| && old(allocBlock) < |old(blocks)| && Now() == Taken(cpb, old(Now()), b)
      ensures refusals >= old(refusals) && (!nandFails ==> refusals == old(refusals) + if r >= 0 then 0 else 1)
    {
      hide Balanced, Journaled, Owned, SameReads, ReadsBut, AllEroded, OthersEroded, DataIn, RoomOf;
      ReadsSame(nand, objs);
      ErodedSame(c, cpb, objs, log);
      if id > MAX_CHUNK_ID { return 0; }
      GoodIdOf(c, cpb, Now(), nand, objs, log, o);
      var ok := ReplacePage(DataPage(o, id, data), useReserve);
      if !ok { return -1; }
      r := Addr(cpb, objs[o].chunks[id]);
    }

    /** A new header, with the size of the object; the first one may not come out of the reserve. */
    method UpdateOh(o: nat, data: seq<bv8>, isShrink: bool) returns (ok: bool)
      requires Valid() && o in objs && !objs[o].softDeleted
      requires isShrink ==> forall id :: id in objs[o].chunks ==> L.Base(c, id) < objs[o].size
      modifies this
      ensures Valid() && NoNewCollecting(old(blocks), blocks) && cleanUps == old(cleanUps) && gcChunk == old(gcChunk)
      ensures !ok ==> objs == old(objs) && SameReads(old(nand), objs, nand, objs) &&
                      AllEroded(c, cpb, objs, old(log), log)
      ensures ok ==>
                && objs.Keys == old(objs.Keys) && objs == old(objs)[o := objs[o]] && objs[o].hdr.Some?
                && objs[o].hdr.value in nand
                && nand[objs[o].hdr.value] == Page(o, 0, data, old(objs)[o].size, isShrink)
                && ReadsBut(old(nand), old(objs), nand, objs, Page(o, 0, data, old(objs)[o].size, isShrink))
                && HeaderIn(c, cpb, o, old(objs)[o], old(log), objs[o], log, isShrink)
                && OthersEroded(c, cpb, old(objs), old(log), log, o)
      ensures !nandFails ==> (ok <==> old(CanAlloc(objs[o].hdr.Some?))) && (!ok ==> !CanAlloc(objs[o].hdr.Some?))
      ensures !nandFails && ok ==> Room() >= old(Room()) - 1
      ensures !nandFails && ok && old(objs)[o].hdr.None? && !isShrink ==>
                var b := objs[o].hdr.value.block;
                b < |old(blocks)| && old(allocBlock) < |old(blocks)| && Now() == Taken(cpb, old(Now()), b)
      ensures refusals >= old(refusals) && (!nandFails ==> refusals == old(refusals) + if ok then 0 else 1)
    {
      hide Balanced, Journaled, Owned, SameReads, ReadsBut, AllEroded, OthersEroded, HeaderIn, RoomOf;
      GoodIdOf(c, cpb, Now(), nand, objs, log, o);
      ok := ReplacePage(Page(o, 0, data, objs[o].size, isShrink), objs[o].hdr.Some?);
    }

    /** The size in memory changes. */
    method SetSize(o: nat, size: nat)
      requires Valid() && o in objs
      modifies this`objs
      ensures Valid() && objs == old(objs)[o := old(objs)[o].(size := size)] && SameReads(nand, old(objs), nand, objs)
    {
      hide Balanced, Journaled, Owned, SameReads;
      OwnedSize(bits, soft, nand, objs, o, size);
      GoodIds(c, cpb, Now(), nand, objs, log);
      objs := objs[o := objs[o].(size := size)];
      FewerObjects(c, cpb, Now(), nand, old(objs), objs, log);
    }

    /** A new object; it gets its header later. */
    method CreateObj(o: nat)
      requires Valid() && o !in objs && o !in cleanUps && GoodId(o)
      modifies this`objs
      ensures Valid() && SameReads(nand, old(objs), nand, objs) && objs == old(objs)[o := NewObj()]
    {
      hide Balanced, Journaled;
      OwnedCreate(bits, soft, nand, objs, o);
      GoodIds(c, cpb, Now(), nand, objs, log);
      objs := objs[o := NewObj()];
      FewerObjects(c, cpb, Now(), nand, old(objs), objs, log);
    }

    /** Removes one chunk from a file, as when the file is cut. */
    method DropChunk(o: nat, id: nat)
      requires Valid() && o in objs && !objs[o].softDeleted && id in objs[o].chunks
      modifies this
      ensures Valid() && Quiet(old(blocks), blocks) && cleanUps == old(cleanUps) && gcChunk == old(gcChunk)
      ensures objs == old(objs)[o := Dropped(old(objs[o]), id)]
      ensures forall j, i ::
                Lookup(nand, objs, j, i) == if j == o && i == id then None else Lookup(old(nand), old(objs), j, i)
      ensures AllEroded(c, cpb, objs, old(log), log)
      ensures !nandFails ==> Room() >= old(Room())
      ensures refusals == old(refusals)
    {
      hide Balanced, Journaled, Owned, AllEroded, RoomOf, Scheduled, Sturdy;
      PreviousPage(bits, soft, nand, objs, o, id);
      var x := objs[o].chunks[id];
      NoChunkZero(bits, soft, nand, objs, o);
      InUseNotEmpty(cpb, Now(), x);
      OwnedInUse(bits, soft, nand, objs);
      OwnedDrop(bits, soft, nand, objs, nand, o, id);
      GoodIds(c, cpb, Now(), nand, objs, log);
      LesserObject(c, cpb, Now(), nand, objs, o, Dropped(objs[o], id), log);
      ScheduledStill(cleanUps, objs, o, Dropped(objs[o], id));
      objs := objs[o := Dropped(objs[o], id)];
      ChunkDel(x);
      if !nandFails { DeletedRoom(cpb, reserve, old(Now()), Now()); }
      DeletedQuietly(old(blocks), blocks, bits, x.block);
    }

    /** Deletes a file: at once if it has no data, otherwise by giving up its data. */
    method SoftDelFile(o: nat)
      requires Valid() && o in objs && !objs[o].softDeleted
      modifies this
      ensures Valid() && NoNewCollecting(old(blocks), blocks) && cleanUps == old(cleanUps) && gcChunk == old(gcChunk)
      ensures objs == if old(objs[o]).nData <= 0 then old(objs) - {o}
                      else old(objs)[o := old(objs[o]).(softDeleted := true, chunks := map[])]
      ensures forall j, i ::
                Lookup(nand, objs, j, i) == if j == o then None else Lookup(old(nand), old(objs), j, i)
      ensures AllEroded(c, cpb, objs, old(log), log)
      ensures !nandFails ==> Room() >= old(Room())
      ensures refusals == old(refusals)
    {
      hide Balanced, Journaled, Owned, AllEroded, RoomOf;
      if objs[o].nData <= 0 {
        OnlyHeader(bits, soft, nand, objs, o);
        DelObj(o);
      } else {
        GiveUpData(o);
        ErodedSame(c, cpb, objs, log);
      }
    }

    /** Gives up all data of a file at once: its pages are counted as free, and collected later. */
    method GiveUpData(o: nat)
      requires Valid() && o in objs && !objs[o].softDeleted && objs[o].nData > 0
      modifies this
      ensures Valid() && NoNewCollecting(old(blocks), blocks) && cleanUps == old(cleanUps) && gcChunk == old(gcChunk)
      ensures objs == old(objs)[o := old(objs[o]).(softDeleted := true, chunks := map[])]
      ensures bits == old(bits) && nand == old(nand) && log == old(log) && Room() >= old(Room())
      ensures refusals == old(refusals)
    {
      hide Balanced, Journaled, Owned, RoomOf;
      var left := objs[o].chunks.Keys;
      FilePages(bits, soft, nand, objs, o);
      ghost var given: set<Chunk> := {};
      while left != {}
        invariant InOrder() && bits == old(bits) && nand == old(nand) && objs == old(objs) && log == old(log)
        invariant cleanUps == old(cleanUps) && gcChunk == old(gcChunk) && refusals == old(refusals)
        invariant nFree >= old(nFree) && nErased == old(nErased)
        invariant allocBlock == old(allocBlock) && allocPage == old(allocPage)
        invariant left <= objs[o].chunks.Keys && soft == old(soft) + given && NoNewCollecting(old(blocks), blocks)
        invariant forall x :: x in given <==> exists id :: id in objs[o].chunks.Keys - left && objs[o].chunks[id] == x
        decreases left
      {
        var id :| id in left;
        InRange(cpb, Now(), objs[o].chunks[id]);
        SoftDelChunk(objs[o].chunks[id]);
        given := given + {objs[o].chunks[id]};
        left := left - {id};
      }
      DeletedRoom(cpb, reserve, old(Now()), Now());
      SoftInUse(cpb, Now());
      OwnedSoft(bits, old(soft), nand, objs, o, soft);
      GoodIds(c, cpb, Now(), nand, objs, log);
      objs := objs[o := objs[o].(softDeleted := true, chunks := map[])];
      FewerObjects(c, cpb, Now(), nand, old(objs), objs, log);
    }

    /** Deletes an object that has no data pages. */
    method DelObj(o: nat)
      requires Valid() && o in objs && objs[o].nData <= 0
      modifies this
      ensures Valid() && SameReads(old(nand), old(objs), nand, objs) && objs == old(objs) - {o}
      ensures cleanUps == old(cleanUps) && gcChunk == old(gcChunk) && Quiet(old(blocks), blocks)
      ensures AllEroded(c, cpb, objs, old(log), log)
      ensures !nandFails ==> Room() >= old(Room())
      ensures refusals == old(refusals)
    {
      hide Balanced, Journaled, Owned, SameReads, AllEroded, RoomOf;
      HeaderNotSoft(bits, soft, nand, objs, o);
      OwnedInUse(bits, soft, nand, objs);
      OwnedDelete(bits, soft, nand, objs, nand, o);
      ReadsDelete(bits, soft, nand, objs, nand, o);
      GoodIds(c, cpb, Now(), nand, objs, log);
      var hdr := objs[o].hdr;
      objs := objs - {o};
      FewerObjects(c, cpb, Now(), nand, old(objs), objs, log);
      ErodedSame(c, cpb, objs, log);
      if hdr.Some? {
        InUseNotEmpty(cpb, Now(), hdr.value);
        ChunkDel(hdr.value);
        if !nandFails { DeletedRoom(cpb, reserve, old(Now()), Now()); }
        DeletedQuietly(old(blocks), blocks, bits, hdr.value.block);
        ReadsThen(old(nand), old(objs), old(nand), objs, nand, objs);
      } else {
        assert bits - {} == bits;
      }
    }

    // ---------- Collecting ----------

    /** A data page of a soft-deleted file is no longer counted as free, nor as one of the file; with its last one the
        file is scheduled for deletion. */
    method Forgo(x: Chunk)
      requires Valid() && x in soft
      modifies this`blocks, this`soft, this`nFree, this`objs, this`cleanUps
      ensures ValidBut(x) && x in bits && soft == old(soft) - {x} && SameReads(nand, old(objs), nand, objs)
      ensures x in nand && nand[x].obj in old(objs) && old(objs)[nand[x].obj].softDeleted
      ensures objs == old(objs)[nand[x].obj := old(objs)[nand[x].obj].(nData := old(objs)[nand[x].obj].nData - 1)]
      ensures x.block < |old(blocks)| &&
              blocks == old(blocks)[x.block :=
                          old(blocks)[x.block].(softDelPages := old(blocks)[x.block].softDelPages - 1)]
    {
      hide Balanced, Journaled, Owned, SameReads, Scheduled;
      SoftInUse(cpb, Now());
      OwnedInUse(bits, soft, nand, objs);
      InRange(cpb, Now(), x);
      OwnerOf(bits, soft, nand, objs, x);
      ForgetBalanced(cpb, Now(), x);
      var o, b := nand[x].obj, x.block;
      ghost var k := Now();
      OwnedForget(bits, soft, nand, objs, nand, x);
      ReadsForget(bits, soft, nand, objs, nand, x);
      GoodIds(c, cpb, k, nand, objs, log);
      nFree := nFree - 1;
      blocks := blocks[b := blocks[b].(softDelPages := blocks[b].softDelPages - 1)];
      soft := soft - {x};
      assert Now() == Forget(k, x);
      JournaledFrame(c, cpb, k, Now(), nand, objs, log);
      var ob := objs[o].(nData := objs[o].nData - 1);
      LesserObject(c, cpb, Now(), nand, objs, o, ob, log);
      ScheduledMore(cleanUps, objs, o, ob);
      objs := objs[o := ob];
      if objs[o].nData <= 0 { cleanUps := cleanUps + [o]; }
    }

    /** A data page of a soft-deleted file is thrown away. */
    method GcForget(x: Chunk)
      requires Valid() && x in soft && Busy(blocks, x.block)
      modifies this
      ensures Valid() && SameReads(old(nand), old(objs), nand, objs) && objs.Keys == old(objs.Keys)
      ensures bits == old(bits) - {x} && gcChunk == old(gcChunk)
      ensures objs == old(objs)[old(nand[x]).obj :=
                                old(objs[nand[x].obj]).(nData := old(objs[nand[x].obj]).nData - 1)]
      ensures AfterDelete(old(blocks), blocks, x.block) && Finished(old(blocks), blocks, bits, x.block)
      ensures AllKept(c, cpb, old(objs), old(log), objs, log)
      ensures refusals == old(refusals)
    {
      hide Balanced, Journaled, Owned, SameReads, AfterDelete, Finished, PageDeleted, AllKept, AllEroded, Scheduled;
      ForgottenIsThere(bits, soft, nand, objs, x);
      SoftInUse(cpb, Now());
      Forgo(x);
      ghost var blocks1 := blocks;
      ChunkDel(x);
      ForgottenAndDeleted(old(blocks), blocks1, blocks, bits, x.block);
      LiveKept(c, cpb, old(objs), old(log), objs, log);
      ReadsThen(old(nand), old(objs), old(nand), objs, nand, objs);
    }

    /** A page that is still wanted is copied to another block; without space for the copy nothing happens.  A copied
        header has the current size, and its shrink flag is gone. */
    method GcCopy(x: Chunk) returns (ok: bool)
      requires Valid() && x in bits && x !in soft && Busy(blocks, x.block)
      modifies this
      ensures Valid() && SameReads(old(nand), old(objs), nand, objs) && objs.Keys == old(objs.Keys)
      ensures cleanUps == old(cleanUps) && gcChunk == old(gcChunk)
      ensures forall o :: o in objs ==>
                objs[o].softDeleted == old(objs)[o].softDeleted && objs[o].nData == old(objs)[o].nData
      ensures ok ==> (exists x' :: x' !in old(bits) && x'.block != x.block && bits == old(bits) + {x'} - {x})
      ensures ok ==> AfterDelete(old(blocks), blocks, x.block) && Finished(old(blocks), blocks, bits, x.block)
      ensures !ok ==> bits == old(bits) && objs == old(objs) && Undisturbed(old(blocks), blocks)
      ensures !nandFails ==> (ok <==> old(CanAlloc(true)))
      ensures AllKept(c, cpb, old(objs), old(log), objs, log)
      ensures refusals >= old(refusals)
    {
      hide Balanced, Journaled, Owned, SameReads, Undisturbed, AfterDelete, Finished, PageDeleted, AllKept, AllEroded,
        Pending, OthersEroded, CurrentOf, Kept, ReadsBut, Scheduled, Sturdy;
      OwnerOf(bits, soft, nand, objs, x);
      PageOkOf(c, cpb, Now(), nand, objs, log, x);
      var o := nand[x].obj;
      var p := CopyOf(nand[x], objs[o].size);
      var r, before, failed := WriteNewChunk(p, true);
      if r.None? {
        ErodedIsKept(c, cpb, objs, old(log), log);
        return false;
      }
      var x' := r.value;
      var ob' := Moved(objs[o], p.id, x');
      CopiesPage(c, cpb, Now(), nand, objs, log, before, x', x, p);
      assert bits - {x} == old(bits) + {x'} - {x};
      OwnedMove(old(bits), soft, old(nand), objs, nand, x, x', p);
      ReadsMove(old(bits), soft, old(nand), objs, nand, x, x', p);
      Adopt(c, cpb, Now(), Now(), nand, objs, log, before, x', p, ob');
      ghost var blocks1, nand1, log1 := blocks, nand, log;
      ScheduledStill(cleanUps, objs, o, ob');
      objs := objs[o := ob'];
      ChunkDel(x);
      CopiedAndDeleted(old(blocks), blocks1, blocks, bits, x.block);
      ReadsThen(old(nand), old(objs), nand1, objs, nand, objs);
      CopyKeeps(c, cpb, old(objs), old(log), before, o, ob', log1, log);
      ok := true;
    }

    method GcProcessChunk(x: Chunk) returns (ok: bool)
      requires Valid() && x in bits && Busy(blocks, x.block)
      modifies this
      ensures Valid() && SameReads(old(nand), old(objs), nand, objs) && objs.Keys == old(objs.Keys)
      ensures gcChunk == old(gcChunk)
      ensures forall o :: o in objs ==> objs[o].softDeleted == old(objs)[o].softDeleted
      ensures In(bits, x.block) == In(old(bits), x.block) - if ok then {x} else {}
      ensures if ok then AfterDelete(old(blocks), blocks, x.block) && Finished(old(blocks), blocks, bits, x.block)
              else Undisturbed(old(blocks), blocks)
      ensures AllKept(c, cpb, old(objs), old(log), objs, log)
      ensures !nandFails && x !in old(soft) ==> (ok <==> old(CanAlloc(true)))
      ensures refusals >= old(refusals)
    {
      hide Balanced, Journaled, Owned, SameReads, AfterDelete, Finished, AllKept;
      OwnerOf(bits, soft, nand, objs, x);
      var p := nand[x];
      if objs[p.obj].softDeleted && p.id != 0 {
        GcForget(x);
        ok := true;
      } else {
        ok := GcCopy(x);
      }
    }

    /** Deletes the soft-deleted files whose last data page was thrown away, and only those. */
    method DoCleanUps()
      requires Valid()
      modifies this
      ensures Valid() && SameReads(old(nand), old(objs), nand, objs) && Quiet(old(blocks), blocks)
      ensures objs == map o | o in old(objs) && o !in old(cleanUps) :: old(objs)[o]
      ensures forall o :: o in old(objs) && o !in objs ==> old(objs)[o].softDeleted
      ensures AllKept(c, cpb, old(objs), old(log), objs, log)
      ensures cleanUps == [] && gcChunk == old(gcChunk)
      ensures forall o :: o in objs && objs[o].softDeleted ==> objs[o].nData > 0
      ensures refusals == old(refusals)
    {
      hide Balanced, Journaled, Owned, SameReads, AllKept;
      ReadsSame(nand, objs);
      KeptSame(c, cpb, objs, log);
      for i := 0 to |cleanUps|
        invariant Valid() && cleanUps == old(cleanUps) && gcChunk == old(gcChunk) && refusals == old(refusals)
        invariant SameReads(old(nand), old(objs), nand, objs) && Quiet(old(blocks), blocks)
        invariant objs == map o | o in old(objs) && o !in cleanUps[..i] :: old(objs)[o]
        invariant AllKept(c, cpb, old(objs), old(log), objs, log)
      {
        assert cleanUps[..i + 1] == cleanUps[..i] + [cleanUps[i]];
        if cleanUps[i] in objs {
          ghost var nand0, objs0, log0 := nand, objs, log;
          DelObj(cleanUps[i]);
          ReadsThen(old(nand), old(objs), nand0, objs0, nand, objs);
          LiveKept(c, cpb, objs0, log0, objs, log);
          KeptThen(c, cpb, old(objs), old(log), objs0, log0, objs, log);
        }
      }
      assert cleanUps[..|cleanUps|] == cleanUps;
      cleanUps := [];
    }

    /** Deals with the page at the current position, if it is in use, and moves on. */
    method GcAt(b: nat) returns (ok: bool)
      requires Valid() && b < |blocks| && blocks[b].state.Collecting? && !blocks[b].hasShrinkHdr && gcChunk < cpb
      modifies this
      ensures Valid() && SameReads(old(nand), old(objs), nand, objs) && objs.Keys == old(objs.Keys)
      ensures forall o :: o in objs ==> objs[o].softDeleted == old(objs)[o].softDeleted
      ensures AllKept(c, cpb, old(objs), old(log), objs, log)
      ensures gcChunk == old(gcChunk) + 1 && NoNewCollecting(old(blocks), blocks)
      ensures blocks[b].state.Collecting? || blocks[b].state.Empty? || blocks[b].state.Dead?
      ensures blocks[b].state.Collecting? ==> !blocks[b].hasShrinkHdr
      ensures In(bits, b) == In(old(bits), b) - if ok then {Chunk(b, old(gcChunk))} else {}
      ensures In(old(bits), b) != {} && blocks[b].state.Collecting? ==> In(bits, b) != {}
      ensures !ok ==> Chunk(b, old(gcChunk)) in In(bits, b)
      ensures !nandFails && Chunk(b, old(gcChunk)) in old(bits) - old(soft) ==> (ok <==> old(CanAlloc(true)))
      ensures refusals >= old(refusals)
    {
      hide Balanced, Journaled, Owned, SameReads, AllKept, Scheduled, AfterDelete, Finished, Undisturbed,
        NoNewCollecting;
      ok := true;
      ReadsSame(nand, objs);
      KeptSame(c, cpb, objs, log);
      if Chunk(b, gcChunk) in bits {
        assert Chunk(b, gcChunk) in In(bits, b);
        ok := GcProcessChunk(Chunk(b, gcChunk));
        AfterOne(old(blocks), blocks, bits, b, ok);
      } else {
        NoneNew(blocks);
      }
      gcChunk := gcChunk + 1;
    }

    /** The copying loop of one collection pass over block `b`: the block is freed exactly if all copies succeed, no
        page before the starting position is in use, and there are not more pages in use than may be copied. */
    method GcCopyLoop(b: nat, copies: nat) returns (ok: bool)
      requires Valid() && b < |blocks| && blocks[b].state.Collecting? && !blocks[b].hasShrinkHdr && gcChunk <= cpb
      requires In(bits, b) != {}
      modifies this
      ensures Valid() && SameReads(old(nand), old(objs), nand, objs) && objs.Keys == old(objs.Keys)
      ensures forall o :: o in objs ==> objs[o].softDeleted == old(objs)[o].softDeleted
      ensures AllKept(c, cpb, old(objs), old(log), objs, log)
      ensures gcChunk <= cpb && NoNewCollecting(old(blocks), blocks)
      ensures blocks[b].state.Collecting? || blocks[b].state.Empty? || blocks[b].state.Dead?
      ensures blocks[b].state.Collecting? ==> !blocks[b].hasShrinkHdr
      ensures blocks[b].state.Collecting? <==>
                !(ok && AllFrom(In(old(bits), b), old(gcChunk)) && |In(old(bits), b)| <= copies)
      ensures Passed(In(old(bits), b), In(bits, b), old(gcChunk), gcChunk, ok)
      ensures copies > 0 && old(StuckAt(b, gcChunk)) ==> !ok
      ensures refusals >= old(refusals)
    {
      hide Balanced, Journaled, Owned, SameReads, AllKept, Scheduled, Passed;
      ok := true;
      var maxCopies := copies;
      ghost var used := In(bits, b);
      ReadsSame(nand, objs);
      KeptSame(c, cpb, objs, log);
      NonePassed(used, gcChunk);
      PagesBelow(cpb, Now());
      while ok && gcChunk < cpb && blocks[b].state.Collecting? && maxCopies > 0
        invariant Valid() && |blocks| == |old(blocks)| && old(gcChunk) <= gcChunk <= cpb && maxCopies >= 0
        invariant SameReads(old(nand), old(objs), nand, objs) && objs.Keys == old(objs.Keys)
        invariant forall o :: o in objs ==> objs[o].softDeleted == old(objs)[o].softDeleted
        invariant AllKept(c, cpb, old(objs), old(log), objs, log)
        invariant NoNewCollecting(old(blocks), blocks) && refusals >= old(refusals)
        invariant blocks[b].state.Collecting? || blocks[b].state.Empty? || blocks[b].state.Dead?
        invariant blocks[b].state.Collecting? ==> !blocks[b].hasShrinkHdr && In(bits, b) != {}
        invariant Passed(used, In(bits, b), old(gcChunk), gcChunk, ok)
        invariant ok ==> copies - maxCopies == |used| - |In(bits, b)|
        invariant gcChunk == old(gcChunk) ==> maxCopies == copies && StuckAt(b, gcChunk) == old(StuckAt(b, gcChunk))
        invariant ok && gcChunk > old(gcChunk) ==> !old(StuckAt(b, gcChunk))
        decreases cpb - gcChunk
      {
        ghost var nand0, objs0, log0, used0 := nand, objs, log, In(bits, b);
        if Chunk(b, gcChunk) in bits { maxCopies := maxCopies - 1; }
        ok := GcAt(b);
        ReadsThen(old(nand), old(objs), nand0, objs0, nand, objs);
        KeptThen(c, cpb, old(objs), old(log), objs0, log0, objs, log);
        OnePassed(used, used0, In(bits, b), b, old(gcChunk), gcChunk - 1, ok);
      }
      FreeIsUnused(cpb, Now(), b);
      AllPassed(used, In(bits, b), old(gcChunk), gcChunk, cpb, copies, maxCopies, ok);
    }

    /** The page at position `g` of block `b` is wanted, but there is no page to copy it to. */
    ghost predicate StuckAt(b: nat, g: nat)
      reads this
    {
      !nandFails && !CanAlloc(true) && g < cpb && Chunk(b, g) in bits - soft
    }

    /** Marks the block as being collected and deals with its pages. */
    method GcPass(b: nat, copies: nat) returns (ok: bool)
      requires Valid() && Idle(blocks) && b < |blocks| && blocks[b].state.Full? && gcChunk <= cpb
      requires blocks[b].hasShrinkHdr ==> Vetted(c, cpb, log, b)
      modifies this
      ensures Valid() && SameReads(old(nand), old(objs), nand, objs) && objs.Keys == old(objs.Keys)
      ensures forall o :: o in objs ==> objs[o].softDeleted == old(objs)[o].softDeleted
      ensures AllKept(c, cpb, old(objs), old(log), objs, log)
      ensures |blocks| == |old(blocks)| && forall j :: 0 <= j < |blocks| && j != b ==> !blocks[j].state.Collecting?
      ensures blocks[b].state.Collecting? || blocks[b].state.Empty? || blocks[b].state.Dead?
      ensures blocks[b].state.Collecting? ==> !blocks[b].hasShrinkHdr
      ensures blocks[b].state.Collecting? <==>
                !(ok && AllFrom(In(old(bits), b), old(gcChunk)) && |In(old(bits), b)| <= copies)
      ensures Passed(In(old(bits), b), In(bits, b), old(gcChunk), gcChunk, ok) && gcChunk <= cpb
      ensures copies > 0 && old(StuckAt(b, gcChunk)) ==> !ok
      ensures refusals >= old(refusals)
    {
      hide Balanced, Journaled, Owned, SameReads, AllKept, AllEroded, Vetted;
      CollectBalanced(cpb, Now(), b);
      blocks := blocks[b := blocks[b].(state := Collecting, hasShrinkHdr := false)];
      assert Now() == Collect(old(Now()), b);
      JournaledFrame(c, cpb, old(Now()), Now(), nand, objs, log);
      UsedPages(cpb, Now(), b);
      assert Chunk(b, gcChunk) in bits ==> Chunk(b, gcChunk) in In(bits, b);
      if In(bits, b) == {} {
        GuardedAt(c, cpb, Now(), nand, objs, log, b);
        BlockBecameDirty(b);
        ErodedIsKept(c, cpb, objs, old(log), log);
        ok := true;
      } else {
        ok := GcCopyLoop(b, copies);
      }
    }

    /** One collection pass over a full block: every page keeps one owner, and every live chunk of every file
        reads the same bytes as before, whether the pass ends with the block erased, after its quota of copies,
        or for lack of space.  The block is freed exactly if all copies succeed, no page before the position at which
        the pass starts is in use, and there are not more pages in use than the quota.  A page whose copy failed is
        before that position in all later passes, so that from then on no pass frees the block, unless the page is
        deleted otherwise. */
    method GcBlock(b: nat, whole: bool) returns (ok: bool)
      requires Valid() && Idle(blocks) && b < |blocks| && blocks[b].state.Full? && gcChunk <= cpb
      requires blocks[b].hasShrinkHdr ==> Vetted(c, cpb, log, b)
      modifies this
      ensures Valid() && Idle(blocks) && |blocks| == |old(blocks)| && gcChunk <= cpb
      ensures SameReads(old(nand), old(objs), nand, objs)
      ensures AllKept(c, cpb, old(objs), old(log), objs, log)
      ensures forall o :: o in objs ==> o in old(objs)
      ensures forall o :: o in old(objs) && o !in objs ==> old(objs)[o].softDeleted
      ensures !blocks[b].state.Full? ==>
                && cleanUps == [] && gcBlock == -1 && gcChunk == 0
                && forall o :: o in objs && objs[o].softDeleted ==> objs[o].nData > 0
      ensures blocks[b].state.Full? || blocks[b].state.Empty? || blocks[b].state.Dead?
      ensures whole ==> (blocks[b].state.Full? <==> !(ok && AllFrom(In(old(bits), b), old(gcChunk))))
      ensures !whole ==> (blocks[b].state.Full? <==> !(ok && AllFrom(In(old(bits), b), old(gcChunk))
                                                       && |In(old(bits), b)| <= 5))
      ensures blocks[b].state.Full? ==>
                !blocks[b].hasShrinkHdr && Passed(In(old(bits), b), In(bits, b), old(gcChunk), gcChunk, ok)
      ensures old(StuckAt(b, gcChunk)) ==> !ok
      ensures refusals >= old(refusals)
    {
      hide Balanced, Journaled, Owned, SameReads, AllKept, Vetted;
      PagesBelow(cpb, Now());
      AtMostAll(cpb, bits, b);
      ok := GcPass(b, if whole then cpb else COPIES_PER_PASS);
      if blocks[b].state.Collecting? {
        ghost var k := Now();
        SuspendBalanced(cpb, k, b);
        blocks := blocks[b := blocks[b].(state := Full)];
        assert Now() == Suspend(k, b);
        JournaledFrame(c, cpb, k, Now(), nand, objs, log);
      } else {
        ghost var nand0, objs0, log0 := nand, objs, log;
        DoCleanUps();
        ReadsThen(old(nand), old(objs), nand0, objs0, nand, objs);
        KeptThen(c, cpb, old(objs), old(log), objs0, log0, objs, log);
        gcBlock, gcChunk := -1, 0;
      }
    }
  }

  /** A device of two blocks of one page each, one of which holds the header of a file. */
  method OneHeader() returns (d: Dev, ghost k0: Books)
    ensures fresh(d) && d.Valid() && Idle(d.blocks) && d.cpb == 1 && !d.nandFails && d.gcChunk == 0 && d.c == 1
    ensures |d.blocks| == 2
    ensures k0 == Books([BlockInfo(Empty, 0, 0, false, false, 0), BlockInfo(Empty, 0, 0, false, false, 0)], {}, {},
                        2, 2, -1, k0.allocPage, LOWEST_SEQUENCE_NUMBER, 0)
    ensures 300 in d.objs && d.objs[300].hdr.Some? && 1 !in d.objs[300].chunks && !d.objs[300].softDeleted
    ensures var x := d.objs[300].hdr.value; x.block < 2 && d.Now() == Taken(1, k0, x.block) && d.CanAlloc(true)
  {
    hide Balanced, Journaled, Owned, DataIn, SameReads, ReadsBut, AllEroded, OthersEroded, Fits, Shows, Spans;
    d := new Dev(1, 1, 0, false, 2);
    d.CreateObj(300);
    k0 := d.Now();
    var ok := d.UpdateOh(300, [], false);
  }

  /** The other one holds its data. */
  method FullDevice() returns (d: Dev)
    ensures fresh(d) && d.Valid() && Idle(d.blocks) && d.cpb == 1 && !d.nandFails && d.gcChunk == 0
    ensures 300 in d.objs && d.objs[300].hdr.Some? && !d.CanAlloc(true)
    ensures var x := d.objs[300].hdr.value;
            && x in d.bits && x !in d.soft && x.page == 0 && x.block < |d.blocks|
            && d.blocks[x.block].state.Full? && !d.blocks[x.block].hasShrinkHdr
  {
    hide Balanced, Journaled, Owned, DataIn, SameReads, ReadsBut, AllEroded, OthersEroded, Taken, Scheduled;
    ghost var k0;
    d, k0 := OneHeader();
    ghost var k1, ob, log1 := d.Now(), d.objs[300], d.log;
    var r := d.WrDataObj(300, 1, [0], true);
    DataKeepsHeader(d.c, d.cpb, 300, ob, log1, d.objs[300], d.log, 1, 1);
    HeaderNotSoft(d.bits, d.soft, d.nand, d.objs, 300);
    PagesBelow(1, d.Now());
    TwoTaken(k0, k1, d.Now(), ob.hdr.value.block, d.objs[300].chunks[1].block);
  }

  /** A device whose collector is stuck: the header cannot be copied, and all passes over its block skip it ever
      since. */
  method StuckForGood(passes: nat) returns (d: Dev, b: nat)
    ensures fresh(d) && d.Valid() && b < |d.blocks| && d.blocks[b].state.Full?
    ensures d.gcChunk == d.cpb && !AllFrom(In(d.bits, b), d.gcChunk)
  {
    hide Balanced, Journaled, Owned, SameReads, AllKept, Scheduled;
    d := FullDevice();
    b := d.objs[300].hdr.value.block;
    assert d.objs[300].hdr.value == Chunk(b, 0) && d.StuckAt(b, 0);
    var ok := d.GcBlock(b, true);
    for i := 0 to passes
      invariant d.Valid() && Idle(d.blocks) && d.cpb == 1 && b < |d.blocks| && d.blocks[b].state.Full?
      invariant d.gcChunk == 1 && !AllFrom(In(d.bits, b), d.gcChunk) && !d.blocks[b].hasShrinkHdr
    {
      ok := d.GcBlock(b, true);
    }
  }
}
