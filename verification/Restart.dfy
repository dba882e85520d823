/**
 Power comes back: a device sets up its books again from what it finds on flash.  Objects, the bitmap of pages in use,
 the counters, the states of the blocks and their marks for shrink headers all come out of one scan, newest page first.
 */
module Restart {
  import opened BackwardScan
  import opened Common
  import opened Device
  import opened DeviceLog
  import opened Journal
  import opened Mount
  import opened Owners
  import opened Space
  import L = FlashLog

  type Files = map<nat, Scanned>

  // ---------- Which pages the files found so far point to ----------

  /** A file points to page `x`. */
  predicate Held(cpb: nat, nand: Nand, files: Files, x: Chunk) {
    x in nand && nand[x].obj in files &&
    var f := files[nand[x].obj];
    if nand[x].id == 0 then f.valid && f.hdr == Addr(cpb, x)
    else nand[x].id in f.chunks && f.chunks[nand[x].id] == Addr(cpb, x)
  }

  /** Address `a` is that of a page seen, which holds chunk `id` of object `o`. */
  ghost predicate Found(cpb: nat, nand: Nand, seen: set<Chunk>, o: nat, id: nat, a: nat) {
    0 < cpb <= a &&
    var x := ChunkAt(cpb, a);
    x in seen && x in nand && nand[x].obj == o && nand[x].id == id
  }

  /** What the files point to are pages seen, and the pages in use are these. */
  ghost predicate Filed(cpb: nat, nand: Nand, seen: set<Chunk>, files: Files, bits: set<Chunk>) {
    && (forall o :: o in files ==> GoodId(o))
    && (forall o, id :: o in files && id in files[o].chunks ==>
          id > 0 && Found(cpb, nand, seen, o, id, files[o].chunks[id]))
    && (forall o :: o in files ==>
          if files[o].valid then Found(cpb, nand, seen, o, 0, files[o].hdr) else files[o].hdr == 0)
    && (forall x :: x in bits <==> x in seen && Held(cpb, nand, files, x))
  }

  lemma NothingFiled(cpb: nat, nand: Nand)
    ensures Filed(cpb, nand, {}, map[], {})
  {
  }

  lemma FiledBlank(cpb: nat, nand: Nand, seen: set<Chunk>, files: Files, bits: set<Chunk>, x: Chunk)
    requires Filed(cpb, nand, seen, files, bits) && x !in nand
    ensures Filed(cpb, nand, seen + {x}, files, bits)
  {
  }

  /** Whether the scan gives up a page that it has just read: a newer copy was met, or a cut, or a newer header. */
  predicate GivenUp(c: nat, f: Scanned, p: Page) {
    if p.id == 0 then f.valid else p.id in f.chunks || ScanBase(c, p.id) >= f.shrinkSize
  }

  function Refiled(c: nat, w: Width, cpb: nat, files: Files, x: Chunk, p: Page): Files
    requires PageOk(c, p)
  {
    files[p.obj := ScanPage(c, w, Find(c, w, files, p.obj), ToLog(cpb, x, p))]
  }

  /** What a page does to the file that it belongs to. */
  lemma PageFiled(c: nat, w: Width, cpb: nat, f: Scanned, x: Chunk, p: Page)
    requires PageOk(c, p)
    ensures var f' := ScanPage(c, w, f, ToLog(cpb, x, p));
            if GivenUp(c, f, p) then f'.chunks == f.chunks && f'.valid == f.valid && f'.hdr == f.hdr
            else if p.id == 0 then f'.chunks == f.chunks && f'.valid && f'.hdr == Addr(cpb, x)
            else f'.chunks == f.chunks[p.id := Addr(cpb, x)] && f'.valid == f.valid && f'.hdr == f.hdr
  {
  }

  lemma AddrDistinct(cpb: nat, x: Chunk, y: Chunk)
    requires x.page < cpb && y.page < cpb && Addr(cpb, x) == Addr(cpb, y)
    ensures x == y
  {
    AddrSplit(cpb, x);
    AddrSplit(cpb, y);
  }

  lemma FiledPage(c: nat, w: Width, cpb: nat, nand: Nand, seen: set<Chunk>, files: Files, bits: set<Chunk>, x: Chunk)
    requires Filed(cpb, nand, seen, files, bits) && x !in seen && x in nand && x.page < cpb && PageOk(c, nand[x])
    requires forall y :: y in seen ==> y.page < cpb
    ensures var files' := Refiled(c, w, cpb, files, x, nand[x]);
            var bits' := if GivenUp(c, Find(c, w, files, nand[x].obj), nand[x]) then bits else bits + {x};
            x !in bits && Filed(cpb, nand, seen + {x}, files', bits')
  {
    hide ScanPage, GivenUp, PageOk;
    var p, seen' := nand[x], seen + {x};
    var f, files' := Find(c, w, files, p.obj), Refiled(c, w, cpb, files, x, p);
    var up := GivenUp(c, f, p);
    GoodOwner(c, p);
    PageFiled(c, w, cpb, f, x, p);
    AddrSplit(cpb, x);
    MoreFound(cpb, nand, seen, x);
    assert forall o :: o != p.obj && o in files ==> files'[o] == files[o];
    forall o, id | o in files' && id in files'[o].chunks
      ensures id > 0 && Found(cpb, nand, seen', o, id, files'[o].chunks[id])
    {
      if o == p.obj && !up && id == p.id { assert Found(cpb, nand, seen', o, id, Addr(cpb, x)); }
    }
    forall o | o in files'
      ensures if files'[o].valid then Found(cpb, nand, seen', o, 0, files'[o].hdr) else files'[o].hdr == 0
    {
    }
    forall y ensures y in (if up then bits else bits + {x}) <==> y in seen' && Held(cpb, nand, files', y) {
      HeldAfter(c, w, cpb, nand, seen, files, bits, x, y);
    }
  }

  lemma GoodOwner(c: nat, p: Page)
    requires PageOk(c, p)
    ensures GoodId(p.obj)
  {
  }

  lemma MoreFound(cpb: nat, nand: Nand, seen: set<Chunk>, x: Chunk)
    ensures forall o, id, a :: Found(cpb, nand, seen, o, id, a) ==> Found(cpb, nand, seen + {x}, o, id, a)
  {
  }

  lemma HeldAfter(c: nat, w: Width, cpb: nat, nand: Nand, seen: set<Chunk>, files: Files, bits: set<Chunk>, x: Chunk,
                  y: Chunk)
    requires Filed(cpb, nand, seen, files, bits) && x !in seen && x in nand && x.page < cpb && PageOk(c, nand[x])
    requires forall y :: y in seen ==> y.page < cpb
    ensures var up := GivenUp(c, Find(c, w, files, nand[x].obj), nand[x]);
            y in (if up then bits else bits + {x}) <==>
              y in seen + {x} && Held(cpb, nand, Refiled(c, w, cpb, files, x, nand[x]), y)
  {
    hide ScanPage, GivenUp, PageOk, Addr;
    var p := nand[x];
    var f, files' := Find(c, w, files, p.obj), Refiled(c, w, cpb, files, x, p);
    PageFiled(c, w, cpb, f, x, p);
    NotHeld(cpb, nand, seen, files, bits, x);
    if y in seen && Addr(cpb, y) == Addr(cpb, x) { AddrDistinct(cpb, x, y); }
    if !GivenUp(c, f, p) { GivenUpHas(c, f, p); }
  }

  /** A page that is not given up has no newer copy. */
  lemma GivenUpHas(c: nat, f: Scanned, p: Page)
    requires !GivenUp(c, f, p)
    ensures if p.id == 0 then !f.valid else p.id !in f.chunks
  {
  }

  /** No file points to a page that was not seen yet. */
  lemma NotHeld(cpb: nat, nand: Nand, seen: set<Chunk>, files: Files, bits: set<Chunk>, x: Chunk)
    requires Filed(cpb, nand, seen, files, bits) && x !in seen && x in nand && x.page < cpb
    ensures !Held(cpb, nand, files, x) && x !in bits
  {
    AddrSplit(cpb, x);
  }

  // ---------- The counters while blocks are still to be scanned ----------

  /** A block as it is reported before its pages are read. */
  function Reported(bi: BlockInfo): BlockInfo {
    if InService(bi) then BlockInfo(Full, 0, 0, false, false, bi.seqNo)
    else BlockInfo(if bi.state.Dead? then Dead else Empty, 0, 0, false, false, 0)
  }

  /** The counters are right, but for `unseen` pages that are not counted as free yet. */
  ghost predicate Counted(cpb: nat, blocks: seq<BlockInfo>, bits: set<Chunk>, nErased: int, nFree: int, unseen: int) {
    && (forall x :: x in bits ==> x.block < |blocks| && x.page < cpb)
    && (forall b :: 0 <= b < |blocks| ==> blocks[b].pagesInUse == |In(bits, b)| && blocks[b].softDelPages == 0)
    && nErased == Total(ErasedBlocks, cpb, blocks) && nFree == Total(FreeChunks, cpb, blocks) - unseen
  }

  /** Block `b` is now `bi`, and its pages in use are counted. */
  lemma CountedStep(cpb: nat, blocks: seq<BlockInfo>, bits: set<Chunk>, nErased: int, nFree: int, unseen: int, b: nat,
                    bi: BlockInfo, bits': set<Chunk>, nErased': int, nFree': int, unseen': int)
    requires Counted(cpb, blocks, bits, nErased, nFree, unseen) && b < |blocks|
    requires forall j: nat :: j != b ==> In(bits', j) == In(bits, j)
    requires forall x :: x in bits' ==> x.block < |blocks| && x.page < cpb
    requires bi.pagesInUse == |In(bits', b)| && bi.softDelPages == 0
    requires nErased' - nErased == Weight(ErasedBlocks, cpb, bi) - Weight(ErasedBlocks, cpb, blocks[b])
    requires nFree' - nFree == Weight(FreeChunks, cpb, bi) - Weight(FreeChunks, cpb, blocks[b]) + unseen - unseen'
    ensures Counted(cpb, blocks[b := bi], bits', nErased', nFree', unseen')
  {
    TotalUpdate(ErasedBlocks, cpb, blocks, b, bi);
    TotalUpdate(FreeChunks, cpb, blocks, b, bi);
  }

  // ---------- The blocks ----------

  /** No page of block `b` has been programmed. */
  ghost predicate Bare(nand: Nand, b: nat) { forall x :: x in nand ==> x.block != b }

  /** What the blocks are while they are scanned, `was` being what they were when power was lost. */
  ghost predicate Standing(was: seq<BlockInfo>, nand: Nand, blocks: seq<BlockInfo>, allocBlock: int) {
    && |blocks| == |was|
    && forall b :: 0 <= b < |was| ==> StandsAs(nand, allocBlock, b, was[b], blocks[b])
  }

  ghost predicate StandsAs(nand: Nand, allocBlock: int, b: nat, was: BlockInfo, bi: BlockInfo) {
    && !bi.needsRetiring
    && if !InService(was) then bi.state == Reported(was).state
       else bi.seqNo == was.seqNo && (bi.state.Full? || (bi.state.Allocating? && allocBlock == b)
                                      || (bi.state.Empty? && Bare(nand, b)))
  }

  /** The blocks of the highest sequence number have been written to. */
  ghost predicate Begun(nand: Nand, was: seq<BlockInfo>, seqNumber: nat) {
    forall b :: IsNewest(was, seqNumber, b) ==> !Bare(nand, b)
  }

  /** Shrink headers that were seen are marked at their blocks. */
  ghost predicate ShrinksMarked(nand: Nand, seen: set<Chunk>, blocks: seq<BlockInfo>) {
    forall x :: x in seen && x in nand && nand[x].id == 0 && nand[x].isShrink && x.block < |blocks| ==>
      blocks[x.block].hasShrinkHdr
  }

  /** What is on flash when the power comes back: pages that a scan believes, in blocks that hold pages. */
  ghost predicate OnBlocks(c: nat, cpb: nat, was: seq<BlockInfo>, nand: Nand) {
    forall x :: x in nand ==>
      x.page < cpb && PageOk(c, nand[x]) && x.block < |was| && InService(was[x.block])
  }

  predicate IsNewest(was: seq<BlockInfo>, seqNumber: nat, b: nat) {
    b < |was| && InService(was[b]) && was[b].seqNo == seqNumber
  }

  /** There is one newest block at most, and it has been written to. */
  ghost predicate OneNewest(nand: Nand, was: seq<BlockInfo>, seqNumber: nat) {
    && Begun(nand, was, seqNumber)
    && (forall b :: 0 <= b < |was| && InService(was[b]) ==> was[b].seqNo <= seqNumber)
    && forall a, b :: IsNewest(was, seqNumber, a) && IsNewest(was, seqNumber, b) ==> a == b
  }

  /** The books while the scan goes on, with `unseen` pages still to be read. */
  ghost predicate Sane(cpb: nat, nand: Nand, was: seq<BlockInfo>, blocks: seq<BlockInfo>, bits: set<Chunk>,
                       nErased: int, nFree: int, seqNumber: nat, allocBlock: int, files: Files, seen: set<Chunk>,
                       unseen: int)
  {
    && OneNewest(nand, was, seqNumber) && Counted(cpb, blocks, bits, nErased, nFree, unseen)
    && Standing(was, nand, blocks, allocBlock) && Filed(cpb, nand, seen, files, bits)
    && ShrinksMarked(nand, seen, blocks) && (forall x :: x in seen ==> x.page < cpb && x.block < |was|)
    && (0 <= allocBlock < |blocks| ==> IsNewest(was, seqNumber, allocBlock) && blocks[allocBlock].state.Allocating?)
  }

  // ---------- All blocks ----------

  /** The first `n` blocks, those that are in service. */
  function Service(was: seq<BlockInfo>, n: nat): set<nat> { set b | 0 <= b < n && b < |was| && InService(was[b]) }

  /** How many pages there are to be read in them. */
  function ToRead(was: seq<BlockInfo>, n: nat, cpb: nat): nat { |Service(was, n)| * cpb }

  lemma ServiceAll(was: seq<BlockInfo>)
    ensures forall b :: 0 <= b < |was| && InService(was[b]) ==> b in Service(was, |was|)
  {
  }

  lemma ServiceMore(was: seq<BlockInfo>, b: nat, cpb: nat)
    requires b < |was|
    ensures ToRead(was, b + 1, cpb) == ToRead(was, b, cpb) + if InService(was[b]) then cpb else 0
  {
    if InService(was[b]) {
      assert Service(was, b + 1) == Service(was, b) + {b};
    } else {
      assert Service(was, b + 1) == Service(was, b);
    }
  }

  /** The highest sequence number of a block in service. */
  function HighestSeq(was: seq<BlockInfo>): nat {
    if was == [] then LOWEST_SEQUENCE_NUMBER else
    var n := |was| - 1; var s := HighestSeq(was[..n]);
    if InService(was[n]) && was[n].seqNo >= s then was[n].seqNo else s
  }

  /** There is a shrink header in each block that is marked to have one. */
  ghost predicate MarkedOnly(nand: Nand, blocks: seq<BlockInfo>) {
    forall b :: 0 <= b < |blocks| && blocks[b].hasShrinkHdr ==>
      exists p: nat :: Chunk(b, p) in nand && nand[Chunk(b, p)].id == 0 && nand[Chunk(b, p)].isShrink
  }

  lemma MarkedStep(nand: Nand, blocks: seq<BlockInfo>, blocks': seq<BlockInfo>, x: Chunk)
    requires MarkedOnly(nand, blocks) && x.block < |blocks| == |blocks'|
    requires blocks' == blocks[x.block := blocks'[x.block]]
    requires blocks'[x.block].hasShrinkHdr ==>
               blocks[x.block].hasShrinkHdr || (x in nand && nand[x].id == 0 && nand[x].isShrink)
    ensures MarkedOnly(nand, blocks')
  {
    assert x == Chunk(x.block, x.page);
  }

  lemma NoneMarked(nand: Nand, blocks: seq<BlockInfo>)
    requires forall b :: 0 <= b < |blocks| ==> !blocks[b].hasShrinkHdr
    ensures MarkedOnly(nand, blocks)
  {
  }

  lemma MarksAre(nand: Nand, blocks: seq<BlockInfo>)
    ensures MarkedOnly(nand, blocks) <==> forall b: nat :: b < |blocks| && blocks[b].hasShrinkHdr ==>
              exists p: nat :: Chunk(b, p) in nand && nand[Chunk(b, p)].id == 0 && nand[Chunk(b, p)].isShrink
  {
  }

  lemma TotalMore(m: Measure, cpb: nat, blocks: seq<BlockInfo>, bi: BlockInfo)
    ensures Total(m, cpb, blocks + [bi]) == Total(m, cpb, blocks) + Weight(m, cpb, bi) && Total(m, cpb, []) == 0
  {
    assert (blocks + [bi])[..|blocks|] == blocks;
  }

  lemma ReportedIs(was: BlockInfo, cpb: nat)
    ensures var bi := Reported(was);
            && (bi.state.Full? <==> InService(was)) && (bi.state.Full? ==> bi.seqNo == was.seqNo)
            && bi.pagesInUse == bi.softDelPages == 0 && !bi.hasShrinkHdr && !bi.needsRetiring
            && Weight(ErasedBlocks, cpb, bi) == (if bi.state.Empty? then 1 else 0)
            && Weight(FreeChunks, cpb, bi) == if bi.state.Empty? || bi.state.Full? then cpb else 0
  {
  }

  lemma HighestStart(was: seq<BlockInfo>, cpb: nat)
    ensures HighestSeq(was[..0]) == LOWEST_SEQUENCE_NUMBER && ToRead(was, 0, cpb) == 0
    ensures forall m :: Total(m, cpb, []) == 0
  {
  }

  lemma HighestStep(was: seq<BlockInfo>, b: nat)
    requires b < |was|
    ensures var s := HighestSeq(was[..b]);
            HighestSeq(was[..b + 1]) == if InService(was[b]) && was[b].seqNo >= s then was[b].seqNo else s
  {
    assert was[..b + 1][..b] == was[..b];
  }

  /** The sequence numbers of the blocks in service are those of blocks to be scanned. */
  ghost predicate SeqsInRange(was: seq<BlockInfo>) {
    forall b :: 0 <= b < |was| && InService(was[b]) ==>
      LOWEST_SEQUENCE_NUMBER <= was[b].seqNo < HIGHEST_SEQUENCE_NUMBER
  }

  /** The books before any page was read. */
  lemma Fresh(cpb: nat, nand: Nand, was: seq<BlockInfo>, blocks: seq<BlockInfo>, nErased: int, nFree: int, unseen: int)
    requires |blocks| == |was| && (forall b :: 0 <= b < |was| ==> blocks[b] == Reported(was[b]))
    requires OneNewest(nand, was, HighestSeq(was))
    requires nErased == Total(ErasedBlocks, cpb, blocks) && nFree == Total(FreeChunks, cpb, blocks) - unseen
    ensures Sane(cpb, nand, was, blocks, {}, nErased, nFree, HighestSeq(was), -1, map[], {}, unseen)
  {
    hide OneNewest;
    forall b | 0 <= b < |was| ensures In({}, b) == {} && StandsAs(nand, -1, b, was[b], blocks[b]) { }
  }

  /** The blocks of the first `k` entries. */
  function Blocks(order: seq<IndexEntry>, k: nat): set<nat>
    requires k <= |order|
  {
    set j | 0 <= j < k :: order[j].block
  }

  lemma NothingListed(order: seq<IndexEntry>)
    ensures Blocks(order, 0) == {}
  {
  }

  lemma ImageAt(cpb: nat, nand: Nand, was: seq<BlockInfo>, b: nat)
    requires b < |was| && SeqsInRange(was)
    ensures NeedsScan(Image(cpb, nand, was)[b]) <==> InService(was[b])
    ensures InService(was[b]) ==> Image(cpb, nand, was)[b].seqNo == was[b].seqNo
  {
  }

  /** Exactly the blocks in service are listed. */
  lemma Listed(cpb: nat, nand: Nand, was: seq<BlockInfo>, order: seq<IndexEntry>)
    requires Indexed(Image(cpb, nand, was), order) && SeqsInRange(was)
    ensures Blocks(order, |order|) == Service(was, |was|) && forall e :: e in order ==> e.block < |was|
  {
    var image := Image(cpb, nand, was);
    forall b ensures b in Blocks(order, |order|) <==> b in Service(was, |was|) {
      if 0 <= b < |was| {
        ImageAt(cpb, nand, was, b);
        if InService(was[b]) {
          assert IndexEntry(image[b].seqNo, b) in order;
          var j :| 0 <= j < |order| && order[j] == IndexEntry(image[b].seqNo, b);
          assert order[j].block == b;
        }
      }
      if b in Blocks(order, |order|) {
        var j :| 0 <= j < |order| && order[j].block == b;
        ImageAt(cpb, nand, was, b);
      }
    }
  }

  /** The next block to be read, which is read only once. */
  lemma NextOf(cpb: nat, nand: Nand, was: seq<BlockInfo>, order: seq<IndexEntry>, k: nat)
    requires Indexed(Image(cpb, nand, was), order) && SeqsInRange(was) && k < |order|
    ensures var b := order[k].block;
            && b < |was| && InService(was[b]) && b in Blocks(order, k + 1)
            && Blocks(order, k) == Blocks(order, k + 1) - {b}
  {
    var b := order[k].block;
    ImageAt(cpb, nand, was, b);
    assert forall j :: 0 <= j < k ==> order[j] != order[k];
    assert forall j :: 0 <= j < k ==> order[j].block != b;
  }

  lemma OneLess(todo: set<nat>, b: nat, cpb: nat)
    requires b in todo
    ensures |todo - {b}| * cpb == |todo| * cpb - cpb
  {
    assert |todo| == |todo - {b}| + 1;
  }

  /** Blocks `todo` are still to be read, all others in service have been; `dirty` are those that can be erased. */
  ghost predicate Underway(cpb: nat, was: seq<BlockInfo>, seen: set<Chunk>, blocks: seq<BlockInfo>, todo: set<nat>,
                           dirty: seq<nat>)
  {
    && (forall b :: b in todo ==> b < |blocks| && Untouched(seen, b) && blocks[b].state.Full?)
    && (forall b, q: nat :: b in Service(was, |was|) && b !in todo && q < cpb ==> Chunk(b, q) in seen)
    && (forall b :: b in dirty ==> b !in todo && b < |blocks| && IsUseless(blocks[b]))
    && (forall b: nat :: b < |blocks| && b !in todo && IsUseless(blocks[b]) ==> b in dirty)
    && forall i, j :: 0 <= i < j < |dirty| ==> dirty[i] != dirty[j]
  }

  /** A block of which nothing is in use, and in which no cut was found. */
  predicate IsUseless(bi: BlockInfo) { bi.pagesInUse == 0 && !bi.hasShrinkHdr && bi.state.Full? }

  lemma UnderwayFirst(cpb: nat, was: seq<BlockInfo>, blocks: seq<BlockInfo>)
    requires |blocks| == |was| && forall b :: 0 <= b < |was| ==> blocks[b] == Reported(was[b])
    ensures Underway(cpb, was, {}, blocks, Service(was, |was|), [])
  {
  }

  lemma UnderwayAt(cpb: nat, was: seq<BlockInfo>, seen: set<Chunk>, blocks: seq<BlockInfo>, todo: set<nat>,
                   dirty: seq<nat>, b: nat)
    requires Underway(cpb, was, seen, blocks, todo, dirty) && b in todo
    ensures b < |blocks| && Untouched(seen, b) && blocks[b].state.Full?
  {
  }

  lemma UnderwayNext(cpb: nat, was: seq<BlockInfo>, seen: set<Chunk>, seen': set<Chunk>, blocks: seq<BlockInfo>,
                     blocks': seq<BlockInfo>, todo: set<nat>, dirty: seq<nat>, b: nat, d: bool)
    requires Underway(cpb, was, seen, blocks, todo, dirty) && b in todo && seen' == seen + PagesOf(b, 0, cpb)
    requires |blocks'| == |blocks| && blocks' == blocks[b := blocks'[b]] && (d <==> IsUseless(blocks'[b]))
    ensures Underway(cpb, was, seen', blocks', todo - {b}, if d then dirty + [b] else dirty)
  {
  }

  lemma UnderwayDone(c: nat, cpb: nat, was: seq<BlockInfo>, nand: Nand, seen: set<Chunk>, blocks: seq<BlockInfo>,
                     dirty: seq<nat>)
    requires OnBlocks(c, cpb, was, nand) && Underway(cpb, was, seen, blocks, {}, dirty)
    ensures (forall x :: x in nand ==> x in seen) && forall b :: b in dirty ==> b < |blocks| && IsUseless(blocks[b])
    ensures forall b: nat :: b < |blocks| && IsUseless(blocks[b]) ==> b in dirty
    ensures forall i, j :: 0 <= i < j < |dirty| ==> dirty[i] != dirty[j]
  {
    forall x | x in nand ensures x in seen { assert x == Chunk(x.block, x.page) && x.block in Service(was, |was|); }
  }

  lemma SaneClosed(cpb: nat, nand: Nand, was: seq<BlockInfo>, blocks: seq<BlockInfo>, bits: set<Chunk>, nErased: int,
                   nFree: int, seqNumber: nat, allocBlock: int, files: Files, seen: set<Chunk>)
    requires Sane(cpb, nand, was, blocks, bits, nErased, nFree, seqNumber, allocBlock, files, seen, 0)
    requires 0 <= allocBlock < |blocks| == |was|
    ensures Sane(cpb, nand, was, blocks[allocBlock := blocks[allocBlock].(state := Full)], bits, nErased, nFree,
                 seqNumber, -1, files, seen, 0)
    ensures blocks[allocBlock].seqNo == seqNumber
    ensures !blocks[allocBlock].state.Full?
  {
    hide Filed, OneNewest, Weight, Standing, Counted, ShrinksMarked;
    var b, bi := allocBlock, blocks[allocBlock].(state := Full);
    CountedAt(cpb, blocks, bits, nErased, nFree, 0, b);
    WeightOf(cpb, blocks[b], bi);
    CountedStep(cpb, blocks, bits, nErased, nFree, 0, b, bi, bits, nErased, nFree, 0);
    StandsClosed(was, nand, blocks, b, seqNumber);
    MarksSame(nand, seen, blocks, blocks[b := bi]);
  }

  lemma StandsClosed(was: seq<BlockInfo>, nand: Nand, blocks: seq<BlockInfo>, b: nat, seqNo: nat)
    requires Standing(was, nand, blocks, b) && b < |blocks| && blocks[b].state.Allocating?
    requires IsNewest(was, seqNo, b)
    ensures Standing(was, nand, blocks[b := blocks[b].(state := Full)], -1) && blocks[b].seqNo == seqNo
  {
    var blocks' := blocks[b := blocks[b].(state := Full)];
    forall j | 0 <= j < |was| ensures StandsAs(nand, -1, j, was[j], blocks'[j]) {
      assert StandsAs(nand, b, j, was[j], blocks[j]);
    }
  }

  lemma MarksSame(nand: Nand, seen: set<Chunk>, blocks: seq<BlockInfo>, blocks': seq<BlockInfo>)
    requires ShrinksMarked(nand, seen, blocks) && |blocks'| == |blocks|
    requires forall b :: 0 <= b < |blocks| && blocks[b].hasShrinkHdr ==> blocks'[b].hasShrinkHdr
    ensures ShrinksMarked(nand, seen, blocks')
  {
  }

  /** What page `p` of block `b` makes of where the device goes on writing: nothing, if this page or a later one is
      used.  Otherwise the block is empty, if it is the first page, or goes on there, if it is the newest block. */
  predicate WrittenOn(was: BlockState, bi: BlockInfo, seqNumber: nat, allocBlock: int, allocPage: nat, allocBlock': int,
                      allocPage': nat, b: nat, p: nat, used: bool)
  {
    if !used && p == 0 then bi.state.Empty? && allocBlock' == allocBlock
    else if !used && bi.seqNo == seqNumber then bi.state.Allocating? && allocBlock' == b && allocPage' == p
    else bi.state == was && allocBlock' == allocBlock && allocPage' == allocPage
  }

  /** Block `b` is empty if nothing has been programmed in it.  If it is the newest one and its last page has not been
      programmed, the device goes on behind the last one that has; otherwise the block is full. */
  ghost predicate GoesOn(cpb: nat, nand: Nand, b: nat, bi: BlockInfo, seqNumber: nat, allocBlock: int, allocPage: nat)
    requires cpb > 0
  {
    if forall p: nat :: p < cpb ==> Chunk(b, p) !in nand then bi.state.Empty?
    else if bi.seqNo == seqNumber && Chunk(b, cpb - 1) !in nand then
      && bi.state.Allocating? && allocBlock == b && 0 < allocPage < cpb && Chunk(b, allocPage - 1) in nand
      && forall p: nat :: allocPage <= p < cpb ==> Chunk(b, p) !in nand
    else bi.state.Full?
  }

  /** The same, when the pages from `p` on have been read. */
  ghost predicate GoesOnFrom(cpb: nat, nand: Nand, b: nat, bi: BlockInfo, seqNumber: nat, allocBlock: int,
                             allocPage: nat, p: nat, used: bool)
    requires cpb > 0
  {
    && (used <==> exists q: nat :: p <= q < cpb && Chunk(b, q) in nand)
    && if bi.seqNo == seqNumber && p < cpb && Chunk(b, cpb - 1) !in nand then
         && bi.state.Allocating? && allocBlock == b && p <= allocPage < cpb && (!used ==> allocPage == p)
         && (used ==> p < allocPage && Chunk(b, allocPage - 1) in nand)
         && forall q: nat :: allocPage <= q < cpb ==> Chunk(b, q) !in nand
       else bi.state.Full?
  }

  lemma GoesOnFirst(cpb: nat, nand: Nand, b: nat, bi: BlockInfo, seqNumber: nat, allocBlock: int, allocPage: nat)
    requires cpb > 0 && bi.state.Full?
    ensures GoesOnFrom(cpb, nand, b, bi, seqNumber, allocBlock, allocPage, cpb, false)
  {
  }

  lemma EmptyIff(c: nat, cpb: nat, was: seq<BlockInfo>, nand: Nand, b: nat, bi: BlockInfo, seqNumber: nat,
                 allocBlock: int, allocPage: nat)
    requires cpb > 0 && GoesOn(cpb, nand, b, bi, seqNumber, allocBlock, allocPage) && OnBlocks(c, cpb, was, nand)
    ensures bi.state.Empty? <==> Bare(nand, b)
  {
    if forall p: nat :: p < cpb ==> Chunk(b, p) !in nand {
      forall x | x in nand ensures x.block != b { assert x.block == b ==> Chunk(b, x.page) in nand; }
    } else {
      var p: nat :| p < cpb && Chunk(b, p) in nand;
      assert Chunk(b, p).block == b;
    }
  }

  lemma GoesOnMore(cpb: nat, nand: Nand, b: nat, bi: BlockInfo, bi': BlockInfo, seqNumber: nat, allocBlock: int,
                   allocPage: nat, allocBlock': int, allocPage': nat, p: nat, used: bool)
    requires p < cpb && GoesOnFrom(cpb, nand, b, bi, seqNumber, allocBlock, allocPage, p + 1, used)
    requires bi'.seqNo == bi.seqNo
    requires WrittenOn(bi.state, bi', seqNumber, allocBlock, allocPage, allocBlock', allocPage', b, p,
                       used || Chunk(b, p) in nand)
    ensures p > 0 ==>
              GoesOnFrom(cpb, nand, b, bi', seqNumber, allocBlock', allocPage', p, used || Chunk(b, p) in nand)
    ensures p == 0 ==> GoesOn(cpb, nand, b, bi', seqNumber, allocBlock', allocPage')
  {
  }

  class Scanner {
    const c: nat
    const cpb: nat
    const w: Width
    const nand: Nand
    const was: seq<BlockInfo>   // the blocks when power was lost, of which the flash chip reports some

    var blocks: seq<BlockInfo>
    var bits: set<Chunk>
    var nErased: int
    var nFree: int
    var seqNumber: nat
    var allocBlock: int
    var allocPage: nat
    var files: Files
    ghost var seen: set<Chunk>

    ghost predicate Valid(unseen: int)
      reads this
    {
      && c > 0 && cpb > 0 && |blocks| == |was| && -1 <= allocBlock < |was| && OnBlocks(c, cpb, was, nand)
      && Sane(cpb, nand, was, blocks, bits, nErased, nFree, seqNumber, allocBlock, files, seen, unseen)
    }

    constructor (c: nat, cpb: nat, w: Width, nand: Nand, was: seq<BlockInfo>)
      ensures this.c == c && this.cpb == cpb && this.w == w && this.nand == nand && this.was == was
    {
      this.c, this.cpb, this.w, this.nand, this.was := c, cpb, w, nand, was;
    }

    /** First pass: asks what blocks there are, and which sequence number is the highest. */
    method QueryBlocks()
      requires c > 0 && cpb > 0 && OnBlocks(c, cpb, was, nand) && OneNewest(nand, was, HighestSeq(was))
      modifies this
      ensures Valid(ToRead(was, |was|, cpb)) && seqNumber == HighestSeq(was) && seen == {} && files == map[]
      ensures forall b :: 0 <= b < |was| ==> blocks[b] == Reported(was[b])
      ensures forall b :: 0 <= b < |was| ==> !blocks[b].hasShrinkHdr && blocks[b].pagesInUse == 0
    {
      hide OnBlocks, OneNewest, Sane, Service, HighestSeq, ToRead, Total, Weight, Reported, InService;
      blocks, bits, files, seen := [], {}, map[], {};
      nErased, nFree, seqNumber, allocBlock, allocPage := 0, 0, LOWEST_SEQUENCE_NUMBER, -1, 0;
      HighestStart(was, cpb);
      for b := 0 to |was|
        invariant |blocks| == b && bits == {} && files == map[] && seen == {} && allocBlock == -1
        invariant forall j :: 0 <= j < b ==> blocks[j] == Reported(was[j])
        invariant forall j :: 0 <= j < b ==> !blocks[j].hasShrinkHdr && blocks[j].pagesInUse == 0
        invariant nErased == Total(ErasedBlocks, cpb, blocks)
        invariant nFree == Total(FreeChunks, cpb, blocks) - ToRead(was, b, cpb)
        invariant seqNumber == HighestSeq(was[..b])
      {
        var bi := Reported(was[b]);
        assert was[..b + 1][..b] == was[..b];
        ServiceMore(was, b, cpb);
        HighestStep(was, b);
        ReportedIs(was[b], cpb);
        TotalMore(ErasedBlocks, cpb, blocks, bi);
        TotalMore(FreeChunks, cpb, blocks, bi);
        blocks := blocks + [bi];
        if bi.state.Empty? {
          nErased, nFree := nErased + 1, nFree + cpb;
        } else if bi.state.Full? && bi.seqNo >= seqNumber {
          seqNumber := bi.seqNo;
        }
      }
      assert was[..|was|] == was;
      NothingFiled(cpb, nand);
      Fresh(cpb, nand, was, blocks, nErased, nFree, ToRead(was, |was|, cpb));
    }

    /** Second pass: reads the blocks, newest one first, and lists those that can be erased. */
    method ScanBlocks(order: seq<IndexEntry>) returns (dirty: seq<nat>)
      requires Valid(ToRead(was, |was|, cpb)) && seen == {} && files == map[]
      requires forall b :: 0 <= b < |was| ==> blocks[b] == Reported(was[b])
      requires forall b :: 0 <= b < |was| ==> !blocks[b].hasShrinkHdr
      requires Indexed(Image(cpb, nand, was), order) && SeqsInRange(was)
      modifies this`blocks, this`bits, this`nErased, this`nFree, this`allocBlock, this`allocPage, this`files, this`seen
      ensures Valid(0) && (forall x :: x in nand ==> x in seen) && forall e :: e in order ==> e.block < |was|
      ensures Recovered(c, w, Pages(order), files)
      ensures forall b :: 0 <= b < |was| && InService(was[b]) ==> (blocks[b].state.Empty? <==> Bare(nand, b))
      ensures forall b :: b in dirty ==> b < |blocks| && IsUseless(blocks[b])
      ensures forall b: nat :: b < |blocks| && IsUseless(blocks[b]) ==> b in dirty
      ensures MarkedOnly(nand, blocks)
      ensures forall i, j :: 0 <= i < j < |dirty| ==> dirty[i] != dirty[j]
    {
      hide AllScanInv, Sane, Recovered, Image, Concat, OnBlocks, Blocks, Indexed, SeqsInRange, Service, PagesOf,
        Underway, Bare, IsUseless, MarkedOnly;
      ghost var todo := Service(was, |was|);
      Listed(cpb, nand, was, order);
      dirty := [];
      var k := |order|;
      assert order[..k] == order;
      ServiceAll(was);
      ScanStarts(c, w, Pages(order));
      UnderwayFirst(cpb, was, blocks);
      NoneMarked(nand, blocks);
      while k > 0
        invariant 0 <= k <= |order| && Valid(|todo| * cpb) && todo == Blocks(order, k)
        invariant Pages(order[..k]) <= Pages(order)
        invariant AllScanInv(c, w, Pages(order), |Pages(order[..k])|, files)
        invariant Underway(cpb, was, seen, blocks, todo, dirty) && MarkedOnly(nand, blocks)
        invariant forall b :: 0 <= b < |was| && InService(was[b]) && b !in todo ==>
                    (blocks[b].state.Empty? <==> Bare(nand, b))
      {
        k := k - 1;
        var b := order[k].block;
        NextOf(cpb, nand, was, order, k);
        OneLess(todo, b, cpb);
        UnderwayAt(cpb, was, seen, blocks, todo, dirty, b);
        label Before:
        var d := ScanOne(b, order, k, |todo| * cpb);
        UnderwayNext(cpb, was, old@Before(seen), seen, old@Before(blocks), blocks, todo, dirty, b, d);
        if d { dirty := dirty + [b]; }
        todo := todo - {b};
      }
      NothingListed(order);
      NothingBefore(Image(cpb, nand, was), order);
      ScanEnds(c, w, Pages(order), files);
      UnderwayDone(c, cpb, was, nand, seen, blocks, dirty);
    }

    /** The newest block is not written to any more. */
    method SkipRest()
      requires Valid(0)
      modifies this`blocks, this`allocBlock
      ensures Valid(0) && allocBlock == -1 && |blocks| == |old(blocks)|
      ensures forall b :: 0 <= b < |blocks| && old(blocks)[b].state.Full? ==> blocks[b] == old(blocks)[b]
      ensures forall b :: 0 <= b < |blocks| && blocks[b] != old(blocks)[b] ==> blocks[b].seqNo == seqNumber
    {
      hide Sane, OnBlocks;
      if allocBlock >= 0 {
        SaneClosed(cpb, nand, was, blocks, bits, nErased, nFree, seqNumber, allocBlock, files, seen);
        blocks := blocks[allocBlock := blocks[allocBlock].(state := Full)];
        allocBlock := -1;
      }
    }

    /** Reads the pages of a block, last one first; tells whether nothing in the block is of use any more. */
    method ScanOne(b: nat, ghost order: seq<IndexEntry>, ghost k: nat, ghost unseen: int) returns (dirty: bool)
      requires Valid(unseen) && k < |order| && order[k].block == b < |was| && InService(was[b]) && blocks[b].state.Full?
      requires (forall e :: e in order ==> e.block < |was|) && Untouched(seen, b)
      requires Pages(order[..k + 1]) <= Pages(order) && AllScanInv(c, w, Pages(order), |Pages(order[..k + 1])|, files)
      modifies this`blocks, this`bits, this`nErased, this`nFree, this`allocBlock, this`allocPage, this`files, this`seen
      ensures Valid(unseen - cpb) && seen == old(seen) + PagesOf(b, 0, cpb)
      ensures Pages(order[..k]) <= Pages(order) && AllScanInv(c, w, Pages(order), |Pages(order[..k])|, files)
      ensures |blocks| == |old(blocks)| && blocks == old(blocks)[b := blocks[b]]
      ensures dirty <==> IsUseless(blocks[b])
      ensures dirty <==> blocks[b].pagesInUse == 0 && !blocks[b].hasShrinkHdr && blocks[b].state.Full?
      ensures GoesOn(cpb, nand, b, blocks[b], seqNumber, allocBlock, allocPage)
      ensures blocks[b].state.Empty? <==> Bare(nand, b)
      ensures blocks[b].seqNo == old(blocks)[b].seqNo
      ensures MarkedOnly(nand, old(blocks)) ==> MarkedOnly(nand, blocks)
    {
      hide MarkedOnly, AllScanInv, Sane, OnBlocks, Refiled, Concat, Image, AfterPage, ImagePage, PagesOf, GoesOn,
        GoesOnFrom, WrittenOn;
      OnePageMore(b, 0, cpb);
      GoesOnFirst(cpb, nand, b, blocks[b], seqNumber, allocBlock, allocPage);
      ghost var log, at := Pages(order), |Pages(order[..k])|;
      BlockInLog(cpb, nand, was, order, k);
      var used := false;
      NoPageAbove(c, cpb, was, nand, b);
      for p := cpb downto 0
        invariant Valid(unseen - (cpb - p)) && seen == old(seen) + PagesOf(b, p, cpb)
        invariant AllScanInv(c, w, log, at + p, files)
        invariant |blocks| == |old(blocks)| && blocks == old(blocks)[b := blocks[b]] && (p > 0 ==> InService(blocks[b]))
        invariant !used ==> forall q: nat :: p <= q ==> Chunk(b, q) !in nand
        invariant blocks[b].seqNo == old(blocks)[b].seqNo
        invariant MarkedOnly(nand, old(blocks)) ==> MarkedOnly(nand, blocks)
        invariant if p > 0 then GoesOnFrom(cpb, nand, b, blocks[b], seqNumber, allocBlock, allocPage, p, used)
                  else GoesOn(cpb, nand, b, blocks[b], seqNumber, allocBlock, allocPage)
      {
        AfterPageInv(c, w, files, log, at + p);
        OnePageMore(b, p, cpb);
        ghost var bi1, block1, page1, used1 := blocks[b], allocBlock, allocPage, used;
        used := OnePage(b, p, used, unseen - (cpb - p - 1));
        GoesOnMore(cpb, nand, b, bi1, blocks[b], seqNumber, block1, page1, allocBlock, allocPage, p, used1);
      }
      dirty := IsUseless(blocks[b]);
      EmptyIff(c, cpb, was, nand, b, blocks[b], seqNumber, allocBlock, allocPage);
    }

    /** Reads a page.  Once a page of a block was found to be used, those before it are not free to be written any
        more. */
    method OnePage(b: nat, p: nat, used: bool, ghost unseen: int) returns (used': bool)
      requires Valid(unseen) && b < |was| && InService(was[b]) && p < cpb && InService(blocks[b])
      requires Chunk(b, p) !in seen && (!used ==> forall q: nat :: p < q ==> Chunk(b, q) !in nand)
      modifies this`blocks, this`bits, this`nErased, this`nFree, this`allocBlock, this`allocPage, this`files, this`seen
      ensures Valid(unseen - 1) && seen == old(seen) + {Chunk(b, p)}
      ensures files == AfterPage(c, w, old(files), ImagePage(cpb, nand, Chunk(b, p)))
      ensures |blocks| == |old(blocks)| && blocks == old(blocks)[b := blocks[b]] && (p > 0 ==> InService(blocks[b]))
      ensures !used' ==> !used && forall q: nat :: p <= q ==> Chunk(b, q) !in nand
      ensures (used' <==> used || Chunk(b, p) in nand) && (!used' && p == 0 ==> blocks[b].state.Empty?)
      ensures WrittenOn(old(blocks)[b].state, blocks[b], seqNumber, old(allocBlock), old(allocPage), allocBlock,
                        allocPage, b, p, used') && blocks[b].seqNo == old(blocks)[b].seqNo
      ensures MarkedOnly(nand, old(blocks)) ==> MarkedOnly(nand, blocks)
    {
      hide Sane, OnBlocks, Refiled, ImagePage, AfterPage, MarkedOnly;
      var x := Chunk(b, p);
      if x in nand { UsedIn(c, cpb, was, nand, x); }
      PageInLog(c, w, cpb, nand, files, x);
      used' := used || x in nand;
      if x in nand {
        UsedPage(x, unseen);
      } else {
        BlankPage(b, p, used, unseen);
      }
      if MarkedOnly(nand, old(blocks)) { MarkedStep(nand, old(blocks), blocks, x); }
    }

    /** The pages of the listed blocks. */
    ghost function Pages(order: seq<IndexEntry>): seq<L.Page>
      requires forall e :: e in order ==> e.block < |was|
    {
      Concat(Image(cpb, nand, was), order)
    }

    /** A page that was programmed: it is counted, and given up at once if the scan has no use for it. */
    method UsedPage(x: Chunk, ghost unseen: int)
      requires Valid(unseen) && x in nand && x !in seen
      modifies this`blocks, this`bits, this`nFree, this`files, this`seen
      ensures Valid(unseen - 1) && seen == old(seen) + {x}
      ensures PageOk(c, nand[x]) && files == Refiled(c, w, cpb, old(files), x, nand[x])
      ensures |blocks| == |old(blocks)| && blocks == old(blocks)[x.block := blocks[x.block]]
      ensures blocks[x.block].state == old(blocks)[x.block].state && blocks[x.block].seqNo == old(blocks)[x.block].seqNo
      ensures blocks[x.block].hasShrinkHdr <==>
                old(blocks)[x.block].hasShrinkHdr || (nand[x].id == 0 && nand[x].isShrink)
    {
      hide ScanPage, GivenUp, PageOk, Sane, OnBlocks, Refiled;
      UsedIn(c, cpb, was, nand, x);
      var p, b := nand[x], x.block;
      var up := GivenUp(c, Find(c, w, files, p.obj), p);
      SaneUsed(c, w, cpb, nand, was, blocks, bits, nErased, nFree, seqNumber, allocBlock, files, seen, unseen, x, up);
      bits := bits + {x};
      blocks := blocks[b := blocks[b].(pagesInUse := blocks[b].pagesInUse + 1)];
      files := Refiled(c, w, cpb, files, x, p);
      if up {
        bits := bits - {x};
        blocks := blocks[b := blocks[b].(pagesInUse := blocks[b].pagesInUse - 1)];
        nFree := nFree + 1;
      }
      if p.id == 0 && p.isShrink { blocks := blocks[b := blocks[b].(hasShrinkHdr := true)]; }
      assert bits == if up then old(bits) else old(bits) + {x};
      assert blocks == old(blocks)[b := AfterUsed(old(blocks)[b], p, up)];
      seen := seen + {x};
    }

    /** A page that was not programmed.  It shows where the newest block goes on, or that a block is empty. */
    method BlankPage(b: nat, p: nat, used: bool, ghost unseen: int)
      requires Valid(unseen) && b < |was| && InService(was[b]) && p < cpb && Chunk(b, p) !in nand
      requires InService(blocks[b])
      requires !used ==> forall q: nat :: p <= q ==> Chunk(b, q) !in nand
      modifies this`blocks, this`nErased, this`nFree, this`allocBlock, this`allocPage, this`seen
      ensures Valid(unseen - 1) && seen == old(seen) + {Chunk(b, p)}
      ensures |blocks| == |old(blocks)| && blocks == old(blocks)[b := blocks[b]]
      ensures if !used && p == 0 then blocks[b].state.Empty? else InService(blocks[b])
      ensures blocks[b].seqNo == old(blocks)[b].seqNo && blocks[b].hasShrinkHdr == old(blocks)[b].hasShrinkHdr
      ensures WrittenOn(old(blocks)[b].state, blocks[b], seqNumber, old(allocBlock), old(allocPage), allocBlock,
                        allocPage, b, p, used)
    {
      hide Sane, OnBlocks;
      if used {
      } else if p == 0 {
        BareIs(nand, b);
        blocks := blocks[b := blocks[b].(state := Empty)];
        nErased := nErased + 1;
      } else if blocks[b].seqNo == seqNumber {
        blocks := blocks[b := blocks[b].(state := Allocating)];
        allocBlock, allocPage := b, p;
      }
      nFree := nFree + 1;
      assert blocks == old(blocks)[b := blocks[b]];
      SaneBlank(c, cpb, nand, was, old(blocks), bits, old(nErased), old(nFree), seqNumber, old(allocBlock), files, seen,
                unseen, b, p, blocks[b], allocBlock);
      seen := seen + {Chunk(b, p)};
    }
  }

  /** What a page that was used makes of its block. */
  function AfterUsed(bi: BlockInfo, p: Page, up: bool): BlockInfo {
    bi.(pagesInUse := if up then bi.pagesInUse else bi.pagesInUse + 1,
        hasShrinkHdr := bi.hasShrinkHdr || (p.id == 0 && p.isShrink))
  }

  lemma SaneUsed(c: nat, w: Width, cpb: nat, nand: Nand, was: seq<BlockInfo>, blocks: seq<BlockInfo>, bits: set<Chunk>,
                 nErased: int, nFree: int, seqNumber: nat, allocBlock: int, files: Files, seen: set<Chunk>, unseen: int,
                 x: Chunk, up: bool)
    requires Sane(cpb, nand, was, blocks, bits, nErased, nFree, seqNumber, allocBlock, files, seen, unseen)
    requires OnBlocks(c, cpb, was, nand) && x in nand && x !in seen && |blocks| == |was|
    requires x.block < |was| && up == GivenUp(c, Find(c, w, files, nand[x].obj), nand[x])
    ensures PageOk(c, nand[x]) && x !in bits
    ensures var p, b := nand[x], x.block;
            Sane(cpb, nand, was, blocks[b := AfterUsed(blocks[b], p, up)], if up then bits else bits + {x}, nErased,
                 nFree + (if up then 1 else 0), seqNumber, allocBlock, Refiled(c, w, cpb, files, x, p), seen + {x},
                 unseen - 1)
  {
    hide Filed, ScanPage, GivenUp, PageOk, Standing, Counted, ShrinksMarked, OnBlocks, OneNewest, Refiled, Weight;
    var b := x.block;
    var bi := AfterUsed(blocks[b], nand[x], up);
    var bits' := if up then bits else bits + {x};
    UsedIn(c, cpb, was, nand, x);
    StandingAt(was, nand, blocks, allocBlock, b, x);
    CountedAt(cpb, blocks, bits, nErased, nFree, unseen, b);
    FiledPage(c, w, cpb, nand, seen, files, bits, x);
    OneMoreBit(bits, bits', x, up);
    WeightOf(cpb, blocks[b], bi);
    CountedStep(cpb, blocks, bits, nErased, nFree, unseen, b, bi, bits', nErased, nFree + if up then 1 else 0,
                unseen - 1);
    StandsSame(was, nand, blocks, allocBlock, blocks[b := bi], b);
    MarkedMore(nand, seen, blocks, blocks[b := bi], x);
  }

  lemma SaneBlank(c: nat, cpb: nat, nand: Nand, was: seq<BlockInfo>, blocks: seq<BlockInfo>, bits: set<Chunk>,
                  nErased: int, nFree: int, seqNumber: nat, allocBlock: int, files: Files, seen: set<Chunk>,
                  unseen: int, b: nat, p: nat, bi: BlockInfo, allocBlock': int)
    requires Sane(cpb, nand, was, blocks, bits, nErased, nFree, seqNumber, allocBlock, files, seen, unseen)
    requires |blocks| == |was| && b < |was| && InService(was[b]) && InService(blocks[b]) && Chunk(b, p) !in nand
    requires p < cpb && -1 <= allocBlock < |was|
    requires bi == blocks[b].(state := bi.state)
    requires || (bi == blocks[b] && allocBlock' == allocBlock)
             || (bi.state.Empty? && Bare(nand, b) && allocBlock' == allocBlock)
             || (bi.state.Allocating? && blocks[b].seqNo == seqNumber && allocBlock' == b)
    ensures Sane(cpb, nand, was, blocks[b := bi], bits, nErased + (if bi.state.Empty? then 1 else 0), nFree + 1,
                 seqNumber, allocBlock', files, seen + {Chunk(b, p)}, unseen - 1)
  {
    hide Filed, Standing, Counted, ShrinksMarked, OneNewest, Weight;
    var x := Chunk(b, p);
    StandingAt(was, nand, blocks, allocBlock, b, x);
    CountedAt(cpb, blocks, bits, nErased, nFree, unseen, b);
    FiledBlank(cpb, nand, seen, files, bits, x);
    assert allocBlock >= 0 ==> IsNewest(was, seqNumber, allocBlock);
    if bi.state.Empty? {
      NotNewest(nand, was, seqNumber, b);
    } else if bi != blocks[b] || allocBlock' != allocBlock {
      NewestIs(nand, was, seqNumber, b);
    }
    WeightOf(cpb, blocks[b], bi);
    CountedStep(cpb, blocks, bits, nErased, nFree, unseen, b, bi, bits, nErased + if bi.state.Empty? then 1 else 0,
                nFree + 1, unseen - 1);
    StandsNew(was, nand, blocks, allocBlock, blocks[b := bi], allocBlock', b);
    MarkedMore(nand, seen, blocks, blocks[b := bi], x);
  }

  lemma WeightOf(cpb: nat, bi: BlockInfo, bi': BlockInfo)
    requires InService(bi) && !bi'.state.Dead?
    ensures Weight(ErasedBlocks, cpb, bi') - Weight(ErasedBlocks, cpb, bi) == if bi'.state.Empty? then 1 else 0
    ensures Weight(FreeChunks, cpb, bi') - Weight(FreeChunks, cpb, bi) ==
            bi.pagesInUse - bi'.pagesInUse + bi'.softDelPages - bi.softDelPages
  {
  }

  function PagesOf(b: nat, lo: nat, hi: nat): set<Chunk> { set q | lo <= q < hi :: Chunk(b, q) }

  lemma OnePageMore(b: nat, p: nat, hi: nat)
    requires p < hi
    ensures PagesOf(b, p, hi) == PagesOf(b, p + 1, hi) + {Chunk(b, p)} && Chunk(b, p) !in PagesOf(b, p + 1, hi)
    ensures PagesOf(b, hi, hi) == {}
  {
  }

  ghost predicate Untouched(seen: set<Chunk>, b: nat) { forall x :: x in seen ==> x.block != b }

  /** The pages of block `order[k]` in the log. */
  lemma BlockInLog(cpb: nat, nand: Nand, was: seq<BlockInfo>, order: seq<IndexEntry>, k: nat)
    requires k < |order| && (forall e :: e in order ==> e.block < |was|) && InService(was[order[k].block])
    requires Concat(Image(cpb, nand, was), order[..k + 1]) <= Concat(Image(cpb, nand, was), order)
    ensures var log, before := Concat(Image(cpb, nand, was), order), Concat(Image(cpb, nand, was), order[..k]);
            && before <= log && |before| + cpb == |Concat(Image(cpb, nand, was), order[..k + 1])| <= |log|
            && forall p :: 0 <= p < cpb ==> log[|before| + p] == ImagePage(cpb, nand, Chunk(order[k].block, p))
  {
    hide Concat, Image, ImagePage, SeenPages;
    var image, b := Image(cpb, nand, was), order[k].block;
    SeenImageIs(cpb, nand, was, b);
    ConcatStep(image, order, k, Concat(image, order));
    var log, before := Concat(image, order), Concat(image, order[..k]);
    forall p | 0 <= p < cpb ensures log[|before| + p] == ImagePage(cpb, nand, Chunk(b, p)) {
      assert log[|before| + p] == log[|before|..|before| + cpb][p];
    }
  }

  lemma SeenImageIs(cpb: nat, nand: Nand, was: seq<BlockInfo>, b: nat)
    requires b < |was| && InService(was[b])
    ensures var r := Image(cpb, nand, was)[b];
            && |r.pages| == cpb && |SeenPages(r)| == cpb
            && forall p :: 0 <= p < cpb ==> SeenPages(r)[p] == ImagePage(cpb, nand, Chunk(b, p))
  {
    hide SeenPages, ImagePage;
    SeenImage(cpb, nand, b, was[b]);
  }

  lemma NoPageAbove(c: nat, cpb: nat, was: seq<BlockInfo>, nand: Nand, b: nat)
    requires OnBlocks(c, cpb, was, nand)
    ensures forall q: nat :: cpb <= q ==> Chunk(b, q) !in nand
  {
  }

  /** What the scan makes of a page that is in the log. */
  lemma PageInLog(c: nat, w: Width, cpb: nat, nand: Nand, files: Files, x: Chunk)
    requires x in nand ==> PageOk(c, nand[x])
    ensures AfterPage(c, w, files, ImagePage(cpb, nand, x)) ==
            if x in nand then Refiled(c, w, cpb, files, x, nand[x]) else files
  {
  }

  lemma UsedIn(c: nat, cpb: nat, was: seq<BlockInfo>, nand: Nand, x: Chunk)
    requires OnBlocks(c, cpb, was, nand) && x in nand
    ensures x.page < cpb && PageOk(c, nand[x]) && x.block < |was| && InService(was[x.block])
  {
  }

  lemma OneMoreBit(bits: set<Chunk>, bits': set<Chunk>, x: Chunk, up: bool)
    requires x !in bits && bits' == if up then bits else bits + {x}
    ensures |In(bits', x.block)| == |In(bits, x.block)| + if up then 0 else 1
    ensures forall j: nat :: j != x.block ==> In(bits', j) == In(bits, j)
  {
    if !up { InAdd(bits, x, x.block); }
  }

  /** A block changed its counters and marks only. */
  lemma StandsSame(was: seq<BlockInfo>, nand: Nand, blocks: seq<BlockInfo>, allocBlock: int, blocks': seq<BlockInfo>,
                   b: nat)
    requires Standing(was, nand, blocks, allocBlock) && b < |blocks| == |blocks'| && blocks' == blocks[b := blocks'[b]]
    requires blocks'[b].state == blocks[b].state && blocks'[b].seqNo == blocks[b].seqNo
    requires blocks'[b].needsRetiring == blocks[b].needsRetiring
    ensures Standing(was, nand, blocks', allocBlock)
  {
    assert StandsAs(nand, allocBlock, b, was[b], blocks[b]);
  }

  /** A block that is being scanned is full or the one to go on with, unless nothing is in it. */
  lemma StandingAt(was: seq<BlockInfo>, nand: Nand, blocks: seq<BlockInfo>, allocBlock: int, b: nat, x: Chunk)
    requires Standing(was, nand, blocks, allocBlock) && b < |was| && InService(was[b]) && x.block == b
    ensures |blocks| == |was| && blocks[b].seqNo == was[b].seqNo && !blocks[b].needsRetiring
    ensures x in nand ==> InService(blocks[b])
    ensures InService(blocks[b]) || blocks[b].state.Empty?
    ensures StandsAs(nand, allocBlock, b, was[b], blocks[b])
  {
    assert StandsAs(nand, allocBlock, b, was[b], blocks[b]);
  }

  lemma CountedAt(cpb: nat, blocks: seq<BlockInfo>, bits: set<Chunk>, nErased: int, nFree: int, unseen: int, b: nat)
    requires Counted(cpb, blocks, bits, nErased, nFree, unseen) && b < |blocks|
    ensures blocks[b].pagesInUse == |In(bits, b)| && blocks[b].softDelPages == 0
    ensures forall x :: x in bits ==> x.block < |blocks| && x.page < cpb
  {
  }

  lemma MarkedMore(nand: Nand, seen: set<Chunk>, blocks: seq<BlockInfo>, blocks': seq<BlockInfo>, x: Chunk)
    requires ShrinksMarked(nand, seen, blocks) && x.block < |blocks| == |blocks'|
    requires blocks' == blocks[x.block := blocks'[x.block]]
    requires blocks[x.block].hasShrinkHdr || (x in nand && nand[x].id == 0 && nand[x].isShrink) ==>
               blocks'[x.block].hasShrinkHdr
    ensures ShrinksMarked(nand, seen + {x}, blocks')
  {
  }

  lemma BareIs(nand: Nand, b: nat)
    requires forall q: nat :: Chunk(b, q) !in nand
    ensures Bare(nand, b)
  {
    forall x | x in nand ensures x.block != b { assert x == Chunk(x.block, x.page); }
  }

  lemma NotNewest(nand: Nand, was: seq<BlockInfo>, seqNumber: nat, b: nat)
    requires OneNewest(nand, was, seqNumber) && b < |was| && InService(was[b]) && Bare(nand, b)
    ensures was[b].seqNo < seqNumber
  {
    assert !IsNewest(was, seqNumber, b);
  }

  lemma NewestIs(nand: Nand, was: seq<BlockInfo>, seqNumber: nat, b: nat)
    requires OneNewest(nand, was, seqNumber) && IsNewest(was, seqNumber, b)
    ensures forall a :: IsNewest(was, seqNumber, a) ==> a == b
  {
  }

  /** A block changed its state. */
  lemma StandsNew(was: seq<BlockInfo>, nand: Nand, blocks: seq<BlockInfo>, allocBlock: int, blocks': seq<BlockInfo>,
                  allocBlock': int, b: nat)
    requires Standing(was, nand, blocks, allocBlock) && b < |blocks| == |blocks'| && blocks' == blocks[b := blocks'[b]]
    requires StandsAs(nand, allocBlock', b, was[b], blocks'[b])
    requires allocBlock' == allocBlock || allocBlock < 0 || allocBlock' == b == allocBlock
    ensures Standing(was, nand, blocks', allocBlock')
  {
    forall j | 0 <= j < |was| ensures StandsAs(nand, allocBlock', j, was[j], blocks'[j]) {
      assert StandsAs(nand, allocBlock, j, was[j], blocks[j]);
    }
  }

  // ---------- The objects ----------

  function Place(cpb: nat, a: nat): Chunk { if 0 < cpb <= a then ChunkAt(cpb, a) else Chunk(0, 0) }

  lemma PlaceOf(cpb: nat, x: Chunk)
    requires x.page < cpb
    ensures Place(cpb, Addr(cpb, x)) == x
  {
    AddrSplit(cpb, x);
  }

  lemma AddrBack(cpb: nat, a: nat)
    requires 0 < cpb <= a
    ensures Addr(cpb, ChunkAt(cpb, a)) == a
  {
    AtLeastOne(cpb, a);
  }

  /** A file that was found, as an object of the device. */
  function ToObj(cpb: nat, f: Scanned): Obj {
    Obj(if f.valid then Some(Place(cpb, f.hdr)) else None, map id | id in f.chunks :: Place(cpb, f.chunks[id]), false,
        |f.chunks|, f.size)
  }

  function ObjsOf(cpb: nat, files: Files): Objs { map o | o in files :: ToObj(cpb, files[o]) }

  /** What a file points to is in use, and where its address says. */
  lemma FoundInUse(cpb: nat, nand: Nand, seen: set<Chunk>, files: Files, bits: set<Chunk>, o: nat, id: nat)
    requires Filed(cpb, nand, seen, files, bits) && o in files
    requires if id == 0 then files[o].valid else id in files[o].chunks
    ensures var a := if id == 0 then files[o].hdr else files[o].chunks[id]; var x := Place(cpb, a);
            x in bits && x in nand && x in seen && nand[x].obj == o && nand[x].id == id && Addr(cpb, x) == a
  {
    var a := if id == 0 then files[o].hdr else files[o].chunks[id];
    assert Found(cpb, nand, seen, o, id, a);
    AddrBack(cpb, a);
  }

  lemma OwnedNow(cpb: nat, nand: Nand, seen: set<Chunk>, files: Files, bits: set<Chunk>)
    requires Filed(cpb, nand, seen, files, bits) && forall x :: x in seen ==> x.page < cpb
    ensures Owned(bits, {}, nand, ObjsOf(cpb, files))
  {
    hide Filed, Place, Addr;
    var objs := ObjsOf(cpb, files);
    forall x | x in bits ensures HasOwner({}, nand, objs, x) {
      BitHeld(cpb, nand, seen, files, bits, x);
      PlaceOf(cpb, x);
    }
    forall o | o in objs ensures Rightful(bits, nand, o, objs[o]) {
      forall id | id in objs[o].chunks
        ensures id > 0 && objs[o].chunks[id] in bits && objs[o].chunks[id] in nand
        ensures nand[objs[o].chunks[id]].obj == o && nand[objs[o].chunks[id]].id == id
      {
        ChunkIds(cpb, nand, seen, files, bits, o, id);
        FoundInUse(cpb, nand, seen, files, bits, o, id);
      }
      if files[o].valid { FoundInUse(cpb, nand, seen, files, bits, o, 0); }
      DataCount(cpb, nand, seen, files, bits, o);
    }
  }

  lemma BitHeld(cpb: nat, nand: Nand, seen: set<Chunk>, files: Files, bits: set<Chunk>, x: Chunk)
    requires Filed(cpb, nand, seen, files, bits) && x in bits
    ensures x in seen && Held(cpb, nand, files, x)
  {
  }

  lemma ChunkIds(cpb: nat, nand: Nand, seen: set<Chunk>, files: Files, bits: set<Chunk>, o: nat, id: nat)
    requires Filed(cpb, nand, seen, files, bits) && o in files && id in files[o].chunks
    ensures id > 0
  {
  }

  lemma DataCount(cpb: nat, nand: Nand, seen: set<Chunk>, files: Files, bits: set<Chunk>, o: nat)
    requires Filed(cpb, nand, seen, files, bits) && o in files && forall x :: x in seen ==> x.page < cpb
    ensures |DataPages(bits, nand, o)| == |files[o].chunks|
  {
    hide Filed, Place, Addr;
    var m := files[o].chunks;
    forall id | id in m
      ensures Place(cpb, m[id]) in nand && nand[Place(cpb, m[id])].id == id
      ensures Place(cpb, m[id]) in DataPages(bits, nand, o)
    {
      ChunkIds(cpb, nand, seen, files, bits, o, id);
      FoundInUse(cpb, nand, seen, files, bits, o, id);
    }
    forall x | x in DataPages(bits, nand, o) ensures x in PlacesOf(cpb, m, m.Keys) {
      BitHeld(cpb, nand, seen, files, bits, x);
      PlaceOf(cpb, x);
      assert nand[x].id in m.Keys && Place(cpb, m[nand[x].id]) == x;
    }
    assert DataPages(bits, nand, o) == PlacesOf(cpb, m, m.Keys);
    PlacesCount(cpb, nand, m, m.Keys);
    assert |m| == |m.Keys|;
  }

  function PlacesOf(cpb: nat, m: map<nat, nat>, ids: set<nat>): set<Chunk> {
    set id | id in ids && id in m :: Place(cpb, m[id])
  }

  lemma {:induction false} PlacesCount(cpb: nat, nand: Nand, m: map<nat, nat>, ids: set<nat>)
    requires forall id :: id in ids ==> id in m && Place(cpb, m[id]) in nand && nand[Place(cpb, m[id])].id == id
    ensures |PlacesOf(cpb, m, ids)| == |ids|
  {
    hide Place;
    if ids == {} {
      assert PlacesOf(cpb, m, ids) == {};
    } else {
      var id :| id in ids;
      PlacesCount(cpb, nand, m, ids - {id});
      assert PlacesOf(cpb, m, ids) == PlacesOf(cpb, m, ids - {id}) + {Place(cpb, m[id])};
    }
  }

  // ---------- The books are right again ----------

  lemma BalancedNow(c: nat, cpb: nat, nand: Nand, was: seq<BlockInfo>, blocks: seq<BlockInfo>, bits: set<Chunk>,
                    nErased: int, nFree: int, allocPage: nat, seqNumber: nat, files: Files, seen: set<Chunk>)
    requires Sane(cpb, nand, was, blocks, bits, nErased, nFree, seqNumber, -1, files, seen, 0) && |blocks| == |was|
    requires OnBlocks(c, cpb, was, nand) && seqNumber >= LOWEST_SEQUENCE_NUMBER
    requires forall b :: 0 <= b < |was| && InService(was[b]) ==> was[b].seqNo > LOWEST_SEQUENCE_NUMBER
    ensures Balanced(cpb, Books(blocks, bits, {}, nErased, nFree, -1, allocPage, seqNumber, 0)) && Sturdy(blocks)
    ensures Idle(blocks)
  {
    hide Filed, ShrinksMarked;
    forall b | 0 <= b < |blocks|
      ensures BlockOk(cpb, bits, {}, seqNumber, b, blocks[b]) && !blocks[b].state.Allocating?
      ensures !blocks[b].needsRetiring && !blocks[b].state.Collecting?
    {
      assert StandsAs(nand, -1, b, was[b], blocks[b]);
      assert In({}, b) == {};
      if !InService(blocks[b]) { EmptyBits(c, cpb, nand, was, files, seen, bits, b); }
    }
  }

  /** Nothing is in use in a block that holds no page. */
  lemma EmptyBits(c: nat, cpb: nat, nand: Nand, was: seq<BlockInfo>, files: Files, seen: set<Chunk>, bits: set<Chunk>,
                  b: nat)
    requires Filed(cpb, nand, seen, files, bits) && OnBlocks(c, cpb, was, nand) && b < |was|
    requires !InService(was[b]) || Bare(nand, b)
    ensures In(bits, b) == {}
  {
    forall x | x in In(bits, b) ensures false {
      BitHeld(cpb, nand, seen, files, bits, x);
      UsedIn(c, cpb, was, nand, x);
    }
  }

  /** A page of the log is on flash. */
  lemma LogPage(c: nat, cpb: nat, nand: Nand, log: seq<L.Page>, i: nat)
    requires Written(c, cpb, nand, log) && i < |log| && !log[i].Blank?
    ensures 0 < cpb <= log[i].chunk
    ensures var x := ChunkAt(cpb, log[i].chunk);
            x in nand && log[i] == ToLog(cpb, x, nand[x]) && BlockOf(cpb, log[i]) == x.block + 1
  {
    assert OnFlash(cpb, nand, log[i]);
    AtLeastOne(cpb, log[i].chunk);
  }

  lemma ChronoNow(c: nat, cpb: nat, k: Books, k': Books, nand: Nand, log: seq<L.Page>)
    requires Written(c, cpb, nand, log) && Chrono(cpb, k, log) && Standing(k.blocks, nand, k'.blocks, -1)
    requires k'.allocBlock == -1
    ensures Chrono(cpb, k', log)
  {
    hide StandsAs, OnFlash;
    forall i | 0 <= i < |log| && !log[i].Blank?
      ensures log[i].chunk >= cpb && Placed(cpb, k', ChunkAt(cpb, log[i].chunk))
      ensures var b := ChunkAt(cpb, log[i].chunk).block;
              b < |k.blocks| == |k'.blocks| && k'.blocks[b].seqNo == k.blocks[b].seqNo
    {
      LogPage(c, cpb, nand, log, i);
      var x := ChunkAt(cpb, log[i].chunk);
      assert Placed(cpb, k, x);
      StandingAt(k.blocks, nand, k'.blocks, -1, x.block, x);
    }
    forall i, j | 0 <= i < j < |log| && !log[i].Blank? && !log[j].Blank?
      ensures Earlier(k'.blocks, ChunkAt(cpb, log[i].chunk), ChunkAt(cpb, log[j].chunk))
    {
      assert Earlier(k.blocks, ChunkAt(cpb, log[i].chunk), ChunkAt(cpb, log[j].chunk));
    }
  }

  /** A block without a mark has no cut in it. */
  lemma GuardedNow(c: nat, cpb: nat, nand: Nand, blocks: seq<BlockInfo>, seen: set<Chunk>, log: seq<L.Page>)
    requires cpb > 0 && Written(c, cpb, nand, log) && ShrinksMarked(nand, seen, blocks)
    requires forall x :: x in nand ==> x in seen
    ensures Guarded(c, cpb, blocks, log)
  {
    hide OnFlash, BlockOf;
    forall b | 0 <= b < |blocks| && InService(blocks[b]) && !blocks[b].hasShrinkHdr ensures Vetted(c, cpb, log, b) {
      forall o ensures CutsNothing(c, cpb, o, log, b) {
        forall q | 0 <= q < |log| && L.IsCut(c, o, log[q]) ensures BlockOf(cpb, log[q]) != b + 1 {
          LogPage(c, cpb, nand, log, q);
        }
      }
    }
  }

  lemma {:induction false} ReplayInRaw(c: nat, o: nat, log: seq<L.Page>)
    requires forall k :: 0 <= k < |log| && L.IsHeaderOf(c, o, log[k]) ==> !L.InDeletedDir(log[k])
    ensures forall id :: id in L.Replay(c, o, log) ==>
              id in L.Raw(c, o, log) && L.Raw(c, o, log)[id] == L.Replay(c, o, log)[id]
  {
    if log != [] { ReplayInRaw(c, o, log[..|log| - 1]); }
  }

  /** What the files were found to be is what the log means. */
  lemma CurrentNow(c: nat, w: Width, cpb: nat, nand: Nand, seen: set<Chunk>, files: Files, bits: set<Chunk>,
                   flash: seq<L.Page>, log: seq<L.Page>)
    requires Filed(cpb, nand, seen, files, bits) && Written(c, cpb, nand, log)
    requires Compact(flash) == Compact(log) && Recovered(c, w, flash, files)
    requires forall o :: Addressable(c, w, o, log)
    ensures Current(c, cpb, ObjsOf(cpb, files), log)
    ensures forall o :: Means(c, o, log, Find(c, w, files, o))
  {
    hide Filed, Place, Addr, Addressable, L.Raw, L.Replay, L.ReplaySize, Means;
    forall o ensures Means(c, o, log, Find(c, w, files, o)) { MeansNow(c, w, files, flash, log, o); }
    var objs := ObjsOf(cpb, files);
    forall o | o in objs ensures GoodId(o) && CurrentOf(c, cpb, o, objs[o], log) {
      GoodFile(cpb, nand, seen, files, bits, o);
      assert Find(c, w, files, o) == files[o] && Means(c, o, log, files[o]);
      CurrentFile(c, cpb, nand, seen, files, bits, log, o);
    }
  }

  lemma MeansNow(c: nat, w: Width, files: Files, flash: seq<L.Page>, log: seq<L.Page>, o: nat)
    requires Compact(flash) == Compact(log) && Recovered(c, w, flash, files) && Addressable(c, w, o, log)
    ensures Means(c, o, log, Find(c, w, files, o))
  {
    hide L.Raw, L.Replay, L.ReplaySize;
    BlanksDoNotCount(c, o, flash);
    BlanksDoNotCount(c, o, log);
    SameAddressable(c, w, o, flash, log);
  }

  lemma SameAddressable(c: nat, w: Width, o: nat, flash: seq<L.Page>, log: seq<L.Page>)
    requires Compact(flash) == Compact(log) && Addressable(c, w, o, log)
    ensures Addressable(c, w, o, flash)
  {
    CompactHas(flash);
    CompactHas(log);
    forall k | 0 <= k < |flash| && L.IsDataOf(c, o, flash[k]) ensures Fitting(c, w, flash[k].id) {
      assert flash[k] in Compact(flash);
      var i :| 0 <= i < |log| && log[i] == flash[k];
    }
  }

  lemma GoodFile(cpb: nat, nand: Nand, seen: set<Chunk>, files: Files, bits: set<Chunk>, o: nat)
    requires Filed(cpb, nand, seen, files, bits) && o in files
    ensures GoodId(o)
  {
  }

  lemma CurrentFile(c: nat, cpb: nat, nand: Nand, seen: set<Chunk>, files: Files, bits: set<Chunk>, log: seq<L.Page>,
                    o: nat)
    requires Filed(cpb, nand, seen, files, bits) && Written(c, cpb, nand, log) && o in files
    requires Means(c, o, log, files[o])
    ensures CurrentOf(c, cpb, o, ToObj(cpb, files[o]), log)
  {
    hide Filed, Place, Addr, L.Raw, L.Replay, L.ReplaySize, Written;
    var f := files[o];
    forall k | 0 <= k < |log| && L.IsHeaderOf(c, o, log[k]) ensures !L.InDeletedDir(log[k]) {
      LogPage(c, cpb, nand, log, k);
    }
    ReplayInRaw(c, o, log);
    forall id | id in f.chunks ensures Addr(cpb, Place(cpb, f.chunks[id])) == f.chunks[id] {
      ChunkIds(cpb, nand, seen, files, bits, o, id);
      FoundInUse(cpb, nand, seen, files, bits, o, id);
    }
    if f.valid {
      FoundInUse(cpb, nand, seen, files, bits, o, 0);
      HeaderFacts(c, o, log);
      PositivePlace(cpb, nand, seen, files, bits, o);
      var j := LastHeaderAt(c, o, log);
      LogPage(c, cpb, nand, log, j);
    }
  }

  lemma PositivePlace(cpb: nat, nand: Nand, seen: set<Chunk>, files: Files, bits: set<Chunk>, o: nat)
    requires Filed(cpb, nand, seen, files, bits) && o in files && files[o].valid
    ensures files[o].hdr > 0
  {
    assert Found(cpb, nand, seen, o, 0, files[o].hdr);
  }

  /** Object `o` is what the log means, if that is anything at all. */
  ghost predicate Restored(c: nat, cpb: nat, o: nat, objs: Objs, log: seq<L.Page>) {
    if o in objs then
      && !objs[o].softDeleted && Addrs(cpb, objs[o].chunks) == L.Replay(c, o, log)
      && objs[o].size == L.ReplaySize(c, o, log)
      && (objs[o].hdr.Some? ==> Addr(cpb, objs[o].hdr.value) == L.LastHeader(c, o, log))
      && (objs[o].hdr.None? ==> L.LastHeader(c, o, log) == 0)
    else L.Replay(c, o, log) == map[] && L.ReplaySize(c, o, log) == 0 && L.LastHeader(c, o, log) == 0
  }

  lemma RestoredNow(c: nat, w: Width, cpb: nat, nand: Nand, seen: set<Chunk>, files: Files, bits: set<Chunk>,
                    log: seq<L.Page>, o: nat)
    requires Filed(cpb, nand, seen, files, bits) && Means(c, o, log, Find(c, w, files, o))
    ensures Restored(c, cpb, o, ObjsOf(cpb, files), log)
  {
    hide Filed, Place, Addr, L.Replay, L.ReplaySize, L.LastHeader;
    if o in files {
      var f := files[o];
      forall id | id in f.chunks ensures Addr(cpb, Place(cpb, f.chunks[id])) == f.chunks[id] {
        ChunkIds(cpb, nand, seen, files, bits, o, id);
        FoundInUse(cpb, nand, seen, files, bits, o, id);
      }
      assert Addrs(cpb, ToObj(cpb, f).chunks) == f.chunks;
      if f.valid {
        FoundInUse(cpb, nand, seen, files, bits, o, 0);
      } else {
        NoHeaderYet(cpb, nand, seen, files, bits, o);
      }
    }
  }

  lemma NoHeaderYet(cpb: nat, nand: Nand, seen: set<Chunk>, files: Files, bits: set<Chunk>, o: nat)
    requires Filed(cpb, nand, seen, files, bits) && o in files && !files[o].valid
    ensures files[o].hdr == 0
  {
  }

  /** The newest block is the only one of its sequence number. */
  lemma NewestOnly(c: nat, cpb: nat, k: Books, nand: Nand, log: seq<L.Page>)
    requires Written(c, cpb, nand, log) && Chrono(cpb, k, log) && Begun(nand, k.blocks, HighestSeq(k.blocks))
    ensures OneNewest(nand, k.blocks, HighestSeq(k.blocks)) && OnBlocks(c, cpb, k.blocks, nand)
  {
    hide OnFlash, Earlier;
    var was, top := k.blocks, HighestSeq(k.blocks);
    HighestIs(was);
    forall x | x in nand
      ensures x.page < cpb && PageOk(c, nand[x]) && x.block < |was| && InService(was[x.block])
    {
      var _ := InLog(c, cpb, k, nand, log, x);
    }
    forall a, b | IsNewest(was, top, a) && IsNewest(was, top, b) ensures a == b {
      var x :| x in nand && x.block == a;
      var y :| y in nand && y.block == b;
      SameSeq(c, cpb, k, nand, log, x, y);
    }
  }

  /** A page on flash is in the log. */
  lemma InLog(c: nat, cpb: nat, k: Books, nand: Nand, log: seq<L.Page>, x: Chunk) returns (i: nat)
    requires Written(c, cpb, nand, log) && Chrono(cpb, k, log) && x in nand
    ensures x.page < cpb && PageOk(c, nand[x]) && x.block < |k.blocks| && InService(k.blocks[x.block])
    ensures i < |log| && !log[i].Blank? && log[i].chunk >= cpb && ChunkAt(cpb, log[i].chunk) == x
  {
    i :| 0 <= i < |log| && log[i] == ToLog(cpb, x, nand[x]);
    AddrSplit(cpb, x);
    assert Placed(cpb, k, ChunkAt(cpb, log[i].chunk));
  }

  lemma SameSeq(c: nat, cpb: nat, k: Books, nand: Nand, log: seq<L.Page>, x: Chunk, y: Chunk)
    requires Written(c, cpb, nand, log) && Chrono(cpb, k, log) && x in nand && y in nand
    requires x.block < |k.blocks| && y.block < |k.blocks| && k.blocks[x.block].seqNo == k.blocks[y.block].seqNo
    ensures x.block == y.block
  {
    var i := InLog(c, cpb, k, nand, log, x);
    var j := InLog(c, cpb, k, nand, log, y);
    if i < j {
      assert Earlier(k.blocks, ChunkAt(cpb, log[i].chunk), ChunkAt(cpb, log[j].chunk));
    } else if j < i {
      assert Earlier(k.blocks, ChunkAt(cpb, log[j].chunk), ChunkAt(cpb, log[i].chunk));
    }
  }

  lemma {:induction false} HighestIs(was: seq<BlockInfo>)
    ensures HighestSeq(was) >= LOWEST_SEQUENCE_NUMBER
    ensures forall b :: 0 <= b < |was| && InService(was[b]) ==> was[b].seqNo <= HighestSeq(was)
  {
    if was != [] {
      var n := |was| - 1;
      HighestIs(was[..n]);
      forall b | 0 <= b < n && InService(was[b]) ensures was[b].seqNo <= HighestSeq(was) {
        assert was[..n][b] == was[b];
      }
    }
  }

  lemma ServiceSeq(cpb: nat, k: Books)
    requires Balanced(cpb, k) && k.seqNumber < HIGHEST_SEQUENCE_NUMBER
    ensures SeqsInRange(k.blocks)
    ensures forall b :: 0 <= b < |k.blocks| && InService(k.blocks[b]) ==> k.blocks[b].seqNo > LOWEST_SEQUENCE_NUMBER
  {
    forall b | 0 <= b < |k.blocks| && InService(k.blocks[b])
      ensures LOWEST_SEQUENCE_NUMBER < k.blocks[b].seqNo < HIGHEST_SEQUENCE_NUMBER
    {
      ThisBlock(cpb, k, b);
    }
  }

  /** The books that a scan has set up are those of a device in order. */
  lemma InOrderAgain(s: Scanner, order: seq<IndexEntry>, k: Books, objs0: Objs, log: seq<L.Page>)
    requires s.Valid(0) && s.allocBlock == -1 && s.was == k.blocks && s.seqNumber >= LOWEST_SEQUENCE_NUMBER
    requires (forall x :: x in s.nand ==> x in s.seen) && (forall e :: e in order ==> e.block < |s.was|)
    requires Balanced(s.cpb, k) && Journaled(s.c, s.cpb, k, s.nand, objs0, log) && k.seqNumber < HIGHEST_SEQUENCE_NUMBER
    requires IsOrder(Image(s.cpb, s.nand, s.was), order) && Recovered(s.c, s.w, s.Pages(order), s.files)
    requires forall o :: Addressable(s.c, s.w, o, log)
    ensures var k' := Books(s.blocks, s.bits, {}, s.nErased, s.nFree, -1, s.allocPage, s.seqNumber, 0);
            Balanced(s.cpb, k') && Journaled(s.c, s.cpb, k', s.nand, ObjsOf(s.cpb, s.files), log)
    ensures Owned(s.bits, {}, s.nand, ObjsOf(s.cpb, s.files)) && Sturdy(s.blocks) && Idle(s.blocks)
    ensures forall o :: Restored(s.c, s.cpb, o, ObjsOf(s.cpb, s.files), log)
  {
    hide Balanced, Addressable, Recovered, Image, Concat, Filed, Counted, Standing, ShrinksMarked, OneNewest, OnBlocks,
      Written, Chrono, Guarded, Current, Means, Restored;
    var k' := Books(s.blocks, s.bits, {}, s.nErased, s.nFree, -1, s.allocPage, s.seqNumber, 0);
    ServiceSeq(s.cpb, k);
    ImageIsLog(s.c, s.cpb, k, s.nand, objs0, log, order);
    BalancedNow(s.c, s.cpb, s.nand, s.was, s.blocks, s.bits, s.nErased, s.nFree, s.allocPage, s.seqNumber, s.files,
                s.seen);
    ChronoNow(s.c, s.cpb, k, k', s.nand, log);
    GuardedNow(s.c, s.cpb, s.nand, s.blocks, s.seen, log);
    CurrentNow(s.c, s.w, s.cpb, s.nand, s.seen, s.files, s.bits, s.Pages(order), log);
    OwnedNow(s.cpb, s.nand, s.seen, s.files, s.bits);
    forall o ensures Restored(s.c, s.cpb, o, ObjsOf(s.cpb, s.files), log) {
      RestoredNow(s.c, s.w, s.cpb, s.nand, s.seen, s.files, s.bits, log, o);
    }
  }

  /** The blocks listed can be erased. */
  ghost predicate AllUseless(blocks: seq<BlockInfo>, dirty: seq<nat>, i: nat) {
    && (forall j :: i <= j < |dirty| ==> dirty[j] < |blocks| && IsUseless(blocks[dirty[j]]))
    && forall j, m :: 0 <= j < m < |dirty| ==> dirty[j] != dirty[m]
  }

  /** Of the full blocks without a page in use or a cut, those that are not listed have sequence number `seqNo`. */
  ghost predicate AllListed(blocks: seq<BlockInfo>, dirty: seq<nat>, i: nat, seqNo: nat) {
    forall b: nat :: b < |blocks| && blocks[b].state.Full? && blocks[b].pagesInUse == 0 && !blocks[b].hasShrinkHdr ==>
      blocks[b].seqNo == seqNo || exists j :: i <= j < |dirty| && dirty[j] == b
  }

  lemma OneErased(blocks: seq<BlockInfo>, blocks': seq<BlockInfo>, dirty: seq<nat>, i: nat, seqNo: nat)
    requires AllUseless(blocks, dirty, i) && i < |dirty| && |blocks'| == |blocks|
    requires blocks' == blocks[dirty[i] := blocks'[dirty[i]]] && !blocks'[dirty[i]].state.Full?
    requires AllListed(blocks, dirty, i, seqNo)
    ensures AllUseless(blocks', dirty, i + 1) && AllListed(blocks', dirty, i + 1, seqNo)
  {
  }

  lemma StillUseless(blocks: seq<BlockInfo>, blocks': seq<BlockInfo>, dirty: seq<nat>, seqNo: nat)
    requires forall b :: b in dirty ==> b < |blocks| && IsUseless(blocks[b])
    requires forall i, j :: 0 <= i < j < |dirty| ==> dirty[i] != dirty[j]
    requires |blocks'| == |blocks|
    requires forall b :: 0 <= b < |blocks| && blocks[b].state.Full? ==> blocks'[b] == blocks[b]
    requires forall b: nat :: b < |blocks| && IsUseless(blocks[b]) ==> b in dirty
    requires forall b :: 0 <= b < |blocks| && blocks'[b] != blocks[b] ==> blocks'[b].seqNo == seqNo
    ensures AllUseless(blocks', dirty, 0) && AllListed(blocks', dirty, 0, seqNo)
  {
    assert forall j :: 0 <= j < |dirty| ==> dirty[j] in dirty;
  }

  /** Scans a device and sets up its books; some blocks may be left to be erased. */
  method SetUp(dev: Dev, w: Width) returns (d: Dev, dirty: seq<nat>)
    requires dev.Valid() && |dev.blocks| < 0x8000_0000 && dev.seqNumber < HIGHEST_SEQUENCE_NUMBER
    requires AllNear(Image(dev.cpb, dev.nand, dev.blocks)) && Begun(dev.nand, dev.blocks, HighestSeq(dev.blocks))
    requires forall o :: Addressable(dev.c, w, o, dev.log)
    ensures fresh(d) && d.Valid() && Idle(d.blocks) && d.gcChunk == 0 && d.cleanUps == []
    ensures d.c == dev.c && d.cpb == dev.cpb && d.reserve == dev.reserve && d.nandFails == dev.nandFails
    ensures (forall o :: Restored(d.c, d.cpb, o, d.objs, dev.log)) && d.nand == dev.nand && d.log == dev.log
    ensures AllUseless(d.blocks, dirty, 0) && AllListed(d.blocks, dirty, 0, HighestSeq(dev.blocks))
  {
    hide Balanced, Journaled, Owned, AllNear, Addressable, Restored, Image, Sane, OnBlocks, Recovered, IsOrder, Begun,
      Scheduled, Idle, Sturdy, IsUseless, AllUseless, AllListed;
    var s := new Scanner(dev.c, dev.cpb, w, dev.nand, dev.blocks);
    JournalParts(dev.c, dev.cpb, dev.Now(), dev.nand, dev.objs, dev.log);
    NewestOnly(dev.c, dev.cpb, dev.Now(), dev.nand, dev.log);
    HighestIs(dev.blocks);
    ServiceSeq(dev.cpb, dev.Now());
    s.QueryBlocks();
    var order := OrderBlocks(Image(dev.cpb, dev.nand, dev.blocks));
    dirty := s.ScanBlocks(order);
    ghost var blocks := s.blocks;
    s.SkipRest();
    StillUseless(blocks, s.blocks, dirty, s.seqNumber);
    InOrderAgain(s, order, dev.Now(), dev.objs, dev.log);
    d := new Dev.Restarted(dev.c, dev.cpb, dev.reserve, dev.nandFails, s.blocks, s.bits, s.nErased, s.nFree,
                           s.allocPage, s.seqNumber, dev.nand, ObjsOf(dev.cpb, s.files), dev.log);
  }

  /** Power comes back on a device: its books are right again, and its objects are what the log means. */
  method PowerOn(dev: Dev, w: Width) returns (d: Dev)
    requires dev.Valid() && |dev.blocks| < 0x8000_0000 && dev.seqNumber < HIGHEST_SEQUENCE_NUMBER
    requires AllNear(Image(dev.cpb, dev.nand, dev.blocks)) && Begun(dev.nand, dev.blocks, HighestSeq(dev.blocks))
    requires forall o :: Addressable(dev.c, w, o, dev.log)
    ensures fresh(d) && d.Valid() && Idle(d.blocks) && d.gcChunk == 0 && d.cleanUps == []
    ensures d.c == dev.c && d.cpb == dev.cpb && d.reserve == dev.reserve && d.nandFails == dev.nandFails
    ensures forall o :: Restored(d.c, d.cpb, o, d.objs, dev.log)
    ensures SameReads(dev.nand, d.objs, d.nand, d.objs) && AllEroded(d.c, d.cpb, d.objs, dev.log, d.log)
    ensures forall b: nat ::
              b < |d.blocks| && d.blocks[b].state.Full? && d.blocks[b].pagesInUse == 0 && !d.blocks[b].hasShrinkHdr ==>
                d.blocks[b].seqNo == HighestSeq(dev.blocks)
  {
    hide Balanced, Journaled, Owned, AllNear, Addressable, Restored, SameReads, AllEroded, Image, Begun, Scheduled,
      AllUseless, AllListed;
    var dirty;
    d, dirty := SetUp(dev, w);
    ghost var objs := d.objs;
    ReadsSame(d.nand, d.objs);
    ErodedSame(d.c, d.cpb, d.objs, d.log);
    for i := 0 to |dirty|
      invariant fresh(d) && d.Valid() && Idle(d.blocks) && d.gcChunk == 0 && d.cleanUps == [] && d.objs == objs
      invariant SameReads(dev.nand, d.objs, d.nand, d.objs) && AllEroded(d.c, d.cpb, d.objs, dev.log, d.log)
      invariant AllUseless(d.blocks, dirty, i) && AllListed(d.blocks, dirty, i, HighestSeq(dev.blocks))
    {
      ghost var nand1, log1, blocks1 := d.nand, d.log, d.blocks;
      NextUseless(d.blocks, dirty, i);
      GuardedAt(d.c, d.cpb, d.Now(), d.nand, d.objs, d.log, dirty[i]);
      d.BlockBecameDirty(dirty[i]);
      ReadsThen(dev.nand, d.objs, nand1, d.objs, d.nand, d.objs);
      ErodedThen(d.c, d.cpb, d.objs, dev.log, log1, d.log);
      OneErased(blocks1, d.blocks, dirty, i, HighestSeq(dev.blocks));
    }
    NoneListed(d.blocks, dirty, HighestSeq(dev.blocks));
  }

  lemma NoneListed(blocks: seq<BlockInfo>, dirty: seq<nat>, seqNo: nat)
    requires AllListed(blocks, dirty, |dirty|, seqNo)
    ensures forall b: nat ::
              b < |blocks| && blocks[b].state.Full? && blocks[b].pagesInUse == 0 && !blocks[b].hasShrinkHdr ==>
                blocks[b].seqNo == seqNo
  {
  }

  lemma NextUseless(blocks: seq<BlockInfo>, dirty: seq<nat>, i: nat)
    requires AllUseless(blocks, dirty, i) && i < |dirty|
    ensures dirty[i] < |blocks| && IsUseless(blocks[dirty[i]])
  {
  }

  lemma JournalParts(c: nat, cpb: nat, k: Books, nand: Nand, objs: Objs, log: seq<L.Page>)
    requires Journaled(c, cpb, k, nand, objs, log)
    ensures Written(c, cpb, nand, log) && Chrono(cpb, k, log)
  {
  }
}
