/**
 The pages of a device as a log: in which order they were programmed, and what the objects in memory have to do with
 what a scan would find.
 */
module DeviceLog {
  import opened ChunkMath
  import opened Common
  import opened Journal
  import opened Owners
  import opened Space
  import L = FlashLog

  const ROOT := 1

  /** The address of a page; the first block of a device is never used, so that no page has address 0. */
  function Addr(cpb: nat, ch: Chunk): nat { (ch.block + 1) * cpb + ch.page }

  function ChunkAt(cpb: nat, a: nat): Chunk
    requires 0 < cpb <= a
  {
    AtLeastOne(cpb, a);
    Chunk(a / cpb - 1, a % cpb)
  }

  lemma AtLeastOne(cpb: nat, a: nat)
    requires 0 < cpb <= a
    ensures a / cpb >= 1
  {
  }

  lemma AddrSplit(cpb: nat, ch: Chunk)
    requires ch.page < cpb
    ensures Addr(cpb, ch) >= cpb && ChunkAt(cpb, Addr(cpb, ch)) == ch && Addr(cpb, ch) / cpb == ch.block + 1
  {
    assert (ch.block + 1) * cpb == ch.block * cpb + cpb;
    QuotientIs(cpb, ch.block + 1, Addr(cpb, ch));
  }

  /** A page as it stands in the log. */
  function ToLog(cpb: nat, ch: Chunk, p: Page): L.Page {
    if p.id == 0 then L.Header(p.obj, ROOT, p.size, p.isShrink, Addr(cpb, ch))
    else L.Data(p.obj, p.id, |p.data|, Addr(cpb, ch))
  }

  /** Tags that a scan believes. */
  predicate PageOk(c: nat, p: Page) {
    p.obj <= L.MAX_OBJECT_ID && p.obj != L.OBJECTID_SUMMARY && p.id <= MAX_CHUNK_ID && (p.id > 0 ==> |p.data| <= c)
  }

  function Addrs(cpb: nat, m: map<nat, Chunk>): map<nat, nat> { map id | id in m :: Addr(cpb, m[id]) }

  // ---------- The log is what is on flash, in the order of programming ----------

  ghost predicate OnFlash(cpb: nat, nand: Nand, x: L.Page) {
    x.Blank? || (0 < cpb <= x.chunk && var ch := ChunkAt(cpb, x.chunk); ch in nand && x == ToLog(cpb, ch, nand[ch]))
  }

  /** The pages of the log that are not blank are those on flash. */
  ghost predicate Written(c: nat, cpb: nat, nand: Nand, log: seq<L.Page>) {
    && (forall k :: 0 <= k < |log| ==> OnFlash(cpb, nand, log[k]))
    && (forall ch :: ch in nand ==> ch.page < cpb && PageOk(c, nand[ch]) && ToLog(cpb, ch, nand[ch]) in log)
  }

  /** Page `x` was programmed before page `y`: its block is older, or the same and its position is lower. */
  predicate Earlier(blocks: seq<BlockInfo>, x: Chunk, y: Chunk) {
    && x.block < |blocks| && y.block < |blocks|
    && (blocks[x.block].seqNo < blocks[y.block].seqNo || (x.block == y.block && x.page < y.page))
  }

  /** A page lies in a block in service, below the next one to be programmed. */
  ghost predicate Placed(cpb: nat, k: Books, ch: Chunk) {
    && ch.page < cpb && ch.block < |k.blocks| && InService(k.blocks[ch.block])
    && (ch.block == k.allocBlock ==> ch.page < k.allocPage)
  }

  ghost predicate Chrono(cpb: nat, k: Books, log: seq<L.Page>) {
    && cpb > 0
    && (forall i :: 0 <= i < |log| && !log[i].Blank? ==>
        log[i].chunk >= cpb && Placed(cpb, k, ChunkAt(cpb, log[i].chunk)))
    && (forall i, j :: 0 <= i < j < |log| && !log[i].Blank? && !log[j].Blank? ==>
          Earlier(k.blocks, ChunkAt(cpb, log[i].chunk), ChunkAt(cpb, log[j].chunk)))
  }

  /** Page `ch` is later than all that were programmed so far. */
  ghost predicate Newest(cpb: nat, blocks: seq<BlockInfo>, log: seq<L.Page>, ch: Chunk) {
    forall i :: 0 <= i < |log| && !log[i].Blank? ==>
      0 < cpb <= log[i].chunk && Earlier(blocks, ChunkAt(cpb, log[i].chunk), ch)
  }

  lemma ChronoDistinct(cpb: nat, k: Books, log: seq<L.Page>)
    requires Chrono(cpb, k, log)
    ensures DistinctAddresses(log)
  {
    forall i, j | 0 <= i < j < |log| && !log[i].Blank? && !log[j].Blank? ensures log[i].chunk != log[j].chunk {
      assert Earlier(k.blocks, ChunkAt(cpb, log[i].chunk), ChunkAt(cpb, log[j].chunk));
    }
  }

  lemma NewestIsFree(cpb: nat, blocks: seq<BlockInfo>, log: seq<L.Page>, ch: Chunk)
    requires Newest(cpb, blocks, log, ch) && ch.page < cpb
    ensures Free(log, Addr(cpb, ch))
  {
    AddrSplit(cpb, ch);
    forall p | p in log && !p.Blank? ensures p.chunk != Addr(cpb, ch) {
      var i :| 0 <= i < |log| && log[i] == p;
      assert Earlier(blocks, ChunkAt(cpb, log[i].chunk), ch);
    }
  }

  /** Blocks in service stay so, and stay as old as they are. */
  ghost predicate Serving(blocks: seq<BlockInfo>, blocks': seq<BlockInfo>) {
    && |blocks'| == |blocks|
    && forall b :: 0 <= b < |blocks| && InService(blocks[b]) ==>
         InService(blocks'[b]) && blocks'[b].seqNo == blocks[b].seqNo
  }

  lemma ChronoFrame(cpb: nat, k: Books, k': Books, log: seq<L.Page>)
    requires Chrono(cpb, k, log) && Serving(k.blocks, k'.blocks)
    requires k'.allocBlock >= 0 ==> k'.allocBlock == k.allocBlock && k'.allocPage >= k.allocPage
    ensures Chrono(cpb, k', log)
  {
    forall i, j | 0 <= i < j < |log| && !log[i].Blank? && !log[j].Blank?
      ensures Earlier(k'.blocks, ChunkAt(cpb, log[i].chunk), ChunkAt(cpb, log[j].chunk))
    {
      assert Placed(cpb, k, ChunkAt(cpb, log[i].chunk)) && Placed(cpb, k, ChunkAt(cpb, log[j].chunk));
      assert Earlier(k.blocks, ChunkAt(cpb, log[i].chunk), ChunkAt(cpb, log[j].chunk));
    }
  }

  /** A fresh block to allocate from: nothing was programmed in it yet. */
  lemma TakeBlockChrono(cpb: nat, k: Books, log: seq<L.Page>, b: nat)
    requires Balanced(cpb, k) && Chrono(cpb, k, log) && b < |k.blocks| && k.blocks[b].state.Empty?
    ensures Chrono(cpb, TakeBlock(k, b), log)
  {
    var k' := TakeBlock(k, b);
    forall i | 0 <= i < |log| && !log[i].Blank? ensures Placed(cpb, k', ChunkAt(cpb, log[i].chunk)) {
      assert Placed(cpb, k, ChunkAt(cpb, log[i].chunk));
    }
    forall i, j | 0 <= i < j < |log| && !log[i].Blank? && !log[j].Blank?
      ensures Earlier(k'.blocks, ChunkAt(cpb, log[i].chunk), ChunkAt(cpb, log[j].chunk))
    {
      assert Placed(cpb, k, ChunkAt(cpb, log[i].chunk)) && Placed(cpb, k, ChunkAt(cpb, log[j].chunk));
      assert Earlier(k.blocks, ChunkAt(cpb, log[i].chunk), ChunkAt(cpb, log[j].chunk));
    }
  }

  /** The page taken is later than all others. */
  lemma TakePageChrono(cpb: nat, k: Books, log: seq<L.Page>)
    requires Balanced(cpb, k) && Chrono(cpb, k, log) && k.allocBlock >= 0
    ensures Chrono(cpb, TakePage(cpb, k), log)
    ensures var k', ch := TakePage(cpb, k), Chunk(k.allocBlock, k.allocPage);
            Newest(cpb, k'.blocks, log, ch) && Placed(cpb, k', ch)
  {
    var k', ch := TakePage(cpb, k), Chunk(k.allocBlock, k.allocPage);
    ChronoFrame(cpb, k, k', log);
    forall i | 0 <= i < |log| && !log[i].Blank? ensures Earlier(k'.blocks, ChunkAt(cpb, log[i].chunk), ch) {
      assert Placed(cpb, k, ChunkAt(cpb, log[i].chunk));
    }
  }

  /** The page taken is programmed. */
  lemma AppendChrono(cpb: nat, k: Books, log: seq<L.Page>, ch: Chunk, x: L.Page)
    requires Chrono(cpb, k, log) && Newest(cpb, k.blocks, log, ch) && Placed(cpb, k, ch) && x.chunk == Addr(cpb, ch)
    ensures Chrono(cpb, k, log + [x])
  {
    AddrSplit(cpb, ch);
  }

  lemma AppendWritten(c: nat, cpb: nat, nand: Nand, log: seq<L.Page>, ch: Chunk, p: Page)
    requires Written(c, cpb, nand, log) && ch.page < cpb && PageOk(c, p) && Free(log, Addr(cpb, ch))
    ensures Written(c, cpb, nand[ch := p], log + [ToLog(cpb, ch, p)])
  {
    var nand', log' := nand[ch := p], log + [ToLog(cpb, ch, p)];
    AddrSplit(cpb, ch);
    forall k | 0 <= k < |log'| ensures OnFlash(cpb, nand', log'[k]) {
      if k < |log| {
        assert log'[k] == log[k] && log[k] in log && OnFlash(cpb, nand, log[k]);
        if !log[k].Blank? { AddrAgain(cpb, log[k].chunk); }
      }
    }
    forall x | x in nand' ensures x.page < cpb && PageOk(c, nand'[x]) && ToLog(cpb, x, nand'[x]) in log' {
      if x == ch { assert log'[|log|] == ToLog(cpb, ch, p); }
    }
  }

  lemma AddrAgain(cpb: nat, a: nat)
    requires 0 < cpb <= a
    ensures Addr(cpb, ChunkAt(cpb, a)) == a
  {
    assert a == a / cpb * cpb + a % cpb;
  }

  /** A page without a place on flash is not in the log. */
  lemma NotWritten(c: nat, cpb: nat, k: Books, nand: Nand, log: seq<L.Page>, ch: Chunk)
    requires Written(c, cpb, nand, log) && Newest(cpb, k.blocks, log, ch) && ch.page < cpb
    ensures ch !in nand
  {
    NewestIsFree(cpb, k.blocks, log, ch);
    forall x | x in nand ensures x != ch {
      assert ToLog(cpb, x, nand[x]) in log && !ToLog(cpb, x, nand[x]).Blank?;
    }
  }

  // ---------- Erasing ----------

  function Without(nand: Nand, b: nat): Nand { map ch | ch in nand && ch.block != b :: nand[ch] }

  lemma EraseWritten(c: nat, cpb: nat, nand: Nand, log: seq<L.Page>, b: nat)
    requires cpb > 0 && Written(c, cpb, nand, log)
    ensures Written(c, cpb, Without(nand, b), Erase(log, cpb, b + 1))
  {
    var nand', log' := Without(nand, b), Erase(log, cpb, b + 1);
    forall k | 0 <= k < |log'| ensures OnFlash(cpb, nand', log'[k]) { assert OnFlash(cpb, nand, log[k]); }
    forall x | x in nand' ensures x.page < cpb && PageOk(c, nand'[x]) && ToLog(cpb, x, nand'[x]) in log' {
      AddrSplit(cpb, x);
      var i :| 0 <= i < |log| && log[i] == ToLog(cpb, x, nand[x]);
      assert log'[i] == log[i];
    }
  }

  lemma EraseChrono(cpb: nat, k: Books, k': Books, log: seq<L.Page>, b: nat)
    requires Chrono(cpb, k, log) && b < |k.blocks| == |k'.blocks| && k'.blocks == k.blocks[b := k'.blocks[b]]
    requires k'.allocBlock == k.allocBlock && k'.allocPage == k.allocPage
    ensures Chrono(cpb, k', Erase(log, cpb, b + 1))
  {
    var log' := Erase(log, cpb, b + 1);
    forall i | 0 <= i < |log| && !log'[i].Blank?
      ensures log'[i].chunk >= cpb && ChunkAt(cpb, log'[i].chunk).block != b
              && Placed(cpb, k', ChunkAt(cpb, log'[i].chunk))
    {
      assert Placed(cpb, k, ChunkAt(cpb, log[i].chunk));
    }
    forall i, j | 0 <= i < j < |log| && !log'[i].Blank? && !log'[j].Blank?
      ensures Earlier(k'.blocks, ChunkAt(cpb, log'[i].chunk), ChunkAt(cpb, log'[j].chunk))
    {
      assert Earlier(k.blocks, ChunkAt(cpb, log[i].chunk), ChunkAt(cpb, log[j].chunk));
    }
  }

  // ---------- Cuts that may go ----------

  /** No cut of object `o` in block `b` matters to a page outside of it. */
  ghost predicate CutsNothing(c: nat, cpb: nat, o: nat, log: seq<L.Page>, b: nat)
    requires cpb > 0
  {
    Harmless(c, o, log, cpb, b + 1)
  }

  /** No cut in block `b` matters to a page outside of it, of whatever object. */
  ghost predicate Vetted(c: nat, cpb: nat, log: seq<L.Page>, b: nat)
    requires cpb > 0
  {
    forall o :: CutsNothing(c, cpb, o, log, b)
  }

  /** Blocks without the shrink flag have no cut that matters. */
  ghost predicate Guarded(c: nat, cpb: nat, blocks: seq<BlockInfo>, log: seq<L.Page>)
    requires cpb > 0
  {
    forall b :: 0 <= b < |blocks| && InService(blocks[b]) && !blocks[b].hasShrinkHdr ==> Vetted(c, cpb, log, b)
  }

  /** A page that cuts nothing, or lies in a flagged block, is appended. */
  lemma AppendGuarded(c: nat, cpb: nat, blocks: seq<BlockInfo>, log: seq<L.Page>, ch: Chunk, p: Page)
    requires cpb > 0 && Guarded(c, cpb, blocks, log) && ch.page < cpb && ch.block < |blocks|
    requires p.id == 0 && p.isShrink ==> blocks[ch.block].hasShrinkHdr
    ensures Guarded(c, cpb, blocks, log + [ToLog(cpb, ch, p)])
  {
    AddrSplit(cpb, ch);
    var log' := log + [ToLog(cpb, ch, p)];
    forall b | 0 <= b < |blocks| && InService(blocks[b]) && !blocks[b].hasShrinkHdr ensures Vetted(c, cpb, log', b) {
      assert Vetted(c, cpb, log, b);
      forall o ensures CutsNothing(c, cpb, o, log', b) {
        assert CutsNothing(c, cpb, o, log, b);
      }
    }
  }

  /** Erasing any block leaves harmless cuts harmless. */
  lemma EraseGuarded(c: nat, cpb: nat, blocks: seq<BlockInfo>, blocks': seq<BlockInfo>, log: seq<L.Page>, b: nat)
    requires cpb > 0 && Guarded(c, cpb, blocks, log)
    requires b < |blocks| == |blocks'| && blocks' == blocks[b := blocks'[b]] && !InService(blocks'[b])
    ensures Guarded(c, cpb, blocks', Erase(log, cpb, b + 1))
  {
    var log' := Erase(log, cpb, b + 1);
    forall j | 0 <= j < |blocks'| && InService(blocks'[j]) && !blocks'[j].hasShrinkHdr ensures Vetted(c, cpb, log', j) {
      assert Vetted(c, cpb, log, j);
      forall o ensures CutsNothing(c, cpb, o, log', j) {
        assert CutsNothing(c, cpb, o, log, j);
      }
    }
  }

  /** Flags are only set, or taken away where they are no longer needed, and new blocks are empty. */
  ghost predicate Flagged(c: nat, cpb: nat, blocks: seq<BlockInfo>, blocks': seq<BlockInfo>, log: seq<L.Page>)
    requires cpb > 0
  {
    && |blocks'| == |blocks|
    && forall b :: 0 <= b < |blocks| && InService(blocks'[b]) && !blocks'[b].hasShrinkHdr ==>
         (InService(blocks[b]) && !blocks[b].hasShrinkHdr) || Vetted(c, cpb, log, b)
  }

  lemma GuardedFrame(c: nat, cpb: nat, blocks: seq<BlockInfo>, blocks': seq<BlockInfo>, log: seq<L.Page>)
    requires cpb > 0 && Guarded(c, cpb, blocks, log) && Flagged(c, cpb, blocks, blocks', log)
    ensures Guarded(c, cpb, blocks', log)
  {
  }

  /** A block that was not in service holds no page. */
  lemma UnusedVetted(c: nat, cpb: nat, k: Books, log: seq<L.Page>, b: nat)
    requires Chrono(cpb, k, log) && b < |k.blocks| && !InService(k.blocks[b])
    ensures Vetted(c, cpb, log, b)
  {
    forall o ensures CutsNothing(c, cpb, o, log, b) {
      forall q | 0 <= q < |log| && L.IsCut(c, o, log[q]) ensures BlockOf(cpb, log[q]) != b + 1 {
        assert Placed(cpb, k, ChunkAt(cpb, log[q].chunk));
      }
    }
  }

  // ---------- Objects and the log ----------

  /** What object `ob` points to is what the log holds. */
  ghost predicate CurrentOf(c: nat, cpb: nat, o: nat, ob: Obj, log: seq<L.Page>) {
    var m := L.Raw(c, o, log);
    && (forall id :: id in ob.chunks ==> id in m && m[id] == Addr(cpb, ob.chunks[id]))
    && (ob.hdr.Some? ==> HeaderAt(c, o, log, Addr(cpb, ob.hdr.value)))
  }

  predicate GoodId(o: nat) { o <= L.MAX_OBJECT_ID && o != L.OBJECTID_SUMMARY }

  ghost predicate Current(c: nat, cpb: nat, objs: Objs, log: seq<L.Page>) {
    forall o :: o in objs ==> GoodId(o) && (!objs[o].softDeleted ==> CurrentOf(c, cpb, o, objs[o], log))
  }

  ghost predicate Journaled(c: nat, cpb: nat, k: Books, nand: Nand, objs: Objs, log: seq<L.Page>) {
    && cpb > 0 && Written(c, cpb, nand, log) && Chrono(cpb, k, log)
    && Guarded(c, cpb, k.blocks, log) && Current(c, cpb, objs, log)
  }

  /** The chunks of the file are what the log holds below `end`. */
  ghost predicate Fits(c: nat, cpb: nat, o: nat, ob: Obj, log: seq<L.Page>, end: int) {
    ob.hdr.Some? && Part(c, o, log, Addrs(cpb, ob.chunks), Addr(cpb, ob.hdr.value), end)
  }

  /** In addition a scan of the log would find them. */
  ghost predicate Shows(c: nat, cpb: nat, o: nat, ob: Obj, log: seq<L.Page>, end: int) {
    ob.hdr.Some? && InStep(c, o, log, Addrs(cpb, ob.chunks), Addr(cpb, ob.hdr.value), end)
  }

  /** The last header, or a chunk written later, reaches `n`. */
  ghost predicate Spans(c: nat, cpb: nat, o: nat, ob: Obj, log: seq<L.Page>, n: int) {
    Reaches(c, o, log, Addrs(cpb, ob.chunks), n)
  }

  /** The chunks of object `o` of which there is a page in the log, current or not. */
  function IdsOf(c: nat, o: nat, log: seq<L.Page>): set<nat> {
    set k | 0 <= k < |log| && L.IsDataOf(c, o, log[k]) :: log[k].id
  }

  /** No chunk id has come back, and none has been added. */
  ghost predicate NoneBack(c: nat, o: nat, log: seq<L.Page>, log': seq<L.Page>) {
    && (forall id :: id in L.Raw(c, o, log') ==> id in L.Raw(c, o, log))
    && IdsOf(c, o, log') <= IdsOf(c, o, log)
  }

  lemma IdsErase(c: nat, o: nat, log: seq<L.Page>, cpb: nat, b: nat)
    requires cpb > 0
    ensures IdsOf(c, o, Erase(log, cpb, b)) <= IdsOf(c, o, log)
  {
  }

  /** What erasing blocks does to an object: nothing that matters. */
  ghost predicate Eroded(c: nat, cpb: nat, o: nat, ob: Obj, log: seq<L.Page>, log': seq<L.Page>) {
    && NoneBack(c, o, log, log')
    && (ob.hdr.Some? ==> HeaderSize(c, o, log') == HeaderSize(c, o, log))
    && (forall end :: Fits(c, cpb, o, ob, log, end) ==> Fits(c, cpb, o, ob, log', end))
    && (forall end :: Shows(c, cpb, o, ob, log, end) ==> Shows(c, cpb, o, ob, log', end))
    && (forall n :: ob.hdr.Some? && Spans(c, cpb, o, ob, log, n) ==> Spans(c, cpb, o, ob, log', n))
  }

  ghost predicate AllEroded(c: nat, cpb: nat, objs: Objs, log: seq<L.Page>, log': seq<L.Page>) {
    && (forall o :: NoneBack(c, o, log, log'))
    && forall o :: o in objs && !objs[o].softDeleted ==> Eroded(c, cpb, o, objs[o], log, log')
  }

  lemma ErodedSame(c: nat, cpb: nat, objs: Objs, log: seq<L.Page>)
    ensures AllEroded(c, cpb, objs, log, log)
  {
  }

  lemma ErodedThen(c: nat, cpb: nat, objs: Objs, log: seq<L.Page>, log': seq<L.Page>, log'': seq<L.Page>)
    requires AllEroded(c, cpb, objs, log, log') && AllEroded(c, cpb, objs, log', log'')
    ensures AllEroded(c, cpb, objs, log, log'')
  {
    hide Fits, Shows, Spans;
    forall o ensures NoneBack(c, o, log, log'') {
      assert NoneBack(c, o, log, log') && NoneBack(c, o, log', log'');
    }
    forall o | o in objs && !objs[o].softDeleted ensures Eroded(c, cpb, o, objs[o], log, log'') {
      assert Eroded(c, cpb, o, objs[o], log, log') && Eroded(c, cpb, o, objs[o], log', log'');
    }
  }

  /** Nothing that an object points to lies in block `b`. */
  ghost predicate Elsewhere(ob: Obj, b: nat) {
    (ob.hdr.Some? ==> ob.hdr.value.block != b) && forall id :: id in ob.chunks ==> ob.chunks[id].block != b
  }

  lemma EraseCurrent(c: nat, cpb: nat, o: nat, ob: Obj, log: seq<L.Page>, b: nat)
    requires c > 0 && cpb > 0 && CurrentOf(c, cpb, o, ob, log) && Elsewhere(ob, b) && Harmless(c, o, log, cpb, b + 1)
    requires ob.hdr.Some? ==> ob.hdr.value.page < cpb
    requires forall id :: id in ob.chunks ==> ob.chunks[id].page < cpb
    ensures CurrentOf(c, cpb, o, ob, Erase(log, cpb, b + 1)) && Eroded(c, cpb, o, ob, log, Erase(log, cpb, b + 1))
  {
    hide L.Raw, L.Replay, L.ReplaySize, Erase, Harmless, Part, InStep, Reaches, HeaderAt, HeaderSize, IdsOf;
    var log', chunks := Erase(log, cpb, b + 1), Addrs(cpb, ob.chunks);
    IdsErase(c, o, log, cpb, b + 1);
    EraseKeys(c, o, log, cpb, b + 1);
    forall id | id in ob.chunks ensures Addr(cpb, ob.chunks[id]) / cpb != b + 1 { AddrSplit(cpb, ob.chunks[id]); }
    if ob.hdr.Some? {
      var hdr := Addr(cpb, ob.hdr.value);
      AddrSplit(cpb, ob.hdr.value);
      EraseReaches(c, o, log, chunks, hdr, 0, cpb, b + 1);
      forall n | Spans(c, cpb, o, ob, log, n) ensures Spans(c, cpb, o, ob, log', n) {
        EraseReaches(c, o, log, chunks, hdr, n, cpb, b + 1);
      }
      forall end | Fits(c, cpb, o, ob, log, end)
        ensures Fits(c, cpb, o, ob, log', end)
        ensures Shows(c, cpb, o, ob, log, end) ==> Shows(c, cpb, o, ob, log', end)
      {
        EraseInStep(c, o, log, chunks, hdr, end, cpb, b + 1);
      }
      forall end | Shows(c, cpb, o, ob, log, end) ensures Shows(c, cpb, o, ob, log', end) {
        ShowsFits(c, cpb, o, ob, log, end);
      }
      EraseHeaderAt(c, o, log, hdr, cpb, b + 1);
    } else {
      NoHeader(c, cpb, o, ob, log);
    }
  }

  lemma NoHeader(c: nat, cpb: nat, o: nat, ob: Obj, log: seq<L.Page>)
    requires ob.hdr.None?
    ensures forall end :: !Fits(c, cpb, o, ob, log, end) && !Shows(c, cpb, o, ob, log, end)
  {
  }

  lemma ShowsFits(c: nat, cpb: nat, o: nat, ob: Obj, log: seq<L.Page>, end: int)
    requires Shows(c, cpb, o, ob, log, end)
    ensures Fits(c, cpb, o, ob, log, end)
  {
  }

  lemma EraseHeaderAt(c: nat, o: nat, log: seq<L.Page>, hdr: nat, cpb: nat, b: nat)
    requires cpb > 0 && HeaderAt(c, o, log, hdr) && hdr / cpb != b
    ensures HeaderAt(c, o, Erase(log, cpb, b), hdr)
  {
    EraseHeader(c, o, log, cpb, b);
  }

  /** Pages in use are not blank, and their positions are below the end of a block. */
  ghost predicate PagesOk(cpb: nat, ob: Obj) {
    (ob.hdr.Some? ==> ob.hdr.value.page < cpb) && forall id :: id in ob.chunks ==> ob.chunks[id].page < cpb
  }

  lemma OwnedPages(cpb: nat, bits: set<Chunk>, soft: set<Chunk>, nand: Nand, objs: Objs, o: nat, b: nat)
    requires Owned(bits, soft, nand, objs) && o in objs
    requires forall x :: x in bits ==> x.page < cpb
    ensures PagesOk(cpb, objs[o]) && (In(bits, b) == {} ==> Elsewhere(objs[o], b))
  {
    assert Rightful(bits, nand, o, objs[o]);
    forall x | x in bits ensures x.block == b ==> x in In(bits, b) {}
  }

  /** A block without pages in use, whose cuts do not matter, is erased or retired. */
  lemma EraseJournaled(c: nat, cpb: nat, k: Books, k': Books, nand: Nand, objs: Objs, log: seq<L.Page>, b: nat)
    requires c > 0 && Journaled(c, cpb, k, nand, objs, log) && Vetted(c, cpb, log, b)
    requires Owned(k.bits, k.soft, nand, objs) && In(k.bits, b) == {} && forall x :: x in k.bits ==> x.page < cpb
    requires b < |k.blocks| == |k'.blocks| && k'.blocks == k.blocks[b := k'.blocks[b]] && !InService(k'.blocks[b])
    requires k'.allocBlock == k.allocBlock && k'.allocPage == k.allocPage
    ensures Journaled(c, cpb, k', Without(nand, b), objs, Erase(log, cpb, b + 1))
    ensures AllEroded(c, cpb, objs, log, Erase(log, cpb, b + 1))
  {
    hide Owned, CurrentOf, Eroded, Elsewhere, Harmless, Guarded, Chrono, Written;
    var log' := Erase(log, cpb, b + 1);
    EraseWritten(c, cpb, nand, log, b);
    EraseChrono(cpb, k, k', log, b);
    EraseGuarded(c, cpb, k.blocks, k'.blocks, log, b);
    forall o ensures NoneBack(c, o, log, log') {
      assert CutsNothing(c, cpb, o, log, b);
      EraseKeys(c, o, log, cpb, b + 1);
    }
    forall o | o in objs && !objs[o].softDeleted
      ensures CurrentOf(c, cpb, o, objs[o], log') && Eroded(c, cpb, o, objs[o], log, log')
    {
      assert CutsNothing(c, cpb, o, log, b);
      OwnedPages(cpb, k.bits, k.soft, nand, objs, o, b);
      EraseCurrent(c, cpb, o, objs[o], log, b);
    }
  }

  /** The books change without a page being programmed or a block being erased. */
  lemma JournaledFrame(c: nat, cpb: nat, k: Books, k': Books, nand: Nand, objs: Objs, log: seq<L.Page>)
    requires cpb > 0 && Journaled(c, cpb, k, nand, objs, log) && Serving(k.blocks, k'.blocks)
    requires k'.allocBlock >= 0 ==> k'.allocBlock == k.allocBlock && k'.allocPage >= k.allocPage
    requires Flagged(c, cpb, k.blocks, k'.blocks, log)
    ensures Journaled(c, cpb, k', nand, objs, log)
  {
    ChronoFrame(cpb, k, k', log);
    GuardedFrame(c, cpb, k.blocks, k'.blocks, log);
  }

  // ---------- A page is programmed ----------

  lemma AppendElsewhere(c: nat, cpb: nat, o: nat, ob: Obj, log: seq<L.Page>, x: L.Page)
    requires CurrentOf(c, cpb, o, ob, log) && Free(log, x.chunk) && (x.Blank? || x.obj != o)
    ensures CurrentOf(c, cpb, o, ob, log + [x]) && Eroded(c, cpb, o, ob, log, log + [x])
  {
    hide L.Raw, L.Replay, L.ReplaySize, Part, InStep, Reaches, HeaderSize;
    HeaderAppend(c, o, log, x);
    if ob.hdr.Some? {
      StepForeign(c, o, log, Addrs(cpb, ob.chunks), Addr(cpb, ob.hdr.value), x);
    } else {
      NoHeader(c, cpb, o, ob, log);
      StepForeign(c, o, log, Addrs(cpb, ob.chunks), 0, x);
    }
  }

  /** With chunk `id` written up to `n`, the file ends at `end'` where it ended at `end`. */
  ghost predicate Ends(c: nat, id: nat, n: nat, end: int, end': int) {
    && L.Base(c, id) < end' && L.Base(c, id) + n <= end'
    && (forall i: nat :: 0 < i && i != id ==> (L.Base(c, i) < end <==> L.Base(c, i) < end'))
    && (end <= end' || forall i: nat :: 0 < i && i != id && L.Base(c, i) < end' ==> L.Base(c, i) + c <= end')
  }

  /** `n` bytes of chunk `id` were written. */
  ghost predicate DataIn(c: nat, cpb: nat, o: nat, ob: Obj, log: seq<L.Page>, ob': Obj, log': seq<L.Page>, id: nat,
                         n: nat)
  {
    && ob'.chunks.Keys == ob.chunks.Keys + {id} && ob'.size == ob.size && ob'.softDeleted == ob.softDeleted
    && ob'.hdr == ob.hdr && (ob.hdr.Some? ==> HeaderSize(c, o, log') == HeaderSize(c, o, log))
    && (forall i :: i in L.Raw(c, o, log') && i != id ==> i in L.Raw(c, o, log))
    && IdsOf(c, o, log') <= IdsOf(c, o, log) + {id}
    && (forall end, end' :: Fits(c, cpb, o, ob, log, end) && Ends(c, id, n, end, end') ==>
        Fits(c, cpb, o, ob', log', end'))
    && (forall end, end' :: Shows(c, cpb, o, ob, log, end) && end <= end' && Ends(c, id, n, end, end') ==>
          Shows(c, cpb, o, ob', log', end'))
    && (forall m :: ob.hdr.Some? && Spanned(c, cpb, o, ob, log, id, n, m) ==> Spans(c, cpb, o, ob', log', m))
  }

  /** Position `m` is reached by the new chunk, or by what the new chunk does not replace. */
  ghost predicate Spanned(c: nat, cpb: nat, o: nat, ob: Obj, log: seq<L.Page>, id: nat, n: nat, m: int) {
    || m <= L.Base(c, id) + n
    || (Spans(c, cpb, o, ob, log, m) && (m > L.Base(c, id) + c || m <= HeaderSize(c, o, log)))
  }

  lemma AddrsUpdate(cpb: nat, m: map<nat, Chunk>, id: nat, ch: Chunk)
    ensures Addrs(cpb, m[id := ch]) == Addrs(cpb, m)[id := Addr(cpb, ch)]
  {
  }

  lemma AppendData(c: nat, cpb: nat, o: nat, ob: Obj, log: seq<L.Page>, ob': Obj, ch: Chunk, p: Page)
    requires c > 0 && CurrentOf(c, cpb, o, ob, log) && DistinctAddresses(log) && Free(log, Addr(cpb, ch))
    requires p.obj == o && 0 < p.id && PageOk(c, p)
    requires ob' == ob.(chunks := ob.chunks[p.id := ch], nData := ob'.nData)
    ensures CurrentOf(c, cpb, o, ob', log + [ToLog(cpb, ch, p)])
    ensures DataIn(c, cpb, o, ob, log, ob', log + [ToLog(cpb, ch, p)], p.id, |p.data|)
  {
    hide L.Replay, L.ReplaySize, Part, InStep, Reaches;
    var x, id, n := ToLog(cpb, ch, p), p.id, |p.data|;
    var log', chunks := log + [x], Addrs(cpb, ob.chunks);
    L.Append(c, o, log, x);
    HeaderAppend(c, o, log, x);
    AddrsUpdate(cpb, ob.chunks, id, ch);
    forall end, end' | Fits(c, cpb, o, ob, log, end) && Ends(c, id, n, end, end')
      ensures Fits(c, cpb, o, ob', log', end')
    {
      PartData(c, o, log, chunks, Addr(cpb, ob.hdr.value), end, end', x);
    }
    forall end, end' | Shows(c, cpb, o, ob, log, end) && end <= end' && Ends(c, id, n, end, end')
      ensures Shows(c, cpb, o, ob', log', end')
    {
      StepData(c, o, log, chunks, Addr(cpb, ob.hdr.value), end, end', x);
    }
    forall m | ob.hdr.Some? && Spanned(c, cpb, o, ob, log, id, n, m) ensures Spans(c, cpb, o, ob', log', m) {
      ReachesData(c, o, log, chunks, m, x);
    }
  }

  /** An object that was just created. */
  predicate Unwritten(ob: Obj) { ob.hdr.None? && ob.chunks == map[] && ob.size == 0 }

  /** A header with the size of the object was written; a shrink header cut the log to it. */
  ghost predicate HeaderIn(c: nat, cpb: nat, o: nat, ob: Obj, log: seq<L.Page>, ob': Obj, log': seq<L.Page>,
                           isShrink: bool)
  {
    && ob' == ob.(hdr := ob'.hdr) && ob'.hdr.Some? && HeaderSize(c, o, log') == ob.size
    && NoneBack(c, o, log, log') && (isShrink ==> forall id :: id in L.Raw(c, o, log') ==> L.Base(c, id) < ob.size)
    && (Fits(c, cpb, o, ob, log, ob.size) || Unwritten(ob) ==>
          Shows(c, cpb, o, ob', log', ob.size) && Spans(c, cpb, o, ob', log', ob.size))
  }

  lemma AppendHeader(c: nat, cpb: nat, o: nat, ob: Obj, log: seq<L.Page>, ch: Chunk, p: Page)
    requires c > 0 && CurrentOf(c, cpb, o, ob, log) && DistinctAddresses(log) && Free(log, Addr(cpb, ch))
    requires p.obj == o && p.id == 0 && PageOk(c, p) && p.size == ob.size
    requires p.isShrink ==> forall id :: id in ob.chunks ==> L.Base(c, id) < p.size
    ensures CurrentOf(c, cpb, o, ob.(hdr := Some(ch)), log + [ToLog(cpb, ch, p)])
    ensures HeaderIn(c, cpb, o, ob, log, ob.(hdr := Some(ch)), log + [ToLog(cpb, ch, p)], p.isShrink)
  {
    hide L.Raw, L.Replay, L.ReplaySize, Part, InStep, Reaches;
    var x := ToLog(cpb, ch, p);
    var log', chunks := log + [x], Addrs(cpb, ob.chunks);
    L.Append(c, o, log, x);
    HeaderAppend(c, o, log, x);
    if Fits(c, cpb, o, ob, log, ob.size) { StepHeader(c, o, log, chunks, Addr(cpb, ob.hdr.value), x); }
    if Unwritten(ob) { FirstHeader(c, o, log, x); }
  }

  /** What the collector does to an object: pages move, and what a scan finds stays the same, as far as the size in
      memory, which goes into a copied header, is that of the chunks. */
  ghost predicate Kept(c: nat, cpb: nat, o: nat, ob: Obj, log: seq<L.Page>, ob': Obj, log': seq<L.Page>) {
    && ob' == ob.(hdr := ob'.hdr, chunks := ob'.chunks) && ob'.chunks.Keys == ob.chunks.Keys
    && (ob'.hdr.Some? <==> ob.hdr.Some?) && NoneBack(c, o, log, log')
    && (forall end :: Fits(c, cpb, o, ob, log, end) ==> Fits(c, cpb, o, ob', log', end))
    && (Shows(c, cpb, o, ob, log, ob.size) ==> Shows(c, cpb, o, ob', log', ob.size))
    && (ob.hdr.Some? && Spans(c, cpb, o, ob, log, ob.size) ==> Spans(c, cpb, o, ob', log', ob.size))
    && (ob.hdr.Some? && HeaderSize(c, o, log) == ob.size ==> HeaderSize(c, o, log') == ob.size)
  }

  lemma CopyData(c: nat, cpb: nat, o: nat, ob: Obj, nand: Nand, log: seq<L.Page>, ch: Chunk, p: Page)
    requires c > 0 && CurrentOf(c, cpb, o, ob, log) && DistinctAddresses(log) && Free(log, Addr(cpb, ch))
    requires Written(c, cpb, nand, log) && p.id in ob.chunks && ob.chunks[p.id] in nand && nand[ob.chunks[p.id]] == p
    requires p.obj == o && 0 < p.id
    ensures var ob' := ob.(chunks := ob.chunks[p.id := ch]);
            && CurrentOf(c, cpb, o, ob', log + [ToLog(cpb, ch, p)])
            && Kept(c, cpb, o, ob, log, ob', log + [ToLog(cpb, ch, p)])
  {
    hide L.Replay, L.ReplaySize, L.Raw, Part, InStep, Reaches, HeaderSize, LastHeaderAt, CurrentOf, Written;
    var x, id, ob', chunks := ToLog(cpb, ch, p), p.id, ob.(chunks := ob.chunks[p.id := ch]), Addrs(cpb, ob.chunks);
    var log' := log + [x];
    var k := LivePage(c, cpb, o, ob, nand, log, p);
    AppendData(c, cpb, o, ob, log, ob', ch, p);
    AddrsUpdate(cpb, ob.chunks, id, ch);
    if ob.hdr.Some? {
      var hdr := Addr(cpb, ob.hdr.value);
      forall end | Fits(c, cpb, o, ob, log, end)
        ensures Fits(c, cpb, o, ob', log', end)
        ensures Shows(c, cpb, o, ob, log, end) ==> Shows(c, cpb, o, ob', log', end)
      {
        StepCopy(c, o, log, chunks, hdr, end, k, x);
      }
      if Shows(c, cpb, o, ob, log, ob.size) { ShowsFits(c, cpb, o, ob, log, ob.size); }
      if Spans(c, cpb, o, ob, log, ob.size) { ReachesCopy(c, o, log, chunks, ob.size, k, x); }
    }
  }

  /** Where in the log the current page of a chunk is. */
  lemma LivePage(c: nat, cpb: nat, o: nat, ob: Obj, nand: Nand, log: seq<L.Page>, p: Page) returns (k: nat)
    requires CurrentOf(c, cpb, o, ob, log) && Written(c, cpb, nand, log)
    requires p.id in ob.chunks && ob.chunks[p.id] in nand && nand[ob.chunks[p.id]] == p && p.obj == o && 0 < p.id
    ensures k < |log| && log[k] == ToLog(cpb, ob.chunks[p.id], p) && PageOk(c, p)
    ensures L.IsDataOf(c, o, log[k]) && IsLive(Addrs(cpb, ob.chunks), log[k])
    ensures p.id in L.Raw(c, o, log)
  {
    k :| k < |log| && log[k] == ToLog(cpb, ob.chunks[p.id], p);
  }

  lemma CopyHeader(c: nat, cpb: nat, o: nat, ob: Obj, log: seq<L.Page>, ch: Chunk, p: Page)
    requires c > 0 && CurrentOf(c, cpb, o, ob, log) && DistinctAddresses(log) && Free(log, Addr(cpb, ch))
    requires ob.hdr.Some? && p.obj == o && p.id == 0 && PageOk(c, p) && p.size == ob.size && !p.isShrink
    ensures CurrentOf(c, cpb, o, ob.(hdr := Some(ch)), log + [ToLog(cpb, ch, p)])
    ensures Kept(c, cpb, o, ob, log, ob.(hdr := Some(ch)), log + [ToLog(cpb, ch, p)])
  {
    hide L.Raw, L.Replay, L.ReplaySize, Part, InStep, Reaches;
    var x, ob', hdr, chunks := ToLog(cpb, ch, p), ob.(hdr := Some(ch)), Addr(cpb, ob.hdr.value), Addrs(cpb, ob.chunks);
    var log' := log + [x];
    L.Append(c, o, log, x);
    HeaderAppend(c, o, log, x);
    forall end | Fits(c, cpb, o, ob, log, end) ensures Fits(c, cpb, o, ob', log', end) {
      PartHeader(c, o, log, chunks, hdr, end, x);
    }
    if Shows(c, cpb, o, ob, log, ob.size) {
      ShowsFits(c, cpb, o, ob, log, ob.size);
      StepHeader(c, o, log, chunks, hdr, x);
    }
    HeaderReaches(c, o, log', chunks, ob.size);
  }

  lemma HeaderReaches(c: nat, o: nat, log: seq<L.Page>, chunks: map<nat, nat>, n: int)
    requires n <= HeaderSize(c, o, log)
    ensures Reaches(c, o, log, chunks, n)
  {
  }

  /** Page `p` was just programmed at `ch`, and no object points to it yet; `before` is the log without it. */
  ghost predicate Pending(c: nat, cpb: nat, k: Books, nand: Nand, objs: Objs, log: seq<L.Page>, before: seq<L.Page>,
                          ch: Chunk, p: Page) {
    && cpb > 0 && log == before + [ToLog(cpb, ch, p)] && Free(before, Addr(cpb, ch)) && DistinctAddresses(before)
    && Written(c, cpb, nand, log) && Written(c, cpb, nand - {ch}, before) && Chrono(cpb, k, log) && Placed(cpb, k, ch)
    && Guarded(c, cpb, k.blocks, before) && Current(c, cpb, objs, before)
  }

  lemma AppendPending(c: nat, cpb: nat, k: Books, nand: Nand, objs: Objs, log: seq<L.Page>, ch: Chunk, p: Page)
    requires Journaled(c, cpb, k, nand, objs, log) && PageOk(c, p)
    requires Newest(cpb, k.blocks, log, ch) && Placed(cpb, k, ch)
    ensures Pending(c, cpb, k, nand[ch := p], objs, log + [ToLog(cpb, ch, p)], log, ch, p)
  {
    NewestIsFree(cpb, k.blocks, log, ch);
    ChronoDistinct(cpb, k, log);
    NotWritten(c, cpb, k, nand, log, ch);
    assert nand[ch := p] - {ch} == nand;
    AppendWritten(c, cpb, nand, log, ch, p);
    AppendChrono(cpb, k, log, ch, ToLog(cpb, ch, p));
  }

  /** All objects but `but` are as they were. */
  ghost predicate OthersEroded(c: nat, cpb: nat, objs: Objs, log: seq<L.Page>, log': seq<L.Page>, but: nat) {
    && (forall o :: o != but ==> NoneBack(c, o, log, log'))
    && forall o :: o in objs && o != but && !objs[o].softDeleted ==> Eroded(c, cpb, o, objs[o], log, log')
  }

  /** The object takes the page; a shrink header flags its block. */
  lemma Adopt(c: nat, cpb: nat, k: Books, k': Books, nand: Nand, objs: Objs, log: seq<L.Page>, before: seq<L.Page>,
              ch: Chunk, p: Page, ob': Obj)
    requires Pending(c, cpb, k, nand, objs, log, before, ch, p) && p.obj in objs
    requires objs[p.obj].softDeleted == ob'.softDeleted && (!ob'.softDeleted ==> CurrentOf(c, cpb, p.obj, ob', log))
    requires var b, flag := ch.block, p.id == 0 && p.isShrink;
             k' == if flag then k.(blocks := k.blocks[b := k.blocks[b].(hasShrinkHdr := true)]) else k
    ensures Journaled(c, cpb, k', nand, objs[p.obj := ob'], log)
    ensures OthersEroded(c, cpb, objs, before, log, p.obj)
  {
    hide CurrentOf, Eroded, Written, Chrono, Guarded;
    var x := ToLog(cpb, ch, p);
    ChronoFrame(cpb, k, k', log);
    GuardedFrame(c, cpb, k.blocks, k'.blocks, before);
    AppendGuarded(c, cpb, k'.blocks, before, ch, p);
    forall o | o != p.obj ensures NoneBack(c, o, before, log) { L.Append(c, o, before, x); }
    forall o | o in objs && o != p.obj && !objs[o].softDeleted
      ensures CurrentOf(c, cpb, o, objs[o], log) && Eroded(c, cpb, o, objs[o], before, log)
    {
      AppendElsewhere(c, cpb, o, objs[o], before, x);
    }
  }

  /** A page of object `o` was written. */
  ghost predicate WroteTo(c: nat, cpb: nat, o: nat, ob: Obj, log: seq<L.Page>, ob': Obj, log': seq<L.Page>, p: Page) {
    if p.id > 0 then DataIn(c, cpb, o, ob, log, ob', log', p.id, |p.data|)
    else HeaderIn(c, cpb, o, ob, log, ob', log', p.isShrink)
  }

  lemma OthersThen(c: nat, cpb: nat, objs: Objs, log: seq<L.Page>, log1: seq<L.Page>, objs': Objs, log2: seq<L.Page>,
                   log': seq<L.Page>, but: nat)
    requires AllEroded(c, cpb, objs, log, log1) && OthersEroded(c, cpb, objs, log1, log2, but)
    requires AllEroded(c, cpb, objs', log2, log') && but in objs' && objs' == objs[but := objs'[but]]
    ensures OthersEroded(c, cpb, objs, log, log', but)
  {
    hide Fits, Shows, Spans;
    forall o | o != but ensures NoneBack(c, o, log, log') {
      assert NoneBack(c, o, log, log1) && NoneBack(c, o, log1, log2) && NoneBack(c, o, log2, log');
    }
    forall o | o in objs && o != but && !objs[o].softDeleted ensures Eroded(c, cpb, o, objs[o], log, log') {
      assert Eroded(c, cpb, o, objs[o], log, log1) && Eroded(c, cpb, o, objs[o], log1, log2);
      assert Eroded(c, cpb, o, objs'[o], log2, log');
    }
  }

  lemma WroteThen(c: nat, cpb: nat, o: nat, objs: Objs, log: seq<L.Page>, log1: seq<L.Page>, objs': Objs,
                  log2: seq<L.Page>, log': seq<L.Page>, p: Page)
    requires o in objs && o in objs' && !objs[o].softDeleted && !objs'[o].softDeleted
    requires AllEroded(c, cpb, objs, log, log1) && WroteTo(c, cpb, o, objs[o], log1, objs'[o], log2, p)
    requires AllEroded(c, cpb, objs', log2, log')
    ensures WroteTo(c, cpb, o, objs[o], log, objs'[o], log', p)
  {
    hide DataIn, HeaderIn, Eroded;
    assert Eroded(c, cpb, o, objs[o], log, log1) && Eroded(c, cpb, o, objs'[o], log2, log');
    if p.id > 0 {
      ErodedDataEroded(c, cpb, o, objs[o], log, log1, objs'[o], log2, log', p.id, |p.data|);
    } else {
      ErodedHeaderEroded(c, cpb, o, objs[o], log, log1, objs'[o], log2, log', p.isShrink);
    }
  }

  // ---------- One step after another ----------

  lemma ErodedDataEroded(c: nat, cpb: nat, o: nat, ob: Obj, log: seq<L.Page>, log1: seq<L.Page>, ob': Obj,
                         log2: seq<L.Page>, log': seq<L.Page>, id: nat, n: nat)
    requires Eroded(c, cpb, o, ob, log, log1) && DataIn(c, cpb, o, ob, log1, ob', log2, id, n)
    requires Eroded(c, cpb, o, ob', log2, log')
    ensures DataIn(c, cpb, o, ob, log, ob', log', id, n)
  {
    hide Fits, Shows, Spans, Ends, HeaderSize, L.Raw;
    forall end, end' | Fits(c, cpb, o, ob, log, end) && Ends(c, id, n, end, end')
      ensures Fits(c, cpb, o, ob', log', end')
    {
      assert Fits(c, cpb, o, ob, log1, end) && Fits(c, cpb, o, ob', log2, end');
    }
    forall end, end' | Shows(c, cpb, o, ob, log, end) && end <= end' && Ends(c, id, n, end, end')
      ensures Shows(c, cpb, o, ob', log', end')
    {
      assert Shows(c, cpb, o, ob, log1, end) && Shows(c, cpb, o, ob', log2, end');
    }
    forall m | ob.hdr.Some? && Spanned(c, cpb, o, ob, log, id, n, m) ensures Spans(c, cpb, o, ob', log', m) {
      assert Spanned(c, cpb, o, ob, log1, id, n, m) && Spans(c, cpb, o, ob', log2, m);
    }
  }

  lemma ErodedHeaderEroded(c: nat, cpb: nat, o: nat, ob: Obj, log: seq<L.Page>, log1: seq<L.Page>, ob': Obj,
                           log2: seq<L.Page>, log': seq<L.Page>, isShrink: bool)
    requires Eroded(c, cpb, o, ob, log, log1) && HeaderIn(c, cpb, o, ob, log1, ob', log2, isShrink)
    requires Eroded(c, cpb, o, ob', log2, log')
    ensures HeaderIn(c, cpb, o, ob, log, ob', log', isShrink)
  {
    hide Fits, Shows, Spans, HeaderSize, L.Raw;
  }

  ghost predicate AllKept(c: nat, cpb: nat, objs: Objs, log: seq<L.Page>, objs': Objs, log': seq<L.Page>) {
    && (forall o :: NoneBack(c, o, log, log'))
    && forall o :: o in objs && !objs[o].softDeleted ==> o in objs' && Kept(c, cpb, o, objs[o], log, objs'[o], log')
  }

  lemma ErodedIsKept(c: nat, cpb: nat, objs: Objs, log: seq<L.Page>, log': seq<L.Page>)
    requires AllEroded(c, cpb, objs, log, log')
    ensures AllKept(c, cpb, objs, log, objs, log')
  {
    hide Fits, Shows, Spans, HeaderSize, NoneBack;
    forall o | o in objs && !objs[o].softDeleted ensures Kept(c, cpb, o, objs[o], log, objs[o], log') {
      assert Eroded(c, cpb, o, objs[o], log, log');
    }
  }

  lemma KeptThen(c: nat, cpb: nat, objs: Objs, log: seq<L.Page>, objs1: Objs, log1: seq<L.Page>, objs': Objs,
                 log': seq<L.Page>)
    requires AllKept(c, cpb, objs, log, objs1, log1) && AllKept(c, cpb, objs1, log1, objs', log')
    ensures AllKept(c, cpb, objs, log, objs', log')
  {
    hide Fits, Shows, Spans, HeaderSize;
    forall o ensures NoneBack(c, o, log, log') { assert NoneBack(c, o, log, log1) && NoneBack(c, o, log1, log'); }
    forall o | o in objs && !objs[o].softDeleted ensures o in objs' && Kept(c, cpb, o, objs[o], log, objs'[o], log') {
      assert Kept(c, cpb, o, objs[o], log, objs1[o], log1) && Kept(c, cpb, o, objs1[o], log1, objs'[o], log');
    }
  }

  lemma TakeBlockJournaled(c: nat, cpb: nat, k: Books, nand: Nand, objs: Objs, log: seq<L.Page>, b: nat)
    requires Balanced(cpb, k) && Journaled(c, cpb, k, nand, objs, log) && b < |k.blocks| && k.blocks[b].state.Empty?
    ensures Journaled(c, cpb, TakeBlock(k, b), nand, objs, log)
  {
    hide Balanced, Chrono, Guarded, Written, Current, Vetted;
    TakeBlockChrono(cpb, k, log, b);
    UnusedVetted(c, cpb, k, log, b);
    GuardedFrame(c, cpb, k.blocks, TakeBlock(k, b).blocks, log);
  }

  lemma TakePageJournaled(c: nat, cpb: nat, k: Books, nand: Nand, objs: Objs, log: seq<L.Page>)
    requires Balanced(cpb, k) && Journaled(c, cpb, k, nand, objs, log) && 0 <= k.allocBlock < |k.blocks|
    ensures Journaled(c, cpb, TakePage(cpb, k), nand, objs, log)
    ensures var k', ch := TakePage(cpb, k), Chunk(k.allocBlock, k.allocPage);
            Newest(cpb, k'.blocks, log, ch) && Placed(cpb, k', ch)
  {
    AllocInService(cpb, k);
    hide Balanced, Chrono, Guarded, Written, Current, Vetted, Newest, Placed;
    TakePageChrono(cpb, k, log);
    GuardedFrame(c, cpb, k.blocks, TakePage(cpb, k).blocks, log);
  }

  lemma AllocInService(cpb: nat, k: Books)
    requires Balanced(cpb, k) && 0 <= k.allocBlock < |k.blocks|
    ensures InService(k.blocks[k.allocBlock])
  {
  }

  // ---------- The guard of the collector ----------

  /** If no block older than `b` has discarded pages, its cuts do not matter. */
  lemma GuardVets(c: nat, cpb: nat, k: Books, nand: Nand, objs: Objs, log: seq<L.Page>, b: nat)
    requires Journaled(c, cpb, k, nand, objs, log) && Balanced(cpb, k) && Owned(k.bits, k.soft, nand, objs)
    requires b < |k.blocks| && InService(k.blocks[b])
    requires forall j :: 0 <= j < |k.blocks| && IsDirty(cpb, k.blocks[j]) ==> k.blocks[b].seqNo <= k.blocks[j].seqNo
    ensures Vetted(c, cpb, log, b)
  {
    hide Owned, Balanced, Written, Chrono, Guarded, Current;
    forall o ensures CutsNothing(c, cpb, o, log, b) {
      forall i, q | 0 <= i < q < |log| && L.IsDataOf(c, o, log[i]) && BlockOf(cpb, log[i]) != b + 1
                    && L.IsCut(c, o, log[q]) && BlockOf(cpb, log[q]) == b + 1
        ensures L.Base(c, log[i].id) < L.CutSize(log[q])
      {
        OlderIsCurrent(c, cpb, k, nand, objs, log, b, o, i, q);
        ChronoDistinct(cpb, k, log);
        CurrentIsSpared(c, o, log, i, q);
      }
    }
  }

  /** A data page older than a page of block `b`, and not in it, is then current. */
  lemma OlderIsCurrent(c: nat, cpb: nat, k: Books, nand: Nand, objs: Objs, log: seq<L.Page>, b: nat, o: nat, i: nat,
                       q: nat)
    requires Journaled(c, cpb, k, nand, objs, log) && Balanced(cpb, k) && Owned(k.bits, k.soft, nand, objs)
    requires b < |k.blocks| && InService(k.blocks[b])
    requires forall j :: 0 <= j < |k.blocks| && IsDirty(cpb, k.blocks[j]) ==> k.blocks[b].seqNo <= k.blocks[j].seqNo
    requires i < q < |log| && L.IsDataOf(c, o, log[i]) && BlockOf(cpb, log[i]) != b + 1
    requires !log[q].Blank? && BlockOf(cpb, log[q]) == b + 1
    ensures IsLive(L.Raw(c, o, log), log[i])
  {
    hide Owned, Balanced, Written, Chrono, Guarded, Current, CurrentOf;
    var x := PageFacts(c, cpb, k, nand, log, i);
    var y := PageFacts(c, cpb, k, nand, log, q);
    ChronoAt(cpb, k, log, i, q);
    FullyUsed(cpb, k, x, b);
    OwnerOf(k.bits, k.soft, nand, objs, x);
    CurrentAt(c, cpb, objs, log, o);
    assert Rightful(k.bits, nand, o, objs[o]) by { RightfulAt(k.bits, k.soft, nand, objs, o); }
    assert CurrentOf(c, cpb, o, objs[o], log);
    CurrentChunk(c, cpb, o, objs[o], log, log[i].id);
    AddrAgain(cpb, log[i].chunk);
  }

  lemma CurrentAt(c: nat, cpb: nat, objs: Objs, log: seq<L.Page>, o: nat)
    requires Current(c, cpb, objs, log) && o in objs
    ensures GoodId(o) && (!objs[o].softDeleted ==> CurrentOf(c, cpb, o, objs[o], log))
  {
  }

  lemma CurrentChunk(c: nat, cpb: nat, o: nat, ob: Obj, log: seq<L.Page>, id: nat)
    requires CurrentOf(c, cpb, o, ob, log) && id in ob.chunks
    ensures id in L.Raw(c, o, log) && L.Raw(c, o, log)[id] == Addr(cpb, ob.chunks[id])
  {
  }

  lemma RightfulAt(bits: set<Chunk>, soft: set<Chunk>, nand: Nand, objs: Objs, o: nat)
    requires Owned(bits, soft, nand, objs) && o in objs
    ensures Rightful(bits, nand, o, objs[o])
  {
  }

  lemma PageFacts(c: nat, cpb: nat, k: Books, nand: Nand, log: seq<L.Page>, i: nat) returns (x: Chunk)
    requires Written(c, cpb, nand, log) && Chrono(cpb, k, log) && i < |log| && !log[i].Blank?
    ensures 0 < cpb <= log[i].chunk && x == ChunkAt(cpb, log[i].chunk) && x in nand && log[i] == ToLog(cpb, x, nand[x])
    ensures Placed(cpb, k, x) && x.block + 1 == BlockOf(cpb, log[i])
  {
    x := ChunkAt(cpb, log[i].chunk);
    assert OnFlash(cpb, nand, log[i]);
  }

  lemma ChronoAt(cpb: nat, k: Books, log: seq<L.Page>, i: nat, j: nat)
    requires Chrono(cpb, k, log) && i < j < |log| && !log[i].Blank? && !log[j].Blank?
    ensures log[i].chunk >= cpb && log[j].chunk >= cpb
    ensures Earlier(k.blocks, ChunkAt(cpb, log[i].chunk), ChunkAt(cpb, log[j].chunk))
  {
  }

  /** A block that is older than `b` and has no discarded pages has all its pages in use. */
  lemma FullyUsed(cpb: nat, k: Books, x: Chunk, b: nat)
    requires Balanced(cpb, k) && Placed(cpb, k, x) && b < |k.blocks| && InService(k.blocks[b])
    requires k.blocks[x.block].seqNo < k.blocks[b].seqNo
    requires forall j :: 0 <= j < |k.blocks| && IsDirty(cpb, k.blocks[j]) ==> k.blocks[b].seqNo <= k.blocks[j].seqNo
    ensures x in k.bits && x !in k.soft
  {
    ThisBlock(cpb, k, x.block);
    ThisBlock(cpb, k, b);
    var bi := k.blocks[x.block];
    assert !IsDirty(cpb, bi);
    SoftAtMostUsed(cpb, k, x.block);
    AtMostAll(cpb, k.bits, x.block);
    assert In(k.soft, x.block) == {};
    assert x in k.soft ==> x in In(k.soft, x.block);
    assert Chunk(x.block, x.page) == x;
  }

  // ---------- Programming a page and adopting it ----------

  lemma TakesPage(c: nat, cpb: nat, k: Books, nand: Nand, objs: Objs, log: seq<L.Page>, before: seq<L.Page>,
                  ch: Chunk, p: Page, ob': Obj)
    requires c > 0 && Pending(c, cpb, k, nand, objs, log, before, ch, p) && PageOk(c, p)
    requires p.obj in objs && !objs[p.obj].softDeleted
    requires p.id == 0 ==> p.size == objs[p.obj].size
    requires p.isShrink ==> p.id == 0 && forall id :: id in objs[p.obj].chunks ==> L.Base(c, id) < p.size
    requires ob' == Moved(objs[p.obj], p.id, ch) || ob' == Grown(objs[p.obj], p.id, ch)
    ensures CurrentOf(c, cpb, p.obj, ob', log) && WroteTo(c, cpb, p.obj, objs[p.obj], before, ob', log, p)
    ensures !ob'.softDeleted
  {
    hide CurrentOf, DataIn, HeaderIn, Written, Chrono, Guarded;
    if p.id == 0 {
      AppendHeader(c, cpb, p.obj, objs[p.obj], before, ch, p);
    } else {
      AppendData(c, cpb, p.obj, objs[p.obj], before, ob', ch, p);
    }
  }

  lemma NotOnFlash(c: nat, cpb: nat, k: Books, nand: Nand, objs: Objs, log: seq<L.Page>, ch: Chunk)
    requires Journaled(c, cpb, k, nand, objs, log) && Newest(cpb, k.blocks, log, ch) && Placed(cpb, k, ch)
    ensures ch !in nand
  {
    NotWritten(c, cpb, k, nand, log, ch);
  }

  lemma GoodIdOf(c: nat, cpb: nat, k: Books, nand: Nand, objs: Objs, log: seq<L.Page>, o: nat)
    requires Journaled(c, cpb, k, nand, objs, log) && o in objs
    ensures GoodId(o) && (!objs[o].softDeleted ==> CurrentOf(c, cpb, o, objs[o], log))
  {
  }

  /** An object loses chunks, or counts fewer of them. */
  lemma LesserObject(c: nat, cpb: nat, k: Books, nand: Nand, objs: Objs, o: nat, ob: Obj, log: seq<L.Page>)
    requires Journaled(c, cpb, k, nand, objs, log) && o in objs && GoodId(o) && ob.softDeleted == objs[o].softDeleted
    requires ob.hdr == objs[o].hdr && ob.chunks.Keys <= objs[o].chunks.Keys
    requires forall id :: id in ob.chunks ==> ob.chunks[id] == objs[o].chunks[id]
    requires forall j :: j in objs ==> GoodId(j)
    ensures Journaled(c, cpb, k, nand, objs[o := ob], log)
  {
    hide Journaled, CurrentOf;
    FewerObjects(c, cpb, k, nand, objs, objs[o := ob], log);
  }

  lemma ScheduledStill(cleanUps: seq<nat>, objs: Objs, o: nat, ob: Obj)
    requires Scheduled(cleanUps, objs) && o in objs && ob.softDeleted == objs[o].softDeleted
    requires ob.nData == objs[o].nData || !ob.softDeleted
    ensures Scheduled(cleanUps, objs[o := ob])
  {
  }

  /** A file that loses its last data page is to be scheduled. */
  lemma ScheduledMore(cleanUps: seq<nat>, objs: Objs, o: nat, ob: Obj)
    requires Scheduled(cleanUps, objs) && o in objs && ob.softDeleted && objs[o].softDeleted
    requires ob.nData == objs[o].nData - 1
    ensures Scheduled(if ob.nData <= 0 then cleanUps + [o] else cleanUps, objs[o := ob])
  {
  }

  /** Objects that are still there point to less, or to the same. */
  lemma FewerObjects(c: nat, cpb: nat, k: Books, nand: Nand, objs: Objs, objs': Objs, log: seq<L.Page>)
    requires Journaled(c, cpb, k, nand, objs, log)
    requires forall o :: o in objs' ==> GoodId(o) && (o in objs || objs'[o] == NewObj())
    requires forall o :: o in objs' && o in objs && !objs'[o].softDeleted ==>
               && !objs[o].softDeleted && objs'[o].hdr == objs[o].hdr && objs'[o].chunks.Keys <= objs[o].chunks.Keys
               && forall id :: id in objs'[o].chunks ==> objs'[o].chunks[id] == objs[o].chunks[id]
    ensures Journaled(c, cpb, k, nand, objs', log)
  {
    forall o | o in objs' && !objs'[o].softDeleted ensures CurrentOf(c, cpb, o, objs'[o], log) {
      if o in objs { assert CurrentOf(c, cpb, o, objs[o], log); }
    }
  }

  /** What is cut off the end of a file no longer counts. */
  lemma FitsDrop(c: nat, cpb: nat, o: nat, ob: Obj, ob': Obj, log: seq<L.Page>, end: int, id: nat)
    requires c > 0 && id > 0 && Fits(c, cpb, o, ob, log, end) && end <= L.Base(c, id) + c
    requires ob'.hdr == ob.hdr && ob'.chunks == ob.chunks - {id}
    ensures Fits(c, cpb, o, ob', log, Min(end, L.Base(c, id)))
  {
    hide Part;
    PartDrop(c, o, log, Addrs(cpb, ob.chunks), Addr(cpb, ob.hdr.value), end, id);
    assert Addrs(cpb, ob'.chunks) == Addrs(cpb, ob.chunks) - {id};
  }

  // ---------- The collector's copies ----------

  /** A page as the collector copies it: a header gets the current size, and does not cut any more. */
  function CopyOf(p: Page, size: nat): Page { if p.id == 0 then p.(size := size, isShrink := false) else p }

  lemma CopiesPage(c: nat, cpb: nat, k: Books, nand: Nand, objs: Objs, log: seq<L.Page>, before: seq<L.Page>,
                   ch: Chunk, old': Chunk, p: Page)
    requires c > 0 && p.obj in objs && old' != ch && old' in nand && nand[old'].obj == p.obj && nand[old'].id == p.id
    requires p == CopyOf(nand[old'], objs[p.obj].size) && PageOk(c, p)
    requires Pending(c, cpb, k, nand, objs, log, before, ch, p)
    requires if p.id == 0 then objs[p.obj].hdr == Some(old')
             else !objs[p.obj].softDeleted && p.id in objs[p.obj].chunks && objs[p.obj].chunks[p.id] == old'
    ensures NoneBack(c, p.obj, before, log)
    ensures var ob := objs[p.obj];
            !ob.softDeleted ==>
              && CurrentOf(c, cpb, p.obj, Moved(ob, p.id, ch), log)
              && Kept(c, cpb, p.obj, ob, before, Moved(ob, p.id, ch), log)
  {
    hide CurrentOf, Kept, Written, Chrono, Guarded, L.Raw;
    var o, ob := p.obj, objs[p.obj];
    if p.id == 0 {
      L.Append(c, o, before, ToLog(cpb, ch, p));
      if !ob.softDeleted { CopyHeader(c, cpb, o, ob, before, ch, p); }
    } else {
      CopyData(c, cpb, o, ob, nand - {ch}, before, ch, p);
      KeptNoneBack(c, cpb, o, ob, before, Moved(ob, p.id, ch), log);
    }
  }

  lemma KeptNoneBack(c: nat, cpb: nat, o: nat, ob: Obj, log: seq<L.Page>, ob': Obj, log': seq<L.Page>)
    requires Kept(c, cpb, o, ob, log, ob', log')
    ensures NoneBack(c, o, log, log')
  {
  }

  /** A copy, with the erasing before and after it, keeps all objects. */
  lemma CopyKeeps(c: nat, cpb: nat, objs: Objs, log: seq<L.Page>, before: seq<L.Page>, o: nat, ob': Obj,
                  log1: seq<L.Page>, log': seq<L.Page>)
    requires AllEroded(c, cpb, objs, log, before) && o in objs && OthersEroded(c, cpb, objs, before, log1, o)
    requires NoneBack(c, o, before, log1)
    requires !objs[o].softDeleted ==> Kept(c, cpb, o, objs[o], before, ob', log1)
    requires AllEroded(c, cpb, objs[o := ob'], log1, log') && ob'.softDeleted == objs[o].softDeleted
    ensures AllKept(c, cpb, objs, log, objs[o := ob'], log')
  {
    hide Eroded, Kept, NoneBack;
    var objs' := objs[o := ob'];
    ErodedIsKept(c, cpb, objs, log, before);
    ErodedIsKept(c, cpb, objs', log1, log');
    forall j | j in objs && !objs[j].softDeleted ensures Kept(c, cpb, j, objs[j], before, objs'[j], log1) {
      if j != o { ErodedKept(c, cpb, j, objs[j], before, log1); }
    }
    KeptThen(c, cpb, objs, log, objs, before, objs', log1);
    KeptThen(c, cpb, objs, log, objs', log1, objs', log');
  }

  lemma ErodedKept(c: nat, cpb: nat, o: nat, ob: Obj, log: seq<L.Page>, log': seq<L.Page>)
    requires Eroded(c, cpb, o, ob, log, log')
    ensures Kept(c, cpb, o, ob, log, ob, log')
  {
  }

  lemma KeptSame(c: nat, cpb: nat, objs: Objs, log: seq<L.Page>)
    ensures AllKept(c, cpb, objs, log, objs, log)
  {
    ErodedSame(c, cpb, objs, log);
    ErodedIsKept(c, cpb, objs, log, log);
  }

  /** Objects that are, or were, not soft-deleted are the same: the others do not count. */
  lemma LiveKept(c: nat, cpb: nat, objs: Objs, log: seq<L.Page>, objs': Objs, log': seq<L.Page>)
    requires AllEroded(c, cpb, objs', log, log')
    requires forall o :: o in objs && !objs[o].softDeleted ==> o in objs' && objs'[o] == objs[o]
    ensures AllKept(c, cpb, objs, log, objs', log')
  {
    hide Eroded, Kept, NoneBack;
    ErodedIsKept(c, cpb, objs', log, log');
  }

  // ---------- What a file can rely on ----------

  /** Nothing was lost or came back, wherever the file ends. */
  ghost predicate Stays(c: nat, cpb: nat, o: nat, ob: Obj, log: seq<L.Page>, ob': Obj, log': seq<L.Page>) {
    && ob'.size == ob.size && ob'.softDeleted == ob.softDeleted && ob'.chunks.Keys == ob.chunks.Keys
    && NoneBack(c, o, log, log')
    && forall end :: Fits(c, cpb, o, ob, log, end) ==> Fits(c, cpb, o, ob', log', end)
  }

  /** `n` bytes of chunk `id` were written, and nothing else was lost or came back. */
  ghost predicate Gets(c: nat, cpb: nat, o: nat, ob: Obj, log: seq<L.Page>, ob': Obj, log': seq<L.Page>, id: nat,
                       n: nat)
    {
    && ob'.size == ob.size && ob'.softDeleted == ob.softDeleted && ob'.chunks.Keys == ob.chunks.Keys + {id}
    && IdsOf(c, o, log') <= IdsOf(c, o, log) + {id}
    && forall end, end' :: Fits(c, cpb, o, ob, log, end) && Ends(c, id, n, end, end') ==>
      Fits(c, cpb, o, ob', log', end')
  }

  lemma ErodedStays(c: nat, cpb: nat, o: nat, ob: Obj, log: seq<L.Page>, ob': Obj, log': seq<L.Page>,
                    log'': seq<L.Page>)
    requires Stays(c, cpb, o, ob, log, ob', log') && Eroded(c, cpb, o, ob', log', log'')
    ensures Stays(c, cpb, o, ob, log, ob', log'')
  {
  }

  lemma KeptStays(c: nat, cpb: nat, o: nat, ob: Obj, log: seq<L.Page>, ob': Obj, log': seq<L.Page>)
    requires Kept(c, cpb, o, ob, log, ob', log')
    ensures Stays(c, cpb, o, ob, log, ob', log')
  {
  }

  lemma StaysGets(c: nat, cpb: nat, o: nat, ob: Obj, log: seq<L.Page>, ob1: Obj, log1: seq<L.Page>, ob': Obj,
                  log': seq<L.Page>, id: nat, n: nat)
    requires Stays(c, cpb, o, ob, log, ob1, log1) && DataIn(c, cpb, o, ob1, log1, ob', log', id, n)
    ensures Gets(c, cpb, o, ob, log, ob', log', id, n)
  {
    hide Fits, Shows, Spans, Ends, HeaderSize, L.Raw, IdsOf;
    forall end, end' | Fits(c, cpb, o, ob, log, end) && Ends(c, id, n, end, end')
      ensures Fits(c, cpb, o, ob', log', end')
    {
      assert Fits(c, cpb, o, ob1, log1, end);
    }
  }
}
