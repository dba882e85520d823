/**
 The blocks of a device as a scan sees them.  In the order of their sequence numbers their pages are the log of the
 device, but for blank pages.
 */
module Mount {
  import opened BackwardScan
  import opened Common
  import opened DeviceLog
  import opened Journal
  import opened Owners
  import opened Space
  import L = FlashLog

  function ImagePage(cpb: nat, nand: Nand, ch: Chunk): L.Page {
    if ch in nand then ToLog(cpb, ch, nand[ch]) else L.Blank(Addr(cpb, ch))
  }

  function ImageBlock(cpb: nat, nand: Nand, b: nat, bi: BlockInfo): (r: Block) {
    if InService(bi)
    then Block(bi.seqNo, seq(cpb, p requires 0 <= p < cpb => Tagged(bi.seqNo, ImagePage(cpb, nand, Chunk(b, p)))))
    else Block(0, [])
  }

  /** The blocks of a device. */
  function Image(cpb: nat, nand: Nand, blocks: seq<BlockInfo>): (r: seq<Block>)
    ensures |r| == |blocks|
  {
    seq(|blocks|, b requires 0 <= b < |blocks| => ImageBlock(cpb, nand, b, blocks[b]))
  }

  /** All pages that are not blank come in the order in which they were programmed. */
  ghost predicate Rising(cpb: nat, blocks: seq<BlockInfo>, s: seq<L.Page>) {
    && (forall i :: 0 <= i < |s| && !s[i].Blank? ==> 0 < cpb <= s[i].chunk)
    && forall i, j :: 0 <= i < j < |s| && !s[i].Blank? && !s[j].Blank? ==>
         Earlier(blocks, ChunkAt(cpb, s[i].chunk), ChunkAt(cpb, s[j].chunk))
  }

  lemma {:induction false} CompactHas(s: seq<L.Page>)
    ensures forall x :: x in Compact(s) <==> x in s && !x.Blank?
  {
    if s != [] {
      var n := |s| - 1;
      CompactHas(s[..n]);
      assert forall x :: x in s <==> x in s[..n] || x == s[n];
    }
  }

  lemma {:induction false} CompactRising(cpb: nat, blocks: seq<BlockInfo>, s: seq<L.Page>)
    requires Rising(cpb, blocks, s)
    ensures Rising(cpb, blocks, Compact(s))
  {
    if s != [] {
      var n := |s| - 1;
      CompactRising(cpb, blocks, s[..n]);
      if !s[n].Blank? {
        var t := Compact(s[..n]);
        forall i | 0 <= i < |t| && !t[i].Blank?
          ensures Earlier(blocks, ChunkAt(cpb, t[i].chunk), ChunkAt(cpb, s[n].chunk))
        {
          CompactHas(s[..n]);
          assert t[i] in s[..n];
          var k :| 0 <= k < n && s[k] == t[i];
        }
        assert Compact(s) == t + [s[n]];
      } else {
        assert Compact(s) == Compact(s[..n]);
      }
    }
  }

  /** Two rising sequences with the same pages are the same. */
  lemma {:induction false} RisingSame(cpb: nat, blocks: seq<BlockInfo>, s: seq<L.Page>, t: seq<L.Page>)
    requires Rising(cpb, blocks, s) && Rising(cpb, blocks, t)
    requires forall x :: x in s ==> !x.Blank?
    requires forall x :: x in s <==> x in t
    ensures s == t
  {
    hide Rising;
    assert (t != [] ==> t[0] in s) && (s != [] ==> s[0] in t);
    if s != [] {
      var n, m := |s| - 1, |t| - 1;
      LastSame(cpb, blocks, s, t);
      RisingFront(cpb, blocks, s);
      RisingFront(cpb, blocks, t);
      forall x ensures x in s[..n] <==> x in t[..m] {
        NotTwice(cpb, blocks, s, x);
        NotTwice(cpb, blocks, t, x);
        InFront(s, x);
        InFront(t, x);
      }
      RisingSame(cpb, blocks, s[..n], t[..m]);
      assert s == s[..n] + [s[n]] && t == t[..m] + [t[m]];
    }
  }

  lemma InFront(s: seq<L.Page>, x: L.Page)
    requires s != []
    ensures x in s <==> x in s[..|s| - 1] || x == s[|s| - 1]
  {
    assert s == s[..|s| - 1] + [s[|s| - 1]];
  }

  lemma RisingFront(cpb: nat, blocks: seq<BlockInfo>, s: seq<L.Page>)
    requires Rising(cpb, blocks, s) && s != []
    ensures Rising(cpb, blocks, s[..|s| - 1])
  {
  }

  lemma LastSame(cpb: nat, blocks: seq<BlockInfo>, s: seq<L.Page>, t: seq<L.Page>)
    requires Rising(cpb, blocks, s) && Rising(cpb, blocks, t) && s != [] && t != []
    requires forall x :: x in s ==> !x.Blank?
    requires forall x :: x in s <==> x in t
    ensures s[|s| - 1] == t[|t| - 1]
  {
    var n, m := |s| - 1, |t| - 1;
    assert s[n] in t && t[m] in s;
    var i :| 0 <= i <= n && s[i] == t[m];
    var j :| 0 <= j <= m && t[j] == s[n];
  }

  lemma NotTwice(cpb: nat, blocks: seq<BlockInfo>, s: seq<L.Page>, x: L.Page)
    requires Rising(cpb, blocks, s) && s != [] && forall y :: y in s ==> !y.Blank?
    ensures x in s[..|s| - 1] ==> x != s[|s| - 1]
  {
    if x in s[..|s| - 1] {
      var k :| 0 <= k < |s| - 1 && s[k] == x;
      assert s[k] in s && s[|s| - 1] in s;
    }
  }

  /** What a page that was read in a scan is. */
  lemma {:induction false} ConcatHas(cpb: nat, nand: Nand, blocks: seq<BlockInfo>, order: seq<IndexEntry>, x: L.Page)
    requires forall e :: e in order ==> e.block < |blocks|
    ensures x in Concat(Image(cpb, nand, blocks), order) <==>
              exists i, p :: 0 <= i < |order| && 0 <= p < cpb && InService(blocks[order[i].block])
                             && x == ImagePage(cpb, nand, Chunk(order[i].block, p))
  {
    if order != [] {
      var n, image := |order| - 1, Image(cpb, nand, blocks);
      ConcatHas(cpb, nand, blocks, order[..n], x);
      var b := order[n].block;
      SeenImage(cpb, nand, b, blocks[b]);
      assert Concat(image, order) == Concat(image, order[..n]) + SeenPages(image[b]);
      if i, p :| 0 <= i < |order| && 0 <= p < cpb && InService(blocks[order[i].block])
                 && x == ImagePage(cpb, nand, Chunk(order[i].block, p)) {
        if i < n { assert order[..n][i] == order[i]; } else { assert SeenPages(image[b])[p] == x; }
      }
    }
  }

  function BlockPages(cpb: nat, nand: Nand, b: nat): (s: seq<L.Page>)
    ensures |s| == cpb
  {
    seq(cpb, p requires 0 <= p < cpb => ImagePage(cpb, nand, Chunk(b, p)))
  }

  lemma SeenImage(cpb: nat, nand: Nand, b: nat, bi: BlockInfo)
    ensures SeenPages(ImageBlock(cpb, nand, b, bi)) ==
            if InService(bi) then BlockPages(cpb, nand, b) else []
  {
  }

  /** Two pages that are read one after the other were programmed in this order. */
  lemma ReadInOrder(c: nat, cpb: nat, k: Books, nand: Nand, log: seq<L.Page>, x: L.Page, y: L.Page)
    requires Written(c, cpb, nand, log) && Chrono(cpb, k, log) && x in log && y in log && !x.Blank? && !y.Blank?
    requires x.chunk >= cpb && y.chunk >= cpb
    requires var a, b := ChunkAt(cpb, x.chunk), ChunkAt(cpb, y.chunk);
             && a.block < |k.blocks| && b.block < |k.blocks| && a != b
             && (k.blocks[a.block].seqNo < k.blocks[b.block].seqNo
                 || (k.blocks[a.block].seqNo == k.blocks[b.block].seqNo && (a.block == b.block ==> a.page < b.page)))
    ensures Earlier(k.blocks, ChunkAt(cpb, x.chunk), ChunkAt(cpb, y.chunk))
  {
    var i :| 0 <= i < |log| && log[i] == x;
    var j :| 0 <= j < |log| && log[j] == y;
    OneIsEarlier(cpb, k, log, i, j);
  }

  lemma OneIsEarlier(cpb: nat, k: Books, log: seq<L.Page>, i: nat, j: nat)
    requires Chrono(cpb, k, log) && i < |log| && j < |log| && i != j && !log[i].Blank? && !log[j].Blank?
    ensures log[i].chunk >= cpb && log[j].chunk >= cpb
    ensures var x, y := ChunkAt(cpb, log[i].chunk), ChunkAt(cpb, log[j].chunk);
            Earlier(k.blocks, x, y) || Earlier(k.blocks, y, x)
  {
    if i < j { ChronoAt(cpb, k, log, i, j); } else { ChronoAt(cpb, k, log, j, i); }
  }

  /** Pages in the image are on flash, hence in the log. */
  lemma ImageInLog(c: nat, cpb: nat, nand: Nand, log: seq<L.Page>, ch: Chunk)
    requires cpb > 0 && Written(c, cpb, nand, log) && ch.page < cpb
    ensures var x := ImagePage(cpb, nand, ch);
            x.chunk >= cpb && ChunkAt(cpb, x.chunk) == ch && (!x.Blank? ==> x in log)
  {
    AddrSplit(cpb, ch);
  }

  lemma {:induction false} ConcatRising(c: nat, cpb: nat, k: Books, nand: Nand, log: seq<L.Page>,
                                        order: seq<IndexEntry>)
    requires Written(c, cpb, nand, log) && Chrono(cpb, k, log)
    requires forall e :: e in order ==>
             e.block < |k.blocks|
             && (InService(k.blocks[e.block]) ==> e.seqNo == k.blocks[e.block].seqNo)
    requires forall i, j :: 0 <= i < j < |order| ==>
               order[i].seqNo < order[j].seqNo || (order[i].seqNo == order[j].seqNo && order[i].block < order[j].block)
    ensures Rising(cpb, k.blocks, Concat(Image(cpb, nand, k.blocks), order))
  {
    if order != [] {
      hide Chrono, Written;
      var n, image := |order| - 1, Image(cpb, nand, k.blocks);
      ConcatRising(c, cpb, k, nand, log, order[..n]);
      var b, s := order[n].block, Concat(image, order[..n]);
      SeenImage(cpb, nand, b, k.blocks[b]);
      var t := SeenPages(image[b]);
      assert Concat(image, order) == s + t;
      PositiveBlock(cpb, k, log);
      if InService(k.blocks[b]) {
        BlockRising(c, cpb, k, nand, log, b);
        forall i, q | 0 <= i < |s| && 0 <= q < |t| && !s[i].Blank? && !t[q].Blank?
          ensures s[i].chunk >= cpb && t[q].chunk >= cpb
          ensures Earlier(k.blocks, ChunkAt(cpb, s[i].chunk), ChunkAt(cpb, t[q].chunk))
        {
          ImageInLog(c, cpb, nand, log, Chunk(b, q));
          AcrossBlocks(c, cpb, k, nand, log, order, s[i], t[q], q);
        }
      }
      RisingConcat(cpb, k.blocks, s, t);
    }
  }

  lemma BlockRising(c: nat, cpb: nat, k: Books, nand: Nand, log: seq<L.Page>, b: nat)
    requires cpb > 0 && Written(c, cpb, nand, log) && b < |k.blocks|
    ensures Rising(cpb, k.blocks, BlockPages(cpb, nand, b))
  {
    var t := BlockPages(cpb, nand, b);
    forall q | 0 <= q < |t| ensures t[q].chunk >= cpb && ChunkAt(cpb, t[q].chunk) == Chunk(b, q) {
      ImageInLog(c, cpb, nand, log, Chunk(b, q));
    }
  }

  lemma RisingConcat(cpb: nat, blocks: seq<BlockInfo>, s: seq<L.Page>, t: seq<L.Page>)
    requires Rising(cpb, blocks, s) && Rising(cpb, blocks, t)
    requires forall i, q :: 0 <= i < |s| && 0 <= q < |t| && !s[i].Blank? && !t[q].Blank? ==>
               && 0 < cpb <= s[i].chunk && cpb <= t[q].chunk
               && Earlier(blocks, ChunkAt(cpb, s[i].chunk), ChunkAt(cpb, t[q].chunk))
    ensures Rising(cpb, blocks, s + t)
  {
  }

  lemma PositiveBlock(cpb: nat, k: Books, log: seq<L.Page>)
    requires Chrono(cpb, k, log)
    ensures cpb > 0
  {
  }

  /** A page read before those of the last block was programmed before them. */
  lemma AcrossBlocks(c: nat, cpb: nat, k: Books, nand: Nand, log: seq<L.Page>, order: seq<IndexEntry>, x: L.Page,
                     y: L.Page, q: nat)
    requires Written(c, cpb, nand, log) && Chrono(cpb, k, log) && order != []
    requires forall e :: e in order ==>
             e.block < |k.blocks|
             && (InService(k.blocks[e.block]) ==> e.seqNo == k.blocks[e.block].seqNo)
    requires forall i, j :: 0 <= i < j < |order| ==>
               order[i].seqNo < order[j].seqNo || (order[i].seqNo == order[j].seqNo && order[i].block < order[j].block)
    requires var n := |order| - 1;
             && x in Concat(Image(cpb, nand, k.blocks), order[..n]) && !x.Blank? && !y.Blank? && y in log
             && q < cpb && InService(k.blocks[order[n].block]) && y.chunk >= cpb
             && ChunkAt(cpb, y.chunk) == Chunk(order[n].block, q)
    ensures x.chunk >= cpb && Earlier(k.blocks, ChunkAt(cpb, x.chunk), ChunkAt(cpb, y.chunk))
  {
    hide Chrono, Written;
    var n := |order| - 1;
    ConcatHas(cpb, nand, k.blocks, order[..n], x);
    var i, p :| 0 <= i < n && 0 <= p < cpb && InService(k.blocks[order[..n][i].block])
                && x == ImagePage(cpb, nand, Chunk(order[..n][i].block, p));
    ImageInLog(c, cpb, nand, log, Chunk(order[i].block, p));
    assert order[i] in order && order[n] in order;
    ReadInOrder(c, cpb, k, nand, log, x, y);
  }

  /** In the order of the sequence numbers the pages of the blocks are the log, but for blank pages. */
  lemma ImageIsLog(c: nat, cpb: nat, k: Books, nand: Nand, objs: Objs, log: seq<L.Page>, order: seq<IndexEntry>)
    requires Balanced(cpb, k) && Journaled(c, cpb, k, nand, objs, log) && k.seqNumber < HIGHEST_SEQUENCE_NUMBER
    requires IsOrder(Image(cpb, nand, k.blocks), order)
    ensures Compact(Concat(Image(cpb, nand, k.blocks), order)) == Compact(log)
  {
    hide Balanced, Chrono, Written, Guarded, Current;
    var image := Image(cpb, nand, k.blocks);
    var s := Concat(image, order);
    ServiceSeqs(cpb, k, image);
    forall e | e in order
      ensures e.block < |k.blocks|
              && (InService(k.blocks[e.block]) ==> e.seqNo == k.blocks[e.block].seqNo)
    {
      assert image[e.block] == ImageBlock(cpb, nand, e.block, k.blocks[e.block]);
    }
    ConcatRising(c, cpb, k, nand, log, order);
    CompactRising(cpb, k.blocks, s);
    LogRising(cpb, k, log);
    CompactRising(cpb, k.blocks, log);
    CompactHas(s);
    CompactHas(log);
    forall x: L.Page | !x.Blank? ensures x in s <==> x in log {
      SamePages(c, cpb, k, nand, log, order, x);
    }
    RisingSame(cpb, k.blocks, Compact(s), Compact(log));
  }

  lemma LogRising(cpb: nat, k: Books, log: seq<L.Page>)
    requires Chrono(cpb, k, log)
    ensures Rising(cpb, k.blocks, log)
  {
  }

  /** Exactly the blocks in service are scanned. */
  lemma ServiceSeqs(cpb: nat, k: Books, image: seq<Block>)
    requires Balanced(cpb, k) && k.seqNumber < HIGHEST_SEQUENCE_NUMBER && |image| == |k.blocks|
    requires forall b :: 0 <= b < |image| ==> image[b].seqNo == if InService(k.blocks[b]) then k.blocks[b].seqNo else 0
    ensures forall b :: 0 <= b < |image| ==> (NeedsScan(image[b]) <==> InService(k.blocks[b]))
  {
    forall b | 0 <= b < |image| ensures NeedsScan(image[b]) <==> InService(k.blocks[b]) {
      ThisBlock(cpb, k, b);
    }
  }

  lemma SamePages(c: nat, cpb: nat, k: Books, nand: Nand, log: seq<L.Page>, order: seq<IndexEntry>, x: L.Page)
    requires Written(c, cpb, nand, log) && Chrono(cpb, k, log) && !x.Blank?
    requires IsOrder(Image(cpb, nand, k.blocks), order)
    requires forall b :: 0 <= b < |k.blocks| ==> (NeedsScan(Image(cpb, nand, k.blocks)[b]) <==> InService(k.blocks[b]))
    ensures x in Concat(Image(cpb, nand, k.blocks), order) <==> x in log
  {
    hide Chrono, Written;
    var image := Image(cpb, nand, k.blocks);
    ConcatHas(cpb, nand, k.blocks, order, x);
    if x in log {
      var i :| 0 <= i < |log| && log[i] == x;
      var ch := PageFacts(c, cpb, k, nand, log, i);
      var e := IndexEntry(image[ch.block].seqNo, ch.block);
      assert NeedsScan(image[ch.block]) && e in order;
      var j :| 0 <= j < |order| && order[j] == e;
      assert x == ImagePage(cpb, nand, Chunk(order[j].block, ch.page));
    }
    if i, p :| 0 <= i < |order| && 0 <= p < cpb && InService(k.blocks[order[i].block])
               && x == ImagePage(cpb, nand, Chunk(order[i].block, p)) {
      PositiveBlock(cpb, k, log);
      ImageInLog(c, cpb, nand, log, Chunk(order[i].block, p));
    }
  }

  /** As long as fewer than 2^31 sequence numbers have been used, those of all blocks are near to each other. */
  lemma YoungIsNear(cpb: nat, k: Books, nand: Nand)
    requires Balanced(cpb, k) && k.seqNumber - LOWEST_SEQUENCE_NUMBER < 0x8000_0000
    ensures AllNear(Image(cpb, nand, k.blocks)) && k.seqNumber < HIGHEST_SEQUENCE_NUMBER
  {
    var image := Image(cpb, nand, k.blocks);
    forall b | 0 <= b < |image| && NeedsScan(image[b])
      ensures LOWEST_SEQUENCE_NUMBER <= image[b].seqNo <= k.seqNumber
    {
      ThisBlock(cpb, k, b);
    }
  }
}
