/**
 The checkpoint stream: bytes written one after another to pages of erased blocks, and read back by following the
 hint in each page to where the next block is to be looked for.
 */
module CheckptStream {
  import opened Common
  import opened Octets

  /** Bitwise exclusive or. */
  function Xor(a: Byte, b: Byte): Byte { ((a as bv8) ^ (b as bv8)) as int }

  /** States of a block. */
  datatype State =
    | Unknown | Scanning | NeedsScan | Empty | Allocating | Full | Dirty | Checkpoint | Collecting | Dead

  /** Page `index` of block `block`. */
  datatype Loc = Loc(block: int, index: nat)

  /** A page as written; `hint` is the object id tag, `seqNumber` tells checkpoint pages from others. */
  datatype Page = Page(data: Bytes, hint: int, chunkId: nat, seqNumber: nat)

  type Flash = map<Loc, Page>

  const SEQUENCE_CHECKPOINT_DATA := 0x21

  /** The bytes of the pages, end to end. */
  function Flat(datas: seq<Bytes>): Bytes {
    if datas == [] then [] else Flat(datas[..|datas| - 1]) + datas[|datas| - 1]
  }

  /** The running sum, in 32 bits. */
  function SumOf(s: Bytes): nat {
    if s == [] then 0 else (SumOf(s[..|s| - 1]) + s[|s| - 1]) % 0x1_0000_0000
  }

  function XorOf(s: Bytes): Byte {
    if s == [] then 0 else Xor(XorOf(s[..|s| - 1]), s[|s| - 1])
  }

  // ---------- The pages of a checkpoint ----------

  predicate IsMarked(flash: Flash, l: Loc) { l in flash && flash[l].seqNumber == SEQUENCE_CHECKPOINT_DATA }

  /** Pages follow one another within a block, and a full block is followed by a later one. */
  ghost predicate Chain(cpb: nat, start: int, log: seq<Loc>) {
    && (forall k :: 0 <= k < |log| ==> log[k].index < cpb && log[k].block >= start)
    && (|log| > 0 ==> log[0].index == 0)
    && (forall k, m :: 0 <= k && m == k + 1 < |log| ==> Follows(cpb, log[k], log[m]))
  }

  predicate Follows(cpb: nat, l: Loc, m: Loc) {
    if l.index + 1 < cpb then m == Loc(l.block, l.index + 1) else m.index == 0 && m.block > l.block
  }

  /** The checkpoint on flash is what `log` and `datas` say, and there are no other checkpoint pages. */
  ghost predicate Holds(bpc: nat, flash: Flash, log: seq<Loc>, datas: seq<Bytes>) {
    && |datas| == |log|
    && (forall k :: 0 <= k < |log| ==> |datas[k]| == bpc)
    && (forall k :: 0 <= k < |log| ==>
          log[k] in flash && flash[log[k]] == Page(datas[k], log[k].block + 1, k + 1, SEQUENCE_CHECKPOINT_DATA))
    && (forall l: Loc :: IsMarked(flash, l) ==> l in log)
  }

  function IsBefore(l: Loc, m: Loc): bool { l.block < m.block || (l.block == m.block && l.index < m.index) }

  lemma {:induction false} ChainOrdered(cpb: nat, start: int, log: seq<Loc>, i: nat, j: nat)
    requires Chain(cpb, start, log) && i < j < |log|
    ensures IsBefore(log[i], log[j])
  {
    assert Follows(cpb, log[j - 1], log[j]);
    if i < j - 1 { ChainOrdered(cpb, start, log, i, j - 1); }
  }

  /** Where the page after the first `r` ones is to be looked for: the number of the block if it is in the block at
      hand, and the first block that comes into question otherwise. */
  ghost predicate At(cpb: nat, start: int, log: seq<Loc>, r: nat, cur: int, curChunk: nat, next: int)
    requires r <= |log|
  {
    if r == 0 then cur == -1 && next == start
    else
      var l := log[r - 1];
      && next == l.block + 1
      && if l.index + 1 < cpb then cur == l.block && curChunk == l.index + 1 else cur == -1
  }

  lemma ChainGrows(cpb: nat, start: int, log: seq<Loc>, cur: int, curChunk: nat, next: int, l: Loc)
    requires Chain(cpb, start, log) && At(cpb, start, log, |log|, cur, curChunk, next) && cpb > 0 && start >= 0
    requires if cur >= 0 then l == Loc(cur, curChunk) else l.index == 0 && l.block >= next
    ensures Chain(cpb, start, log + [l])
    ensures l !in log
  {
    var log' := log + [l];
    forall k, m | 0 <= k && m == k + 1 < |log'| ensures Follows(cpb, log'[k], log'[m]) {
      if m < |log| { assert Follows(cpb, log[k], log[m]); }
    }
    assert forall k :: 0 <= k < |log| ==> log'[k] == log[k];
    if l in log {
      var i :| 0 <= i < |log| && log[i] == l;
      ChainOrdered(cpb, start, log', i, |log|);
    }
  }

  lemma HoldsMore(bpc: nat, flash: Flash, log: seq<Loc>, datas: seq<Bytes>, l: Loc, d: Bytes)
    requires Holds(bpc, flash, log, datas) && |d| == bpc && l !in log
    ensures Holds(bpc, flash[l := Page(d, l.block + 1, |log| + 1, SEQUENCE_CHECKPOINT_DATA)], log + [l], datas + [d])
  {
    var flash' := flash[l := Page(d, l.block + 1, |log| + 1, SEQUENCE_CHECKPOINT_DATA)];
    forall m: Loc | IsMarked(flash', m) ensures m in log + [l] {
      if m != l { assert IsMarked(flash, m); }
    }
  }

  /** Looking from where the hint points, the first marked block is the one written next. */
  lemma FindsNext(bpc: nat, cpb: nat, start: int, flash: Flash, log: seq<Loc>, datas: seq<Bytes>, r: nat, next: int,
                  b: int)
    requires Chain(cpb, start, log) && Holds(bpc, flash, log, datas) && r <= |log| && cpb > 0
    requires if r == 0 then next == start else log[r - 1].index + 1 == cpb && next == log[r - 1].block + 1
    requires b >= next && IsMarked(flash, Loc(b, 0))
    ensures r < |log| && log[r].index == 0 && next <= log[r].block <= b && IsMarked(flash, log[r])
  {
    var k :| 0 <= k < |log| && log[k] == Loc(b, 0);
    if k < r - 1 { ChainOrdered(cpb, start, log, k, r - 1); }
    if r < k { ChainOrdered(cpb, start, log, r, k); }
    if 0 < r < |log| { assert Follows(cpb, log[r - 1], log[r]); }
  }

  /** Beyond the last page written into a block there is none. */
  lemma NoPageBeyond(bpc: nat, cpb: nat, start: int, flash: Flash, log: seq<Loc>, datas: seq<Bytes>, r: nat)
    requires Chain(cpb, start, log) && Holds(bpc, flash, log, datas) && 0 < r <= |log|
    requires log[r - 1].index + 1 < cpb
    ensures var l := Loc(log[r - 1].block, log[r - 1].index + 1); if r < |log| then log[r] == l else !IsMarked(flash, l)
  {
    var l := Loc(log[r - 1].block, log[r - 1].index + 1);
    if r < |log| {
      assert Follows(cpb, log[r - 1], log[r]);
    } else if l in log {
      var k :| 0 <= k < |log| && log[k] == l;
      if k < r - 1 { ChainOrdered(cpb, start, log, k, r - 1); }
    }
  }

  /** The blocks of a checkpoint, in order. */
  function BlocksOf(log: seq<Loc>): seq<int> {
    if log == [] then []
    else
      var l := log[|log| - 1];
      BlocksOf(log[..|log| - 1]) + if l.index == 0 then [l.block] else []
  }

  lemma BlocksGrow(log: seq<Loc>, r: nat)
    requires r < |log|
    ensures BlocksOf(log[..r + 1]) == BlocksOf(log[..r]) + if log[r].index == 0 then [log[r].block] else []
  {
    assert log[..r + 1][..r] == log[..r];
  }

  lemma FlatGrows(datas: seq<Bytes>, r: nat)
    requires r < |datas|
    ensures Flat(datas[..r + 1]) == Flat(datas[..r]) + datas[r]
  {
    assert datas[..r + 1][..r] == datas[..r];
  }

  lemma FlatMore(datas: seq<Bytes>, d: Bytes)
    ensures Flat(datas + [d]) == Flat(datas) + d
  {
    assert (datas + [d])[..|datas|] == datas;
  }

  lemma {:induction false} FlatPrefix(datas: seq<Bytes>, r: nat)
    requires r <= |datas|
    ensures Flat(datas[..r]) <= Flat(datas)
  {
    if r == |datas| {
      assert datas[..r] == datas;
    } else {
      FlatPrefix(datas[..|datas| - 1], r);
      assert datas[..|datas| - 1][..r] == datas[..r];
    }
  }

  lemma SumMore(s: Bytes, b: Byte)
    ensures SumOf(s + [b]) == (SumOf(s) + b) % 0x1_0000_0000 && XorOf(s + [b]) == Xor(XorOf(s), b)
  {
    assert (s + [b])[..|s|] == s;
  }

  // ---------- Blocks ----------

  /** Checkpoint pages are in checkpoint blocks, and erased blocks hold no pages. */
  ghost predicate Tidy(start: nat, end: nat, flash: Flash, states: seq<State>) {
    && |states| == end + 1
    && (forall l: Loc :: IsMarked(flash, l) ==> start <= l.block <= end && states[l.block].Checkpoint?)
    && (forall l: Loc :: l in flash && 0 <= l.block <= end ==> !states[l.block].Empty?)
  }

  /** Number of erased blocks from `from` up to `to`, exclusive. */
  function CountEmpty(states: seq<State>, from: nat, to: nat): nat
    requires from <= to <= |states|
  {
    if from == to then 0 else CountEmpty(states, from, to - 1) + if states[to - 1].Empty? then 1 else 0
  }

  lemma {:induction false} CountChanged(states: seq<State>, from: nat, to: nat, b: nat, s: State)
    requires from <= to <= |states| && from <= b < |states|
    ensures CountEmpty(states[b := s], from, to) == CountEmpty(states, from, to) +
            (if b < to then (if s.Empty? then 1 else 0) - (if states[b].Empty? then 1 else 0) else 0)
  {
    if from < to { CountChanged(states, from, to - 1, b, s); }
  }

  /** Flash without the pages of block `b`. */
  function Erased(flash: Flash, b: int): Flash {
    map l | l in flash && l.block != b :: flash[l]
  }

  /** The states with all checkpoint blocks of number at least `start` and below `to` erased. */
  function Freed(states: seq<State>, start: nat, to: nat): (r: seq<State>)
    ensures |r| == |states|
  {
    seq(|states|, i requires 0 <= i < |states| => if start <= i < to && states[i].Checkpoint? then Empty else states[i])
  }

  /** The least erased block from `next` on is `b`. */
  ghost predicate FirstErased(states: seq<State>, next: int, b: int) {
    0 <= next <= b < |states| && states[b].Empty? && forall i :: next <= i < b ==> !states[i].Empty?
  }

  ghost predicate HasErased(states: seq<State>, next: int) {
    exists i :: 0 <= next <= i < |states| && states[i].Empty?
  }

  /** The least block from `next` on that starts with a checkpoint page is `b`. */
  ghost predicate FirstMarked(flash: Flash, next: int, end: int, b: int) {
    next <= b <= end && IsMarked(flash, Loc(b, 0)) && forall i :: next <= i < b ==> !IsMarked(flash, Loc(i, 0))
  }

  /** No page of block `b` from page `from` on has been written. */
  ghost predicate Unwritten(flash: Flash, b: int, from: nat) {
    forall l: Loc :: l.block == b && l.index >= from ==> l !in flash
  }

  /** The pages of so many blocks, and the bytes of so many pages. */
  function Pages(cpb: nat, blocks: int): int { blocks * cpb }

  function Size(bpc: nat, pages: int): int { pages * bpc }

  /** No erased block is left before the next one to be looked at. */
  ghost predicate Passed(states: seq<State>, start: int, next: int) {
    forall b :: 0 <= b < |states| && start <= b < next ==> !states[b].Empty?
  }

  lemma PassedOn(states: seq<State>, start: int, next: int, b: int)
    requires Passed(states, start, next) && FirstErased(states, next, b)
    ensures Passed(states, start, b)
  {
  }

  lemma PassedBlock(states: seq<State>, start: int, b: int, chunk: nat)
    requires Passed(states, start, b) && 0 <= b < |states| && (chunk > 0 ==> states[b].Checkpoint?)
    ensures Passed(if chunk == 0 then states[b := Checkpoint] else states, start, b + 1)
  {
  }

  lemma PassedLess(states: seq<State>, start: int, next: int, b: int)
    requires Passed(states, start, next) && b <= next
    ensures Passed(states, start, b)
  {
  }

  lemma {:induction false} CountPositive(states: seq<State>, from: nat, to: nat)
    requires from <= to <= |states|
    ensures CountEmpty(states, from, to) > 0 <==> exists b :: from <= b < to && states[b].Empty?
  {
    if from < to { CountPositive(states, from, to - 1); }
  }

  /** There is a page to be written exactly if not all pages of all erased blocks have been written. */
  lemma PagesLeft(states: seq<State>, start: nat, end: nat, cpb: nat, blocksIn: nat, nErased: int, pages: nat, cur: int,
                  curChunk: nat, next: int)
    requires start <= end && |states| == end + 1 && cpb > 0 && nErased == CountEmpty(states, start, end + 1) + blocksIn
    requires pages == Pages(cpb, blocksIn) - (if cur >= 0 then cpb - curChunk else 0)
             && (cur >= 0 ==> 0 < curChunk < cpb)
    requires Passed(states, start, next) && next >= start
    ensures cur >= 0 ==> pages < Pages(cpb, nErased)
    ensures cur < 0 ==> (pages < Pages(cpb, nErased) <==> HasErased(states, next))
  {
    AnyErased(states, start, end, next);
    hide CountEmpty, Passed, HasErased;
    BlocksAhead(cpb, blocksIn, nErased);
  }

  lemma AnyErased(states: seq<State>, start: nat, end: nat, next: int)
    requires start <= end && |states| == end + 1 && Passed(states, start, next) && next >= start
    ensures CountEmpty(states, start, end + 1) >= 0
    ensures CountEmpty(states, start, end + 1) > 0 <==> HasErased(states, next)
  {
    CountPositive(states, start, end + 1);
    if HasErased(states, next) {
      var b :| 0 <= next <= b < |states| && states[b].Empty?;
    }
    if b :| start <= b < end + 1 && states[b].Empty? { assert b >= next; }
  }

  lemma BlocksAhead(cpb: nat, blocks: int, more: int)
    requires cpb > 0 && blocks <= more
    ensures Pages(cpb, blocks) <= Pages(cpb, more) && (Pages(cpb, blocks) == Pages(cpb, more) <==> blocks == more)
  {
    var d := more - blocks;
    assert d * cpb == more * cpb - blocks * cpb;
    if d >= 1 { assert (d - 1) * cpb >= 0 && d * cpb == (d - 1) * cpb + cpb; }
  }

  /** The pages of a checkpoint are full. */
  lemma {:induction false} FlatLength(datas: seq<Bytes>, bpc: nat)
    requires forall k :: 0 <= k < |datas| ==> |datas[k]| == bpc
    ensures |Flat(datas)| == Size(bpc, |datas|)
  {
    if datas != [] {
      FlatLength(datas[..|datas| - 1], bpc);
      assert |datas| * bpc == (|datas| - 1) * bpc + bpc;
    }
  }

  lemma WrittenLength(log: seq<Loc>, datas: seq<Bytes>, bpc: nat, flash: Flash)
    requires Holds(bpc, flash, log, datas)
    ensures |datas| == |log| && |Flat(datas)| == Size(bpc, |log|)
  {
    FlatLength(datas, bpc);
  }

  /** How many bytes fit into the pages of all erased blocks. */
  lemma FullPages(pages: nat, nErased: int, blocksIn: nat, cpb: nat, bpc: nat, cur: int, curChunk: nat)
    requires cpb > 0 && bpc > 0 && nErased >= blocksIn
    requires pages == Pages(cpb, blocksIn) - (if cur >= 0 then cpb - curChunk else 0) && (cur >= 0 ==> curChunk < cpb)
    ensures pages <= Pages(cpb, nErased)
    ensures pages == Pages(cpb, nErased) <==> Size(bpc, pages) == Size(bpc, Pages(cpb, nErased))
    ensures pages < Pages(cpb, nErased) <==> Size(bpc, pages) + bpc <= Size(bpc, Pages(cpb, nErased))
  {
    BlocksAhead(cpb, blocksIn, nErased);
    hide Pages;
    var d := Pages(cpb, nErased) - pages;
    assert d * bpc == Pages(cpb, nErased) * bpc - pages * bpc;
    if d >= 1 { assert (d - 1) * bpc >= 0 && d * bpc == (d - 1) * bpc + bpc; }
  }

  lemma SomeRoom(bpc: nat, cpb: nat, nErased: int)
    requires nErased >= 0
    ensures Size(bpc, Pages(cpb, nErased)) >= 0
  {
    assert nErased * cpb >= 0;
    assert nErased * cpb * bpc >= 0;
  }

  /** Erasing adds erased blocks. */
  lemma {:induction false} ErasedMore(states: seq<State>, start: nat, to: nat, from: nat, end: nat)
    requires from <= end <= |states|
    ensures CountEmpty(Freed(states, start, to), from, end) >= CountEmpty(states, from, end)
  {
    if from < end { ErasedMore(states, start, to, from, end - 1); }
  }

  lemma MoreBlocks(cpb: nat, blocks: int)
    ensures Pages(cpb, blocks + 1) == Pages(cpb, blocks) + cpb && Pages(cpb, 0) == 0
  {
  }

  lemma NextInRange(cpb: nat, start: int, log: seq<Loc>, cur: int, curChunk: nat, next: int)
    requires Chain(cpb, start, log) && At(cpb, start, log, |log|, cur, curChunk, next) && start >= 0
    ensures next >= start && (cur >= 0 ==> next == cur + 1 && cur >= start && curChunk < cpb)
  {
  }

  lemma TidyLength(start: nat, end: nat, flash: Flash, states: seq<State>)
    requires Tidy(start, end, flash, states)
    ensures |states| == end + 1
    ensures forall b :: 0 <= b <= end && states[b].Empty? ==> Unwritten(flash, b, 0)
  {
  }

  /** A page is added to an erased block, which becomes a checkpoint block, or to a checkpoint block. */
  lemma TidyMore(start: nat, end: nat, flash: Flash, states: seq<State>, l: Loc, p: Page)
    requires Tidy(start, end, flash, states) && start <= l.block <= end && p.seqNumber == SEQUENCE_CHECKPOINT_DATA
    requires l.index > 0 ==> states[l.block].Checkpoint?
    ensures Tidy(start, end, flash[l := p], if l.index == 0 then states[l.block := Checkpoint] else states)
  {
    forall m: Loc | IsMarked(flash[l := p], m) && m != l ensures IsMarked(flash, m) { }
  }

  lemma LastBlocks(log: seq<Loc>, l: Loc)
    ensures BlocksOf(log + [l]) == BlocksOf(log) + if l.index == 0 then [l.block] else []
  {
    assert (log + [l])[..|log|] == log;
  }

  lemma NoCheckpoint(cpb: nat, start: nat, bpc: nat, flash: Flash)
    requires forall l: Loc :: !IsMarked(flash, l)
    ensures Chain(cpb, start, []) && Holds(bpc, flash, [], []) && At(cpb, start, [], 0, -1, 0, start)
    ensures Flat([]) == [] && SumOf([]) == 0 && XorOf([]) == 0 && BlocksOf([]) == []
  {
  }

  lemma NothingRead(bpc: nat, flash: Flash, log: seq<Loc>, datas: seq<Bytes>)
    requires Holds(bpc, flash, log, datas)
    ensures |datas| == |log|
    ensures Flat(datas[..0]) == [] && SumOf([]) == 0 && XorOf([]) == 0 && BlocksOf(log[..0]) == []
  {
  }

  /** The pages left when the checkpoint blocks of number at least `start` and below `to` are erased. */
  function Survivors(flash: Flash, states: seq<State>, start: nat, to: nat): Flash {
    map l | l in flash && !(start <= l.block < to && l.block < |states| && states[l.block].Checkpoint?) :: flash[l]
  }

  lemma NothingErased(flash: Flash, states: seq<State>, start: nat)
    ensures Freed(states, start, start) == states && Survivors(flash, states, start, start) == flash
  {
  }

  lemma OneErased(flash: Flash, states: seq<State>, start: nat, i: nat)
    requires start <= i < |states|
    ensures Freed(states, start, i)[i] == states[i]
    ensures Freed(states, start, i + 1) == if states[i].Checkpoint? then Freed(states, start, i)[i := Empty]
            else Freed(states, start, i)
    ensures Survivors(flash, states, start, i + 1) ==
            if states[i].Checkpoint? then Erased(Survivors(flash, states, start, i), i)
                else Survivors(flash, states, start, i)
  {
  }

  lemma AllErased(start: nat, end: nat, flash: Flash, states: seq<State>)
    requires start <= end && Tidy(start, end, flash, states)
    ensures var flash', states' := Survivors(flash, states, start, end + 1), Freed(states, start, end + 1);
            Tidy(start, end, flash', states') && forall l: Loc :: !IsMarked(flash', l)
  {
    var flash' := Survivors(flash, states, start, end + 1);
    forall l: Loc ensures !IsMarked(flash', l) { assert IsMarked(flash', l) ==> IsMarked(flash, l); }
  }

  class Stream {
    const start: nat        // first block
    const end: nat          // last block
    const cpb: nat          // chunks per block
    const bpc: nat          // data bytes per chunk
    const nReserved: nat    // blocks kept free
    const buffer: array<Byte>

    var flash: Flash
    var states: seq<State>
    var nErased: int
    var nFree: int

    var openWrite: bool
    var byteOffs: nat
    var pageSeq: nat
    var curBlock: int
    var curChunk: nat
    var nextBlock: int
    var blocksIn: nat
    var blockList: seq<int>
    var maxBlocks: nat
    var sum: nat
    var xor: Byte

    ghost var log: seq<Loc>        // the pages of the checkpoint in the order in which they are written or read
    ghost var datas: seq<Bytes>    // and their data
    ghost var all: Bytes           // the bytes given to the stream so far
    ghost var got: Bytes           // the bytes read so far

    ghost predicate Layout()
      reads this
    {
      start <= end && cpb > 0 && bpc > 0 && buffer.Length == bpc && |states| == end + 1
    }

    constructor (start: nat, end: nat, cpb: nat, bpc: nat, nReserved: nat, flash: Flash, states: seq<State>,
                 nErased: int, nFree: int)
      requires start <= end && cpb > 0 && bpc > 0
      ensures this.start == start && this.end == end && this.cpb == cpb && this.bpc == bpc
              && this.nReserved == nReserved
      ensures this.flash == flash && this.states == states && this.nErased == nErased && this.nFree == nFree
      ensures fresh(buffer) && buffer.Length == bpc
    {
      this.start, this.end, this.cpb, this.bpc, this.nReserved := start, end, cpb, bpc, nReserved;
      this.flash, this.states, this.nErased, this.nFree := flash, states, nErased, nFree;
      buffer := new Byte[bpc](_ => 0);
      openWrite, byteOffs, pageSeq, curBlock, curChunk, nextBlock := false, 0, 0, -1, 0, -1;
      blocksIn, blockList, maxBlocks, sum, xor := 0, [], 0, 0, 0;
      log, datas, all, got := [], [], [], [];
    }

    // ---------- Writing ----------

    /** The bytes on flash and in the buffer. */
    ghost function Written(): Bytes
      reads this, buffer
    {
      Flat(datas) + if byteOffs <= buffer.Length then buffer[..byteOffs] else []
    }

    /** What is on flash is the beginning of a checkpoint, and the blocks are counted right. */
    ghost predicate Ordered()
      reads this
    {
      && Layout() && Tidy(start, end, flash, states) && openWrite
      && Chain(cpb, start, log) && Holds(bpc, flash, log, datas) && pageSeq == |log|
      && blocksIn == |BlocksOf(log)| && nErased == CountEmpty(states, start, end + 1) + blocksIn
        && nErased - nReserved > 0
    }

    /** The stream is being written; the buffer may be full. */
    ghost predicate Pending()
      reads this, buffer
    {
      && Ordered() && At(cpb, start, log, |log|, curBlock, curChunk, nextBlock)
      && (curBlock >= 0 ==>
            curBlock <= end && 0 < curChunk < cpb && states[curBlock].Checkpoint?
              && Unwritten(flash, curBlock, curChunk))
      && Passed(states, start, nextBlock) && |log| ==
        Pages(cpb, blocksIn) - (if curBlock >= 0 then cpb - curChunk else 0)
      && byteOffs <= bpc && (forall i :: byteOffs <= i < bpc ==> buffer[i] == 0)
    }

    /** Sum and exclusive or are those of all bytes given to the stream. */
    ghost predicate Summed()
      reads this
    {
      sum == SumOf(all) && xor == XorOf(all)
    }

    ghost predicate Writing()
      reads this, buffer
    {
      Pending() && byteOffs < bpc && all == Written() && Summed()
    }

    /** No block was found for a full buffer.  Bytes given to the stream from then on get lost, as does the buffer. */
    ghost predicate Broken()
      reads this, buffer
    {
      && Ordered() && Summed() && curBlock == -1 && nextBlock == -1 && byteOffs >= bpc
      && |log| == Pages(cpb, nErased) && Flat(datas) <= all && |all| >= Size(bpc, Pages(cpb, nErased)) + bpc
    }

    /** The stream is open for writing: it is broken exactly if all pages of all erased blocks have been written and
        one more page has been filled. */
    ghost predicate Open()
      reads this, buffer
    {
      if |all| < Size(bpc, Pages(cpb, nErased)) + bpc then Writing() else Broken()
    }

    /** Finds the next erased block for the checkpoint. */
    method FindErasedBlock()
      requires |states| == end + 1
      modifies this`curBlock, this`nextBlock
      ensures if 0 <= old(nextBlock) && nErased - nReserved > 0 && HasErased(states, old(nextBlock))
              then FirstErased(states, old(nextBlock), curBlock) && nextBlock == curBlock + 1
              else curBlock == -1 && nextBlock == -1
    {
      if nextBlock >= 0 && nextBlock <= end && nErased - nReserved > 0 {
        var i := nextBlock;
        while i <= end
          invariant nextBlock <= i <= end + 1
          invariant forall j :: nextBlock <= j < i ==> !states[j].Empty?
        {
          if states[i].Empty? {
            nextBlock := i + 1;
            curBlock := i;
            return;
          }
          i := i + 1;
        }
      }
      nextBlock := -1;
      curBlock := -1;
    }

    /** Goes on to the next erased block if there is none at hand. */
    method PickBlock()
      requires Pending()
      modifies this`curBlock, this`curChunk, this`nextBlock
      ensures curBlock >= 0 <==> |log| < Pages(cpb, nErased)
      ensures curBlock >= 0 ==>
                && Aimed(cpb, start, end, flash, states, log, curBlock, curChunk) && nextBlock == curBlock + 1
                && Passed(states, start, curBlock) && |log| == Pages(cpb, blocksIn) + if curChunk == 0 then 0
                  else curChunk - cpb
      ensures curBlock < 0 ==> curBlock == -1 && nextBlock == -1
    {
      hide Chain, Holds, Tidy, BlocksOf, CountEmpty, HasErased, Passed, Pages, Size;
      ghost var cur0, chunk0, next0 := curBlock, curChunk, nextBlock;
      NextInRange(cpb, start, log, curBlock, curChunk, nextBlock);
      TidyLength(start, end, flash, states);
      PagesLeft(states, start, end, cpb, blocksIn, nErased, |log|, curBlock, curChunk, nextBlock);
      if curBlock < 0 {
        FindErasedBlock();
        curChunk := 0;
        if curBlock >= 0 { PassedOn(states, start, next0, curBlock); }
      } else {
        PassedLess(states, start, nextBlock, curBlock);
      }
      if curBlock >= 0 { ChainGrows(cpb, start, log, cur0, chunk0, next0, Loc(curBlock, curChunk)); }
    }

    /** Writes the buffer to the next page, which has not been written since its block was erased.  This fails exactly
        if all pages of all erased blocks have been written. */
    method FlushBuffer() returns (ok: bool)
      requires Pending()
      modifies this, buffer
      ensures ok <==> old(|log|) < Pages(cpb, nErased)
      ensures ok ==> Pending() && byteOffs == 0 && datas == old(datas) + [old(buffer[..])]
      ensures ok ==> PageAdded(old(flash), old(states), old(log), flash, states, log)
      ensures !ok ==> Ordered() && byteOffs == old(byteOffs) && flash == old(flash) && states == old(states) &&
                      log == old(log) && datas == old(datas) && curBlock == -1 && nextBlock == -1
      ensures nErased == old(nErased) && nFree == old(nFree) && sum == old(sum) && xor == old(xor) && all == old(all)
      ensures !ok ==> buffer[..] == old(buffer[..])
    {
      hide Chain, Holds, Tidy, BlocksOf, CountEmpty, HasErased, Aimed, At, PageAdded, Passed, Pages, Size;
      PickBlock();
      if curBlock < 0 { return false; }
      AimedAt(cpb, start, end, bpc, flash, states, log, datas, Loc(curBlock, curChunk), buffer[..]);
      PassedBlock(states, start, curBlock, curChunk);
      MoreBlocks(cpb, blocksIn);
      ProgramPage();
      ok := true;
    }

    /** Writes the buffer to the page at hand, and empties it. */
    method ProgramPage()
      requires 0 <= curBlock < |states|
      modifies this`flash, this`states, this`blocksIn, this`byteOffs, this`pageSeq, this`curBlock, this`curChunk
      modifies this`log, this`datas, buffer
      ensures flash == old(flash)[Loc(old(curBlock), old(curChunk)) :=
                                  Page(old(buffer[..]), nextBlock, old(pageSeq) + 1, SEQUENCE_CHECKPOINT_DATA)]
      ensures states == if old(curChunk) == 0 then old(states)[old(curBlock) := Checkpoint] else old(states)
      ensures blocksIn == if old(curChunk) == 0 then old(blocksIn) + 1 else old(blocksIn)
      ensures byteOffs == 0 && pageSeq == old(pageSeq) + 1 && forall i :: 0 <= i < buffer.Length ==> buffer[i] == 0
      ensures curBlock == (if old(curChunk) + 1 >= cpb then -1 else old(curBlock))
      ensures curChunk == (if old(curChunk) + 1 >= cpb then 0 else old(curChunk) + 1)
      ensures log == old(log) + [Loc(old(curBlock), old(curChunk))] && datas == old(datas) + [old(buffer[..])]
    {
      if curChunk == 0 {
        states := states[curBlock := Checkpoint];
        blocksIn := blocksIn + 1;
      }
      Program(Loc(curBlock, curChunk), buffer[..]);
      curChunk := curChunk + 1;
      if curChunk >= cpb {
        curChunk := 0;
        curBlock := -1;
      }
    }

    method Program(l: Loc, data: Bytes)
      modifies this`flash, this`byteOffs, this`pageSeq, this`log, this`datas, buffer
      ensures flash == old(flash)[l := Page(data, nextBlock, old(pageSeq) + 1, SEQUENCE_CHECKPOINT_DATA)]
      ensures byteOffs == 0 && pageSeq == old(pageSeq) + 1 && forall i :: 0 <= i < buffer.Length ==> buffer[i] == 0
      ensures log == old(log) + [l] && datas == old(datas) + [data]
    {
      flash := flash[l := Page(data, nextBlock, pageSeq + 1, SEQUENCE_CHECKPOINT_DATA)];
      byteOffs := 0;
      pageSeq := pageSeq + 1;
      log, datas := log + [l], datas + [data];
      forall i | 0 <= i < buffer.Length { buffer[i] := 0; }
    }

    /** Puts one byte into the buffer. */
    method Store(b: Byte)
      requires Writing()
      modifies this`sum, this`xor, this`byteOffs, this`all, buffer
      ensures Pending() && byteOffs == old(byteOffs) + 1 && all == old(all) + [b] == Written() && Summed()
    {
      hide Chain, Holds, Tidy, BlocksOf, CountEmpty, At, Flat, SumOf, XorOf, Unwritten, Passed, Pages, Size;
      ghost var f, head := Flat(datas), buffer[..byteOffs];
      Count(b);
      byteOffs := byteOffs + 1;
      Fill(byteOffs - 1, b);
      assert f + (head + [b]) == f + head + [b];
    }

    method Count(b: Byte)
      requires Summed()
      modifies this`sum, this`xor, this`all
      ensures Summed() && all == old(all) + [b]
    {
      SumMore(all, b);
      sum := (sum + b) % 0x1_0000_0000;
      xor := Xor(xor, b);
      all := all + [b];
    }

    method Fill(i: nat, b: Byte)
      requires i < buffer.Length
      modifies buffer
      ensures buffer[..i + 1] == old(buffer[..i]) + [b]
      ensures forall k :: i < k < buffer.Length ==> buffer[k] == old(buffer[k])
    {
      buffer[i] := b;
    }

    /** Appends one byte to the stream, and writes out the buffer when that fills it. */
    method PutByte(b: Byte) returns (ok: bool)
      requires Open()
      modifies this, buffer
      ensures Open() && all == old(all) + [b] && Claimed(old(states), old(log), states, log)
      ensures ok <==> Writing()
      ensures ok <==> |all| < Size(bpc, Pages(cpb, nErased)) + bpc
      ensures nErased == old(nErased) && nFree == old(nFree)
    {
      hide Chain, Holds, Tidy, BlocksOf, CountEmpty, HasErased, At, PageAdded, Flat, SumOf, XorOf, Claimed, Unwritten,
        Passed, Pages, Size;
      NothingClaimed(states, log);
      WrittenLength(log, datas, bpc, flash);
      if byteOffs >= bpc {
        Lose(b);
        ok := false;
      } else {
        Store(b);
        ok := true;
        if byteOffs >= bpc {
          ok := FlushFull();
        } else {
          FullPages(|log|, nErased, blocksIn, cpb, bpc, curBlock, curChunk);
        }
      }
    }

    /** A byte that comes after a failed flush falls outside of the page; the flush is tried again, in vain. */
    method Lose(b: Byte)
      requires Broken()
      modifies this`sum, this`xor, this`all, this`byteOffs, this`curChunk
      ensures Broken() && all == old(all) + [b]
    {
      hide Chain, Holds, Tidy, BlocksOf, CountEmpty, Flat, SumOf, XorOf, Pages, Size;
      Count(b);
      byteOffs := byteOffs + 1;
      curChunk := 0;
    }

    /** Writes out the full buffer. */
    method FlushFull() returns (ok: bool)
      requires Pending() && byteOffs == bpc && all == Written() && Summed()
      modifies this, buffer
      ensures Open() && all == old(all) && Claimed(old(states), old(log), states, log)
      ensures ok <==> Writing()
      ensures ok <==> |all| < Size(bpc, Pages(cpb, nErased)) + bpc
      ensures nErased == old(nErased) && nFree == old(nFree)
    {
      hide Chain, Holds, Tidy, BlocksOf, CountEmpty, HasErased, At, PageAdded, Flat, SumOf, XorOf, Claimed, Unwritten,
        Passed, Pages, Size;
      NothingClaimed(states, log);
      WrittenLength(log, datas, bpc, flash);
      ghost var w, d, log0, datas0, flash0 := Written(), buffer[..], log, datas, flash;
      assert d == buffer[..byteOffs];
      FullPages(|log|, nErased, blocksIn, cpb, bpc, curBlock, curChunk);
      ok := FlushBuffer();
      if ok {
        FlatMore(datas0, d);
        assert buffer[..0] == [];
        assert Written() == w;
        PageClaimed(flash0, old(states), log0, flash, states, log);
      }
    }

    /** Appends `data`.  Not all of it is in the stream if no erased block was left to write the buffer to; but if that
        happened at the very last byte, or a byte is all there is after that, nothing is reported. */
    method Wr(data: Bytes) returns (n: nat)
      requires Open()
      modifies this, buffer
      ensures Open() && n <= |data| && all == old(all) + data[..n] && Claimed(old(states), old(log), states, log)
      ensures var lim := Size(bpc, Pages(cpb, nErased)) + bpc;
              n == if |old(all)| < lim then Min(|data|, lim - |old(all)|) else Min(|data|, 1)
      ensures nErased == old(nErased) && nFree == old(nFree)
    {
      hide Chain, Holds, Tidy, BlocksOf, CountEmpty, HasErased, At, Flat, SumOf, XorOf, Claimed, Unwritten, Passed,
        Writing, Broken, Pages, Size;
      n := 0;
      var ok := true;
      ghost var lim := Size(bpc, Pages(cpb, nErased)) + bpc;
      NothingClaimed(states, log);
      assert all + data[..0] == all;
      while n < |data| && ok
        invariant n <= |data| && Open() && all == old(all) + data[..n] && Claimed(old(states), old(log), states, log)
        invariant ok <==> n == 0 || |all| < lim
        invariant n > 0 && !ok ==> |all| == lim || n == 1
        invariant nErased == old(nErased) && nFree == old(nFree)
      {
        ghost var states0, log0 := states, log;
        ok := PutByte(data[n]);
        ClaimedOn(old(states), old(log), states0, log0, states, log);
        assert data[..n + 1] == data[..n] + [data[n]];
        n := n + 1;
      }
    }

    /** Erases all checkpoint blocks. */
    method Erase()
      requires Layout() && Tidy(start, end, flash, states)
      modifies this`flash, this`states, this`nErased, this`nFree, this`blocksIn
      ensures Layout() && Tidy(start, end, flash, states) && blocksIn == 0
              && states == Freed(old(states), start, end + 1)
      ensures flash == Survivors(old(flash), old(states), start, end + 1) && forall l: Loc :: !IsMarked(flash, l)
      ensures nErased - CountEmpty(states, start, end + 1) == old(nErased) - CountEmpty(old(states), start, end + 1)
      ensures nFree - cpb * nErased == old(nFree) - cpb * old(nErased)
    {
      hide CountEmpty, Tidy, Pages, Size;
      TidyLength(start, end, flash, states);
      NothingErased(flash, states, start);
      var i := start;
      while i <= end
        invariant start <= i <= end + 1 && |states| == end + 1
        invariant states == Freed(old(states), start, i) && flash == Survivors(old(flash), old(states), start, i)
        invariant nErased - CountEmpty(states, start, end + 1) == old(nErased) - CountEmpty(old(states), start, end + 1)
        invariant nFree - cpb * nErased == old(nFree) - cpb * old(nErased)
      {
        OneErased(old(flash), old(states), start, i);
        if states[i].Checkpoint? {
          CountChanged(states, start, end + 1, i, Empty);
          flash := Erased(flash, i);
          states := states[i := Empty];
          nErased := nErased + 1;
          nFree := nFree + cpb;
        }
        i := i + 1;
      }
      AllErased(start, end, old(flash), old(states));
      blocksIn := 0;
    }

    /** Opens the stream for writing, if there is space for it; any checkpoint on flash is erased. */
    method OpenWrite() returns (ok: bool)
      requires Layout() && Tidy(start, end, flash, states) && nErased == CountEmpty(states, start, end + 1)
      modifies this, buffer
      ensures ok == (old(nErased) - nReserved > 0)
      ensures ok ==> Open() && all == [] && log == [] && states == Freed(old(states), start, end + 1)
      ensures ok ==> nErased == CountEmpty(states, start, end + 1)
      ensures ok ==> nFree - cpb * nErased == old(nFree) - cpb * old(nErased)
      ensures !ok ==> flash == old(flash) && states == old(states) && nErased == old(nErased) && nFree == old(nFree)
    {
      hide CountEmpty, Tidy, Chain, Holds, At, Freed, Flat, SumOf, XorOf, BlocksOf, Unwritten, Pages, Size;
      ok := nErased - nReserved > 0;
      if ok {
        ErasedMore(states, start, end + 1, start, end + 1);
        Erase();
        MoreBlocks(cpb, 0);
        SomeRoom(bpc, cpb, nErased);
        ResetWrite();
        NoCheckpoint(cpb, start, bpc, flash);
        assert buffer[..0] == [];
        assert Written() == [];
      } else {
        openWrite := true;
      }
    }

    method ResetWrite()
      modifies this`openWrite, this`pageSeq, this`sum, this`xor, this`curBlock, this`curChunk, this`nextBlock,
               this`byteOffs
      modifies this`log, this`datas, this`all, buffer
      ensures openWrite && all == [] && pageSeq == 0 && sum == 0 && xor == 0 && curBlock == -1 && curChunk == 0
      ensures nextBlock == start && byteOffs == 0
      ensures log == [] && datas == [] && forall i :: 0 <= i < buffer.Length ==> buffer[i] == 0
    {
      openWrite := true;
      pageSeq, sum, xor := 0, 0, 0;
      curBlock, curChunk, nextBlock := -1, 0, start;
      byteOffs := 0;
      log, datas, all := [], [], [];
      forall i | 0 <= i < buffer.Length { buffer[i] := 0; }
    }

    /** Ends the writing of the stream: the rest of the last page is padded with zeros.  That the last page found no
        block is not reported. */
    method CloseWrite() returns (ghost flushed: bool)
      requires Open()
      modifies this, buffer
      ensures flushed <==> |all| <= Size(bpc, Pages(cpb, old(nErased)))
      ensures Layout() && Tidy(start, end, flash, states) && Chain(cpb, start, log) && Holds(bpc, flash, log, datas)
      ensures if flushed then all <= Flat(datas) && |Flat(datas)| < |all| + bpc
              else Flat(datas) <= all && |Flat(datas)| == Size(bpc, Pages(cpb, old(nErased)))
      ensures Claimed(old(states), old(log), states, log) && all == old(all)
      ensures blocksIn == |BlocksOf(log)| && nErased == old(nErased) - blocksIn && nFree == old(nFree) - blocksIn * cpb
      ensures nErased == CountEmpty(states, start, end + 1)
    {
      hide Chain, Holds, Tidy, BlocksOf, CountEmpty, HasErased, At, Flat, SumOf, XorOf, Claimed, Unwritten, Passed,
        Pages, Size;
      NothingClaimed(states, log);
      WrittenLength(log, datas, bpc, flash);
      flushed := true;
      if byteOffs >= bpc {
        flushed := false;
        curChunk := 0;
      } else if byteOffs != 0 {
        flushed := FlushLast();
      } else {
        FullPages(|log|, nErased, blocksIn, cpb, bpc, curBlock, curChunk);
        assert buffer[..0] == [];
      }
      nFree := nFree - blocksIn * cpb;
      nErased := nErased - blocksIn;
    }

    /** Writes out the last page. */
    method FlushLast() returns (ghost flushed: bool)
      requires Writing() && byteOffs != 0
      modifies this, buffer
      ensures Ordered() && all == old(all) && nErased == old(nErased) && nFree == old(nFree)
      ensures flushed <==> |all| <= Size(bpc, Pages(cpb, nErased))
      ensures if flushed then all <= Flat(datas) && |Flat(datas)| < |all| + bpc
              else Flat(datas) <= all && |Flat(datas)| == Size(bpc, Pages(cpb, nErased))
      ensures Claimed(old(states), old(log), states, log)
    {
      hide Chain, Holds, Tidy, BlocksOf, CountEmpty, HasErased, At, PageAdded, Flat, SumOf, XorOf, Claimed, Unwritten,
        Passed, Pages, Size;
      NothingClaimed(states, log);
      WrittenLength(log, datas, bpc, flash);
      ghost var d, log0, datas0, flash0 := buffer[..], log, datas, flash;
      FullPages(|log|, nErased, blocksIn, cpb, bpc, curBlock, curChunk);
      assert d[..byteOffs] == buffer[..byteOffs];
      var ok := FlushBuffer();
      flushed := ok;
      if ok {
        FlatMore(datas0, d);
        PageClaimed(flash0, old(states), log0, flash, states, log);
      }
    }

    // ---------- Reading ----------

    /** The stream is being read: `got` has been read, and the rest of the page read last is in the buffer. */
    ghost predicate Reading()
      reads this, buffer
    {
      && Layout() && !openWrite
      && Chain(cpb, start, log) && Holds(bpc, flash, log, datas) && (forall k :: 0 <= k < |log| ==> log[k].block <= end)
      && pageSeq <= |log| == |datas| && At(cpb, start, log, pageSeq, curBlock, curChunk, nextBlock)
      && byteOffs <= bpc && got + buffer[byteOffs..] == Flat(datas[..pageSeq])
      && blocksIn <= maxBlocks == |blockList| && blockList[..blocksIn] == BlocksOf(log[..pageSeq])
      && sum == SumOf(got) && xor == XorOf(got)
    }

    /** Opens the stream for reading, given what checkpoint is on flash. */
    method OpenRead(ghost log: seq<Loc>, ghost datas: seq<Bytes>)
      requires Layout() && Chain(cpb, start, log) && Holds(bpc, flash, log, datas) && forall k :: 0 <= k < |log| ==>
               log[k].block <= end
      modifies this
      ensures Reading() && got == [] && this.log == log && this.datas == datas && pageSeq == 0
      ensures maxBlocks == (end - start) / 16 + 2
      ensures flash == old(flash) && states == old(states) && nErased == old(nErased) && nFree == old(nFree)
    {
      hide Tidy, Chain, Holds, Flat, SumOf, XorOf, BlocksOf;
      ResetRead();
      this.log, this.datas, got := log, datas, [];
      NothingRead(bpc, flash, log, datas);
      assert buffer[bpc..] == [] && blockList[..0] == [];
    }

    method ResetRead()
      requires start <= end
      modifies this`openWrite, this`pageSeq, this`sum, this`xor, this`curBlock, this`curChunk, this`nextBlock,
               this`byteOffs
      modifies this`blocksIn, this`maxBlocks, this`blockList
      ensures !openWrite && pageSeq == 0 && sum == 0 && xor == 0 && curBlock == -1 && nextBlock == start
              && byteOffs == bpc
      ensures blocksIn == 0 && maxBlocks == (end - start) / 16 + 2 == |blockList|
    {
      openWrite := false;
      pageSeq, sum, xor := 0, 0, 0;
      curBlock, curChunk, nextBlock := -1, 0, start;
      byteOffs := bpc;
      blocksIn := 0;
      maxBlocks := (end - start) / 16 + 2;
      blockList := seq(maxBlocks, _ => -1);
    }

    /** Finds the next block of the checkpoint, from where the hint points on. */
    method FindBlock()
      requires nextBlock >= 0 && blocksIn <= maxBlocks == |blockList|
      modifies this`curBlock, this`nextBlock, this`blocksIn, this`blockList
      ensures curBlock >= 0 <==>
              old(blocksIn) < maxBlocks && exists b :: old(nextBlock) <= b <= end && IsMarked(flash, Loc(b, 0))
      ensures curBlock >= 0 ==>
              FirstMarked(flash, old(nextBlock), end, curBlock)
              && nextBlock == flash[Loc(curBlock, 0)].hint && flash[Loc(curBlock, 0)].seqNumber == 0x21
              && forall b :: old(nextBlock) <= b < curBlock && Loc(b, 0) in flash ==> flash[Loc(b, 0)].seqNumber != 0x21
      ensures curBlock >= 0 ==> blocksIn == old(blocksIn) + 1 && blockList == old(blockList)[old(blocksIn) := curBlock]
      ensures curBlock < 0 ==> blocksIn == old(blocksIn) && blockList == old(blockList)
    {
      if blocksIn < maxBlocks {
        var i := nextBlock;
        while i <= end
          invariant nextBlock <= i && forall j :: nextBlock <= j < i ==> !IsMarked(flash, Loc(j, 0))
        {
          if IsMarked(flash, Loc(i, 0)) {
            nextBlock := flash[Loc(i, 0)].hint;
            curBlock := i;
            blockList := blockList[blocksIn := i];
            blocksIn := blocksIn + 1;
            return;
          }
          i := i + 1;
        }
      }
      nextBlock := -1;
      curBlock := -1;
    }

    /** Goes on to the block of the next page, if that is another one; gives back whether there is a next page. */
    method SeekPage() returns (ok: bool)
      requires Reading() && byteOffs == bpc
      modifies this`curBlock, this`curChunk, this`nextBlock, this`blocksIn, this`blockList
      ensures ok <==> pageSeq < |log| && !Stuck(log, pageSeq, maxBlocks)
      ensures ok ==> Loc(curBlock, curChunk) == log[pageSeq] && nextBlock == curBlock + 1 && curBlock >= 0
      ensures ok ==> blocksIn <= maxBlocks == |blockList| && blockList[..blocksIn] == BlocksOf(log[..pageSeq + 1])
      ensures !ok ==> blocksIn == old(blocksIn) && blockList == old(blockList)
    {
      hide Chain, Holds, Tidy, Flat, SumOf, XorOf, BlocksOf;
      Turn(bpc, cpb, start, end, flash, log, datas, pageSeq, curBlock, curChunk, nextBlock);
      if pageSeq < |log| { BlocksGrow(log, pageSeq); }
      if curBlock < 0 {
        FindBlock();
        curChunk := 0;
        ok := curBlock >= 0;
      } else {
        var l := Loc(curBlock, curChunk);
        ok := IsMarked(flash, l) && flash[l].chunkId == pageSeq + 1;
      }
    }

    /** Reads the next page of the checkpoint into the buffer. */
    method NextPage() returns (ok: bool)
      requires Reading() && byteOffs == bpc
      modifies this`curBlock, this`curChunk, this`nextBlock, this`blocksIn, this`blockList, this`byteOffs, this`pageSeq,
               buffer
      ensures ok <==> old(pageSeq) < |log| && !Stuck(log, old(pageSeq), maxBlocks)
      ensures ok ==> Reading() && byteOffs == 0
      ensures !ok ==>
              byteOffs == bpc && pageSeq == old(pageSeq) && blocksIn == old(blocksIn)
              && blockList == old(blockList)
    {
      hide Chain, Holds, Tidy, Flat, SumOf, XorOf, BlocksOf, Stuck;
      assert buffer[bpc..] == [];
      ok := SeekPage();
      if ok {
        PageIs(bpc, flash, log, datas, pageSeq);
        ChainIndex(cpb, start, log, pageSeq);
        FlatGrows(datas, pageSeq);
        LoadPage(flash[Loc(curBlock, curChunk)].data);
      }
    }

    method LoadPage(data: Bytes)
      requires |data| == buffer.Length
      modifies this`curBlock, this`curChunk, this`byteOffs, this`pageSeq, buffer
      ensures buffer[0..] == data && byteOffs == 0 && pageSeq == old(pageSeq) + 1 && curChunk == old(curChunk) + 1
      ensures curBlock == if curChunk >= cpb then -1 else old(curBlock)
    {
      forall i | 0 <= i < buffer.Length { buffer[i] := data[i]; }
      byteOffs := 0;
      pageSeq := pageSeq + 1;
      curChunk := curChunk + 1;
      if curChunk >= cpb { curBlock := -1; }
    }

    /** Takes the next byte out of the buffer. */
    method TakeByte() returns (b: Byte)
      requires Reading() && byteOffs < bpc
      modifies this`sum, this`xor, this`byteOffs, this`got
      ensures Reading() && got == old(got) + [b]
    {
      hide Chain, Holds, Tidy, Flat, SumOf, XorOf, BlocksOf, At;
      b := buffer[byteOffs];
      SumMore(got, b);
      sum := (sum + b) % 0x1_0000_0000;
      xor := Xor(xor, b);
      assert buffer[byteOffs..] == [b] + buffer[byteOffs + 1..];
      byteOffs := byteOffs + 1;
      got := got + [b];
    }

    /** Reads the next byte, from the next page if need be. */
    method NextByte() returns (ok: bool, b: Byte)
      requires Reading()
      modifies this`curBlock, this`curChunk, this`nextBlock, this`blocksIn, this`blockList, this`byteOffs, this`pageSeq
      modifies this`sum, this`xor, this`got, buffer
      ensures ok ==> Reading() && got == old(got) + [b]
      ensures !ok ==> got == old(got) && Ended()
    {
      hide Chain, Holds, Tidy, Flat, SumOf, XorOf, BlocksOf, At, Stuck;
      ok, b := true, 0;
      if byteOffs >= bpc {
        assert buffer[bpc..] == [];
        ok := NextPage();
      }
      if ok { b := TakeByte(); }
    }

    /** All that there is to read has been read. */
    ghost predicate Ended()
      reads this
    {
      && Layout() && pageSeq <= |log| == |datas| && got == Flat(datas[..pageSeq])
        && (pageSeq == |log| || Stuck(log, pageSeq, maxBlocks))
      && blocksIn <= |blockList| == maxBlocks && blockList[..blocksIn] == BlocksOf(log[..pageSeq])
    }

    /** The bytes that reading gets to see: those of the pages before the first block that is not looked for. */
    ghost function Visible(): Bytes
      requires |datas| == |log|
      reads this
    {
      Flat(datas[..Reach(log, maxBlocks)])
    }

    lemma ReadSoFar()
      requires Reading()
      ensures |datas| == |log| && got <= Visible()
    {
      hide Chain, Holds, Tidy, Flat, SumOf, XorOf, BlocksOf, At, Reach;
      InReach(log, pageSeq, maxBlocks);
      FlatPrefix(datas[..Reach(log, maxBlocks)], pageSeq);
      assert datas[..Reach(log, maxBlocks)][..pageSeq] == datas[..pageSeq];
    }

    lemma ReadAll()
      requires Ended()
      ensures |datas| == |log| && got == Visible()
    {
      hide Flat, BlocksOf, Reach;
      ReachIs(log, pageSeq, maxBlocks);
    }

    /** Reads up to `n` bytes.  There are fewer only if the checkpoint ends, or has more blocks than are looked for. */
    method Rd(n: nat) returns (data: Bytes)
      requires Reading()
      modifies this`curBlock, this`curChunk, this`nextBlock, this`blocksIn, this`blockList, this`byteOffs, this`pageSeq
      modifies this`sum, this`xor, this`got, buffer
      ensures |data| <= n && got == old(got) + data
      ensures if |data| == n then Reading() else Ended()
      ensures |datas| == |log| && got <= Visible() && (|data| < n ==> got == Visible())
    {
      hide *;
      data := [];
      var ok := true;
      while |data| < n && ok
        invariant |data| <= n && got == old(got) + data && (ok ==> Reading()) && (!ok ==> |data| < n && Ended())
        decreases n - |data|, ok
      {
        var b;
        ok, b := NextByte();
        if ok { data := data + [b]; }
      }
      if ok { ReadSoFar(); } else { ReadAll(); }
    }

    /** Ends the reading of the stream: the blocks visited count as checkpoint blocks from then on. */
    method CloseRead()
      requires Layout() && blocksIn <= |blockList| && forall k :: 0 <= k < blocksIn ==> start <= blockList[k] <= end
      modifies this`states, this`nFree, this`nErased
      ensures Layout() && states == Visited(old(states), blockList[..blocksIn])
      ensures nErased == old(nErased) - blocksIn && nFree == old(nFree) - blocksIn * cpb
    {
      var i: nat := 0;
      assert Visited(states, blockList[..0]) == states;
      while i < blocksIn && blockList[i] >= 0
        invariant i <= blocksIn && |states| == end + 1 && states == Visited(old(states), blockList[..i])
        invariant nFree == old(nFree) && nErased == old(nErased)
      {
        var blk := blockList[i];
        VisitedMore(old(states), blockList, i);
        if start <= blk <= end && states[blk].Empty? { states := states[blk := Checkpoint]; }
        i := i + 1;
      }
      nFree := nFree - blocksIn * cpb;
      nErased := nErased - blocksIn;
    }
  }

  lemma VisitedMore(states: seq<State>, blocks: seq<int>, i: nat)
    requires i < |blocks| && 0 <= blocks[i] < |states|
    ensures var s, b := Visited(states, blocks[..i]), blocks[i];
            Visited(states, blocks[..i + 1]) == if s[b].Empty? then s[b := Checkpoint] else s
  {
    assert blocks[..i + 1] == blocks[..i] + [blocks[i]];
  }

  lemma PageIs(bpc: nat, flash: Flash, log: seq<Loc>, datas: seq<Bytes>, k: nat)
    requires Holds(bpc, flash, log, datas) && k < |log|
    ensures log[k] in flash && |datas| == |log| && flash[log[k]].data == datas[k] && |datas[k]| == bpc
  {
  }

  /** The next page is in a block for which there is no room in the block list. */
  ghost predicate Stuck(log: seq<Loc>, r: nat, max: nat) {
    r < |log| && log[r].index == 0 && |BlocksOf(log[..r])| >= max
  }

  /** How many pages are in the first `max` blocks. */
  function Reach(log: seq<Loc>, max: nat): (r: nat)
    ensures r <= |log|
  {
    if log == [] || |BlocksOf(log)| <= max then |log| else Reach(log[..|log| - 1], max)
  }

  lemma {:induction false} BlocksPrefix(log: seq<Loc>, r: nat)
    requires r <= |log|
    ensures |BlocksOf(log[..r])| <= |BlocksOf(log)|
  {
    if r == |log| {
      assert log[..r] == log;
    } else {
      BlocksPrefix(log[..|log| - 1], r);
      assert log[..|log| - 1][..r] == log[..r];
    }
  }

  lemma {:induction false} InReach(log: seq<Loc>, r: nat, max: nat)
    requires r <= |log| && |BlocksOf(log[..r])| <= max
    ensures r <= Reach(log, max)
  {
    if log != [] && |BlocksOf(log)| > max {
      assert log[..|log|] == log;
      assert log[..|log| - 1][..r] == log[..r];
      InReach(log[..|log| - 1], r, max);
    }
  }

  lemma {:induction false} ReachIs(log: seq<Loc>, r: nat, max: nat)
    requires r <= |log| && |BlocksOf(log[..r])| <= max && (r == |log| || Stuck(log, r, max))
    ensures Reach(log, max) == r
  {
    if r == |log| {
      assert log[..r] == log;
    } else {
      BlocksGrow(log, r);
      BlocksPrefix(log, r + 1);
      var log' := log[..|log| - 1];
      assert log'[..r] == log[..r];
      if r < |log'| { assert log'[r] == log[r]; } else { assert log'[..r] == log'; }
      ReachIs(log', r, max);
    }
  }

  /** All pages are seen exactly if there is room for all blocks. */
  lemma AllInReach(log: seq<Loc>, max: nat)
    ensures Reach(log, max) == |log| <==> |BlocksOf(log)| <= max
  {
  }

  function Visited(states: seq<State>, blocks: seq<int>): (r: seq<State>)
    ensures |r| == |states|
  {
    seq(|states|, b requires 0 <= b < |states| => if b in blocks && states[b].Empty? then Checkpoint else states[b])
  }

  lemma ChainIndex(cpb: nat, start: int, log: seq<Loc>, k: nat)
    requires Chain(cpb, start, log) && k < |log|
    ensures log[k].index < cpb
  {
  }

  /** Where the page after the first `r` is found. */
  lemma Turn(bpc: nat, cpb: nat, start: int, end: int, flash: Flash, log: seq<Loc>, datas: seq<Bytes>, r: nat,
             cur: int, chunk: nat, next: int)
    requires Chain(cpb, start, log) && Holds(bpc, flash, log, datas) && r <= |log| && cpb > 0 && start >= 0
    requires At(cpb, start, log, r, cur, chunk, next) && forall k :: 0 <= k < |log| ==> log[k].block <= end
    ensures next >= 0
    ensures r < |log| ==>
            IsMarked(flash, log[r]) && flash[log[r]].hint == log[r].block + 1
            && flash[log[r]].chunkId == r + 1
    ensures cur < 0 ==> (r < |log| <==> exists b :: next <= b <= end && IsMarked(flash, Loc(b, 0)))
    ensures cur < 0 ==> forall b :: FirstMarked(flash, next, end, b) ==> r < |log| && log[r] == Loc(b, 0)
    ensures cur < 0 && r < |log| ==> log[r].index == 0
    ensures cur >= 0 ==>
            next == cur + 1 && chunk > 0
            && (if r < |log| then log[r] == Loc(cur, chunk) else !IsMarked(flash, Loc(cur, chunk)))
  {
    if cur < 0 {
      if r < |log| {
        if r > 0 {
          assert log[r - 1].index < cpb && log[r - 1].block >= start;
          assert Follows(cpb, log[r - 1], log[r]);
        }
        assert log[r] == Loc(log[r].block, 0) && next <= log[r].block <= end && IsMarked(flash, Loc(log[r].block, 0));
      }
      forall b | next <= b <= end && IsMarked(flash, Loc(b, 0))
        ensures r < |log| && log[r].index == 0 && next <= log[r].block <= b && IsMarked(flash, log[r])
      {
        FindsNext(bpc, cpb, start, flash, log, datas, r, next, b);
      }
      forall b | FirstMarked(flash, next, end, b) ensures r < |log| && log[r] == Loc(b, 0) {
        assert log[r] == Loc(log[r].block, 0);
      }
    } else {
      NoPageBeyond(bpc, cpb, start, flash, log, datas, r);
    }
  }

  /** Page `chunk` of block `cur` is the one to be written next. */
  ghost predicate Aimed(cpb: nat, start: nat, end: nat, flash: Flash, states: seq<State>, log: seq<Loc>, cur: int,
                        chunk: nat)
  {
    && start <= cur <= end && end < |states| && chunk < cpb && Unwritten(flash, cur, chunk)
    && (if chunk == 0 then states[cur].Empty? else states[cur].Checkpoint?)
    && Chain(cpb, start, log + [Loc(cur, chunk)]) && Loc(cur, chunk) !in log
  }

  /** One more page was written: to an erased block, which is a checkpoint block from then on, or to a checkpoint block.
      Nothing that was on flash before was touched. */
  ghost predicate PageAdded(flash: Flash, states: seq<State>, log: seq<Loc>, flash': Flash, states': seq<State>,
                            log': seq<Loc>)
  {
    && |log'| == |log| + 1 && log'[..|log|] == log && log'[|log|] !in flash
    && (forall l :: l in flash ==> l in flash' && flash'[l] == flash[l])
    && var l := log'[|log|];
       && 0 <= l.block < |states|
       && (l.index == 0 ==> states[l.block].Empty?)
       && states' == if l.index == 0 then states[l.block := Checkpoint] else states
  }

  /** As pages were added, erased blocks became checkpoint blocks; no other state changed. */
  ghost predicate Claimed(states: seq<State>, log: seq<Loc>, states': seq<State>, log': seq<Loc>) {
    && |states'| == |states| && log <= log'
    && forall b :: 0 <= b < |states| ==>
         states'[b] == states[b] || (states[b].Empty? && states'[b].Checkpoint? && b in BlocksOf(log'))
  }

  lemma NothingClaimed(states: seq<State>, log: seq<Loc>)
    ensures Claimed(states, log, states, log)
  {
  }

  lemma {:induction false} BlocksStay(log: seq<Loc>, log': seq<Loc>, b: int)
    requires log <= log' && b in BlocksOf(log)
    ensures b in BlocksOf(log')
  {
    if log == log' {
    } else {
      BlocksStay(log, log'[..|log'| - 1], b);
    }
  }

  lemma ClaimedOn(s0: seq<State>, l0: seq<Loc>, s1: seq<State>, l1: seq<Loc>, s2: seq<State>, l2: seq<Loc>)
    requires Claimed(s0, l0, s1, l1) && Claimed(s1, l1, s2, l2)
    ensures Claimed(s0, l0, s2, l2)
  {
    hide BlocksOf;
    forall b | 0 <= b < |s0| && s2[b] != s0[b] ensures s0[b].Empty? && s2[b].Checkpoint? && b in BlocksOf(l2) {
      if b in BlocksOf(l1) { BlocksStay(l1, l2, b); }
    }
  }

  lemma PageClaimed(flash: Flash, states: seq<State>, log: seq<Loc>, flash': Flash, states': seq<State>, log': seq<Loc>)
    requires PageAdded(flash, states, log, flash', states', log')
    ensures Claimed(states, log, states', log')
  {
  }

  /** What writing the page aimed at does. */
  lemma AimedAt(cpb: nat, start: nat, end: nat, bpc: nat, flash: Flash, states: seq<State>, log: seq<Loc>,
                datas: seq<Bytes>, l: Loc, d: Bytes)
    requires start <= end && Tidy(start, end, flash, states) && Holds(bpc, flash, log, datas) && |d| == bpc
    requires Aimed(cpb, start, end, flash, states, log, l.block, l.index)
    ensures var flash' := flash[l := Page(d, l.block + 1, |log| + 1, SEQUENCE_CHECKPOINT_DATA)];
            var states' := if l.index == 0 then states[l.block := Checkpoint] else states;
            var cur, chunk := if l.index + 1 < cpb then l.block else -1, if l.index + 1 < cpb then l.index + 1 else 0;
            && start <= l.block <= end < |states| && l.index < cpb && (l.index > 0 ==> states[l.block].Checkpoint?)
            && Tidy(start, end, flash', states') && Holds(bpc, flash', log + [l], datas + [d])
              && Chain(cpb, start, log + [l])
            && PageAdded(flash, states, log, flash', states', log + [l])
            && At(cpb, start, log + [l], |log + [l]|, cur, chunk, l.block + 1)
            && (cur >= 0 ==> cur <= end && chunk > 0 && states'[cur].Checkpoint? && Unwritten(flash', cur, chunk))
            && |BlocksOf(log + [l])| == |BlocksOf(log)| + (if l.index == 0 then 1 else 0)
            && CountEmpty(states', start, end + 1) + |BlocksOf(log + [l])| == CountEmpty(states, start, end + 1)
              + |BlocksOf(log)|
  {
    hide Chain, Holds, Tidy, BlocksOf, CountEmpty;
    TidyLength(start, end, flash, states);
    HoldsMore(bpc, flash, log, datas, l, d);
    TidyMore(start, end, flash, states, l, Page(d, l.block + 1, |log| + 1, SEQUENCE_CHECKPOINT_DATA));
    LastBlocks(log, l);
    if l.index == 0 { CountChanged(states, start, end + 1, l.block, Checkpoint); }
  }
}
