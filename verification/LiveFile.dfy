/**
 A file that is written, cut and stretched on a device on which blocks are collected, and other files are written, at
 the same time.  At rest the chunks of the file are what the log of the device holds below its size, and a scan of the
 blocks finds the very same file, byte by byte.  Caching is off, and positions and sizes have 32 bits.
 */
module LiveFile {
  import opened BackwardScan
  import opened ChunkMath
  import opened Common
  import opened Contents
  import opened Device
  import opened DeviceLog
  import opened Journal
  import opened Mount
  import opened Owners
  import opened Space
  import A = ChunkAddress
  import F = FileCache
  import L = FlashLog

  /** How many positions there are. */
  const LOFF: Width := 0x1_0000_0000

  /** A size cut down to 32 bits. */
  function SizeWord(x: nat): (r: nat)
    ensures r < LOFF && (x < LOFF ==> r == x)
  {
    x % LOFF
  }

  // ---------- Chunk arithmetic ----------

  /** The chunk at position `off`, how much of a request of `n` bytes falls into it, and how much of the chunk is
      programmed: what is copied, and what the file already has behind it, a 32-bit number.  A position that does not
      fit into 32 bits is cut down to them. */
  method PartOf(c: nat, size: nat, off: nat, n: nat) returns (chunk: nat, start: nat, nCopy: nat, writeback: nat)
    requires 1 < c < WORD && n > 0 && size < LOFF
    ensures chunk > 0 && 0 < nCopy <= n && start + nCopy <= writeback <= c
    ensures off < LOFF ==> IsPart(c, size, off, n, chunk, start, nCopy, writeback)
    ensures off >= LOFF ==> L.Base(c, chunk) + start == off % LOFF
  {
    hide Quo, Rem, A.SplitPos, A.Landing, IsPart;
    A.SplitLands(c, LOFF, off);
    A.Limit32(c);
    var (q0, rest) := A.SplitPos(c, LOFF, off);
    var q := A.ToWord(q0);
    chunk, start := q + 1, rest;
    if start + n < c {
      nCopy := n;
      var chunkStart := q * c;
      var read := if chunkStart > size then 0 else Min((size - chunkStart) % WORD, c);
      writeback := Max(read, start + n);
    } else {
      nCopy, writeback := c - start, c;
    }
    NextChunk(c, q);
    if off < LOFF {
      RightPart(c, size, off, n, nCopy, writeback);
    } else {
      Around(c, off);
    }
  }

  /** Chunk `chunk` is where position `off` lies, the first `nCopy` bytes of the request go into it, and it is
      programmed up to the end of these, or of the file. */
  ghost predicate IsPart(c: nat, size: nat, off: nat, n: nat, chunk: nat, start: nat, nCopy: nat, writeback: nat)
    requires c > 0 && n > 0
  {
    && chunk == Quo(c, off) + 1 && start == Rem(c, off) && (size >= L.Base(c, chunk) + c ==> writeback == c)
    && L.Base(c, chunk) <= off && off + nCopy <= L.Base(c, chunk) + writeback <= Max(size, off + nCopy)
    && (size <= L.Base(c, chunk) + c ==> L.Base(c, chunk) + writeback == Max(off + nCopy, size))
    && (forall id: nat :: 0 < id && off <= L.Base(c, id) < off + nCopy ==> id == chunk)
    && (off < MAX_CHUNK_ID * c ==> chunk <= MAX_CHUNK_ID)
    && (if nCopy < n then Quo(c, off + nCopy) == Quo(c, off) + 1 else Quo(c, off + n - 1) == Quo(c, off))
  }

  lemma RightPart(c: nat, size: nat, off: nat, n: nat, nCopy: nat, writeback: nat)
    requires 0 < c < WORD && n > 0 && size < LOFF
    requires var q, start := Quo(c, off), Rem(c, off);
             if start + n < c then
               && nCopy == n
               && writeback == Max(if q * c > size then 0 else Min((size - q * c) % WORD, c), start + n)
             else nCopy == c - start && writeback == c
    ensures IsPart(c, size, off, n, Quo(c, off) + 1, Rem(c, off), nCopy, writeback)
  {
    hide Quo, Rem;
    var q, start := Quo(c, off), Rem(c, off);
    Split(c, off);
    NextChunk(c, q);
    if start + n < c {
      QuotientIs(c, q, off + n - 1);
    } else {
      QuotientIs(c, q + 1, off + nCopy);
      QuotientIs(c, q, off + nCopy - 1);
    }
    PartEnd(c, q * c, start, n, size, nCopy, writeback);
    forall id: nat | 0 < id && off <= L.Base(c, id) < off + nCopy ensures id == q + 1 { InChunk(c, q, id); }
    SmallEnough(c, q + 1);
  }

  lemma PartEnd(c: nat, base: nat, start: nat, n: nat, size: nat, nCopy: nat, writeback: nat)
    requires start < c < WORD && n > 0 && size < LOFF
    requires if start + n < c then
               && nCopy == n
               && writeback == Max(if base > size then 0 else Min((size - base) % WORD, c), start + n)
             else nCopy == c - start && writeback == c
    ensures base + start + nCopy <= base + writeback <= Max(size, base + start + nCopy)
    ensures size <= base + c ==> base + writeback == Max(base + start + nCopy, size)
    ensures size >= base + c ==> writeback == c
  {
  }

  /** What is programmed of a chunk goes to the end of the chunk, or of the file. */
  lemma WholeOrEnd(c: nat, size: nat, off: nat, n: nat, chunk: nat, start: nat, nCopy: nat, writeback: nat)
    requires c > 0 && n > 0 && IsPart(c, size, off, n, chunk, start, nCopy, writeback)
    ensures chunk == Quo(c, off) + 1 && start == Rem(c, off)
    ensures writeback == c || Quo(c, off) * c + writeback >= Max(size, off)
  {
    hide Quo, Rem;
    NextChunk(c, Quo(c, off));
  }

  lemma SpliceAll(s: F.Bytes, d: F.Bytes)
    requires |s| == |d|
    ensures Splice(s, 0, d) == d
  {
  }

  /** A position that does not fit into 32 bits is taken for what these say. */
  lemma Around(c: nat, off: nat)
    requires 1 < c < WORD
    ensures A.SplitPos(c, LOFF, off) == A.SplitPos(c, LOFF, off % LOFF)
    ensures var (q, start) := A.SplitPos(c, LOFF, off); q >= 0 && q * c + start == off % LOFF && start < c
  {
    hide A.Limit, Quo, Rem;
    A.Limit32(c);
    A.SplitLands(c, LOFF, off % LOFF);
    Split(c, off % LOFF);
  }

  lemma NextChunk(c: nat, q: nat)
    ensures L.Base(c, q + 1) == q * c && (q + 1) * c == q * c + c
  {
  }

  lemma InChunk(c: nat, q: nat, id: nat)
    requires c > 0 && id > 0 && q * c <= L.Base(c, id) < q * c + c
    ensures id == q + 1
  {
    assert (id - 1 - q) * c == L.Base(c, id) - q * c;
    MultipleSign(c, id - 1 - q);
  }

  lemma SmallEnough(c: nat, chunk: nat)
    requires c > 0 && chunk > 0
    ensures L.Base(c, chunk) < MAX_CHUNK_ID * c ==> chunk <= MAX_CHUNK_ID
  {
    assert (chunk - 1 - MAX_CHUNK_ID) * c == L.Base(c, chunk) - MAX_CHUNK_ID * c;
    MultipleSign(c, chunk - 1 - MAX_CHUNK_ID);
  }

  /** How many chunks a request of `n` bytes at `off` touches. */
  function Parts(c: nat, off: nat, n: nat): int
    requires c > 0
  {
    if n == 0 then 0 else Quo(c, off + n - 1) - Quo(c, off) + 1
  }

  lemma PartsOfPiece(c: nat, off: nat, n: nat)
    requires c > 0 && n <= c
    ensures 0 <= Parts(c, off, n) <= 2
  {
    if n > 0 {
      Split(c, off);
      NextChunk(c, Quo(c, off));
      NextChunk(c, Quo(c, off) + 1);
      Order(c, off, off + n - 1);
      Split(c, off + n - 1);
      MultipleSign(c, Quo(c, off + n - 1) - Quo(c, off) - 2);
      assert (Quo(c, off + n - 1) - Quo(c, off) - 2) * c == Quo(c, off + n - 1) * c - (Quo(c, off) + 2) * c;
    }
  }

  // ---------- What is known of a file ----------

  /** The chunks of the file start below `end`. */
  ghost predicate Lives(c: nat, ob: Obj, end: int) {
    forall id :: id in ob.chunks ==> 0 < id <= MAX_CHUNK_ID && L.Base(c, id) < end
  }

  /** What is known of a file in memory and in the log: unless a write that may use the reserve was refused, or a cut
      went wrong (`adrift`), its chunks are what the log holds below `end`; a scan finds them (`settled`), and their
      size (`known`). */
  ghost predicate Tracks(c: nat, cpb: nat, o: nat, ob: Obj, log: seq<L.Page>, end: int, adrift: bool, settled: bool,
                         known: bool) {
    && Lives(c, ob, end)
    && (!adrift ==> && Fits(c, cpb, o, ob, log, end) && (settled ==> Shows(c, cpb, o, ob, log, end))
                     && (known ==> settled && Spans(c, cpb, o, ob, log, end)))
  }

  lemma TracksEroded(c: nat, cpb: nat, o: nat, ob: Obj, log: seq<L.Page>, log': seq<L.Page>, end: int, adrift: bool,
                     settled: bool, known: bool)
    requires Tracks(c, cpb, o, ob, log, end, adrift, settled, known) && Eroded(c, cpb, o, ob, log, log')
    ensures Tracks(c, cpb, o, ob, log', end, adrift, settled, known)
  {
  }

  lemma TracksKept(c: nat, cpb: nat, o: nat, ob: Obj, log: seq<L.Page>, ob': Obj, log': seq<L.Page>, adrift: bool,
                   settled: bool, known: bool)
    requires Tracks(c, cpb, o, ob, log, ob.size, adrift, settled, known) && Kept(c, cpb, o, ob, log, ob', log')
    ensures Tracks(c, cpb, o, ob', log', ob.size, adrift, settled, known)
  {
    if !adrift { FitsHdr(c, cpb, o, ob, log, ob.size); }
  }

  lemma FitsHdr(c: nat, cpb: nat, o: nat, ob: Obj, log: seq<L.Page>, end: int)
    requires Fits(c, cpb, o, ob, log, end)
    ensures ob.hdr.Some? && forall id :: id in ob.chunks ==> id in L.Raw(c, o, log) && 0 < id <= MAX_CHUNK_ID
    ensures forall id :: id in L.Raw(c, o, log) && L.Base(c, id) < end ==> id in ob.chunks
    ensures forall id :: id in ob.chunks ==> L.Base(c, id) < end
  {
    PartKeys(c, o, log, Addrs(cpb, ob.chunks), Addr(cpb, ob.hdr.value), end);
  }

  /** Nothing in the log starts from `end` on and before `x`. */
  ghost predicate NoneUpTo(c: nat, o: nat, log: seq<L.Page>, end: int, x: int) {
    forall id :: id in L.Raw(c, o, log) ==> !(end <= L.Base(c, id) < x)
  }

  lemma FitsMove(c: nat, cpb: nat, o: nat, ob: Obj, log: seq<L.Page>, end: int, end': int)
    requires end <= end' && NoneUpTo(c, o, log, end, end')
    ensures Fits(c, cpb, o, ob, log, end) ==> Fits(c, cpb, o, ob, log, end')
    ensures Shows(c, cpb, o, ob, log, end) ==> Shows(c, cpb, o, ob, log, end')
  {
    if Fits(c, cpb, o, ob, log, end) {
      PartMove(c, o, log, Addrs(cpb, ob.chunks), Addr(cpb, ob.hdr.value), end, end');
    } else if Shows(c, cpb, o, ob, log, end) {
      ShowsFits(c, cpb, o, ob, log, end);
    }
  }

  /** A part of a request that ends at `off'` makes the file end there, or where it ended before. */
  lemma PartEnds(c: nat, chunk: nat, size: nat, off: nat, off': nat, writeback: nat)
    requires off <= off' && L.Base(c, chunk) <= off < off' <= L.Base(c, chunk) + writeback <= Max(size, off')
    requires forall id: nat :: 0 < id && off <= L.Base(c, id) < off' ==> id == chunk
    ensures Ends(c, chunk, writeback, Max(size, off), Max(size, off'))
  {
  }

  /** A scan finds a file whose size is known with this size, and otherwise with no larger one. */
  lemma SizeFound(c: nat, cpb: nat, o: nat, ob: Obj, log: seq<L.Page>, end: nat)
    requires Shows(c, cpb, o, ob, log, end)
    ensures L.ReplaySize(c, o, log) <= end
    ensures Spans(c, cpb, o, ob, log, end) ==> L.ReplaySize(c, o, log) == end
  {
    if Spans(c, cpb, o, ob, log, end) { SizeReached(c, o, log, Addrs(cpb, ob.chunks), end); }
  }

  lemma KeptObject(c: nat, cpb: nat, objs: Objs, log: seq<L.Page>, objs': Objs, log': seq<L.Page>, o: nat)
    requires AllKept(c, cpb, objs, log, objs', log') && o in objs && !objs[o].softDeleted
    ensures o in objs' && Kept(c, cpb, o, objs[o], log, objs'[o], log')
    ensures !objs'[o].softDeleted && objs'[o].size == objs[o].size
    ensures Stays(c, cpb, o, objs[o], log, objs'[o], log')
  {
    KeptStays(c, cpb, o, objs[o], log, objs'[o], log');
  }

  lemma ErodedObject(c: nat, cpb: nat, objs: Objs, log: seq<L.Page>, log': seq<L.Page>, o: nat)
    requires AllEroded(c, cpb, objs, log, log') && o in objs && !objs[o].softDeleted
    ensures Eroded(c, cpb, o, objs[o], log, log')
  {
  }

  lemma StaysSize(c: nat, cpb: nat, o: nat, ob: Obj, log: seq<L.Page>, ob': Obj, log': seq<L.Page>)
    requires Stays(c, cpb, o, ob, log, ob', log')
    ensures ob'.size == ob.size && ob'.softDeleted == ob.softDeleted && ob'.chunks.Keys == ob.chunks.Keys
  {
  }

  lemma HeaderNoneBack(c: nat, o: nat, log: seq<L.Page>, log1: seq<L.Page>, log': seq<L.Page>)
    requires NoneBack(c, o, log, log1) && NoneBack(c, o, log1, log')
    ensures NoneBack(c, o, log, log')
  {
  }

  lemma FirstTracks(c: nat, cpb: nat, o: nat, log: seq<L.Page>, ob: Obj, log': seq<L.Page>)
    requires HeaderIn(c, cpb, o, NewObj(), log, ob, log', false)
    ensures Tracks(c, cpb, o, ob, log', 0, false, true, true) && ob.size == 0 && !ob.softDeleted
    ensures HeaderSize(c, o, log') == 0
  {
    ShowsFits(c, cpb, o, ob, log', 0);
  }

  /** A new header, after a collection, makes the file one that is found with its size. */
  lemma AfterHeader(c: nat, cpb: nat, o: nat, ob0: Obj, log0: seq<L.Page>, ob1: Obj, log1: seq<L.Page>, ob: Obj,
                    log: seq<L.Page>, isShrink: bool, adrift: bool)
    requires Lives(c, ob0, ob0.size) && (!adrift ==> Tracks(c, cpb, o, ob0, log0, ob0.size, adrift, false, false))
    requires Stays(c, cpb, o, ob0, log0, ob1, log1) && HeaderIn(c, cpb, o, ob1, log1, ob, log, isShrink)
    ensures ob.size == ob0.size && ob.softDeleted == ob0.softDeleted && Lives(c, ob, ob.size)
    ensures Tracks(c, cpb, o, ob, log, ob.size, adrift, true, true) && HeaderSize(c, o, log) == ob.size
    ensures (isShrink ==> forall x :: NoneUpTo(c, o, log, ob.size, x)) && NoneBack(c, o, log0, log)
  {
    hide Fits, Shows, Spans, HeaderSize;
    HeaderNoneBack(c, o, log0, log1, log);
    if !adrift { ShowsFits(c, cpb, o, ob, log, ob.size); }
  }

  /** After a collection the chunks are those that there were. */
  lemma StaysLives(c: nat, cpb: nat, o: nat, ob: Obj, log: seq<L.Page>, ob': Obj, log': seq<L.Page>, end: int)
    requires Lives(c, ob, end) && Stays(c, cpb, o, ob, log, ob', log')
    ensures Lives(c, ob', end) && NoneBack(c, o, log, log')
    ensures forall id :: id in ob'.chunks ==> L.Base(c, id) < end
  {
  }

  lemma NoTracks(c: nat, cpb: nat, o: nat, log: seq<L.Page>)
    ensures Tracks(c, cpb, o, NewObj(), log, 0, true, false, false)
  {
  }

  lemma WroteSize(c: nat, cpb: nat, o: nat, ob: Obj, log: seq<L.Page>, ob': Obj, log': seq<L.Page>, id: nat, n: nat)
    ensures Gets(c, cpb, o, ob, log, ob', log', id, n) ==> ob'.size == ob.size && ob'.softDeleted == ob.softDeleted
    ensures Stays(c, cpb, o, ob, log, ob', log') ==> ob'.size == ob.size && ob'.softDeleted == ob.softDeleted
  {
  }

  /** A part of a request was written, dropped, or refused. */
  lemma AfterPart(c: nat, cpb: nat, o: nat, ob: Obj, log: seq<L.Page>, ob': Obj, log': seq<L.Page>, chunk: nat, wb: nat,
                  size: nat, off: nat, off': nat, adrift: bool, settled: bool, known: bool, written: int,
                  collects: bool)
    requires Tracks(c, cpb, o, ob, log, Max(size, off), adrift, settled, known) && (settled || known ==> !collects)
    requires 0 < chunk && (written == 0 <==> chunk > MAX_CHUNK_ID) && off < off'
    requires L.Base(c, chunk) <= off && off' <= L.Base(c, chunk) + wb <= Max(size, off')
    requires size <= L.Base(c, chunk) + c ==> L.Base(c, chunk) + wb == Max(off', size)
    requires forall id: nat :: 0 < id && off <= L.Base(c, id) < off' ==> id == chunk
    requires written > 0 ==> Gets(c, cpb, o, ob, log, ob', log', chunk, wb)
    requires written <= 0 ==> Stays(c, cpb, o, ob, log, ob', log')
    requires !collects && written > 0 ==> DataIn(c, cpb, o, ob, log, ob', log', chunk, wb)
    requires !collects && written <= 0 ==> ob' == ob && Eroded(c, cpb, o, ob, log, log')
    ensures written > 0 ==>
              Tracks(c, cpb, o, ob', log', Max(size, off'), adrift, settled, settled && (known || off >= size))
    ensures written == 0 ==> Tracks(c, cpb, o, ob', log', Max(size, off'), adrift, settled, false)
    ensures written < 0 ==> Tracks(c, cpb, o, ob', log', Max(size, off), adrift, settled, known)
  {
    hide Eroded, Fits, Shows, Spans, Ends;
    PartEnds(c, chunk, size, off, off', wb);
    var end, end' := Max(size, off), Max(size, off');
    if written > 0 {
      GetsTracks(c, cpb, o, ob, log, ob', log', chunk, wb, end, end', adrift, settled, known);
      if settled && (known || off >= size) && !adrift {
        HdrOfFits(c, cpb, o, ob, log, end);
        SpansPart(c, cpb, o, ob, log, ob', log', chunk, wb, size, off, off', known);
      }
    } else {
      StayTracks(c, cpb, o, ob, log, ob', log', end, adrift, settled, known, collects);
      if written == 0 { TracksMove(c, cpb, o, ob', log', end, end', chunk, adrift, settled, known); }
    }
  }

  /** When a request has been written, the size is known exactly if it is the one that a scan finds. */
  lemma AfterWrite(c: nat, cpb: nat, o: nat, ob: Obj, log: seq<L.Page>, ob': Obj, log': seq<L.Page>, size: nat,
                   offset: nat, nDone: nat, settled: bool, known: bool)
    requires Tracks(c, cpb, o, ob, log, size, false, settled, true) && settled
    requires Tracks(c, cpb, o, ob', log', Max(size, offset + nDone), false, settled, known)
    requires if nDone > 0 then known
             else (known <==> offset <= size) && ob' == ob.(size := ob'.size) && Eroded(c, cpb, o, ob, log, log')
    ensures known <==> nDone > 0 || offset <= size
    ensures known <==> L.ReplaySize(c, o, log') == Max(size, offset + nDone)
  {
    hide Tracks, Eroded, L.ReplaySize;
    if nDone == 0 {
      TracksEroded(c, cpb, o, ob, log, log', size, false, settled, true);
      FoundAt(c, cpb, o, ob, log', size, false, settled, true);
    } else {
      FoundAt(c, cpb, o, ob', log', Max(size, offset + nDone), false, settled, known);
    }
  }

  lemma HdrOfFits(c: nat, cpb: nat, o: nat, ob: Obj, log: seq<L.Page>, end: int)
    requires Fits(c, cpb, o, ob, log, end)
    ensures ob.hdr.Some?
  {
  }

  lemma SpansPart(c: nat, cpb: nat, o: nat, ob: Obj, log: seq<L.Page>, ob': Obj, log': seq<L.Page>, chunk: nat, wb: nat,
                  size: nat, off: nat, off': nat, known: bool)
    requires DataIn(c, cpb, o, ob, log, ob', log', chunk, wb) && ob.hdr.Some?
    requires known || off >= size
    requires known ==> Spans(c, cpb, o, ob, log, Max(size, off))
    requires off < off' <= L.Base(c, chunk) + wb
    requires size <= L.Base(c, chunk) + c ==> L.Base(c, chunk) + wb == Max(off', size)
    ensures Spans(c, cpb, o, ob', log', Max(size, off'))
  {
    hide Spans, Fits, Shows, HeaderSize;
    assert Spanned(c, cpb, o, ob, log, chunk, wb, Max(size, off'));
  }

  lemma GetsTracks(c: nat, cpb: nat, o: nat, ob: Obj, log: seq<L.Page>, ob': Obj, log': seq<L.Page>, chunk: nat,
                   wb: nat, end: int, end': int, adrift: bool, settled: bool, known: bool)
    requires Tracks(c, cpb, o, ob, log, end, adrift, settled, known) && 0 < chunk <= MAX_CHUNK_ID
    requires Gets(c, cpb, o, ob, log, ob', log', chunk, wb) && Ends(c, chunk, wb, end, end') && end <= end'
    requires settled ==> DataIn(c, cpb, o, ob, log, ob', log', chunk, wb)
    ensures Tracks(c, cpb, o, ob', log', end', adrift, settled, false)
  {
    hide Fits, Shows, Spans;
  }

  lemma StayTracks(c: nat, cpb: nat, o: nat, ob: Obj, log: seq<L.Page>, ob': Obj, log': seq<L.Page>, end: int,
                   adrift: bool, settled: bool, known: bool, collects: bool)
    requires Tracks(c, cpb, o, ob, log, end, adrift, settled, known) && (settled || known ==> !collects)
    requires Stays(c, cpb, o, ob, log, ob', log')
    requires !collects ==> ob' == ob && Eroded(c, cpb, o, ob, log, log')
    ensures Tracks(c, cpb, o, ob', log', end, adrift, settled, known)
  {
    hide Fits, Shows, Spans, Eroded;
    if !collects { TracksEroded(c, cpb, o, ob, log, log', end, adrift, settled, known); }
  }

  /** A chunk beyond the largest id is not in the log, so that the end moves on over nothing. */
  lemma TracksMove(c: nat, cpb: nat, o: nat, ob: Obj, log: seq<L.Page>, end: int, end': int, chunk: nat, adrift: bool,
                   settled: bool, known: bool)
    requires Tracks(c, cpb, o, ob, log, end, adrift, settled, known) && end <= end' && chunk > MAX_CHUNK_ID
    requires forall id: nat :: 0 < id && end <= L.Base(c, id) < end' ==> id == chunk
    ensures Tracks(c, cpb, o, ob, log, end', adrift, settled, false)
  {
    L.IdsInRange(c, o, log);
    FitsMove(c, cpb, o, ob, log, end, end');
  }

  /** At the start of a write the end moves up to where the write starts. */
  lemma StartWrite(c: nat, cpb: nat, o: nat, ob: Obj, log: seq<L.Page>, size: nat, off: nat, adrift: bool,
                   settled: bool, known: bool, settled': bool, known': bool)
    requires Tracks(c, cpb, o, ob, log, size, adrift, settled, known) && (!adrift ==> NoneUpTo(c, o, log, size, off))
    requires (settled' ==> settled) && (known' ==> known && settled' && off <= size)
    ensures Tracks(c, cpb, o, ob, log, Max(size, off), adrift, settled', known')
  {
    if !adrift && off > size { FitsMove(c, cpb, o, ob, log, size, off); }
  }

  lemma PartsPositive(c: nat, off: nat, n: nat)
    requires c > 0
    ensures if n > 0 then Parts(c, off, n) >= 1 else Parts(c, off, n) == 0
  {
    if n > 0 { Order(c, off, off + n - 1); }
  }

  /** What a scan finds as the size. */
  lemma FoundAt(c: nat, cpb: nat, o: nat, ob: Obj, log: seq<L.Page>, end: nat, adrift: bool, settled: bool,
                known: bool)
    requires Tracks(c, cpb, o, ob, log, end, adrift, settled, known)
    ensures !adrift && settled ==> L.ReplaySize(c, o, log) <= end
    ensures !adrift && known ==> L.ReplaySize(c, o, log) == end
  {
    if !adrift && settled { SizeFound(c, cpb, o, ob, log, end); }
  }

  lemma TracksSize(c: nat, cpb: nat, o: nat, ob: Obj, ob': Obj, log: seq<L.Page>, end: int, adrift: bool,
                   settled: bool, known: bool)
    requires Tracks(c, cpb, o, ob, log, end, adrift, settled, known) && ob' == ob.(size := ob'.size)
    ensures Tracks(c, cpb, o, ob', log, end, adrift, settled, known)
  {
  }

  lemma ErodedNothing(c: nat, cpb: nat, o: nat, ob: Obj, log: seq<L.Page>)
    ensures Eroded(c, cpb, o, ob, log, log)
  {
  }

  // ---------- Cutting ----------

  /** The chunk from which on a file is cut to `newSize`, as it is found by splitting a position. */
  function StartDel(c: nat, newSize: nat): int
    requires c > 0
  {
    A.SplitPos(c, LOFF, newSize + c - 1).0 + 1
  }

  /** That is the first one that starts at or beyond `newSize`, exactly if one that starts there ends below 2^32;
      otherwise it is the first one of the file. */
  lemma StartDelIs(c: nat, newSize: nat)
    requires 1 < c < WORD && newSize < LOFF
    ensures newSize + c <= LOFF ==> StartDel(c, newSize) == Quo(c, newSize + c - 1) + 1
    ensures newSize + c > LOFF ==> StartDel(c, newSize) == 1 < Quo(c, newSize + c - 1) + 1
  {
    hide A.SplitPos, A.Limit, Quo, Rem;
    A.Limit32(c);
    if newSize + c <= LOFF {
      A.SplitLands(c, LOFF, newSize + c - 1);
    } else {
      A.SmallPosition(c, LOFF, newSize + c - 1);
      Order(c, c, newSize + c - 1);
      QuotientIs(c, 1, c);
    }
  }

  lemma PruneBounds(c: nat, size: nat, newSize: nat, lastDel: nat)
    requires 1 < c < WORD && newSize <= size < LOFF
    requires lastDel == (if size > 0 then Quo(c, size - 1) + 1 else 1)
    ensures size > 0 ==> A.SplitPos(c, LOFF, size - 1).0 == Quo(c, size - 1)
    ensures size <= L.Base(c, lastDel + 1)
    ensures StartDel(c, newSize) > 0 && (StartDel(c, newSize) > lastDel ==> size <= L.Base(c, StartDel(c, newSize)))
  {
    hide A.SplitPos, Quo, Rem, StartDel;
    var startDel := StartDel(c, newSize);
    StartDelIs(c, newSize);
    LastDelIs(c, size, lastDel);
    assert (startDel - 1 - lastDel) * c == L.Base(c, startDel) - L.Base(c, lastDel + 1);
    MultipleSign(c, startDel - 1 - lastDel);
    StartDelPositive(c, newSize);
  }

  lemma StartDelPositive(c: nat, newSize: nat)
    requires 1 < c < WORD && newSize < LOFF
    ensures StartDel(c, newSize) > 0
  {
    hide StartDel;
    StartDelIs(c, newSize);
  }

  lemma LastSplit(c: nat, newSize: nat)
    requires 1 < c < WORD && newSize < LOFF
    ensures A.SplitPos(c, LOFF, newSize) == (Quo(c, newSize), Rem(c, newSize)) && Rem(c, newSize) < c
  {
    hide A.SplitPos, A.Limit, Quo, Rem;
    A.Limit32(c);
    Split(c, newSize);
    A.SplitLands(c, LOFF, newSize);
  }

  lemma LastFits(c: nat, newSize: nat)
    requires 1 < c < WORD
    ensures newSize <= ScanLimit(c) && Rem(c, newSize) != 0 ==> Fitting(c, LOFF, Quo(c, newSize) + 1)
  {
    hide Fitting, Quo, Rem;
    Split(c, newSize);
    NextChunk(c, Quo(c, newSize));
    if newSize <= ScanLimit(c) && Rem(c, newSize) != 0 { FitBelow(c, Quo(c, newSize) + 1, newSize - 1); }
  }

  lemma LastDelIs(c: nat, size: nat, lastDel: nat)
    requires 1 < c < WORD && size < LOFF && lastDel == (if size > 0 then Quo(c, size - 1) + 1 else 1)
    ensures size > 0 ==> A.SplitPos(c, LOFF, size - 1).0 == Quo(c, size - 1)
    ensures size <= L.Base(c, lastDel + 1)
  {
    hide A.SplitPos, A.Limit, Quo, Rem;
    NextChunk(c, lastDel);
    NextChunk(c, lastDel - 1);
    if size > 0 {
      A.Limit32(c);
      Split(c, size - 1);
      A.SplitLands(c, LOFF, size - 1);
    }
  }

  /** As long as no block with its pages has been erased, a scan finds all chunks below the size in the header that ends
      a cut, whether memory still has them or not. */
  lemma CutFinds(c: nat, o: nat, log: seq<L.Page>, chunks: L.ChunkMap, hdr: nat, size: nat, p: L.Page)
    requires Part(c, o, log, chunks, hdr, size) && L.IsHeaderOf(c, o, p) && !L.InDeletedDir(p) && p.size <= size
    ensures L.Replay(c, o, log + [p]) == L.Keep(c, chunks, p.size)
  {
    hide L.Raw, L.Replay;
    L.Append(c, o, log, p);
    KeepTwice(c, L.Raw(c, o, log), size, p.size);
  }

  /** The log of a file of four-byte chunks: created, a byte written, stretched to the largest size over a hole, and
      made one byte shorter. */
  function CutBackLog(o: nat): seq<L.Page> {
    [L.Header(o, ROOT, 0, false, 16), L.Data(o, 1, 1, 17), L.Header(o, ROOT, 1, true, 18),
     L.Header(o, ROOT, 0xffff_ffff, false, 19), L.Header(o, ROOT, 0xffff_fffe, false, 20)]
  }

  /** The last cut drops the chunks from the first one on, that is all that there are.  The scan brings it back. */
  lemma CutComesBack(o: nat)
    requires GoodId(o)
    ensures StartDel(4, 0xffff_fffe) == 1
    ensures ScanFrom(4, LOFF, o, CutBackLog(o), Unseen(4, LOFF)).chunks == map[1 := 17]
  {
    StartDelIs(4, 0xffff_fffe);
    var log, u := CutBackLog(o), Unseen(4, LOFF);
    var f4 := ScanPage(4, LOFF, u, log[4]);
    var f3 := ScanPage(4, LOFF, f4, log[3]);
    var f2 := ScanPage(4, LOFF, f3, log[2]);
    var f1 := ScanPage(4, LOFF, f2, log[1]);
    assert log[..4][..3] == log[..3] && log[..3][..2] == log[..2] && log[..2][..1] == log[..1] && log[..1][..0] == [];
    assert ScanFrom(4, LOFF, o, log, u) == ScanFrom(4, LOFF, o, log[..4], f4);
    assert ScanFrom(4, LOFF, o, log[..4], f4) == ScanFrom(4, LOFF, o, log[..3], f3);
    assert ScanFrom(4, LOFF, o, log[..3], f3) == ScanFrom(4, LOFF, o, log[..2], f2);
    assert ScanFrom(4, LOFF, o, log[..2], f2) == ScanFrom(4, LOFF, o, log[..1], f1);
    assert ScanFrom(4, LOFF, o, log[..1], f1) == ScanPage(4, LOFF, f1, log[0]);
    assert f2.valid && f2.chunks == map[] && f2.shrinkSize == 1;
  }

  /** The end need not be looked for beyond the size. */
  lemma TracksUpTo(c: nat, cpb: nat, o: nat, ob: Obj, log: seq<L.Page>, size: nat, id: nat, adrift: bool)
    requires size <= L.Base(c, id)
    ensures Tracks(c, cpb, o, ob, log, size, adrift, false, false) ==>
              Tracks(c, cpb, o, ob, log, Min(size, L.Base(c, id)), adrift, false, false)
  {
  }

  lemma TracksLess(c: nat, cpb: nat, o: nat, ob: Obj, log: seq<L.Page>, end: int, adrift: bool, settled: bool,
                   known: bool)
    requires Tracks(c, cpb, o, ob, log, end, adrift, settled, known)
    ensures Tracks(c, cpb, o, ob, log, end, adrift, false, false)
  {
  }

  /** Dropping chunk `id`, the last one, moves the end to where it starts. */
  lemma TracksDrop(c: nat, cpb: nat, o: nat, ob: Obj, log: seq<L.Page>, ob': Obj, log': seq<L.Page>, size: nat, id: nat,
                   adrift: bool)
    requires c > 0 && id > 0 && Tracks(c, cpb, o, ob, log, Min(size, L.Base(c, id + 1)), adrift, false, false)
    requires ob'.hdr == ob.hdr && ob'.chunks == ob.chunks - {id} && Eroded(c, cpb, o, ob', log, log')
    ensures Tracks(c, cpb, o, ob', log', Min(size, L.Base(c, id)), adrift, false, false)
  {
    hide Eroded, Fits, Shows, Spans;
    var end := Min(size, L.Base(c, id + 1));
    NextChunk(c, id - 1);
    NextChunk(c, id);
    if !adrift { FitsDrop(c, cpb, o, ob, ob', log, end, id); }
    forall i | i in ob'.chunks ensures L.Base(c, i) < L.Base(c, id) {
      assert L.Base(c, id + 1) - L.Base(c, i) == (id + 1 - i) * c && L.Base(c, id) - L.Base(c, i) == (id - i) * c;
      MultipleSign(c, id - i);
      MultipleSign(c, id + 1 - i);
    }
    TracksEroded(c, cpb, o, ob', log, log', Min(size, L.Base(c, id)), adrift, false, false);
  }

  /** Where the new end of a file lies between the chunks. */
  lemma CutPlace(c: nat, size: nat, newSize: nat, id: nat)
    requires c > 0 && newSize <= size && id > 0 && Rem(c, newSize) != 0
    ensures var end, last := Min(size, Quo(c, newSize + c - 1) * c), Quo(c, newSize) + 1;
            && newSize <= end && L.Base(c, last) == Quo(c, newSize) * c && end <= L.Base(c, last) + c
            && (id != last ==> (L.Base(c, id) < end <==> L.Base(c, id) < newSize)
                               && (L.Base(c, id) < newSize ==> L.Base(c, id) + c <= L.Base(c, last)))
  {
    hide Quo, Rem;
    var q := Quo(c, newSize);
    Split(c, newSize);
    NextChunk(c, q);
    QuotientIs(c, q + 1, newSize + c - 1);
    assert L.Base(c, id) - q * c == (id - 1 - q) * c;
    MultipleSign(c, id - 1 - q);
  }

  /** The chunk into which the new end falls was rewritten, or is beyond the largest id, or this was refused. */
  lemma TracksCut(c: nat, cpb: nat, o: nat, ob: Obj, log: seq<L.Page>, ob': Obj, log': seq<L.Page>, size: nat,
                  newSize: nat, written: int, adrift: bool)
    requires c > 0 && newSize <= size && Rem(c, newSize) != 0
    requires Tracks(c, cpb, o, ob, log, Min(size, Quo(c, newSize + c - 1) * c), adrift, false, false)
    requires written > 0 ==> Gets(c, cpb, o, ob, log, ob', log', Quo(c, newSize) + 1, Rem(c, newSize))
    requires written <= 0 ==> Stays(c, cpb, o, ob, log, ob', log')
    requires written == 0 <==> Quo(c, newSize) + 1 > MAX_CHUNK_ID
    ensures Tracks(c, cpb, o, ob', log', newSize, adrift || written < 0, false, false)
  {
    hide Fits, Shows, Spans, Quo, Rem;
    var end, last := Min(size, Quo(c, newSize + c - 1) * c), Quo(c, newSize) + 1;
    Split(c, newSize);
    CutPlace(c, size, newSize, last);
    forall id: nat | 0 < id && id != last
      ensures L.Base(c, id) < end <==> L.Base(c, id) < newSize
      ensures L.Base(c, id) < newSize ==> L.Base(c, id) + c <= newSize
    {
      CutPlace(c, size, newSize, id);
    }
    if written > 0 {
      assert Ends(c, last, Rem(c, newSize), end, newSize);
    } else if written == 0 && !adrift {
      FitsLast(c, cpb, o, ob', log', end, newSize, last);
    }
  }

  /** The chunk into which the new end falls is beyond the largest id. */
  lemma FitsLast(c: nat, cpb: nat, o: nat, ob: Obj, log: seq<L.Page>, end: int, newSize: nat, last: nat)
    requires c > 0 && Fits(c, cpb, o, ob, log, end) && last > MAX_CHUNK_ID && end <= L.Base(c, last) + c
    requires L.Base(c, last) <= newSize <= end
    requires forall id: nat :: 0 < id && id != last ==> (L.Base(c, id) < end <==> L.Base(c, id) < newSize)
    ensures Fits(c, cpb, o, ob, log, newSize)
  {
    FitsHdr(c, cpb, o, ob, log, end);
    hide Fits, L.Raw;
    assert ob.chunks - {last} == ob.chunks;
    FitsDrop(c, cpb, o, ob, ob, log, end, last);
    L.IdsInRange(c, o, log);
    NextChunk(c, last - 1);
    forall id | id in L.Raw(c, o, log) ensures !(Min(end, L.Base(c, last)) <= L.Base(c, id) < newSize) {
      if L.Base(c, last) <= L.Base(c, id) < newSize { InChunk(c, last - 1, id); }
    }
    FitsMove(c, cpb, o, ob, log, Min(end, L.Base(c, last)), newSize);
  }

  /** All chunks were dropped: then it is not the log that tells where they are. */
  lemma NothingLeft(c: nat, cpb: nat, o: nat, ob: Obj, log: seq<L.Page>, size: nat, adrift: bool, newSize: nat)
    requires c > 0 && newSize <= size && Tracks(c, cpb, o, ob, log, Min(size, L.Base(c, 1)), adrift, false, false)
    ensures ob.chunks == map[] && Tracks(c, cpb, o, ob, log, Min(size, Quo(c, newSize + c - 1) * c), true, false, false)
  {
    forall id | id in ob.chunks ensures false {
      MultipleSign(c, id - 1);
    }
  }

  lemma WroteKeys(c: nat, cpb: nat, o: nat, ob: Obj, log: seq<L.Page>, ob': Obj, log': seq<L.Page>, id: nat, n: nat)
    ensures Gets(c, cpb, o, ob, log, ob', log', id, n) ==> ob'.chunks.Keys == ob.chunks.Keys + {id}
    ensures Stays(c, cpb, o, ob, log, ob', log') ==> ob'.chunks.Keys == ob.chunks.Keys
  {
  }

  /** The new end falls between two chunks. */
  lemma TracksWhole(c: nat, cpb: nat, o: nat, ob: Obj, log: seq<L.Page>, size: nat, newSize: nat, adrift: bool)
    requires c > 0 && newSize <= size && Rem(c, newSize) == 0
    requires Tracks(c, cpb, o, ob, log, Min(size, Quo(c, newSize + c - 1) * c), adrift, false, false)
    ensures Tracks(c, cpb, o, ob, log, newSize, adrift, false, false)
  {
    hide Quo, Rem;
    Split(c, newSize);
    QuotientIs(c, Quo(c, newSize), newSize + c - 1);
  }

  // ---------- Holes ----------

  lemma NothingBetween(c: nat, o: nat, log: seq<L.Page>, x: int)
    ensures forall y :: y <= x ==> NoneUpTo(c, o, log, x, y)
  {
  }

  /** So far `pieces` have been written, each but the last a chunk long. */
  predicate Filled(c: nat, size: nat, newSize: nat, pos: nat, pieces: int) {
    (pos == newSize && pieces <= 4) || pos == size + pieces * c
  }

  lemma PiecesStart(c: nat, size: nat, newSize: nat)
    ensures Filled(c, size, newSize, size, 0)
  {
  }

  lemma FewPieces(c: nat, size: nat, newSize: nat, pos: nat, pieces: int)
    requires c > 0 && newSize < size + SMALL_HOLE_THRESHOLD * c && pos < newSize
    requires Filled(c, size, newSize, pos, pieces)
    ensures pieces <= 3 && Filled(c, size, newSize, pos + Min(newSize - pos, c), pieces + 1)
  {
    assert (pieces - 4) * c == pieces * c - 4 * c && (pieces + 1) * c == pieces * c + c;
    if pieces >= 4 { MultipleSign(c, pieces - 4); }
  }

  lemma AtMostFour(c: nat, size: nat, newSize: nat, pos: nat, pieces: int)
    requires c > 0 && newSize < size + SMALL_HOLE_THRESHOLD * c && pos <= newSize
    requires Filled(c, size, newSize, pos, pieces)
    ensures pieces <= 4
  {
    if pieces >= 4 { MultipleSign(c, pieces - 4); assert (pieces - 4) * c == pieces * c - 4 * c; }
  }

  lemma ThresholdPositive(dev: Dev, newSize: nat, size: nat)
    requires dev.Valid() && newSize <= size
    ensures newSize - size < SMALL_HOLE_THRESHOLD * dev.c
  {
  }

  lemma RoomIsFree(cpb: nat, reserve: nat, k: Books)
    requires RoomOf(cpb, reserve, k) >= 9
    ensures k.nFree > reserve + SMALL_HOLE_THRESHOLD + 1
  {
  }

  lemma TracksLives(c: nat, cpb: nat, o: nat, ob: Obj, log: seq<L.Page>, end: int, adrift: bool, settled: bool,
                    known: bool)
    requires Tracks(c, cpb, o, ob, log, end, adrift, settled, known)
    ensures Lives(c, ob, end)
  {
  }

  /** Without the header that was refused nothing is known any more but where the chunks are. */
  lemma AdriftTracks(c: nat, cpb: nat, o: nat, ob: Obj, log: seq<L.Page>, end: int, settled: bool, known: bool)
    requires Lives(c, ob, end)
    ensures Tracks(c, cpb, o, ob, log, end, true, settled, known)
  {
  }

  lemma TracksStretch(c: nat, cpb: nat, o: nat, ob: Obj, log: seq<L.Page>, end: int, end': int, adrift: bool,
                      settled: bool, known: bool)
    requires Tracks(c, cpb, o, ob, log, end, adrift, settled, known) && end <= end'
    requires !adrift ==> NoneUpTo(c, o, log, end, end')
    ensures Tracks(c, cpb, o, ob, log, end', adrift, false, false)
  {
    if !adrift { FitsMove(c, cpb, o, ob, log, end, end'); }
  }

  lemma KeptHeaderSize(c: nat, cpb: nat, o: nat, ob: Obj, log: seq<L.Page>, ob': Obj, log': seq<L.Page>, size: nat,
                       adrift: bool, settled: bool, known: bool)
    requires Kept(c, cpb, o, ob, log, ob', log') && Tracks(c, cpb, o, ob, log, size, adrift, settled, known)
    requires ob.size == size
    ensures !adrift && HeaderSize(c, o, log) == size ==> HeaderSize(c, o, log') == size
  {
    if !adrift { HdrOfFits(c, cpb, o, ob, log, size); }
  }

  lemma ElsewhereEroded(c: nat, cpb: nat, objs: Objs, objs': Objs, log: seq<L.Page>, log': seq<L.Page>, o: nat,
                        obj: nat, written: bool)
    requires obj in objs && !objs[obj].softDeleted && o != obj
    requires if written then OthersEroded(c, cpb, objs, log, log', o) else AllEroded(c, cpb, objs, log, log')
    ensures Eroded(c, cpb, obj, objs[obj], log, log')
  {
  }

  lemma ErodedHeaderSize(c: nat, cpb: nat, o: nat, ob: Obj, log: seq<L.Page>, log': seq<L.Page>, size: nat,
                         adrift: bool, settled: bool, known: bool)
    requires Eroded(c, cpb, o, ob, log, log') && Tracks(c, cpb, o, ob, log, size, adrift, settled, known)
    ensures !adrift ==> HeaderSize(c, o, log') == HeaderSize(c, o, log)
  {
    if !adrift { HdrOfFits(c, cpb, o, ob, log, size); }
  }

  /** What the pages of a device mean is what its log means. */
  lemma SameMeaning(c: nat, o: nat, flash: seq<L.Page>, log: seq<L.Page>)
    requires Compact(flash) == Compact(log)
    ensures L.Replay(c, o, flash) == L.Replay(c, o, log) && L.ReplaySize(c, o, flash) == L.ReplaySize(c, o, log)
    ensures L.LastHeader(c, o, flash) == L.LastHeader(c, o, log)
    ensures Addressable(c, LOFF, o, log) ==> Addressable(c, LOFF, o, flash)
  {
    BlanksDoNotCount(c, o, flash);
    BlanksDoNotCount(c, o, log);
    CompactHas(flash);
    CompactHas(log);
    if Addressable(c, LOFF, o, log) {
      forall k | 0 <= k < |flash| && L.IsDataOf(c, o, flash[k]) ensures Fitting(c, LOFF, flash[k].id) {
        assert flash[k] in Compact(flash);
        var i :| 0 <= i < |log| && log[i] == flash[k];
      }
    }
  }

  lemma FoundFile(c: nat, cpb: nat, o: nat, ob: Obj, log: seq<L.Page>, flash: seq<L.Page>, found: Scanned,
                  files: map<nat, Scanned>, settled: bool, known: bool)
    requires Tracks(c, cpb, o, ob, log, ob.size, false, settled, known) && settled && Addressable(c, LOFF, o, log)
    requires Compact(flash) == Compact(log) && Recovered(c, LOFF, flash, files)
    requires found == BackwardScan.Find(c, LOFF, files, o)
    ensures found.chunks == Addrs(cpb, ob.chunks) && ob.hdr.Some? && found.hdr == Addr(cpb, ob.hdr.value)
    ensures known ==> found.size == ob.size
  {
    SameMeaning(c, o, flash, log);
    assert Means(c, o, flash, found);
    FoundAt(c, cpb, o, ob, log, ob.size, false, settled, known);
    ShowsParts(c, cpb, o, ob, log, ob.size);
  }

  lemma ShowsParts(c: nat, cpb: nat, o: nat, ob: Obj, log: seq<L.Page>, end: int)
    requires Shows(c, cpb, o, ob, log, end)
    ensures ob.hdr.Some? && L.Replay(c, o, log) == Addrs(cpb, ob.chunks)
    ensures L.LastHeader(c, o, log) == Addr(cpb, ob.hdr.value)
  {
    HeaderFacts(c, o, log);
  }

  // ---------- Chunks that a scan can tell ----------

  /** Up to here all chunks are found by a scan where they are. */
  function ScanLimit(c: nat): int { Min(LOFF - c, MaxSize(c, LOFF)) }

  /** For chunks of a multiple of 16 bytes that is a chunk below 2^32. */
  lemma ScanLimitIs(c: nat)
    requires 0 < c < WORD && c % 16 == 0
    ensures ScanLimit(c) == LOFF - c
  {
    FitsIn32(c, 1);
  }

  lemma FitBelow(c: nat, id: nat, pos: nat)
    requires L.Base(c, id) <= pos < ScanLimit(c)
    ensures Fitting(c, LOFF, id)
  {
  }

  /** All chunks of file `o` in the log, current or not, are found where they are. */
  ghost predicate AllFit(c: nat, o: nat, log: seq<L.Page>) {
    forall id :: id in IdsOf(c, o, log) ==> Fitting(c, LOFF, id)
  }

  lemma FitAddressable(c: nat, o: nat, log: seq<L.Page>)
    ensures AllFit(c, o, log) <==> Addressable(c, LOFF, o, log)
  {
    if AllFit(c, o, log) {
      forall k | 0 <= k < |log| && L.IsDataOf(c, o, log[k]) ensures Fitting(c, LOFF, log[k].id) {
        assert log[k].id in IdsOf(c, o, log);
      }
    }
  }

  lemma NoneBackFit(c: nat, o: nat, log: seq<L.Page>, log': seq<L.Page>)
    requires NoneBack(c, o, log, log') && AllFit(c, o, log)
    ensures AllFit(c, o, log')
  {
  }

  lemma StaysFit(c: nat, cpb: nat, o: nat, ob: Obj, log: seq<L.Page>, ob': Obj, log': seq<L.Page>)
    requires Stays(c, cpb, o, ob, log, ob', log') && AllFit(c, o, log)
    ensures AllFit(c, o, log')
  {
  }

  lemma ErodedFit(c: nat, cpb: nat, o: nat, ob: Obj, log: seq<L.Page>, log': seq<L.Page>)
    requires Eroded(c, cpb, o, ob, log, log') && AllFit(c, o, log)
    ensures AllFit(c, o, log')
  {
  }

  lemma GetsFit(c: nat, cpb: nat, o: nat, ob: Obj, log: seq<L.Page>, ob': Obj, log': seq<L.Page>, id: nat, n: nat)
    requires Gets(c, cpb, o, ob, log, ob', log', id, n) && AllFit(c, o, log) && Fitting(c, LOFF, id)
    ensures AllFit(c, o, log')
  {
  }

  // ---------- The live file ----------

  lemma FirstFit(c: nat, cpb: nat, o: nat, objs: Objs, log: seq<L.Page>, log': seq<L.Page>, ok: bool)
    requires o in objs
    requires if ok then HeaderIn(c, cpb, o, NewObj(), log, objs[o], log', false) else AllEroded(c, cpb, objs, log, log')
    ensures AllFit(c, o, log) ==> AllFit(c, o, log')
  {
    hide Fits, Shows, Spans, HeaderSize, Eroded;
    assert NoneBack(c, o, log, log');
  }

  /** Creates an object and writes its first header.  A scan finds it then, with nothing of what an earlier object of
      the same number has left in the log. */
  method CreateFile(dev: Dev, obj: nat) returns (ok: bool)
    requires dev.Valid() && obj !in dev.objs && obj !in dev.cleanUps && GoodId(obj)
    modifies dev
    ensures dev.Valid() && NoNewCollecting(old(dev.blocks), dev.blocks) && dev.gcChunk == old(dev.gcChunk)
    ensures dev.objs.Keys == old(dev.objs.Keys) + {obj} && dev.objs[obj].size == 0 && !dev.objs[obj].softDeleted
    ensures Tracks(dev.c, dev.cpb, obj, dev.objs[obj], dev.log, 0, !ok, ok, ok)
    ensures ok ==> HeaderSize(dev.c, obj, dev.log) == 0
    ensures AllFit(dev.c, obj, old(dev.log)) ==> AllFit(dev.c, obj, dev.log)
    ensures Stored(dev.c, dev.nand, dev.objs, obj) == map[]
    ensures !dev.nandFails ==> (ok <==> old(dev.CanAlloc(false))) && (ok ==> dev.Room() >= old(dev.Room()) - 1)
  {
    hide Balanced, Journaled, Owned, AllEroded, OthersEroded, SameReads, ReadsBut, RoomOf, Tracks, HeaderIn, Scheduled,
      Stored, Dev.CanAlloc;
    dev.CreateObj(obj);
    NewStored(dev.c, dev.nand, dev.objs, obj);
    ghost var log1, nand1, objs1 := dev.log, dev.nand, dev.objs;
    ok := dev.UpdateOh(obj, [], false);
    if ok {
      OtherStored(dev.c, nand1, objs1, dev.nand, dev.objs, obj, Page(obj, 0, [], 0, false));
    } else {
      SameStored(dev.c, nand1, objs1, dev.nand, dev.objs, obj);
    }
    FirstFit(dev.c, dev.cpb, obj, dev.objs, log1, dev.log, ok);
    if ok {
      FirstTracks(dev.c, dev.cpb, obj, log1, dev.objs[obj], dev.log);
    } else {
      NoTracks(dev.c, dev.cpb, obj, dev.log);
    }
  }

  class File {
    const dev: Dev
    const obj: nat
    const collects: bool   // whether the collector runs while the file is being written

    var dirty: bool
    ghost var adrift: bool    // a write that may use the reserve was refused, or a cut dropped too much
    ghost var settled: bool   // a scan would find the chunks of the file
    ghost var known: bool     // and its size

    ghost predicate Steady()
      reads this, dev
    {
      && dev.Valid() && Idle(dev.blocks) && dev.gcChunk <= dev.cpb && 1 < dev.c < WORD
      && obj in dev.objs && !dev.objs[obj].softDeleted && dev.objs[obj].size < LOFF
    }

    function Ob(): Obj
      requires obj in dev.objs
      reads this, dev
    {
      dev.objs[obj]
    }

    function Size(): nat
      requires obj in dev.objs
      reads this, dev
    {
      dev.objs[obj].size
    }

    /** The chunks of the file. */
    function Store(): F.Flash
      reads this, dev
    {
      Stored(dev.c, dev.nand, dev.objs, obj)
    }

    /** The bytes of the file. */
    ghost function Bytes(): F.Bytes
      requires obj in dev.objs && dev.c > 0
      reads this, dev
    {
      F.FileBytes(dev.c, Store(), [], obj, Size())
    }

    /** Its bytes from `end` on are zero. */
    ghost predicate ZeroFrom(end: nat)
      requires dev.c > 0
      reads this, dev
    {
      !adrift ==> ZeroAfter(dev.c, Store(), obj, end)
    }

    /** A scan can tell all chunks of the file. */
    ghost predicate Mapped()
      reads this, dev
    {
      AllFit(dev.c, obj, dev.log)
    }

    /** The header of the file has its size, and is a shrink header or not. */
    ghost predicate HeaderIs(isShrink: bool)
      requires obj in dev.objs
      reads this, dev
    {
      var h := dev.objs[obj].hdr;
      h.Some? && h.value in dev.nand && dev.nand[h.value].size == Size() && dev.nand[h.value].isShrink == isShrink
    }

    /** The file ends at `end`, as far as the log is concerned. */
    ghost predicate To(end: int, settled: bool, known: bool)
      requires obj in dev.objs
      reads this, dev
    {
      Tracks(dev.c, dev.cpb, obj, Ob(), dev.log, end, adrift, settled, known)
    }

    ghost predicate Valid()
      reads this, dev
    {
      && Steady() && To(Size(), settled, known) && (known ==> settled)
      && (!adrift && !dirty ==> known && HeaderSize(dev.c, obj, dev.log) == Size()) && ZeroFrom(Size())
    }

    /** The size a scan would find now. */
    ghost function SizeNow(): nat
      reads this, dev
    {
      L.ReplaySize(dev.c, obj, dev.log)
    }

    ghost predicate NothingUpTo(x: int)
      requires obj in dev.objs
      reads this, dev
    {
      NoneUpTo(dev.c, obj, dev.log, Size(), x)
    }

    /** A new file gets its first header.  It is found by a scan, unless there was no page for the header. */
    constructor (dev: Dev, obj: nat, collects: bool)
      requires dev.Valid() && Idle(dev.blocks) && dev.gcChunk <= dev.cpb && 1 < dev.c < WORD
      requires obj !in dev.objs && obj !in dev.cleanUps && GoodId(obj)
      modifies dev
      ensures Valid() && this.dev == dev && this.obj == obj && this.collects == collects && Size() == 0 && Bytes() == []
      ensures adrift == dirty && (AllFit(dev.c, obj, old(dev.log)) ==> Mapped())
      ensures !dev.nandFails ==>
                (!adrift <==> old(dev.CanAlloc(false))) && (!adrift ==> dev.Room() >= old(dev.Room()) - 1)
      ensures dev.objs.Keys == old(dev.objs.Keys) + {obj}
    {
      hide Balanced, Journaled, Owned, Tracks, Scheduled, RoomOf, HeaderSize, Stored, ZeroAfter, AllFit, Dev.CanAlloc;
      var ok := CreateFile(dev, obj);
      this.dev, this.obj, this.collects := dev, obj, collects;
      dirty, adrift, settled, known := !ok, !ok, ok, ok;
      new;
      NoneStored(dev.c, obj);
    }

    /** A file that was found on flash. */
    constructor Reopened (dev: Dev, obj: nat, collects: bool)
      requires dev.Valid() && Idle(dev.blocks) && dev.gcChunk <= dev.cpb && 1 < dev.c < WORD
      requires obj in dev.objs && !dev.objs[obj].softDeleted && dev.objs[obj].size < LOFF
      requires Tracks(dev.c, dev.cpb, obj, dev.objs[obj], dev.log, dev.objs[obj].size, false, true, true)
      requires HeaderSize(dev.c, obj, dev.log) == dev.objs[obj].size
      requires ZeroAfter(dev.c, Stored(dev.c, dev.nand, dev.objs, obj), obj, dev.objs[obj].size)
      ensures Valid() && this.dev == dev && this.obj == obj && this.collects == collects && !adrift && !dirty
    {
      hide Balanced, Journaled, Owned, Tracks, Scheduled, Idle, HeaderSize, Stored, ZeroAfter, Dev.Valid;
      this.dev, this.obj, this.collects := dev, obj, collects;
      dirty, adrift, settled, known := false, false, true, true;
    }

    // ---------- Steps on the device ----------

    /** The collector may deal with some blocks that it may collect. */
    method Collect()
      requires Steady()
      modifies dev
      ensures Steady()
      ensures AllKept(dev.c, dev.cpb, old(dev.objs), old(dev.log), dev.objs, dev.log)
      ensures Size() == old(Size()) && Stays(dev.c, dev.cpb, obj, old(Ob()), old(dev.log), Ob(), dev.log)
      ensures !collects ==> unchanged(dev)
      ensures Store() == old(Store())
      ensures dev.refusals >= old(dev.refusals)
    {
      hide Balanced, Journaled, Owned, AllKept, SameReads, Vetted, Kept, Stays, Stored;
      KeptSame(dev.c, dev.cpb, dev.objs, dev.log);
      var n: int := *;
      var passes := if collects && n > 0 then n else 0;
      for i := 0 to passes
        invariant Steady() && AllKept(dev.c, dev.cpb, old(dev.objs), old(dev.log), dev.objs, dev.log)
        invariant (passes == 0 ==> unchanged(dev)) && dev.refusals >= old(dev.refusals)
        invariant Store() == old(Store())
      {
        var b: nat, whole: bool := *, *;
        if b < |dev.blocks| && dev.blocks[b].state.Full? {
          var ok := dev.BlockOkForGc(b);
          if ok {
            ghost var objs0, log0, nand0 := dev.objs, dev.log, dev.nand;
            ok := dev.GcBlock(b, whole);
            SameStored(dev.c, nand0, objs0, dev.nand, dev.objs, obj);
            KeptObject(dev.c, dev.cpb, objs0, log0, dev.objs, dev.log, obj);
            KeptThen(dev.c, dev.cpb, old(dev.objs), old(dev.log), objs0, log0, dev.objs, dev.log);
          }
        }
      }
      KeptObject(dev.c, dev.cpb, old(dev.objs), old(dev.log), dev.objs, dev.log, obj);
    }

    /** Writes the first bytes of a chunk. */
    method WrData(id: nat, data: seq<bv8>, useReserve: bool) returns (r: int)
      requires Steady() && id > 0 && |data| <= dev.c
      modifies dev
      ensures Steady() && Size() == old(Size()) && (r == 0 <==> id > MAX_CHUNK_ID)
      ensures r > 0 ==> Gets(dev.c, dev.cpb, obj, old(Ob()), old(dev.log), Ob(), dev.log, id, |data|)
      ensures r <= 0 ==> Stays(dev.c, dev.cpb, obj, old(Ob()), old(dev.log), Ob(), dev.log)
      ensures !collects && r > 0 ==> DataIn(dev.c, dev.cpb, obj, old(Ob()), old(dev.log), Ob(), dev.log, id, |data|)
      ensures !collects && r <= 0 ==>
                Ob() == old(Ob()) && Eroded(dev.c, dev.cpb, obj, old(Ob()), old(dev.log), dev.log)
      ensures !dev.nandFails && !collects ==>
                (old(dev.Room()) > 0 ==> r >= 0) && (r >= 0 ==> dev.Room() >= old(dev.Room()) - 1)
      ensures old(Mapped()) && Fitting(dev.c, LOFF, id) ==> Mapped()
      ensures Store() == if r > 0 then F.Put(old(Store()), F.Key(obj, id), Padded(dev.c, data)) else old(Store())
      ensures dev.refusals >= old(dev.refusals)
      ensures !dev.nandFails && r < 0 ==> !dev.CanAlloc(useReserve) && dev.refusals > old(dev.refusals)
    {
      hide Balanced, Journaled, Owned, AllKept, AllEroded, OthersEroded, SameReads, ReadsBut, Stays, Gets, DataIn,
        Eroded, RoomOf, Stored, Padded, AllFit, Fitting, Dev.CanAlloc;
      Collect();
      ghost var ob1, log1, nand1, objs1 := Ob(), dev.log, dev.nand, dev.objs;
      HasRoom();
      r := dev.WrDataObj(obj, id, data, useReserve);
      if r > 0 {
        StoredPut(dev.c, nand1, objs1, dev.nand, dev.objs, obj, id, data);
        StaysGets(dev.c, dev.cpb, obj, old(Ob()), old(dev.log), ob1, log1, Ob(), dev.log, id, |data|);
        DataKeepsHeader(dev.c, dev.cpb, obj, ob1, log1, Ob(), dev.log, id, |data|);
      } else {
        SameStored(dev.c, nand1, objs1, dev.nand, dev.objs, obj);
        ErodedObject(dev.c, dev.cpb, dev.objs, log1, dev.log, obj);
        ErodedStays(dev.c, dev.cpb, obj, old(Ob()), old(dev.log), ob1, log1, dev.log);
      }
      if old(Mapped()) && Fitting(dev.c, LOFF, id) {
        if r > 0 {
          GetsFit(dev.c, dev.cpb, obj, old(Ob()), old(dev.log), Ob(), dev.log, id, |data|);
        } else {
          StaysFit(dev.c, dev.cpb, obj, old(Ob()), old(dev.log), Ob(), dev.log);
        }
      }
      StaysSize(dev.c, dev.cpb, obj, old(Ob()), old(dev.log), ob1, log1);
    }

    lemma HasRoom()
      requires dev.Valid()
      ensures dev.Room() > 0 ==> dev.CanAlloc(false) && dev.CanAlloc(true)
    {
      if dev.Room() > 0 { dev.RoomCanAlloc(); }
    }

    /** Writes a header with the current size.  A shrink header also cuts the log to it. */
    method WriteHeader(isShrink: bool) returns (ok: bool)
      requires Steady() && Lives(dev.c, Ob(), Size())
      requires (!adrift ==> To(Size(), false, false)) && ZeroFrom(Size())
      modifies this`dirty, this`settled, this`known, this`adrift, dev
      ensures Steady() && Size() == old(Size()) && Lives(dev.c, Ob(), Size()) && adrift == old(adrift)
      ensures ok ==> Valid() && !dirty && known && HeaderIs(isShrink)
      ensures Store() == old(Store())
      ensures ok && isShrink ==> forall x :: NothingUpTo(x)
      ensures NoneBack(dev.c, obj, old(dev.log), dev.log)
      ensures !ok ==> dirty == old(dirty) && settled == old(settled && !collects) && known == old(known && !collects)
      ensures !ok ==> Stays(dev.c, dev.cpb, obj, old(Ob()), old(dev.log), Ob(), dev.log)
      ensures !ok && !collects ==>
                Ob() == old(Ob()) && Eroded(dev.c, dev.cpb, obj, old(Ob()), old(dev.log), dev.log)
      ensures !dev.nandFails && !collects ==>
                (old(dev.Room()) > 0 ==> ok) && (ok ==> dev.Room() >= old(dev.Room()) - 1)
      ensures dev.refusals >= old(dev.refusals)
      ensures !dev.nandFails && !ok ==> !dev.CanAlloc(Ob().hdr.Some?) && dev.refusals > old(dev.refusals)
    {
      hide Balanced, Journaled, Owned, AllKept, AllEroded, OthersEroded, SameReads, ReadsBut, Eroded, RoomOf, Fits,
        Shows, Spans, HeaderSize, Stored, ZeroAfter, Dev.CanAlloc, Scheduled, Kept, Stays, Tracks, HeaderIn, NoneBack,
        NoneUpTo, Lives, Dev.Valid;
      Collect();
      ghost var ob1, log1, nand1, objs1 := Ob(), dev.log, dev.nand, dev.objs;
      HasRoom();
      StaysLives(dev.c, dev.cpb, obj, old(Ob()), old(dev.log), ob1, log1, old(Size()));
      ok := dev.UpdateOh(obj, [], isShrink);
      if ok {
        OtherStored(dev.c, nand1, objs1, dev.nand, dev.objs, obj, Page(obj, 0, [], objs1[obj].size, isShrink));
        dirty, settled, known := false, true, true;
        AfterHeader(dev.c, dev.cpb, obj, old(Ob()), old(dev.log), ob1, log1, Ob(), dev.log, isShrink, adrift);
      } else {
        SameStored(dev.c, nand1, objs1, dev.nand, dev.objs, obj);
        settled, known := settled && !collects, known && !collects;
        ErodedObject(dev.c, dev.cpb, dev.objs, log1, dev.log, obj);
        ErodedStays(dev.c, dev.cpb, obj, old(Ob()), old(dev.log), ob1, log1, dev.log);
        StaysLives(dev.c, dev.cpb, obj, old(Ob()), old(dev.log), ob1, dev.log, old(Size()));
      }
    }

    // ---------- Writing ----------

    /** One turn of the writing loop: the part of the request that lies in one chunk, from byte `m` on. */
    method WrPart(offset: nat, data: F.Bytes, m: nat, ghost st: bool, ghost kn: bool, ghost f0: F.Flash)
      returns (written: int, nCopy: nat)
      requires Steady() && m < |data| && (st || kn ==> !collects)
      requires offset + m < LOFF ==> To(Max(Size(), offset + m), st, kn) && Patched(f0, offset, data[..m])
      modifies dev
      ensures Steady() && Size() == old(Size()) && 0 < nCopy <= |data| - m
      ensures offset + m < LOFF ==>
                && (written > 0 ==> To(Max(Size(), offset + m + nCopy), st, st && (kn || offset + m >= Size())))
                && (written == 0 ==> To(Max(Size(), offset + m + nCopy), st, false))
                && (written < 0 ==> To(Max(Size(), offset + m), st, kn))
                && (written >= 0 ==> Patched(f0, offset, data[..m + nCopy]))
      ensures written < 0 ==> Store() == old(Store())
      ensures old(Mapped()) && offset + m < ScanLimit(dev.c) ==> Mapped()
      ensures written < 0 && !collects ==>
                Ob() == old(Ob()) && Eroded(dev.c, dev.cpb, obj, old(Ob()), old(dev.log), dev.log)
      ensures offset + m < LOFF && offset + m < MAX_CHUNK_ID * dev.c ==> written != 0
      ensures offset + m < LOFF ==>
                if m + nCopy < |data| then Quo(dev.c, offset + m + nCopy) == Quo(dev.c, offset + m) + 1
                else Quo(dev.c, offset + |data| - 1) == Quo(dev.c, offset + m)
      ensures !dev.nandFails && !collects ==>
                (old(dev.Room()) > 0 ==> written >= 0) && (written >= 0 ==> dev.Room() >= old(dev.Room()) - 1)
      ensures dev.refusals >= old(dev.refusals)
      ensures !dev.nandFails && written < 0 ==> !dev.CanAlloc(false) && dev.refusals > old(dev.refusals)
    {
      hide AllFit, Fitting, ScanLimit, SizeWord, Balanced, Journaled, Owned, Tracks, Stays, Gets, DataIn, Eroded,
        RoomOf, Quo, Rem, Ends, Scheduled, Idle, Dev.Valid, Stored, ZeroAfter, WrittenAt, F.OnFlash, Padded,
        Dev.CanAlloc;
      var off, n := offset + m, |data| - m;
      var chunk, start, wb;
      chunk, start, nCopy, wb := PartOf(dev.c, Size(), off, n);
      var part := data[m..m + nCopy];
      var buffer := PartBuffer(chunk, start, part);
      written := WrData(chunk, buffer[..wb], false);
      WroteSize(dev.c, dev.cpb, obj, old(Ob()), old(dev.log), Ob(), dev.log, chunk, wb);
      if off < ScanLimit(dev.c) { FitBelow(dev.c, chunk, off); }
      if off < LOFF {
        AfterPart(dev.c, dev.cpb, obj, old(Ob()), old(dev.log), Ob(), dev.log, chunk, wb, Size(), off, off + nCopy,
                  adrift, st, kn, written, collects);
        if written >= 0 && !adrift {
          StoreOk();
          WholeOrEnd(dev.c, Size(), off, n, chunk, start, nCopy, wb);
          PartStored(dev.c, f0, old(Store()), Store(), obj, Size(), offset, data, m, nCopy, wb);
        }
      }
    }

    /** A chunk with a part of it overwritten; a whole chunk need not be read for that. */
    method PartBuffer(chunk: nat, start: nat, part: F.Bytes) returns (buffer: F.Bytes)
      requires start + |part| <= dev.c
      ensures |F.OnFlash(dev.c, Store(), F.Key(obj, chunk))| == dev.c == |buffer|
      ensures buffer == Splice(F.OnFlash(dev.c, Store(), F.Key(obj, chunk)), start, part)
    {
      hide Stored, F.OnFlash;
      buffer := if |part| == dev.c then part else Splice(ReadChunk(chunk), start, part);
      if |part| == dev.c { SpliceAll(ReadChunk(chunk), part); }
    }

    /** A chunk as it is on flash; a hole reads as zeros. */
    function ReadChunk(id: nat): (r: F.Bytes)
      reads this, dev
      ensures |r| == dev.c && r == F.OnFlash(dev.c, Store(), F.Key(obj, id))
    {
      StoredOk(dev.c, dev.nand, dev.objs, obj);
      F.ViewLength(dev.c, Store(), [], F.Key(obj, id));
      F.OnFlash(dev.c, Store(), F.Key(obj, id))
    }

    lemma StoreOk()
      ensures F.CacheOk(dev.c, Store(), []) && Own(Store(), obj)
    {
      StoredOk(dev.c, dev.nand, dev.objs, obj);
    }

    /** So far `d` has been written at `offset`, and what lies beyond it and the size is zero. */
    ghost predicate Patched(f0: F.Flash, offset: nat, d: F.Bytes)
      requires dev.c > 0 && obj in dev.objs
      reads this, dev
    {
      !adrift ==>
        && WrittenAt(dev.c, f0, Store(), obj, offset, d)
        && ZeroAfter(dev.c, Store(), obj, Max(Size(), offset + |d|))
    }

    /** Writes chunk by chunk, until all is written or a part is refused. */
    method WrLoop(offset: nat, data: F.Bytes, ghost st: bool, ghost kn0: bool) returns (nDone: nat, ghost kn: bool)
      requires Steady() && offset < LOFF && To(Max(Size(), offset), st, kn0) && (kn0 ==> st) && (st ==> !collects)
      requires ZeroFrom(Size())
      modifies dev
      ensures Steady() && Size() == old(Size()) && nDone <= |data|
      ensures offset + |data| <= LOFF ==>
                && To(Max(Size(), offset + nDone), st, kn) && (kn ==> st)
                && (nDone == 0 ==> kn == kn0)
                && (nDone > 0 && offset + |data| <= MAX_CHUNK_ID * dev.c && st && (kn0 || offset >= Size()) ==> kn)
                && (nDone == 0 && !collects ==>
                      Ob() == old(Ob()) && Eroded(dev.c, dev.cpb, obj, old(Ob()), old(dev.log), dev.log))
                && (old(Roomy(Parts(dev.c, offset, |data|))) ==>
                      nDone == |data| && dev.Room() >= old(dev.Room()) - Parts(dev.c, offset, |data|))
                && Patched(old(Store()), offset, data[..nDone])
      ensures old(Mapped()) && offset + |data| <= ScanLimit(dev.c) ==> Mapped()
      ensures dev.refusals >= old(dev.refusals)
      ensures !dev.nandFails && nDone < |data| ==> !dev.CanAlloc(false) && dev.refusals > old(dev.refusals)
    {
      hide AllFit, ScanLimit, SizeWord, Balanced, Journaled, Owned, Tracks, Eroded, RoomOf, Quo, Scheduled, Idle,
        Dev.Valid, Stored, ZeroAfter, WrittenAt, Dev.CanAlloc, File.Mapped;
      var n: nat, off: nat, written := |data|, offset, 0;
      nDone, kn := 0, kn0;
      ghost var inside := offset + |data| <= LOFF;
      ErodedNothing(dev.c, dev.cpb, obj, Ob(), dev.log);
      PartsPositive(dev.c, off, n);
      NothingWritten(dev.c, Store(), obj, offset, data[..0]);
      if !adrift { ZeroFarther(dev.c, Store(), obj, Size(), Max(Size(), offset)); }
      while n > 0 && written >= 0
        invariant Steady() && Size() == old(Size()) && nDone + n == |data| && off == offset + nDone
        invariant (kn ==> st) && (nDone == 0 ==> kn == kn0)
        invariant off < LOFF || inside ==> To(Max(Size(), off), st, kn) && Patched(old(Store()), offset, data[..nDone])
        invariant inside && nDone > 0 && offset + |data| <= MAX_CHUNK_ID * dev.c && st && (kn0 || offset >= Size()) ==>
                    kn
        invariant nDone == 0 && !collects ==>
                    Ob() == old(Ob()) && Eroded(dev.c, dev.cpb, obj, old(Ob()), old(dev.log), dev.log)
        invariant nDone == 0 && written >= 0 ==> unchanged(dev)
        invariant dev.refusals >= old(dev.refusals)
        invariant !dev.nandFails && written < 0 ==> !dev.CanAlloc(false) && dev.refusals > old(dev.refusals)
        invariant old(Mapped()) && offset + |data| <= ScanLimit(dev.c) ==> Mapped()
        invariant inside && old(Roomy(Parts(dev.c, offset, |data|))) ==>
                    && written >= 0 && Parts(dev.c, off, n) >= 0
                    && dev.Room() >= old(dev.Room()) - Parts(dev.c, offset, |data|) + Parts(dev.c, off, n)
        decreases n, written >= 0
      {
        PartsPositive(dev.c, off, n);
        var nCopy;
        written, nCopy := WrPart(offset, data, nDone, st, kn, old(Store()));
        if written >= 0 {
          kn := written > 0 && st && (kn || off >= Size());
          n, off, nDone := n - nCopy, off + nCopy, nDone + nCopy;
          PartsPositive(dev.c, off, n);
        }
      }
    }

    /** Writes at a position up to which nothing stale is left.  The size a scan would find is the live one afterwards,
        if it was before, exactly if something was written or the write starts inside the file.  The end of the
        request has to be a size; otherwise some of it lands at the start of the file. */
    method DoFileWr(offset: nat, data: F.Bytes) returns (nDone: nat)
      requires Valid() && offset < LOFF && (!adrift ==> NothingUpTo(offset))
      modifies this`dirty, this`settled, this`known, dev
      ensures Steady() && dirty && nDone <= |data| && Size() == Max(old(Size()), SizeWord(offset + nDone))
      ensures offset + |data| < LOFF ==> Valid() && Size() == Max(old(Size()), offset + nDone)
      ensures offset + |data| < LOFF && !adrift ==> WrittenAt(dev.c, old(Store()), Store(), obj, offset, data[..nDone])
      ensures offset + |data| < LOFF && !collects && old(settled) ==> settled
      ensures offset + |data| < LOFF && !adrift && !collects && old(known) &&
              offset + |data| <= MAX_CHUNK_ID * dev.c ==>
                && (known <==> nDone > 0 || offset <= old(Size()))
                && (known <==> SizeNow() == Size())
      ensures offset + |data| < LOFF && old(Roomy(Parts(dev.c, offset, |data|))) ==>
                nDone == |data| && dev.Room() >= old(dev.Room()) - Parts(dev.c, offset, |data|)
      ensures old(Mapped()) && offset + |data| <= ScanLimit(dev.c) ==> Mapped()
      ensures dev.refusals >= old(dev.refusals)
      ensures !dev.nandFails && nDone < |data| ==> !dev.CanAlloc(false) && dev.refusals > old(dev.refusals)
    {
      hide AllFit, ScanLimit, SizeWord, Balanced, Journaled, Owned, Tracks, Eroded, RoomOf, Quo, Scheduled, Idle,
        NoneUpTo, HeaderSize, Parts, Dev.Valid, Stored, ZeroAfter, WrittenAt, Dev.CanAlloc;
      ghost var size := Size();
      nDone := WrBytes(offset, data);
      if offset + |data| < LOFF && !adrift && !collects && old(known) && offset + |data| <= MAX_CHUNK_ID * dev.c {
        AfterWrite(dev.c, dev.cpb, obj, old(Ob()), old(dev.log), Ob(), dev.log, size, offset, nDone, settled, known);
      }
    }

    /** Writes the bytes, and sets the size. */
    method WrBytes(offset: nat, data: F.Bytes) returns (nDone: nat)
      requires Valid() && offset < LOFF && (!adrift ==> NothingUpTo(offset))
      modifies this`dirty, this`settled, this`known, dev
      ensures Steady() && dirty && nDone <= |data| && Size() == Max(old(Size()), SizeWord(offset + nDone))
      ensures settled == old(settled && !collects)
      ensures old(Mapped()) && offset + |data| <= ScanLimit(dev.c) ==> Mapped()
      ensures offset + |data| < LOFF ==>
                && To(Size(), settled, known) && (known ==> settled) && ZeroFrom(Size())
                && (!adrift ==> WrittenAt(dev.c, old(Store()), Store(), obj, offset, data[..nDone]))
                && (nDone == 0 ==> known == old(known && !collects && offset <= Size()))
                && (nDone > 0 && offset + |data| <= MAX_CHUNK_ID * dev.c && settled && old(known) ==> known)
                && (nDone == 0 && !collects ==>
                      Ob() == old(Ob()).(size := Size()) &&
                      Eroded(dev.c, dev.cpb, obj, old(Ob()), old(dev.log), dev.log))
                && (old(Roomy(Parts(dev.c, offset, |data|))) ==>
                      nDone == |data| && dev.Room() >= old(dev.Room()) - Parts(dev.c, offset, |data|))
      ensures dev.refusals >= old(dev.refusals)
      ensures !dev.nandFails && nDone < |data| ==> !dev.CanAlloc(false) && dev.refusals > old(dev.refusals)
    {
      hide AllFit, ScanLimit, SizeWord, Balanced, Journaled, Owned, Tracks, Eroded, RoomOf, Quo, Scheduled, Idle,
        NoneUpTo, HeaderSize, Parts, Dev.Valid, Stored, ZeroAfter, WrittenAt, Dev.CanAlloc, Dev.Room;
      ghost var size, st, kn := Size(), settled && !collects, known && !collects && offset <= Size();
      StartWrite(dev.c, dev.cpb, obj, Ob(), dev.log, size, offset, adrift, settled, known, st, kn);
      nDone, kn := WrLoop(offset, data, st, kn);
      Grow(SizeWord(offset + nDone), st, kn);
      dirty, settled, known := true, st, kn;
    }

    /** The file ends at `end`, if it did not go further. */
    method Grow(end: nat, ghost st: bool, ghost kn: bool)
      requires Steady() && end < LOFF
      modifies dev
      ensures Steady() && Ob() == old(Ob()).(size := Max(old(Size()), end)) && dev.log == old(dev.log)
      ensures dev.Room() == old(dev.Room()) && Store() == old(Store())
      ensures old(To(Max(Size(), end), st, kn)) ==> To(Size(), st, kn)
      ensures dev.refusals == old(dev.refusals)
      ensures forall res :: dev.CanAlloc(res) == old(dev.CanAlloc(res))
    {
      hide Balanced, Journaled, Owned, Tracks, RoomOf, Scheduled, Idle, Stored, SameReads, Dev.CanAlloc;
      dev.SetSize(obj, Max(Size(), end));
      SameStored(dev.c, dev.nand, old(dev.objs), dev.nand, dev.objs, obj);
      if old(To(Max(Size(), end), st, kn)) {
        TracksSize(dev.c, dev.cpb, obj, old(Ob()), Ob(), dev.log, Size(), adrift, st, kn);
      }
    }

    /** There is room for `n` pages, nothing fails, and nothing is collected in between. */
    ghost predicate Roomy(n: int)
      reads this, dev
    {
      !dev.nandFails && !collects && dev.Room() >= n
    }

    // ---------- Cutting ----------

    /** Drops the chunks that start at or beyond the new size, last first, so that what is left is always the beginning
        of the file. */
    method PruneChunks(newSize: nat)
      requires Steady() && newSize <= Size() && To(Size(), false, false)
      modifies dev
      ensures Steady() && Size() == old(Size()) && StartDel(dev.c, newSize) > 0
      ensures To(Min(Size(), L.Base(dev.c, StartDel(dev.c, newSize))), false, false)
      ensures !dev.nandFails ==> dev.Room() >= old(dev.Room())
      ensures old(Mapped()) ==> Mapped()
      ensures newSize + dev.c <= LOFF ==>
                F.Pruned(old(Store()), Store(), obj, F.StartDel(dev.c, newSize), F.LastDel(dev.c, old(Size())))
      ensures dev.refusals == old(dev.refusals)
    {
      hide AllFit, ScanLimit, SizeWord, Balanced, Journaled, Owned, Tracks, Scheduled, Quo, RoomOf, A.SplitPos, Stored,
        Dev.Valid, Idle, Dev.CanAlloc;
      var lastDel: int := if Size() > 0 then A.SplitPos(dev.c, LOFF, Size() - 1).0 + 1 else 1;
      var startDel := StartDel(dev.c, newSize);
      PruneBounds(dev.c, Size(), newSize, if Size() > 0 then Quo(dev.c, Size() - 1) + 1 else 1);
      TracksUpTo(dev.c, dev.cpb, obj, Ob(), dev.log, Size(), lastDel + 1, adrift);
      StartDelIs(dev.c, newSize);
      var i := lastDel;
      while i >= startDel
        invariant (i == lastDel || startDel - 1 <= i < lastDel) && i >= 0 && dev.refusals == old(dev.refusals)
        invariant !dev.nandFails ==> dev.Room() >= old(dev.Room())
        invariant old(Mapped()) ==> Mapped()
        invariant F.Pruned(old(Store()), Store(), obj, i + 1, lastDel)
        invariant Steady() && Size() == old(Size()) && To(Min(Size(), L.Base(dev.c, i + 1)), false, false)
      {
        PruneChunk(i);
        i := i - 1;
      }
      if startDel > lastDel { TracksUpTo(dev.c, dev.cpb, obj, Ob(), dev.log, Size(), startDel, adrift); }
    }

    /** Drops a chunk, the last one, if it is there. */
    method PruneChunk(i: nat)
      requires Steady() && i > 0 && To(Min(Size(), L.Base(dev.c, i + 1)), false, false)
      modifies dev
      ensures Steady() && Size() == old(Size()) && To(Min(Size(), L.Base(dev.c, i)), false, false)
      ensures !dev.nandFails ==> dev.Room() >= old(dev.Room())
      ensures old(Mapped()) ==> Mapped()
      ensures Store() == old(Store()) - {F.Key(obj, i)}
      ensures dev.refusals == old(dev.refusals)
    {
      hide AllFit, ScanLimit, SizeWord, Balanced, Journaled, Owned, Tracks, AllEroded, Scheduled, Quo, Lookup, RoomOf,
        Stored, SameReads, Dev.CanAlloc;
      ghost var ob1, log1, nand1, objs1 := Ob(), dev.log, dev.nand, dev.objs;
      if i in Ob().chunks {
        dev.DropChunk(obj, i);
        StoredDrop(dev.c, nand1, objs1, dev.nand, dev.objs, obj, i);
        ErodedObject(dev.c, dev.cpb, dev.objs, log1, dev.log, obj);
        if old(Mapped()) { ErodedFit(dev.c, dev.cpb, obj, Ob(), log1, dev.log); }
      } else {
        ErodedNothing(dev.c, dev.cpb, obj, ob1, log1);
        NotStored(dev.c, dev.nand, dev.objs, obj, i);
      }
      TracksDrop(dev.c, dev.cpb, obj, ob1, log1, Ob(), dev.log, Size(), i, adrift);
    }

    /** Cuts the file: chunks beyond the new size are dropped, and the chunk it falls into is rewritten with its new
        length.  No header is written yet.  If the end of a chunk that starts at the new size does not fit into 32 bits,
        then all chunks are dropped, although the log still holds those below the size. */
    method ResizeFileDown(newSize: nat)
      requires Steady() && newSize <= Size() && To(Size(), settled, known) && ZeroFrom(Size())
      modifies this`settled, this`known, this`adrift, dev
      ensures Steady() && Size() == newSize && To(Size(), settled, known) && !settled && !known
      ensures old(adrift) || newSize + dev.c > LOFF ==> adrift
      ensures old(Roomy(1)) && !old(adrift) && newSize + dev.c <= LOFF ==> !adrift
      ensures old(Roomy(1)) ==> dev.Room() >= old(dev.Room()) - 1
      ensures !adrift ==> F.Trimmed(dev.c, old(Store()), Store(), [], obj, newSize)
      ensures ZeroFrom(newSize)
      ensures old(Mapped()) && newSize <= ScanLimit(dev.c) ==> Mapped()
      ensures newSize + dev.c > LOFF ==> Ob().chunks.Keys <= {Quo(dev.c, newSize) + 1}
      ensures dev.refusals >= old(dev.refusals)
      ensures !dev.nandFails && adrift && !old(adrift) && newSize + dev.c <= LOFF ==>
                !dev.CanAlloc(true) && dev.refusals > old(dev.refusals)
    {
      hide AllFit, ScanLimit, SizeWord, Balanced, Journaled, Owned, Tracks, Scheduled, Quo, Rem, RoomOf, StartDel,
        Dev.Valid, Idle, Stored, ZeroAfter, F.Pruned, F.StartDel, F.LastDel, F.OnFlash, Padded, SameReads, Dev.CanAlloc;
      TracksLess(dev.c, dev.cpb, obj, Ob(), dev.log, Size(), adrift, settled, known);
      settled, known := false, false;
      PruneChunks(newSize);
      StartDelIs(dev.c, newSize);
      NextChunk(dev.c, StartDel(dev.c, newSize) - 1);
      if newSize + dev.c > LOFF {
        NothingLeft(dev.c, dev.cpb, obj, Ob(), dev.log, Size(), adrift, newSize);
        adrift := true;
      }
      ghost var f1 := Store();
      RewriteLast(newSize);
      ghost var ob2, nand2, objs2 := Ob(), dev.nand, dev.objs;
      if !adrift {
        StoreOk();
        CutStored(dev.c, old(Store()), f1, Store(), obj, old(Size()), newSize);
      }
      dev.SetSize(obj, newSize);
      SameStored(dev.c, nand2, objs2, dev.nand, dev.objs, obj);
      TracksSize(dev.c, dev.cpb, obj, ob2, Ob(), dev.log, newSize, adrift, false, false);
    }

    /** Rewrites the chunk into which the new size falls with its new length. */
    method RewriteLast(newSize: nat)
      requires Steady() && newSize <= Size()
      requires To(Min(Size(), Quo(dev.c, newSize + dev.c - 1) * dev.c), false, false)
      modifies this`adrift, dev
      ensures Steady() && Size() == old(Size()) && To(newSize, false, false)
      ensures old(adrift) ==> adrift
      ensures old(Roomy(1)) ==> adrift == old(adrift) && dev.Room() >= old(dev.Room()) - 1
      ensures var k := F.Key(obj, Quo(dev.c, newSize) + 1);
              && |F.OnFlash(dev.c, old(Store()), k)| == dev.c
              && (!adrift ==> Store() == if Rem(dev.c, newSize) == 0 then old(Store()) else F.Put(old(Store()), k,
                                Padded(dev.c, F.OnFlash(dev.c, old(Store()), k)[..Rem(dev.c, newSize)])))
      ensures old(Mapped()) && newSize <= ScanLimit(dev.c) ==> Mapped()
      ensures Ob().chunks.Keys <= old(Ob().chunks.Keys) + {Quo(dev.c, newSize) + 1}
      ensures dev.refusals >= old(dev.refusals)
      ensures !dev.nandFails && adrift && !old(adrift) ==> !dev.CanAlloc(true) && dev.refusals > old(dev.refusals)
    {
      hide AllFit, Fitting, ScanLimit, SizeWord, Balanced, Journaled, Owned, Tracks, Scheduled, Quo, Rem, Stays, Gets,
        DataIn, Eroded, RoomOf, A.SplitPos, Dev.Valid, Idle, Stored, Padded, F.OnFlash, Dev.CanAlloc;
      LastSplit(dev.c, newSize);
      LastFits(dev.c, newSize);
      ghost var ob1, log1 := Ob(), dev.log;
      var (newFull, newPartial) := A.SplitPos(dev.c, LOFF, newSize);
      var buffer := ReadChunk(newFull + 1);
      if newPartial != 0 {
        var written := WrData(newFull + 1, buffer[..newPartial], true);
        WroteSize(dev.c, dev.cpb, obj, ob1, log1, Ob(), dev.log, newFull + 1, newPartial);
        TracksCut(dev.c, dev.cpb, obj, ob1, log1, Ob(), dev.log, Size(), newSize, written, adrift);
        WroteKeys(dev.c, dev.cpb, obj, ob1, log1, Ob(), dev.log, newFull + 1, newPartial);
        adrift := adrift || written < 0;
      } else {
        TracksWhole(dev.c, dev.cpb, obj, Ob(), dev.log, Size(), newSize, adrift);
      }
    }

    // ---------- Holes ----------

    /** Stretches the file with zeros, at most a chunk at a time, until done or refused. */
    method ZeroFill(newSize: nat) returns (ok: bool)
      requires Valid() && Size() <= newSize < Size() + SMALL_HOLE_THRESHOLD * dev.c && newSize < LOFF
      modifies this`dirty, this`settled, this`known, dev
      ensures Valid() && old(Size()) <= Size() <= newSize && (ok ==> Size() == newSize)
      ensures !collects && old(settled) ==> settled
      ensures ok && !adrift && !collects && old(known) && newSize <= MAX_CHUNK_ID * dev.c ==> known
      ensures !adrift ==> SameBytes(dev.c, old(Store()), Store())
      ensures old(Mapped()) && newSize <= ScanLimit(dev.c) ==> Mapped()
      ensures old(Roomy(8)) ==> ok && dev.Room() >= old(dev.Room()) - 8
      ensures dev.refusals >= old(dev.refusals)
      ensures !dev.nandFails && !ok ==> !dev.CanAlloc(false) && dev.refusals > old(dev.refusals)
    {
      hide AllFit, ScanLimit, SizeWord, Balanced, Journaled, Owned, Tracks, Scheduled, RoomOf, Parts, HeaderSize,
        L.ReplaySize, Idle, Dev.Valid, Filled, NoneUpTo, Stored, ZeroAfter, WrittenAt, SameBytes, Dev.CanAlloc;
      var pos := Size();
      ghost var pieces, size0, room0, roomy := 0, Size(), dev.Room(), Roomy(8);
      ok := true;
      BytesSame(dev.c, Store());
      PiecesStart(dev.c, size0, newSize);
      while pos < newSize && ok
        invariant Valid() && size0 <= Size() <= newSize && (ok ==> pos == Size())
        invariant dev.refusals >= old(dev.refusals)
        invariant !dev.nandFails && !ok ==> !dev.CanAlloc(false) && dev.refusals > old(dev.refusals)
        invariant !collects && old(settled) ==> settled
        invariant old(Mapped()) && newSize <= ScanLimit(dev.c) ==> Mapped()
        invariant !adrift ==> SameBytes(dev.c, old(Store()), Store())
        invariant ok && !adrift && !collects && old(known) && newSize <= MAX_CHUNK_ID * dev.c ==> known
        invariant ok ==> pieces >= 0 && Filled(dev.c, size0, newSize, pos, pieces)
        invariant roomy ==> ok && Roomy(8 - 2 * pieces) && dev.Room() >= room0 - 2 * pieces
        decreases newSize - pos, ok
      {
        var thisWrite := Min(newSize - pos, dev.c);
        PartsOfPiece(dev.c, pos, thisWrite);
        if ok { FewPieces(dev.c, size0, newSize, pos, pieces); }
        NothingBetween(dev.c, obj, dev.log, Size());
        ghost var f1 := Store();
        var written := DoFileWr(pos, Fill(thisWrite, 0));
        if !adrift { ZerosStored(dev.c, old(Store()), f1, Store(), obj, pos, thisWrite, written); }
        pieces := pieces + 1;
        if written == thisWrite { pos := pos + thisWrite; } else { ok := false; }
      }
      if ok { AtMostFour(dev.c, size0, newSize, pos, pieces); }
    }

    /** The hole up to `x` is one to be filled with zeros. */
    predicate IsSmallHole(x: nat)
      requires obj in dev.objs
      reads this, dev
    {
      x - Size() < SMALL_HOLE_THRESHOLD * dev.c && dev.AllocAvailable(SMALL_HOLE_THRESHOLD + 1)
    }

    /** Prepares the file for a write or a stretch up to `newSize`.  A small hole is filled with zeros; for a
        large one, or when the zeros do not fit, a shrink header marks where the hole begins. */
    method HandleHole(newSize: nat) returns (ghost filled: bool)
      requires Valid() && newSize < LOFF
      modifies this, dev
      ensures Valid() && (old(adrift) ==> adrift) && (!adrift ==> NothingUpTo(newSize))
      ensures Size() == if filled then Max(old(Size()), newSize) else old(Size())
      ensures !adrift && !collects && old(settled) ==> settled
      ensures !adrift && !collects && old(known) && newSize <= MAX_CHUNK_ID * dev.c ==> known
      ensures !adrift ==> SameBytes(dev.c, old(Store()), Store())
      ensures newSize <= old(Size()) ==> filled
      ensures old(Mapped()) && newSize <= ScanLimit(dev.c) ==> Mapped()
      ensures old(Roomy(9)) ==>
                && dev.Room() >= old(dev.Room()) - 9 && adrift == old(adrift)
                && (filled <==> newSize - old(Size()) < 4 * dev.c)
      ensures dev.refusals >= old(dev.refusals)
      ensures !dev.nandFails && dev.refusals == old(dev.refusals) ==>
                && adrift == old(adrift)
                && (filled <==>
                      || newSize <= old(Size())
                      || (newSize - old(Size()) < 4 * dev.c && old(dev.nFree) > dev.reserve + 5))
    {
      hide AllFit, ScanLimit, SizeWord, Balanced, Journaled, Owned, Tracks, Scheduled, RoomOf, HeaderSize, L.ReplaySize,
        Idle, Dev.Valid, Stored, ZeroAfter, SameBytes, F.Trimmed, Dev.CanAlloc;
      filled := newSize <= Size();
      BytesSame(dev.c, Store());
      NothingBetween(dev.c, obj, dev.log, Max(Size(), newSize));
      if newSize <= Size() { ThresholdPositive(dev, newSize, Size()); return; }
      var oldSize, ok := Size(), false;
      if dev.Room() >= 9 { RoomIsFree(dev.cpb, dev.reserve, dev.Now()); }
      if IsSmallHole(newSize) {
        ok := ZeroFill(newSize);
        if !ok {
          ghost var f1 := Store();
          ResizeFileDown(oldSize);
          if !adrift { UndoneSame(dev.c, old(Store()), f1, Store(), obj, oldSize); }
        }
      }
      if !ok {
        LogSize(true);
      } else {
        NothingBetween(dev.c, obj, dev.log, newSize);
      }
      filled := ok;
    }

    /** Writes `data` at `offset`, as far as 32 bits reach.  The size a scan would find after a power cut is the
        live size too, if it was before, exactly unless nothing was written beyond a hole that was only marked.  If
        there is room, and nothing is collected in between, this depends on the request alone. */
    method WrFile(offset: nat, data: F.Bytes) returns (nDone: nat, ghost filled: bool)
      requires Valid() && offset < LOFF
      modifies this, dev
      ensures Steady() && dirty && nDone <= |data| && (old(adrift) ==> adrift)
      ensures offset + |data| < LOFF ==> Valid() && Size() == Max(old(Size()), offset + nDone)
      ensures offset + |data| < LOFF && !adrift ==>
                Bytes() == F.Patch(old(Bytes()), offset, F.Clip(dev.c, offset, data[..nDone]))
      ensures offset + |data| < LOFF && !adrift && !collects && old(settled) ==> settled
      ensures offset + |data| < LOFF && !adrift && !collects && old(known) &&
              offset + |data| <= MAX_CHUNK_ID * dev.c ==>
                && (known <==> nDone > 0 || filled || offset <= old(Size()))
                && (known <==> SizeNow() == Size())
      ensures offset + |data| < LOFF && old(Roomy(Parts(dev.c, offset, |data|) + 9)) ==>
                && nDone == |data| && adrift == old(adrift)
                && dev.Room() >= old(dev.Room()) - Parts(dev.c, offset, |data|) - 9
                && (filled <==> offset - old(Size()) < 4 * dev.c)
      ensures offset + |data| < LOFF && old(Roomy(Parts(dev.c, offset, |data|) + 9)) && !old(adrift) && old(known) &&
              offset + |data| <= MAX_CHUNK_ID * dev.c ==>
                (SizeNow() == Size() <==> |data| > 0 || offset - old(Size()) < 4 * dev.c)
      ensures old(Mapped()) && offset + |data| <= ScanLimit(dev.c) ==> Mapped()
      ensures dev.refusals >= old(dev.refusals)
      ensures !dev.nandFails && nDone < |data| ==> !dev.CanAlloc(false) && dev.refusals > old(dev.refusals)
      ensures !dev.nandFails && dev.refusals == old(dev.refusals) ==> nDone == |data| && adrift == old(adrift)
    {
      hide AllFit, ScanLimit, SizeWord, Balanced, Journaled, Owned, Tracks, Scheduled, RoomOf, HeaderSize, L.ReplaySize,
        Parts, NoneUpTo, Stored, ZeroAfter, WrittenAt, SameBytes, F.FileBytes, F.Patch, F.Clip, Dev.Valid, Idle,
        Dev.CanAlloc;
      PartsPositive(dev.c, offset, |data|);
      ghost var size0 := Size();
      filled := HandleHole(offset);
      ghost var f1, size1 := Store(), Size();
      nDone := DoFileWr(offset, data);
      if offset + |data| < LOFF && !adrift {
        WrittenBytes(dev.c, f1, Store(), obj, size1, offset, data[..nDone]);
        GapBytes(dev.c, old(Store()), f1, obj, size0, size1, offset, data[..nDone]);
      }
    }

    method ResizeFile(newSize: nat)
      requires Valid() && newSize < LOFF
      modifies this, dev
      ensures Valid() && Size() == newSize && (old(adrift) ==> adrift)
      ensures newSize != old(Size()) && !adrift ==> !dirty && known && HeaderIs(false)
      ensures !adrift ==> Bytes() == F.Extract(old(Bytes()), 0, newSize)
      ensures old(Roomy(10)) && !old(adrift) ==> (adrift <==> newSize < old(Size()) && newSize + dev.c > LOFF)
      ensures old(Roomy(10)) ==> dev.Room() >= old(dev.Room()) - 10
      ensures old(Mapped()) && newSize <= ScanLimit(dev.c) ==> Mapped()
      ensures dev.refusals >= old(dev.refusals)
      ensures !dev.nandFails && dev.refusals == old(dev.refusals) && !old(adrift) ==>
                (adrift <==> newSize < old(Size()) && newSize + dev.c > LOFF)
    {
      hide Balanced, Journaled, Owned, Tracks, Scheduled, RoomOf, HeaderSize, L.ReplaySize, Idle, Dev.Valid, Stored,
        ZeroAfter, F.Trimmed, F.FileBytes, F.Extract, AllFit, Dev.CanAlloc;
      Collect2();
      ghost var size0 := Size();
      if newSize == Size() {
        BytesSame(dev.c, Store());
        if !adrift { ExtendedStored(dev.c, Store(), Store(), obj, size0, newSize); }
        return;
      }
      if newSize > Size() {
        Stretch(newSize);
      } else {
        ResizeFileDown(newSize);
        if !adrift { TrimmedStored(dev.c, old(Store()), Store(), obj, size0, newSize); }
      }
      LogSize(false);
    }

    /** Makes a file longer; the header with its new size is still to be written. */
    method Stretch(newSize: nat)
      requires Valid() && Size() < newSize < LOFF
      modifies this, dev
      ensures Steady() && Size() == newSize && To(newSize, settled, known) && ZeroFrom(newSize)
      ensures old(adrift) ==> adrift
      ensures !adrift ==> Bytes() == F.Extract(old(Bytes()), 0, newSize)
      ensures old(Roomy(9)) ==> adrift == old(adrift) && dev.Room() >= old(dev.Room()) - 9
      ensures old(Mapped()) && newSize <= ScanLimit(dev.c) ==> Mapped()
      ensures dev.refusals >= old(dev.refusals)
      ensures !dev.nandFails && dev.refusals == old(dev.refusals) ==> adrift == old(adrift)
    {
      hide Balanced, Journaled, Owned, Tracks, Scheduled, RoomOf, HeaderSize, L.ReplaySize, NoneUpTo, Idle, Dev.Valid,
        Stored, ZeroAfter, SameBytes, F.FileBytes, F.Extract, SameReads, AllFit, Dev.CanAlloc;
      ghost var size0 := Size();
      var _ := HandleHole(newSize);
      TracksStretch(dev.c, dev.cpb, obj, Ob(), dev.log, Size(), newSize, adrift, settled, known);
      if !adrift {
        ExtendedStored(dev.c, old(Store()), Store(), obj, size0, newSize);
        ZeroFarther(dev.c, Store(), obj, Size(), newSize);
      }
      Grow(newSize, false, false);
      settled, known := false, false;
    }

    /** Writes a header with the size of the file; a shrink header also cuts the log to it. */
    method LogSize(isShrink: bool)
      requires Steady() && To(Size(), settled, known) && ZeroFrom(Size())
      modifies this, dev
      ensures Valid() && Size() == old(Size()) && Store() == old(Store()) && (old(adrift) ==> adrift)
      ensures !adrift ==> !dirty && known && HeaderIs(isShrink) && (isShrink ==> forall x :: NothingUpTo(x))
      ensures old(Roomy(1)) ==> adrift == old(adrift) && dev.Room() >= old(dev.Room()) - 1
      ensures old(Mapped()) ==> Mapped()
      ensures dev.refusals >= old(dev.refusals)
      ensures !dev.nandFails && adrift && !old(adrift) ==> !dev.CanAlloc(true) && dev.refusals > old(dev.refusals)
    {
      hide Balanced, Journaled, Owned, Tracks, Scheduled, RoomOf, HeaderSize, L.ReplaySize, NoneUpTo, Idle, Dev.Valid,
        Stored, ZeroAfter, AllFit, NoneBack, Dev.CanAlloc;
      TracksLess(dev.c, dev.cpb, obj, Ob(), dev.log, Size(), adrift, settled, known);
      TracksLives(dev.c, dev.cpb, obj, Ob(), dev.log, Size(), adrift, settled, known);
      ghost var log1 := dev.log;
      var ok := WriteHeader(isShrink);
      if old(Mapped()) { NoneBackFit(dev.c, obj, log1, dev.log); }
      if !ok {
        adrift, settled, known := true, false, false;
        AdriftTracks(dev.c, dev.cpb, obj, Ob(), dev.log, Size(), settled, known);
      }
    }

    /** A header makes the logged size the live one; without a page for it, the file stays dirty. */
    method FlushFile() returns (ok: bool)
      requires Valid()
      modifies this`dirty, this`settled, this`known, this`adrift, dev
      ensures Valid() && Size() == old(Size()) && adrift == old(adrift) && (ok <==> !dirty)
      ensures (!adrift && ok ==> known) && (old(dirty) && ok ==> HeaderIs(false))
      ensures Bytes() == old(Bytes()) && (old(Mapped()) ==> Mapped())
      ensures old(Roomy(1)) ==> ok && dev.Room() >= old(dev.Room()) - 1
      ensures dev.refusals >= old(dev.refusals)
      ensures !dev.nandFails && !ok ==> !dev.CanAlloc(Ob().hdr.Some?) && dev.refusals > old(dev.refusals)
    {
      hide AllFit, ScanLimit, SizeWord, Balanced, Journaled, Owned, Tracks, Scheduled, RoomOf, HeaderSize, L.ReplaySize,
        Stays, Eroded, Stored, ZeroAfter, Dev.CanAlloc;
      ok := !dirty;
      if dirty {
        TracksLess(dev.c, dev.cpb, obj, Ob(), dev.log, Size(), adrift, settled, known);
        TracksLives(dev.c, dev.cpb, obj, Ob(), dev.log, Size(), adrift, settled, known);
        ghost var ob0, log0, st0, kn0 := Ob(), dev.log, settled, known;
        ok := WriteHeader(false);
        if AllFit(dev.c, obj, log0) { NoneBackFit(dev.c, obj, log0, dev.log); }
        if !ok {
          StayTracks(dev.c, dev.cpb, obj, ob0, log0, Ob(), dev.log, Size(), adrift, settled, known, collects);
        }
      }
    }

    /** The collector runs between two operations. */
    method Collect2()
      requires Valid()
      modifies dev
      ensures Valid() && Size() == old(Size()) && Store() == old(Store())
      ensures (!collects ==> unchanged(dev)) && (old(Mapped()) ==> Mapped())
      ensures dev.refusals >= old(dev.refusals)
    {
      hide AllFit, ScanLimit, SizeWord, Balanced, Journaled, Owned, Tracks, Scheduled, RoomOf, Kept, AllKept, Stored,
        ZeroAfter, Dev.CanAlloc;
      Collect();
      if old(Mapped()) { StaysFit(dev.c, dev.cpb, obj, old(Ob()), old(dev.log), Ob(), dev.log); }
      KeptObject(dev.c, dev.cpb, old(dev.objs), old(dev.log), dev.objs, dev.log, obj);
      TracksKept(dev.c, dev.cpb, obj, old(Ob()), old(dev.log), Ob(), dev.log, adrift, settled, known);
      KeptHeaderSize(dev.c, dev.cpb, obj, old(Ob()), old(dev.log), Ob(), dev.log, Size(), adrift, settled, known);
    }

    // ---------- Other files, and a scan ----------

    /** Another object gets a chunk or a header, loses a chunk, or is deleted. */
    method ChangeOther(o: nat, id: nat, data: seq<bv8>, useReserve: bool, choice: int)
      requires Steady() && o != obj && |data| <= dev.c && o in dev.objs && !dev.objs[o].softDeleted
      modifies dev
      ensures Steady() && Ob() == old(Ob()) && Eroded(dev.c, dev.cpb, obj, Ob(), old(dev.log), dev.log)
      ensures Store() == old(Store())
      ensures !dev.nandFails && old(dev.Room()) > 0 ==> dev.Room() >= old(dev.Room()) - 1
      ensures dev.refusals >= old(dev.refusals)
    {
      hide Balanced, Journaled, Owned, Tracks, Eroded, RoomOf, AllEroded, OthersEroded, HeaderIn, DataIn, Lookup,
        SameReads, ReadsBut, Scheduled, Dev.Valid, Stored, Own, Dev.CanAlloc;
      ghost var log0, objs0, nand0 := dev.log, dev.objs, dev.nand;
      ErodedNothing(dev.c, dev.cpb, obj, Ob(), dev.log);
      HasRoom();
      if choice == 1 && id > 0 {
        var r := dev.WrDataObj(o, id, data, useReserve);
        ElsewhereEroded(dev.c, dev.cpb, objs0, dev.objs, log0, dev.log, o, obj, r > 0);
        if r > 0 {
          OtherStored(dev.c, nand0, objs0, dev.nand, dev.objs, obj, DataPage(o, id, data));
        } else {
          SameStored(dev.c, nand0, objs0, dev.nand, dev.objs, obj);
        }
      } else if choice == 2 && id in dev.objs[o].chunks {
        dev.DropChunk(o, id);
        StoredSame(dev.c, nand0, objs0, dev.nand, dev.objs, obj);
        ErodedObject(dev.c, dev.cpb, dev.objs, log0, dev.log, obj);
      } else if choice == 3 {
        dev.SoftDelFile(o);
        StoredSame(dev.c, nand0, objs0, dev.nand, dev.objs, obj);
        ErodedObject(dev.c, dev.cpb, dev.objs, log0, dev.log, obj);
      } else {
        var shrink := choice == 4 && forall i | i in dev.objs[o].chunks :: L.Base(dev.c, i) < dev.objs[o].size;
        var ok := dev.UpdateOh(o, data, shrink);
        ElsewhereEroded(dev.c, dev.cpb, objs0, dev.objs, log0, dev.log, o, obj, ok);
        if ok {
          OtherStored(dev.c, nand0, objs0, dev.nand, dev.objs, obj, Page(o, 0, data, objs0[o].size, shrink));
        } else {
          SameStored(dev.c, nand0, objs0, dev.nand, dev.objs, obj);
        }
      }
    }

    /** Something happens to another object: it is created, gets a chunk or a header, loses a chunk, changes its size,
        or is deleted. */
    method Elsewhere(o: nat, id: nat, data: seq<bv8>, useReserve: bool)
      requires Valid() && o != obj && |data| <= dev.c
      modifies dev
      ensures Valid() && Ob() == old(Ob()) && Bytes() == old(Bytes()) && (old(Mapped()) ==> Mapped())
      ensures !dev.nandFails && old(dev.Room()) > 0 ==> dev.Room() >= old(dev.Room()) - 1
      ensures dev.refusals >= old(dev.refusals)
    {
      hide AllFit, ScanLimit, SizeWord, Balanced, Journaled, Owned, Tracks, Eroded, RoomOf, Scheduled, Idle, Dev.Valid,
        Stored, ZeroAfter, SameReads, Dev.CanAlloc;
      ghost var log0, objs0, nand0 := dev.log, dev.objs, dev.nand;
      ErodedNothing(dev.c, dev.cpb, obj, Ob(), dev.log);
      var choice: int := *;
      if o !in dev.objs {
        if o !in dev.cleanUps && GoodId(o) {
          dev.CreateObj(o);
          SameStored(dev.c, nand0, objs0, dev.nand, dev.objs, obj);
        }
      } else if choice == 0 {
        dev.SetSize(o, id);
        SameStored(dev.c, nand0, objs0, dev.nand, dev.objs, obj);
      } else if !dev.objs[o].softDeleted {
        ChangeOther(o, id, data, useReserve, choice);
      }
      if old(Mapped()) { ErodedFit(dev.c, dev.cpb, obj, Ob(), log0, dev.log); }
      TracksEroded(dev.c, dev.cpb, obj, Ob(), log0, dev.log, Size(), adrift, settled, known);
      ErodedHeaderSize(dev.c, dev.cpb, obj, Ob(), log0, dev.log, Size(), adrift, settled, known);
    }

    lemma ChunkPlaces()
      requires Valid()
      ensures forall id :: id in Ob().chunks ==> Ob().chunks[id].page < dev.cpb && id <= MAX_CHUNK_ID
    {
    }

    /** Power is lost, the pages are still there, and the blocks of the device are scanned: the scan finds this file,
        with its size and its bytes if that is known. */
    method Remount() returns (found: Scanned)
      requires Valid() && |dev.blocks| < 0x8000_0000 && dev.seqNumber < HIGHEST_SEQUENCE_NUMBER
      ensures !adrift && settled && Addressable(dev.c, LOFF, obj, dev.log) &&
              AllNear(Image(dev.cpb, dev.nand, dev.blocks)) ==>
                && found.chunks == Addrs(dev.cpb, Ob().chunks) && Ob().hdr.Some?
                && found.hdr == Addr(dev.cpb, Ob().hdr.value)
                && (known ==> found.size == Size() && FoundBytes(dev.c, dev.cpb, dev.nand, found) == Bytes())
    {
      hide Balanced, Journaled, Owned, Tracks, Scheduled, Recovered, IsOrder, AllNear, Concat, Addressable, Means,
        Image, Stored, ZeroAfter, FoundBytes, F.FileBytes;
      var blocks := Image(dev.cpb, dev.nand, dev.blocks);
      var files, order := ScanBackwards(dev.c, LOFF, blocks);
      found := BackwardScan.Find(dev.c, LOFF, files, obj);
      if !adrift && settled && Addressable(dev.c, LOFF, obj, dev.log) && AllNear(blocks) {
        ImageIsLog(dev.c, dev.cpb, dev.Now(), dev.nand, dev.objs, dev.log, order);
        FoundFile(dev.c, dev.cpb, obj, Ob(), dev.log, Concat(blocks, order), found, files, settled, known);
        ChunkPlaces();
        if known { FoundIs(dev.c, dev.cpb, dev.nand, dev.objs, obj, found); }
      }
    }
  }

  // ---------- Runs ----------

  /** Something that happens: to the file, to the blocks of the device, or to another object. */
  datatype Op =
    | Write(offset: nat, data: F.Bytes)
    | Resize(size: nat)
    | Flush
    | Collection
    | Other(o: nat, id: nat, data: F.Bytes, useReserve: bool)

  /** Positions and sizes fit into 32 bits, and data for another object into a chunk. */
  predicate Proper(c: nat, obj: nat, op: Op) {
    match op
    case Write(offset, data) => offset + |data| < LOFF
    case Resize(size) => size < LOFF
    case Other(o, _, data, _) => o != obj && |data| <= c
    case _ => true
  }

  /** What becomes of a byte sequence, if of a write the first `n` bytes find space. */
  function Apply(c: nat, s: F.Bytes, op: Op, n: nat): F.Bytes
    requires c > 0
  {
    match op
    case Write(offset, data) => F.Patch(s, offset, F.Clip(c, offset, data[..Min(n, |data|)]))
    case Resize(size) => F.Extract(s, 0, size)
    case _ => s
  }

  function ApplyAll(c: nat, s: F.Bytes, ops: seq<Op>, done: seq<nat>): F.Bytes
    requires c > 0 && |done| == |ops|
  {
    if ops == [] then s
    else var k := |ops| - 1; Apply(c, ApplyAll(c, s, ops[..k], done[..k]), ops[k], done[k])
  }

  /** How many pages an operation may take. */
  function Need(c: nat, op: Op): int
    requires c > 0
  {
    match op
    case Write(offset, data) => Parts(c, offset, |data|) + 9
    case Resize(size) => 10
    case Flush => 1
    case Collection => 0
    case Other(_, _, _, _) => 1
  }

  function NeedAll(c: nat, ops: seq<Op>): int
    requires c > 0
  {
    if ops == [] then 0 else NeedAll(c, ops[..|ops| - 1]) + Need(c, ops[|ops| - 1])
  }

  lemma {:induction false} NeedMore(c: nat, ops: seq<Op>, i: nat)
    requires c > 0 && i <= |ops|
    ensures NeedAll(c, ops[..i]) <= NeedAll(c, ops)
    ensures i < |ops| ==> NeedAll(c, ops[..i]) + Need(c, ops[i]) == NeedAll(c, ops[..i + 1]) <= NeedAll(c, ops)
  {
    var n := |ops| - 1;
    if i < |ops| {
      assert ops[..i + 1][..i] == ops[..i];
      if i == n {
        assert ops[..i + 1] == ops;
      } else {
        NeedMore(c, ops[..n], i + 1);
        assert ops[..n][..i + 1] == ops[..i + 1];
      }
      NeedPositive(c, ops[i]);
      NeedPositive(c, ops[n]);
    } else {
      assert ops[..i] == ops;
    }
  }

  lemma NeedPositive(c: nat, op: Op)
    requires c > 0
    ensures Need(c, op) >= 0
  {
    if op.Write? { PartsPositive(c, op.offset, |op.data|); }
  }

  /** The end of a chunk that starts at the new size fits into 32 bits. */
  predicate Cuttable(c: nat, op: Op) { op.Resize? ==> op.size + c <= LOFF }

  predicate AllCuttable(c: nat, ops: seq<Op>) { forall op :: op in ops ==> Cuttable(c, op) }

  /** What a write or a resize reaches is found by a scan where it is. */
  predicate Tellable(c: nat, op: Op) {
    match op
    case Write(offset, data) => offset + |data| <= ScanLimit(c)
    case Resize(size) => size <= ScanLimit(c)
    case _ => true
  }

  lemma CuttableIs(c: nat, ops: seq<Op>)
    ensures AllCuttable(c, ops) <==> forall op :: op in ops && op.Resize? ==> op.size + c <= LOFF
  {
  }

  lemma TellableIs(c: nat, ops: seq<Op>)
    ensures (forall op :: op in ops ==> Tellable(c, op)) <==>
              && (forall op :: op in ops && op.Write? ==> op.offset + |op.data| <= ScanLimit(c))
              && (forall op :: op in ops && op.Resize? ==> op.size <= ScanLimit(c))
  {
  }

  /** One operation of a run.  With room for it nothing goes wrong, unless it is a cut that drops too much. */
  method Perform(f: File, op: Op) returns (n: nat)
    requires f.Valid() && Proper(f.dev.c, f.obj, op)
    modifies f, f.dev
    ensures f.Valid() && (old(f.adrift) ==> f.adrift)
    ensures !f.adrift ==> f.Bytes() == Apply(f.dev.c, old(f.Bytes()), op, n)
    ensures op.Write? ==> n <= |op.data|
    ensures old(f.Roomy(Need(f.dev.c, op))) ==>
              && f.dev.Room() >= old(f.dev.Room()) - Need(f.dev.c, op) && (op.Write? ==> n == |op.data|)
              && (!old(f.adrift) ==>
                    (f.adrift <==> op.Resize? && op.size < old(f.Size()) && op.size + f.dev.c > LOFF))
    ensures f.dev.refusals >= old(f.dev.refusals)
    ensures !f.dev.nandFails && f.dev.refusals == old(f.dev.refusals) ==>
              && (op.Write? ==> n == |op.data|)
              && (!old(f.adrift) ==>
                    (f.adrift <==> op.Resize? && op.size < old(f.Size()) && op.size + f.dev.c > LOFF))
    ensures old(f.Mapped()) && Tellable(f.dev.c, op) ==> f.Mapped()
  {
    hide Balanced, Journaled, Owned, Tracks, Scheduled, HeaderSize, L.ReplaySize, Dev.Valid, Idle, RoomOf, Parts,
      Stored, ZeroAfter, F.Patch, F.Clip, F.Extract, F.FileBytes, AllFit, ScanLimit, Dev.CanAlloc;
    n := 0;
    match op {
      case Write(offset, data) =>
        ghost var filled;
        n, filled := f.WrFile(offset, data);
      case Resize(size) => f.ResizeFile(size);
      case Flush => var ok := f.FlushFile();
      case Collection => f.Collect2();
      case Other(o, id, data, useReserve) => f.Elsewhere(o, id, data, useReserve);
    }
  }

  /** Nothing goes wrong in a run: there is room for it, and nothing is collected; or no page is refused. */
  ghost predicate GoesWell(c: nat, ops: seq<Op>, done: seq<nat>, adrift: bool)
    requires |done| <= |ops|
  {
    !adrift && forall i :: 0 <= i < |done| && ops[i].Write? ==> done[i] == |ops[i].data|
  }

  /** The operations of a run, one after the other. */
  method RunAll(f: File, ops: seq<Op>) returns (done: seq<nat>)
    requires f.Valid() && forall op :: op in ops ==> Proper(f.dev.c, f.obj, op)
    modifies f, f.dev
    ensures f.Valid() && |done| == |ops|
    ensures !f.adrift ==> f.Bytes() == ApplyAll(f.dev.c, old(f.Bytes()), ops, done)
    ensures old(f.Roomy(NeedAll(f.dev.c, ops) + 1)) && !old(f.adrift) && AllCuttable(f.dev.c, ops) ==>
              GoesWell(f.dev.c, ops, done, f.adrift) && f.Roomy(1)
    ensures f.dev.refusals >= old(f.dev.refusals)
    ensures !f.dev.nandFails && f.dev.refusals == old(f.dev.refusals) && !old(f.adrift) && AllCuttable(f.dev.c, ops) ==>
              GoesWell(f.dev.c, ops, done, f.adrift)
    ensures old(f.Mapped()) && (forall op :: op in ops ==> Tellable(f.dev.c, op)) ==> f.Mapped()
  {
    hide Balanced, Journaled, Owned, Tracks, Scheduled, HeaderSize, L.ReplaySize, Dev.Valid, Idle, RoomOf, Parts,
      Stored, ZeroAfter, F.FileBytes, Apply, AllFit, Need, Tellable, GoesWell, Cuttable;
    done := [];
    ghost var c := f.dev.c;
    ghost var cuttable := AllCuttable(c, ops);
    ghost var roomy := f.Roomy(NeedAll(c, ops) + 1) && !f.adrift && cuttable;
    ghost var served := !f.dev.nandFails && !f.adrift && cuttable;
    WellSoFar(c, ops, f.adrift);
    for i := 0 to |ops|
      invariant f.Valid() && |done| == i
      invariant !f.adrift ==> f.Bytes() == ApplyAll(c, old(f.Bytes()), ops[..i], done)
      invariant roomy ==>
                  GoesWell(c, ops, done, f.adrift) && f.dev.Room() >= old(f.dev.Room()) - NeedAll(c, ops[..i])
      invariant f.dev.refusals >= old(f.dev.refusals)
      invariant served && f.dev.refusals == old(f.dev.refusals) ==> GoesWell(c, ops, done, f.adrift)
      invariant old(f.Mapped()) && (forall op :: op in ops ==> Tellable(c, op)) ==> f.Mapped()
    {
      NeedMore(c, ops, i);
      assert ops[i] in ops;
      if cuttable { assert Cuttable(c, ops[i]); }
      ghost var adrift0, size0 := f.adrift, f.Size();
      var n := Perform(f, ops[i]);
      WellMore(c, ops, done, n, adrift0, f.adrift, size0);
      assert ops[..i + 1][..i] == ops[..i] && (done + [n])[..i] == done;
      done := done + [n];
    }
    assert ops[..|ops|] == ops;
  }

  lemma WellSoFar(c: nat, ops: seq<Op>, adrift: bool)
    ensures GoesWell(c, ops, [], adrift) <==> !adrift
  {
  }

  lemma WellMore(c: nat, ops: seq<Op>, done: seq<nat>, n: nat, adrift: bool, adrift': bool, size: nat)
    requires |done| < |ops|
    ensures GoesWell(c, ops, done, adrift) && Cuttable(c, ops[|done|]) &&
            (var op := ops[|done|];
             && (op.Write? ==> n == |op.data|)
             && (!adrift ==> (adrift' <==> op.Resize? && op.size < size && op.size + c > LOFF))) ==>
              GoesWell(c, ops, done + [n], adrift')
  {
  }

  /** Any run: the file is written, resized and flushed, blocks are collected, other objects come and go, in any order
      and any number of times; then the file is flushed, power is lost, and the blocks are scanned.  The scan finds the
      live chunks and header of the file, and the bytes that the operations make of a plain byte sequence, as long as
      every write that may use the reserve found a page, and no cut dropped too much.  If there is room for the run,
      nothing is collected, and no size comes too close to 2^32, that is so, and every write is done as a whole. */
  method AnyRun(f: File, ops: seq<Op>) returns (found: Scanned, done: seq<nat>)
    requires f.Valid() && forall op :: op in ops ==> Proper(f.dev.c, f.obj, op)
    modifies f, f.dev
    ensures f.Valid() && |done| == |ops|
    ensures (&& old(f.Roomy(NeedAll(f.dev.c, ops) + 1)) && !old(f.adrift)
             && (forall op :: op in ops && op.Resize? ==> op.size + f.dev.c <= 0x1_0000_0000)) ==>
              && !f.adrift && !f.dirty
              && forall i :: 0 <= i < |ops| && ops[i].Write? ==> done[i] == |ops[i].data|
    ensures (&& !f.dev.nandFails && f.dev.refusals == old(f.dev.refusals) && !old(f.adrift)
             && (forall op :: op in ops && op.Resize? ==> op.size + f.dev.c <= 0x1_0000_0000)) ==>
              && !f.adrift && !f.dirty
              && forall i :: 0 <= i < |ops| && ops[i].Write? ==> done[i] == |ops[i].data|
    ensures (&& old(f.Mapped())
             && (forall op :: op in ops && op.Write? ==> op.offset + |op.data| <= ScanLimit(f.dev.c))
             && (forall op :: op in ops && op.Resize? ==> op.size <= ScanLimit(f.dev.c))) ==> f.Mapped()
    ensures !f.adrift && !f.dirty && f.Mapped() &&
            f.dev.seqNumber < HIGHEST_SEQUENCE_NUMBER && AllNear(Image(f.dev.cpb, f.dev.nand, f.dev.blocks)) &&
            |f.dev.blocks| < 0x8000_0000 ==>
              && found.chunks == Addrs(f.dev.cpb, f.Ob().chunks) && f.Ob().hdr.Some?
              && found.hdr == Addr(f.dev.cpb, f.Ob().hdr.value) && found.size == f.Size()
              && FoundBytes(f.dev.c, f.dev.cpb, f.dev.nand, found) ==
                 ApplyAll(f.dev.c, old(f.Bytes()), ops, done)
  {
    hide Balanced, Journaled, Owned, Tracks, Scheduled, HeaderSize, L.ReplaySize, Addressable, AllNear, Image,
      Dev.Valid, Idle, RoomOf, Parts, Stored, ZeroAfter, FoundBytes, F.FileBytes, Apply, AllFit, Need, Tellable,
      Dev.CanAlloc, Cuttable;
    CuttableIs(f.dev.c, ops);
    TellableIs(f.dev.c, ops);
    done := RunAll(f, ops);
    ghost var adrift := f.adrift;
    var flushed := f.FlushFile();
    found := Unseen(f.dev.c, LOFF);
    if flushed && f.dev.seqNumber < HIGHEST_SEQUENCE_NUMBER && |f.dev.blocks| < 0x8000_0000 {
      FitAddressable(f.dev.c, f.obj, f.dev.log);
      found := f.Remount();
    }
  }

  /** How much room a run needs at most: for a write, one page for each chunk that it touches, and nine. */
  lemma NeedAtMost(c: nat, op: Op)
    requires c > 0
    ensures Need(c, op) <= if op.Write? then |op.data| / c + 11 else 10
  {
    if op.Write? && |op.data| > 0 { PartsAtMost(c, op.offset, |op.data|); }
  }

  lemma PartsAtMost(c: nat, off: nat, n: nat)
    requires c > 0 && n > 0
    ensures Parts(c, off, n) <= n / c + 2
  {
    hide Quo, Rem;
    var q, r, k := Quo(c, off), Quo(c, off + n - 1), n / c;
    Split(c, off);
    Split(c, off + n - 1);
    assert n < (k + 1) * c;
    MultipleSign(c, r - q - k - 2);
    assert (r - q - k - 2) * c == r * c - q * c - (k + 2) * c;
  }

  const SHORT_RUN: seq<Op> := [Write(0, [1, 2, 3]), Resize(2), Resize(4)]

  lemma ShortNeed()
    ensures NeedAll(4, SHORT_RUN) <= 31
  {
    var ops := SHORT_RUN;
    assert ops[..2][..1] == ops[..1] && ops[..1][..0] == [];
    assert NeedAll(4, ops) == NeedAll(4, ops[..2]) + 10 && NeedAll(4, ops[..2]) == NeedAll(4, ops[..1]) + 10;
    NeedAtMost(4, ops[0]);
  }

  lemma ShortBytes(done: seq<nat>)
    requires |done| == 3 && done[0] == 3
    ensures ApplyAll(4, [], SHORT_RUN, done) == [1, 2, 0, 0]
  {
    var ops := SHORT_RUN;
    assert ops[..2][..1] == ops[..1] && ops[..1][..0] == [] && done[..2][..1] == done[..1] && done[..1][..0] == [];
    var d := F.Clip(4, 0, ops[0].data[..3]);
    F.ClipIs(4, 0, ops[0].data[..3]);
    assert ApplyAll(4, [], ops[..1], done[..1]) == F.Patch([], 0, d) == [1, 2, 3];
    assert ApplyAll(4, [], ops[..2], done[..2]) == F.Extract([1, 2, 3], 0, 2) == [1, 2];
    assert F.Extract([1, 2], 0, 4) == [1, 2, 0, 0];
  }

  /** A short run on a new device: three bytes are written, two of them are kept, and two zeros follow. */
  method ShortRun() returns (f: File)
    ensures fresh(f) && f.Valid() && !f.adrift && f.Bytes() == [1, 2, 0, 0]
  {
    hide Balanced, Journaled, Owned, Tracks, Scheduled, HeaderSize, L.ReplaySize, Apply, F.FileBytes, NeedAll, ApplyAll;
    var dev := new Dev(4, 16, 0, false, 10);
    f := new File(dev, 300, false);
    ShortNeed();
    var done := RunAll(f, SHORT_RUN);
    ShortBytes(done);
  }

  /** A write of no bytes beyond a large hole: in memory the file has grown, but a scan would find it empty. */
  method LostSize() returns (f: File)
    ensures fresh(f) && f.Valid() && !f.adrift && f.Size() == 10 && f.SizeNow() != f.Size()
  {
    hide Balanced, Journaled, Owned, Tracks, Scheduled, HeaderSize, L.ReplaySize;
    var dev := new Dev(2, 16, 0, false, 4);
    f := new File(dev, 300, false);
    var nDone, filled := f.WrFile(10, []);
  }
}
