/**
 The mount-time scan.  Blocks are ordered by sequence number and their pages are read newest
 first, so that the first copy of a chunk that is met is the one to keep; the sizes of the
 headers met on the way say which older chunks were cut off.
 */
module BackwardScan {
  import opened Common
  import opened FlashLog
  import opened LogMeaning
  import opened QuickSort

  const HIGHEST_SEQUENCE_NUMBER := 0xefff_ff00

  // ---------- The order of the blocks ----------

  /** An entry of the block index; both fields are C ints made from 32-bit words. */
  datatype IndexEntry = IndexEntry(seqNo: nat, block: nat)

  /** A word read as a 32-bit two's complement number, which is also how a difference wraps. */
  function Int32(x: int): int { (x + 0x8000_0000) % 0x1_0000_0000 - 0x8000_0000 }

  function Compare(a: IndexEntry, b: IndexEntry): int {
    var aSeq, bSeq := Int32(a.seqNo), Int32(b.seqNo);
    if aSeq == bSeq then Int32(Int32(a.block) - Int32(b.block)) else Int32(aSeq - bSeq)
  }

  /** Sequence numbers less than 2^31 apart. */
  predicate Near(x: nat, y: nat) { -0x8000_0000 < x - y < 0x8000_0000 }

  /** Words whose sequence numbers are near to each other. */
  ghost predicate Comparable(dom: set<IndexEntry>) {
    && (forall e :: e in dom ==> e.seqNo < 0x1_0000_0000 && e.block < 0x8000_0000)
    && (forall a, b :: a in dom && b in dom ==> Near(a.seqNo, b.seqNo))
  }

  lemma CompareValue(a: IndexEntry, b: IndexEntry)
    requires a.block < 0x8000_0000 && b.block < 0x8000_0000
    requires a.seqNo < 0x1_0000_0000 && b.seqNo < 0x1_0000_0000 && Near(a.seqNo, b.seqNo)
    ensures Compare(a, b) == if a.seqNo == b.seqNo then a.block - b.block else a.seqNo - b.seqNo
  {
    WrappedDifference(a.seqNo, b.seqNo);
  }

  lemma WrappedDifference(x: nat, y: nat)
    requires x < 0x1_0000_0000 && y < 0x1_0000_0000
    ensures Int32(x) == Int32(y) <==> x == y
    ensures Near(x, y) ==> Int32(Int32(x) - Int32(y)) == x - y
    ensures !Near(x, y) ==> Int32(Int32(x) - Int32(y)) == if x > y then x - y - 0x1_0000_0000
                                                          else if y - x > 0x8000_0000 then x - y + 0x1_0000_0000
                                                          else x - y
  {
    assert Int32(x) == if x < 0x8000_0000 then x else x - 0x1_0000_0000;
    assert Int32(y) == if y < 0x8000_0000 then y else y - 0x1_0000_0000;
  }

  lemma CompareIsOrder(dom: set<IndexEntry>)
    requires Comparable(dom)
    ensures TotalPreorder(Compare, dom)
    ensures forall a, b :: a in dom && b in dom ==>
              (Compare(a, b) <= 0 <==> a.seqNo < b.seqNo || (a.seqNo == b.seqNo && a.block <= b.block))
  {
    hide Compare;
    forall a, b | a in dom && b in dom
      ensures Compare(a, b) == if a.seqNo == b.seqNo then a.block - b.block else a.seqNo - b.seqNo
    {
      CompareValue(a, b);
    }
  }

  /** For arbitrary 32-bit sequence numbers the comparator agrees with their order exactly when
      they are less than 2^31 apart. */
  lemma CompareAgreesIff(a: IndexEntry, b: IndexEntry)
    requires a.seqNo < b.seqNo < 0x1_0000_0000
    ensures Compare(a, b) < 0 && Compare(b, a) > 0 <==> Near(a.seqNo, b.seqNo)
  {
    hide Int32;
    WrappedDifference(a.seqNo, b.seqNo);
    WrappedDifference(b.seqNo, a.seqNo);
  }

  /** Two blocks that are both scanned, each of which the comparator takes for the older one. */
  lemma FarApart(x: nat, y: nat)
    ensures var a, b := IndexEntry(0x1000, x), IndexEntry(0x8000_1000, y);
            && LOWEST_SEQUENCE_NUMBER <= a.seqNo < b.seqNo < HIGHEST_SEQUENCE_NUMBER
            && Compare(a, b) < 0 && Compare(b, a) < 0
  {
  }

  // ---------- One page ----------

  /** A file as the scan knows it so far. */
  datatype Scanned = Scanned(valid: bool, hdr: nat, size: nat, scannedSize: nat, shrinkSize: nat, chunks: ChunkMap)

  function Unseen(c: nat, w: Width): Scanned { Scanned(false, 0, 0, 0, MaxSize(c, w), map[]) }

  /** The largest size of a file, cut down to the width of sizes. */
  function MaxSize(c: nat, w: Width): nat { MAX_CHUNK_ID * c % w }

  const WORD := 0x1_0000_0000

  /** The file offset of a chunk as the scan computes it, a product of 32-bit numbers. */
  function ScanBase(c: nat, id: nat): nat { Base(c, id) % WORD }

  function ScanData(c: nat, w: Width, f: Scanned, p: Page): Scanned
    requires p.Data? && p.id > 0
  {
    if ScanBase(c, p.id) < f.shrinkSize then
      var f1 := if p.id in f.chunks then f else f.(chunks := f.chunks[p.id := p.chunk]);
      var end := (ScanBase(c, p.id) + p.nBytes) % w;
      if !f.valid && f.scannedSize < end then f1.(size := end, scannedSize := end) else f1
    else f
  }

  function ScanHeader(f: Scanned, p: Page): Scanned
    requires p.Header?
  {
    if f.valid then
      if (p.isShrink || InDeletedDir(p)) && f.shrinkSize > CutSize(p) then f.(shrinkSize := CutSize(p)) else f
    else
      var f1 := f.(valid := true, hdr := p.chunk);
      var f2 := if f1.scannedSize < p.size then f1.(size := p.size, scannedSize := p.size) else f1;
      if f2.shrinkSize > p.size then f2.(shrinkSize := p.size) else f2
  }

  function ScanPage(c: nat, w: Width, f: Scanned, p: Page): Scanned
    requires GoodTags(c, p)
  {
    if p.Data? then ScanData(c, w, f, p) else ScanHeader(f, p)
  }

  // ---------- Correctness of the scan of one object ----------

  /** What is known when the pages from `i` on have been scanned: the pages below, cut to the shrink
      size, fill in the chunks that were not met yet. */
  ghost predicate ScanInv(c: nat, w: Width, o: nat, log: seq<Page>, i: nat, f: Scanned)
    requires i <= |log|
  {
    var below := log[..i];
    if f.valid then
      && Replay(c, o, log) == Keep(c, Raw(c, o, below), f.shrinkSize) + f.chunks
      && ReplaySize(c, o, log) == f.size
      && LastHeader(c, o, log) == f.hdr
    else
      && Replay(c, o, log) == Replay(c, o, below) + f.chunks
      && ReplaySize(c, o, log) == Max(ReplaySize(c, o, below), f.size)
      && LastHeader(c, o, log) == LastHeader(c, o, below)
      && f.scannedSize == f.size && f.shrinkSize == MaxSize(c, w) && f.hdr == 0
  }

  lemma BaseBelowMax(c: nat, id: nat)
    requires c > 0 && 0 < id <= MAX_CHUNK_ID
    ensures 0 <= Base(c, id) < MAX_CHUNK_ID * c
  {
    assert (MAX_CHUNK_ID - id) * c >= 0;
    assert (id - 1) * c >= 0;
    assert Base(c, id) == MAX_CHUNK_ID * c - (MAX_CHUNK_ID - id) * c - c;
  }

  lemma KeepAll(c: nat, o: nat, log: seq<Page>)
    requires c > 0
    ensures Keep(c, Raw(c, o, log), MAX_CHUNK_ID * c) == Raw(c, o, log)
  {
    IdsInRange(c, o, log);
    forall id | id in Raw(c, o, log) ensures Base(c, id) < MAX_CHUNK_ID * c { BaseBelowMax(c, id); }
  }

  lemma {:induction false} RawFits(c: nat, w: Width, o: nat, log: seq<Page>)
    requires Addressable(c, w, o, log)
    ensures forall id :: id in Raw(c, o, log) ==> Fitting(c, w, id)
  {
    if log != [] {
      var before := log[..|log| - 1];
      assert forall k :: 0 <= k < |before| ==> before[k] == log[k];
      RawFits(c, w, o, before);
    }
  }

  lemma KeepFitting(c: nat, w: Width, o: nat, log: seq<Page>, n: nat)
    requires n <= |log| && Addressable(c, w, o, log)
    ensures Keep(c, Raw(c, o, log[..n]), MaxSize(c, w)) == Raw(c, o, log[..n])
  {
    RawFits(c, w, o, log[..n]);
  }

  lemma KeepTwice(c: nat, m: ChunkMap, s: int, t: int)
    ensures Keep(c, Keep(c, m, s), t) == Keep(c, m, Min(s, t))
  {
  }

  /** An older copy shows only where no newer one was met. */
  lemma Underlay(m: ChunkMap, chunks: ChunkMap, id: nat, a: nat)
    ensures m[id := a] + chunks == m + (if id in chunks then chunks else chunks[id := a])
  {
  }

  lemma KeepUpdate(c: nat, m: ChunkMap, id: nat, a: nat, s: int)
    ensures Keep(c, m[id := a], s) == if Base(c, id) < s then Keep(c, m, s)[id := a] else Keep(c, m, s)
  {
  }

  /** The scan finds chunk `id` where it is: its start fits into 32 bits and is below the largest size, and its end can
      be a size. */
  predicate Fitting(c: nat, w: Width, id: nat) {
    Base(c, id) < WORD && Base(c, id) < MaxSize(c, w) && Base(c, id) + c < w
  }

  /** That holds of every chunk of `o` in the log. */
  ghost predicate Addressable(c: nat, w: Width, o: nat, log: seq<Page>) {
    forall k :: 0 <= k < |log| && IsDataOf(c, o, log[k]) ==> Fitting(c, w, log[k].id)
  }

  /** The page of a chunk that is found where it is is taken for what it is. */
  lemma ScanDataFits(c: nat, w: Width, f: Scanned, p: Page)
    requires p.Data? && p.id > 0 && p.nBytes <= c && Fitting(c, w, p.id)
    ensures ScanData(c, w, f, p) ==
            if Base(c, p.id) >= f.shrinkSize then f else
            var f1 := if p.id in f.chunks then f else f.(chunks := f.chunks[p.id := p.chunk]);
            var end: nat := Base(c, p.id) + p.nBytes;
            if !f.valid && f.scannedSize < end then f1.(size := end, scannedSize := end) else f1
  {
    hide MaxSize;
    assert Base(c, p.id) >= 0;
    SmallRem(Base(c, p.id), WORD);
    SmallRem(Base(c, p.id) + p.nBytes, w);
  }

  lemma SmallRem(x: nat, m: nat)
    requires x < m
    ensures x % m == x
  {
  }

  lemma ScanDataStep(c: nat, w: Width, o: nat, log: seq<Page>, i: nat, f: Scanned)
    requires c > 0 && i < |log| && IsDataOf(c, o, log[i]) && Fitting(c, w, log[i].id)
    requires ScanInv(c, w, o, log, i + 1, f)
    ensures ScanInv(c, w, o, log, i, ScanData(c, w, f, log[i]))
  {
    hide ScanData, MaxSize;
    var p, below := log[i], log[..i];
    assert log[..i + 1] == below + [p];
    Append(c, o, below, p);
    ScanDataFits(c, w, f, p);
    if f.valid {
      KeepUpdate(c, Raw(c, o, below), p.id, p.chunk, f.shrinkSize);
      Underlay(Keep(c, Raw(c, o, below), f.shrinkSize), f.chunks, p.id, p.chunk);
    } else {
      Underlay(Replay(c, o, below), f.chunks, p.id, p.chunk);
    }
  }

  lemma ScanHeaderStep(c: nat, w: Width, o: nat, log: seq<Page>, i: nat, f: Scanned)
    requires c > 0 && i < |log| && IsHeaderOf(c, o, log[i]) && Addressable(c, w, o, log)
    requires ScanInv(c, w, o, log, i + 1, f)
    ensures ScanInv(c, w, o, log, i, ScanHeader(f, log[i]))
  {
    var p, below := log[i], log[..i];
    assert log[..i + 1] == below + [p];
    Append(c, o, below, p);
    if f.valid {
      if IsCut(c, o, p) { KeepTwice(c, Raw(c, o, below), CutSize(p), f.shrinkSize); }
    } else {
      KeepFitting(c, w, o, log, i);
      KeepTwice(c, Raw(c, o, below), MaxSize(c, w), p.size);
    }
  }

  /** A page of another object, or with bad tags, changes nothing. */
  lemma SkipStep(c: nat, w: Width, o: nat, log: seq<Page>, i: nat, f: Scanned)
    requires i < |log| && (GoodTags(c, log[i]) ==> log[i].obj != o)
    requires ScanInv(c, w, o, log, i + 1, f)
    ensures ScanInv(c, w, o, log, i, f)
  {
    assert log[..i + 1] == log[..i] + [log[i]];
    Append(c, o, log[..i], log[i]);
  }

  function Find(c: nat, w: Width, files: map<nat, Scanned>, o: nat): Scanned {
    if o in files then files[o] else Unseen(c, w)
  }

  /** File `f` is what the log means for `o`. */
  ghost predicate Means(c: nat, o: nat, log: seq<Page>, f: Scanned) {
    f.chunks == Replay(c, o, log) && f.size == ReplaySize(c, o, log) && f.hdr == LastHeader(c, o, log)
  }

  /** The files found are the ones the log means, for every object whose chunks can be found where they are. */
  ghost predicate Recovered(c: nat, w: Width, log: seq<Page>, files: map<nat, Scanned>) {
    forall o :: Addressable(c, w, o, log) ==> Means(c, o, log, Find(c, w, files, o))
  }

  /** Said page by page: what is found are the pages that stand, the size they reach to, and the last header. */
  ghost predicate Told(c: nat, w: Width, log: seq<Page>, files: map<nat, Scanned>) {
    forall o :: Addressable(c, w, o, log) ==>
      var f := Find(c, w, files, o);
      Tells(c, o, log, f.chunks, f.size, f.hdr)
  }

  lemma RecoveredTold(c: nat, w: Width, log: seq<Page>, files: map<nat, Scanned>)
    requires Recovered(c, w, log, files)
    ensures Told(c, w, log, files)
  {
    hide Addressable, Tells, Replay, ReplaySize, LastHeader, Find;
    forall o | Addressable(c, w, o, log)
      ensures var f := Find(c, w, files, o); Tells(c, o, log, f.chunks, f.size, f.hdr)
    {
      assert Means(c, o, log, Find(c, w, files, o));
      ReplayTells(c, o, log);
    }
  }

  ghost predicate AllScanInv(c: nat, w: Width, log: seq<Page>, i: nat, files: map<nat, Scanned>)
    requires i <= |log|
  {
    forall o :: Addressable(c, w, o, log) ==> ScanInv(c, w, o, log, i, Find(c, w, files, o))
  }

  lemma ScanStarts(c: nat, w: Width, log: seq<Page>)
    ensures AllScanInv(c, w, log, |log|, map[])
  {
    assert log[..|log|] == log;
  }

  lemma ScanEnds(c: nat, w: Width, log: seq<Page>, files: map<nat, Scanned>)
    requires AllScanInv(c, w, log, 0, files)
    ensures Recovered(c, w, log, files)
  {
    forall o | Addressable(c, w, o, log) ensures Means(c, o, log, Find(c, w, files, o)) {
      InvEnds(c, w, o, log, Find(c, w, files, o));
    }
  }

  lemma InvEnds(c: nat, w: Width, o: nat, log: seq<Page>, f: Scanned)
    requires ScanInv(c, w, o, log, 0, f)
    ensures Means(c, o, log, f)
  {
  }

  // ---------- Where the width of the numbers matters ----------

  /** What scanning the log for one object, newest page first, makes of `f`. */
  function ScanFrom(c: nat, w: Width, o: nat, log: seq<Page>, f: Scanned): Scanned {
    if log == [] then f else
    var n := |log| - 1;
    ScanFrom(c, w, o, log[..n], if GoodTags(c, log[n]) && log[n].obj == o then ScanPage(c, w, f, log[n]) else f)
  }

  lemma {:induction false} ScanFromInv(c: nat, w: Width, o: nat, log: seq<Page>, i: nat, f: Scanned)
    requires c > 0 && i <= |log| && Addressable(c, w, o, log) && ScanInv(c, w, o, log, i, f)
    ensures ScanInv(c, w, o, log, 0, ScanFrom(c, w, o, log[..i], f))
  {
    if i > 0 {
      var p, n := log[i - 1], i - 1;
      assert log[..i][..n] == log[..n] && log[..i][n] == p;
      if GoodTags(c, p) && p.obj == o {
        if p.Data? { ScanDataStep(c, w, o, log, n, f); } else { ScanHeaderStep(c, w, o, log, n, f); }
        ScanFromInv(c, w, o, log, n, ScanPage(c, w, f, p));
      } else {
        SkipStep(c, w, o, log, n, f);
        ScanFromInv(c, w, o, log, n, f);
      }
    }
  }

  /** The log has no chunk beyond `id`. */
  ghost predicate UpTo(log: seq<Page>, id: nat) { forall p :: p in log && p.Data? ==> p.id <= id }

  /** A chunk that was written and then cut off, as when a file is cut to where its last chunk starts. */
  function CutLog(c: nat, o: nat, id: nat): seq<Page>
    requires id > 0
  {
    [Data(o, id, c, 5), Header(o, 1, Base(c, id), false, 6)]
  }

  lemma CutLogWrong(c: nat, w: Width, o: nat, id: nat)
    requires c > 0 && o <= MAX_OBJECT_ID && o != OBJECTID_SUMMARY && 0 < id <= MAX_CHUNK_ID && Base(c, id) >= WORD
    requires ScanBase(c, id) < MaxSize(c, w)
    ensures UpTo(CutLog(c, o, id), id)
    ensures id in ScanFrom(c, w, o, CutLog(c, o, id), Unseen(c, w)).chunks && id !in Replay(c, o, CutLog(c, o, id))
  {
    var log := CutLog(c, o, id);
    BaseBelowMax(c, id);
    var f := ScanPage(c, w, Unseen(c, w), log[1]);
    assert log[..1] == [log[0]] && log[..1][..0] == [];
    assert ScanFrom(c, w, o, log, Unseen(c, w)) == ScanFrom(c, w, o, log[..1], f);
    assert ScanFrom(c, w, o, log[..1], f) == ScanData(c, w, f, log[0]);
  }

  /** A single page, the chunk of which lies beyond the largest size as that is computed, or ends beyond all sizes. */
  lemma SinglePageWrong(c: nat, w: Width, o: nat, id: nat)
    requires c > 0 && o <= MAX_OBJECT_ID && o != OBJECTID_SUMMARY && 0 < id <= MAX_CHUNK_ID
    requires ScanBase(c, id) >= MaxSize(c, w) || Base(c, id) + c >= w
    ensures var log := [Data(o, id, c, 5)];
            UpTo(log, id) && !Means(c, o, log, ScanFrom(c, w, o, log, Unseen(c, w)))
  {
    var log := [Data(o, id, c, 5)];
    BaseBelowMax(c, id);
    assert log[..0] == [];
    assert ScanFrom(c, w, o, log, Unseen(c, w)) == ScanData(c, w, Unseen(c, w), log[0]);
    assert id in Replay(c, o, log) && ReplaySize(c, o, log) == Base(c, id) + c;
  }

  /** Every log with chunks up to `id` is scanned rightly exactly if chunk `id` is found where it is. */
  lemma ScansRightIff(c: nat, w: Width, o: nat, id: nat)
    requires c > 0 && o <= MAX_OBJECT_ID && o != OBJECTID_SUMMARY && 0 < id <= MAX_CHUNK_ID
    ensures Fitting(c, w, id) <==>
              forall log :: UpTo(log, id) ==> Means(c, o, log, ScanFrom(c, w, o, log, Unseen(c, w)))
  {
    hide Means, ScanFrom, Replay, Raw, ReplaySize, LastHeader, MaxSize;
    if Fitting(c, w, id) {
      forall log: seq<Page> | UpTo(log, id) ensures Means(c, o, log, ScanFrom(c, w, o, log, Unseen(c, w))) {
        RightUpTo(c, w, o, id, log);
      }
    } else if ScanBase(c, id) >= MaxSize(c, w) || Base(c, id) + c >= w {
      SinglePageWrong(c, w, o, id);
    } else {
      CutLogWrong(c, w, o, id);
      if Means(c, o, CutLog(c, o, id), ScanFrom(c, w, o, CutLog(c, o, id), Unseen(c, w))) {
        MeansChunks(c, o, CutLog(c, o, id), ScanFrom(c, w, o, CutLog(c, o, id), Unseen(c, w)));
      }
    }
  }

  lemma MeansChunks(c: nat, o: nat, log: seq<Page>, f: Scanned)
    requires Means(c, o, log, f)
    ensures f.chunks == Replay(c, o, log)
  {
  }

  lemma RightUpTo(c: nat, w: Width, o: nat, id: nat, log: seq<Page>)
    requires c > 0 && Fitting(c, w, id) && UpTo(log, id)
    ensures Means(c, o, log, ScanFrom(c, w, o, log, Unseen(c, w)))
  {
    hide Means, ScanFrom, ScanInv;
    forall k | 0 <= k < |log| && IsDataOf(c, o, log[k]) ensures Fitting(c, w, log[k].id) {
      assert log[k] in log && (id - log[k].id) * c >= 0;
      assert Base(c, id) - Base(c, log[k].id) == (id - log[k].id) * c;
    }
    assert log[..|log|] == log;
    StartInv(c, w, o, log);
    ScanFromInv(c, w, o, log, |log|, Unseen(c, w));
    InvEnds(c, w, o, log, ScanFrom(c, w, o, log, Unseen(c, w)));
  }

  lemma StartInv(c: nat, w: Width, o: nat, log: seq<Page>)
    ensures ScanInv(c, w, o, log, |log|, Unseen(c, w))
  {
    assert log[..|log|] == log;
  }

  /** With sizes of 32 bits, and chunks of a multiple of 16 bytes, the chunks found where they are are those that end
      below 2^32: the last one that starts below it is not among them. */
  lemma FitsIn32(c: nat, id: nat)
    requires 0 < c < WORD && c % 16 == 0 && id > 0
    ensures Fitting(c, WORD, id) <==> id * c < WORD
    ensures MaxSize(c, WORD) == WORD - c
  {
    var k := c / 16;
    assert MAX_CHUNK_ID * c == (k - 1) * WORD + (WORD - c);
    assert Base(c, id) + c == id * c;
  }

  // ---------- All objects at once ----------

  /** A page with the sequence number in its own tags. */
  datatype Tagged = Tagged(seqNo: nat, page: Page)

  /** A page whose sequence number is not that of its block is passed over. */
  function Seen(seqNo: nat, t: Tagged): Page { if t.seqNo == seqNo then t.page else Blank(t.page.chunk) }

  /** The files when one more page was scanned. */
  function AfterPage(c: nat, w: Width, files: map<nat, Scanned>, p: Page): map<nat, Scanned> {
    if GoodTags(c, p) then files[p.obj := ScanPage(c, w, Find(c, w, files, p.obj), p)] else files
  }

  lemma AfterPageInv(c: nat, w: Width, files: map<nat, Scanned>, log: seq<Page>, i: nat)
    requires c > 0 && i < |log| && AllScanInv(c, w, log, i + 1, files)
    ensures AllScanInv(c, w, log, i, AfterPage(c, w, files, log[i]))
  {
    var p, files' := log[i], AfterPage(c, w, files, log[i]);
    forall o | Addressable(c, w, o, log) ensures ScanInv(c, w, o, log, i, Find(c, w, files', o)) {
      assert ScanInv(c, w, o, log, i + 1, Find(c, w, files, o));
      if GoodTags(c, p) && p.obj == o {
        if p.Data? {
          ScanDataStep(c, w, o, log, i, Find(c, w, files, o));
        } else {
          ScanHeaderStep(c, w, o, log, i, Find(c, w, files, o));
        }
      } else {
        SkipStep(c, w, o, log, i, Find(c, w, files, o));
      }
    }
  }

  method ScanChunk(c: nat, w: Width, files: map<nat, Scanned>, ghost log: seq<Page>, ghost i: nat, seqNo: nat,
                   t: Tagged)
    returns (files': map<nat, Scanned>)
    requires c > 0 && i < |log| && log[i] == Seen(seqNo, t) && AllScanInv(c, w, log, i + 1, files)
    ensures AllScanInv(c, w, log, i, files')
  {
    AfterPageInv(c, w, files, log, i);
    files' := if t.seqNo == seqNo then AfterPage(c, w, files, t.page) else files;
  }

  // ---------- The whole device ----------

  /** A block as the first pass sees it: the sequence number in its tags and its pages in order. */
  datatype Block = Block(seqNo: nat, pages: seq<Tagged>)

  function SeenPages(b: Block): (s: seq<Page>)
    ensures |s| == |b.pages|
  {
    seq(|b.pages|, k requires 0 <= k < |b.pages| => Seen(b.seqNo, b.pages[k]))
  }

  predicate NeedsScan(b: Block) { LOWEST_SEQUENCE_NUMBER <= b.seqNo < HIGHEST_SEQUENCE_NUMBER }

  /** The pages of the listed blocks, one block after the other. */
  function Concat(blocks: seq<Block>, order: seq<IndexEntry>): seq<Page>
    requires forall e :: e in order ==> e.block < |blocks|
  {
    if order == [] then [] else
    Concat(blocks, order[..|order| - 1]) + SeenPages(blocks[order[|order| - 1].block])
  }

  /** `order` lists the blocks to be scanned, each once, by increasing sequence number. */
  ghost predicate IsOrder(blocks: seq<Block>, order: seq<IndexEntry>) {
    && (forall e :: e in order ==> e.block < |blocks| && NeedsScan(blocks[e.block]) && e.seqNo == blocks[e.block].seqNo)
    && (forall b :: 0 <= b < |blocks| && NeedsScan(blocks[b]) ==> IndexEntry(blocks[b].seqNo, b) in order)
    && (forall i, j :: 0 <= i < j < |order| ==>
          order[i].seqNo < order[j].seqNo || (order[i].seqNo == order[j].seqNo && order[i].block < order[j].block))
  }

  method ScanBlock(c: nat, w: Width, files: map<nat, Scanned>, ghost log: seq<Page>, ghost i: nat, b: Block)
    returns (files': map<nat, Scanned>)
    requires c > 0 && i + |b.pages| <= |log| && log[i..i + |b.pages|] == SeenPages(b)
    requires AllScanInv(c, w, log, i + |b.pages|, files)
    ensures AllScanInv(c, w, log, i, files')
  {
    files' := files;
    for k := |b.pages| downto 0
      invariant AllScanInv(c, w, log, i + k, files')
    {
      assert log[i + k] == log[i..i + |b.pages|][k];
      files' := ScanChunk(c, w, files', log, i + k, b.seqNo, b.pages[k]);
    }
  }

  /** `s` lists every block to be scanned exactly once. */
  ghost predicate Indexed(blocks: seq<Block>, s: seq<IndexEntry>) {
    && (forall k :: 0 <= k < |s| ==> s[k].block < |blocks| && NeedsScan(blocks[s[k].block]) &&
                                     s[k].seqNo == blocks[s[k].block].seqNo)
    && (forall b :: 0 <= b < |blocks| && NeedsScan(blocks[b]) ==> IndexEntry(blocks[b].seqNo, b) in s)
    && (forall i, j :: 0 <= i < j < |s| ==> s[i] != s[j])
  }

  /** The sequence numbers of the blocks to be scanned are near to each other. */
  ghost predicate AllNear(blocks: seq<Block>) {
    forall a, b :: 0 <= a < |blocks| && 0 <= b < |blocks| && NeedsScan(blocks[a]) && NeedsScan(blocks[b]) ==>
      Near(blocks[a].seqNo, blocks[b].seqNo)
  }

  /** First pass: the blocks to scan, in the order in which they lie on the device. */
  method IndexBlocks(blocks: seq<Block>) returns (index: array<IndexEntry>, n: nat)
    ensures n <= index.Length && fresh(index)
    ensures Indexed(blocks, index[..n])
  {
    index := new IndexEntry[|blocks|](_ => IndexEntry(0, 0));
    n := 0;
    for blk := 0 to |blocks|
      invariant n <= blk
      invariant forall k :: 0 <= k < n ==> index[k].block < blk && NeedsScan(blocks[index[k].block]) &&
                                           index[k].seqNo == blocks[index[k].block].seqNo
      invariant forall b :: 0 <= b < blk && NeedsScan(blocks[b]) ==> IndexEntry(blocks[b].seqNo, b) in index[..n]
      invariant forall i, j :: 0 <= i < j < n ==> index[i] != index[j]
    {
      if NeedsScan(blocks[blk]) {
        ghost var before := index[..n];
        index[n] := IndexEntry(blocks[blk].seqNo, blk);
        n := n + 1;
        assert index[..n] == before + [index[n - 1]];
      }
    }
  }

  lemma SortedIsOrder(blocks: seq<Block>, s: seq<IndexEntry>, t: seq<IndexEntry>)
    requires multiset(s) == multiset(t)
    requires Indexed(blocks, s) && |blocks| < 0x8000_0000 && AllNear(blocks)
    requires Sorted(Compare, t)
    ensures IsOrder(blocks, t)
  {
    hide Compare;
    forall e | e in t ensures e in s { assert e in multiset(t); }
    forall e | e in s ensures e in t { assert e in multiset(s); }
    var dom := set e | e in s;
    IndexComparable(blocks, s);
    CompareIsOrder(dom);
    forall i, j | 0 <= i < j < |t|
      ensures t[i].seqNo < t[j].seqNo || (t[i].seqNo == t[j].seqNo && t[i].block < t[j].block)
    {
      assert t[i] in dom && t[j] in dom && Compare(t[i], t[j]) <= 0;
      if t[i] == t[j] { Distinct(s, t, i, j); }
    }
  }

  lemma IndexComparable(blocks: seq<Block>, s: seq<IndexEntry>)
    requires Indexed(blocks, s) && |blocks| < 0x8000_0000 && AllNear(blocks)
    ensures Comparable(set e | e in s)
  {
  }

  lemma {:induction false} AtMostOnce<T>(s: seq<T>, x: T)
    requires forall i, j :: 0 <= i < j < |s| ==> s[i] != s[j]
    ensures multiset(s)[x] <= 1
  {
    if s != [] {
      var n := |s| - 1;
      assert s == s[..n] + [s[n]];
      AtMostOnce(s[..n], x);
      if s[n] == x { assert x !in s[..n]; }
    }
  }

  /** A permutation of a sequence without repetitions has none. */
  lemma Distinct<T>(s: seq<T>, t: seq<T>, i: nat, j: nat)
    requires multiset(s) == multiset(t) && i < j < |t|
    requires forall i, j :: 0 <= i < j < |s| ==> s[i] != s[j]
    ensures t[i] != t[j]
  {
    AtMostOnce(s, t[i]);
    assert t == t[..i] + [t[i]] + t[i + 1..j] + [t[j]] + t[j + 1..];
  }

  lemma CompareReflexive(dom: set<IndexEntry>)
    ensures Reflexive(Compare, dom)
  {
  }

  lemma PrefixAmong(s: seq<IndexEntry>, n: nat)
    requires n <= |s|
    ensures Among(s, 0, n, set e | e in s[..n])
  {
    assert forall k :: 0 <= k < n ==> s[k] == s[..n][k];
  }

  lemma SegmentSorted(index: array<IndexEntry>, n: nat)
    requires n <= index.Length && SortedSegment(Compare, index, 0, n)
    ensures Sorted(Compare, index[..n])
  {
    hide Compare;
    var s := index[..n];
    forall i, j | 0 <= i < j < n ensures Compare(s[i], s[j]) <= 0 { assert s[i] == index[i] && s[j] == index[j]; }
  }

  method SortIndex(index: array<IndexEntry>, n: nat)
    requires n <= index.Length
    modifies index
    ensures Comparable(set e | e in old(index[..n])) ==> Sorted(Compare, index[..n])
    ensures multiset(index[..n]) == old(multiset(index[..n]))
  {
    hide Compare, TotalPreorder, Reflexive, Comparable, Sorted, SortedSegment;
    ghost var dom := set e | e in index[..n];
    if Comparable(dom) { CompareIsOrder(dom); }
    CompareReflexive(dom);
    PrefixAmong(index[..], n);
    Sort(index, 0, n, Compare, dom);
    if TotalPreorder(Compare, dom) { SegmentSorted(index, n); }
    assert old(index[..]) == [] + old(index[..n]) + index[n..] && index[..] == [] + index[..n] + index[n..];
    SameMiddle([], old(index[..n]), index[..n], index[n..]);
  }

  /** The block index, sorted by sequence number if the numbers are near to each other. */
  method OrderBlocks(blocks: seq<Block>) returns (order: seq<IndexEntry>)
    requires |blocks| < 0x8000_0000
    ensures Indexed(blocks, order) && (AllNear(blocks) ==> IsOrder(blocks, order))
    ensures forall b :: 0 <= b < |blocks| ==>
              (0x1000 <= blocks[b].seqNo < 0xefff_ff00 <==> IndexEntry(blocks[b].seqNo, b) in order)
  {
    var index, n := IndexBlocks(blocks);
    ghost var found := index[..n];
    if AllNear(blocks) { IndexComparable(blocks, found); }
    SortIndex(index, n);
    order := index[..n];
    StillIndexed(blocks, found, order);
    if AllNear(blocks) { SortedIsOrder(blocks, found, order); }
  }

  lemma StillIndexed(blocks: seq<Block>, s: seq<IndexEntry>, t: seq<IndexEntry>)
    requires multiset(s) == multiset(t) && Indexed(blocks, s)
    ensures Indexed(blocks, t)
  {
    forall e | e in t ensures e in s { assert e in multiset(t); }
    forall e | e in s ensures e in t { assert e in multiset(s); }
    forall i, j | 0 <= i < j < |t| ensures t[i] != t[j] { Distinct(s, t, i, j); }
    forall k | 0 <= k < |t|
      ensures t[k].block < |blocks| && NeedsScan(blocks[t[k].block]) && t[k].seqNo == blocks[t[k].block].seqNo
    {
      assert t[k] in s;
    }
  }

  lemma NothingBefore(blocks: seq<Block>, order: seq<IndexEntry>)
    requires forall e :: e in order ==> e.block < |blocks|
    ensures Concat(blocks, order[..0]) == []
  {
  }

  /** The pages of block `order[k]` follow those of the blocks before it. */
  lemma ConcatStep(blocks: seq<Block>, order: seq<IndexEntry>, k: nat, log: seq<Page>)
    requires k < |order| && (forall e :: e in order ==> e.block < |blocks|) && Concat(blocks, order[..k + 1]) <= log
    ensures var before, b := Concat(blocks, order[..k]), blocks[order[k].block];
            && before <= log && |before| + |b.pages| == |Concat(blocks, order[..k + 1])| <= |log|
            && log[|before|..|before| + |b.pages|] == SeenPages(b)
  {
    hide SeenPages;
    assert order[..k + 1][..k] == order[..k];
    var before, b := Concat(blocks, order[..k]), blocks[order[k].block];
    assert Concat(blocks, order[..k + 1]) == before + SeenPages(b);
  }

  /** The scan finds, for every object, exactly what the log means: the log being the pages of
      the blocks with a plausible sequence number, in the order of these numbers. */
  method ScanBackwards(c: nat, w: Width, blocks: seq<Block>) returns (files: map<nat, Scanned>, order: seq<IndexEntry>)
    requires c > 0 && |blocks| < 0x8000_0000
    ensures Indexed(blocks, order) && (AllNear(blocks) ==> IsOrder(blocks, order))
    ensures forall e :: e in order ==> e.block < |blocks|
    ensures Recovered(c, w, Concat(blocks, order), files) && Told(c, w, Concat(blocks, order), files)
  {
    hide AllScanInv, Recovered, Told, AllNear, SeenPages, Concat;
    order := OrderBlocks(blocks);
    ghost var log := Concat(blocks, order);
    ScanStarts(c, w, log);
    files := map[];
    var k := |order|;
    assert order[..k] == order;
    while k > 0
      invariant 0 <= k <= |order|
      invariant Concat(blocks, order[..k]) <= log
      invariant AllScanInv(c, w, log, |Concat(blocks, order[..k])|, files)
    {
      k := k - 1;
      ConcatStep(blocks, order, k, log);
      files := ScanBlock(c, w, files, log, |Concat(blocks, order[..k])|, blocks[order[k].block]);
    }
    NothingBefore(blocks, order);
    ScanEnds(c, w, log, files);
    RecoveredTold(c, w, log, files);
  }
}
