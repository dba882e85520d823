/**
 What happens to the log of a device behind a file, and what the file can rely on: pages are appended, and blocks
 from which nothing is needed any more are erased.  `Part` says that the chunks of a file are what its log holds below
 a position, `InStep` that a scan of the log would find them.
 */
module Journal {
  import opened Common
  import opened FlashLog
  import opened BackwardScan
  import opened ChunkMath

  // ---------- Erasing a block ----------

  function BlockOf(cpb: nat, p: Page): nat
    requires cpb > 0
  {
    p.chunk / cpb
  }

  /** The log without the pages of block `b`. */
  function Erase(log: seq<Page>, cpb: nat, b: nat): seq<Page>
    requires cpb > 0
  {
    seq(|log|, k requires 0 <= k < |log| => if BlockOf(cpb, log[k]) == b then Blank(log[k].chunk) else log[k])
  }

  /** No cut in block `b` matters to a page outside of it. */
  ghost predicate Harmless(c: nat, o: nat, log: seq<Page>, cpb: nat, b: nat)
    requires cpb > 0
  {
    forall k, q :: 0 <= k < q < |log| && IsDataOf(c, o, log[k]) && BlockOf(cpb, log[k]) != b
                   && IsCut(c, o, log[q]) && BlockOf(cpb, log[q]) == b
      ==> Base(c, log[k].id) < CutSize(log[q])
  }

  /** A copy outside block `b` that nothing outside the block touches is not touched by the block either. */
  lemma {:induction false} SparedByBlock(c: nat, o: nat, log: seq<Page>, cpb: nat, b: nat, k: nat, n: nat)
    requires cpb > 0 && Harmless(c, o, log, cpb, b)
    requires k < n <= |log| && IsDataOf(c, o, log[k]) && BlockOf(cpb, log[k]) != b
    requires Survives(c, o, Erase(log, cpb, b), k)
    requires forall i :: 0 <= i < |log| && Survives(c, o, log, i) && log[i].id == log[k].id ==>
             BlockOf(cpb, log[i]) != b
    ensures forall j :: n <= j < |log| ==> Spares(c, o, log[j], log[k].id)
    decreases |log| - n
  {
    if n < |log| {
      SparedByBlock(c, o, log, cpb, b, k, n + 1);
      var log' := Erase(log, cpb, b);
      assert Spares(c, o, log'[n], log'[k].id);
      if IsDataOf(c, o, log[n]) && log[n].id == log[k].id { assert Survives(c, o, log, n); }
    }
  }

  /** Erasing a block from which chunk `id` does not come leaves the chunk as it is. */
  lemma EraseKeepsChunk(c: nat, o: nat, log: seq<Page>, cpb: nat, b: nat, id: nat)
    requires cpb > 0 && Harmless(c, o, log, cpb, b)
    requires forall k :: 0 <= k < |log| && Survives(c, o, log, k) && log[k].id == id ==> BlockOf(cpb, log[k]) != b
    ensures var m, m' := Raw(c, o, log), Raw(c, o, Erase(log, cpb, b));
            (id in m <==> id in m') && (id in m ==> m[id] == m'[id])
  {
    var log' := Erase(log, cpb, b);
    if id in Raw(c, o, log) {
      var k := RawHasSurvivor(c, o, log, id);
      forall j | k < j < |log'| ensures Spares(c, o, log'[j], log'[k].id) {
        assert Spares(c, o, log[j], log[k].id);
      }
      SurvivorIsRaw(c, o, log', k);
    } else if id in Raw(c, o, log') {
      var k := RawHasSurvivor(c, o, log', id);
      SparedByBlock(c, o, log, cpb, b, k, k + 1);
      SurvivorIsRaw(c, o, log, k);
    }
  }

  /** Position of the last header, -1 when there is none. */
  function LastHeaderAt(c: nat, o: nat, log: seq<Page>): (j: int)
    ensures -1 <= j < |log| && (j >= 0 ==> IsHeaderOf(c, o, log[j]))
  {
    if log == [] then -1
    else if IsHeaderOf(c, o, log[|log| - 1]) then |log| - 1
    else LastHeaderAt(c, o, log[..|log| - 1])
  }

  /** The log with its last header made a shrink header. */
  function Marked(c: nat, o: nat, log: seq<Page>): seq<Page> {
    var j := LastHeaderAt(c, o, log);
    if j < 0 then log else log[j := log[j].(isShrink := true)]
  }

  /** For a file outside the deleted directories the last header acts like a shrink header. */
  lemma {:induction false} ReplayIsRawOfMarked(c: nat, o: nat, log: seq<Page>)
    requires var j := LastHeaderAt(c, o, log); j >= 0 ==> !InDeletedDir(log[j])
    ensures Replay(c, o, log) == Raw(c, o, Marked(c, o, log))
  {
    if log != [] {
      var n := |log| - 1;
      if IsHeaderOf(c, o, log[n]) {
        assert Marked(c, o, log)[..n] == log[..n];
      } else {
        ReplayIsRawOfMarked(c, o, log[..n]);
        assert Marked(c, o, log)[..n] == Marked(c, o, log[..n]);
      }
    }
  }

  // ---------- A log and a file that agree ----------

  /** No two programmed pages share an address, and address 0 is not used. */
  ghost predicate DistinctAddresses(log: seq<Page>) {
    && (forall k :: 0 <= k < |log| && !log[k].Blank? ==> log[k].chunk > 0)
    && (forall j, k :: 0 <= j < k < |log| && !log[j].Blank? && !log[k].Blank? ==> log[j].chunk != log[k].chunk)
  }

  predicate Free(log: seq<Page>, a: nat) {
    a > 0 && forall p | p in log :: p.Blank? || p.chunk != a
  }

  predicate IsLive(chunks: ChunkMap, p: Page)
    requires p.Data?
  {
    p.id in chunks && chunks[p.id] == p.chunk
  }

  /** No current chunk ends beyond `end`. */
  ghost predicate Tight(c: nat, o: nat, log: seq<Page>, chunks: ChunkMap, end: int) {
    forall k :: 0 <= k < |log| && IsDataOf(c, o, log[k]) && IsLive(chunks, log[k]) ==>
      Base(c, log[k].id) + log[k].nBytes <= end
  }

  /** The last header in the log is at `hdr`, and puts the file into an ordinary directory. */
  ghost predicate HeaderAt(c: nat, o: nat, log: seq<Page>, hdr: nat) {
    var j := LastHeaderAt(c, o, log);
    j >= 0 && log[j].chunk == hdr && !InDeletedDir(log[j])
  }

  ghost predicate Sound(c: nat, o: nat, log: seq<Page>, chunks: ChunkMap, hdr: nat, end: int) {
    DistinctAddresses(log) && Tight(c, o, log, chunks, end) && HeaderAt(c, o, log, hdr)
  }

  /** The chunk map is what the log holds below `end`, which runs ahead of the size while the file grows. */
  ghost predicate Part(c: nat, o: nat, log: seq<Page>, chunks: ChunkMap, hdr: nat, end: int) {
    Sound(c, o, log, chunks, hdr, end) && chunks == Keep(c, Raw(c, o, log), end)
  }

  /** In addition a scan of the log would find this chunk map. */
  ghost predicate InStep(c: nat, o: nat, log: seq<Page>, chunks: ChunkMap, hdr: nat, end: int) {
    Part(c, o, log, chunks, hdr, end) && ReplaySize(c, o, log) <= end && chunks == Replay(c, o, log)
  }

  /** The size in the last header. */
  function HeaderSize(c: nat, o: nat, log: seq<Page>): int {
    var j := LastHeaderAt(c, o, log);
    if j < 0 then -1 else log[j].size
  }

  /** The last header, or a current chunk written after it, reaches position `n`. */
  ghost predicate Reaches(c: nat, o: nat, log: seq<Page>, chunks: ChunkMap, n: int) {
    || n <= HeaderSize(c, o, log)
    || exists k :: LastHeaderAt(c, o, log) < k < |log| && IsDataOf(c, o, log[k]) && IsLive(chunks, log[k])
                   && n <= Base(c, log[k].id) + log[k].nBytes
  }

  lemma DistinctAppend(log: seq<Page>, p: Page)
    requires DistinctAddresses(log) && Free(log, p.chunk)
    ensures DistinctAddresses(log + [p])
  {
    forall j | 0 <= j < |log| && !log[j].Blank? ensures log[j].chunk != p.chunk { assert log[j] in log; }
  }

  lemma HeaderAppend(c: nat, o: nat, log: seq<Page>, p: Page)
    ensures LastHeaderAt(c, o, log + [p]) == if IsHeaderOf(c, o, p) then |log| else LastHeaderAt(c, o, log)
  {
    assert (log + [p])[..|log|] == log;
  }

  // ---------- A page of the file is appended ----------

  /** Chunk `p.id` is written and the end moves to `end'`; no other chunk starts between, and the other chunks
      that are kept end before. */
  lemma PartData(c: nat, o: nat, log: seq<Page>, chunks: ChunkMap, hdr: nat, end: int, end': int, p: Page)
    requires Part(c, o, log, chunks, hdr, end) && Free(log, p.chunk)
    requires IsDataOf(c, o, p) && Base(c, p.id) < end' && Base(c, p.id) + p.nBytes <= end'
    requires forall id: nat :: 0 < id && id != p.id ==> (Base(c, id) < end <==> Base(c, id) < end')
    requires end <= end' || forall id: nat :: 0 < id && id != p.id && Base(c, id) < end' ==> Base(c, id) + c <= end'
    ensures Part(c, o, log + [p], chunks[p.id := p.chunk], hdr, end')
  {
    DistinctAppend(log, p);
    HeaderAppend(c, o, log, p);
    Append(c, o, log, p);
    IdsInRange(c, o, log);
    var log', chunks' := log + [p], chunks[p.id := p.chunk];
    forall k | 0 <= k < |log| && IsDataOf(c, o, log'[k]) && IsLive(chunks', log'[k])
      ensures Base(c, log'[k].id) + log'[k].nBytes <= end'
    {
      assert log'[k] == log[k] && log[k] in log;
    }
  }

  /** The end moves up to `end'` and the only chunk that can start between is written. */
  lemma StepData(c: nat, o: nat, log: seq<Page>, chunks: ChunkMap, hdr: nat, end: int, end': int, p: Page)
    requires InStep(c, o, log, chunks, hdr, end) && Free(log, p.chunk)
    requires IsDataOf(c, o, p) && end <= end' && Base(c, p.id) < end' && Base(c, p.id) + p.nBytes <= end'
    requires forall id: nat :: 0 < id && end <= Base(c, id) < end' ==> id == p.id
    ensures InStep(c, o, log + [p], chunks[p.id := p.chunk], hdr, end')
  {
    PartData(c, o, log, chunks, hdr, end, end', p);
    Append(c, o, log, p);
  }

  /** What was reached still is, unless a page that reached there is replaced by a shorter one. */
  lemma ReachesData(c: nat, o: nat, log: seq<Page>, chunks: ChunkMap, n: int, p: Page)
    requires IsDataOf(c, o, p) && DistinctAddresses(log) && Free(log, p.chunk)
    requires n <= Base(c, p.id) + p.nBytes
             || (Reaches(c, o, log, chunks, n) && n > Base(c, p.id) + c)
             || (Reaches(c, o, log, chunks, n) && n <= HeaderSize(c, o, log))
    ensures Reaches(c, o, log + [p], chunks[p.id := p.chunk], n)
  {
    HeaderAppend(c, o, log, p);
    var log', chunks' := log + [p], chunks[p.id := p.chunk];
    if n <= Base(c, p.id) + p.nBytes {
      assert log'[|log|] == p && IsLive(chunks', p);
    } else if n > HeaderSize(c, o, log) {
      var k :| LastHeaderAt(c, o, log) < k < |log| && IsDataOf(c, o, log[k]) && IsLive(chunks, log[k])
               && n <= Base(c, log[k].id) + log[k].nBytes;
      assert log'[k] == log[k];
    }
  }

  /** The end moves up over positions at which no chunk of the log starts. */
  lemma PartMove(c: nat, o: nat, log: seq<Page>, chunks: ChunkMap, hdr: nat, end: int, end': int)
    requires Part(c, o, log, chunks, hdr, end) && end <= end'
    requires forall id :: id in Raw(c, o, log) ==> !(end <= Base(c, id) < end')
    ensures Part(c, o, log, chunks, hdr, end')
    ensures InStep(c, o, log, chunks, hdr, end) ==> InStep(c, o, log, chunks, hdr, end')
  {
  }

  /** Dropping the last chunk moves the end down to where it starts. */
  lemma PartDrop(c: nat, o: nat, log: seq<Page>, chunks: ChunkMap, hdr: nat, end: int, id: nat)
    requires c > 0 && id > 0 && Part(c, o, log, chunks, hdr, end) && end <= Base(c, id) + c
    ensures Part(c, o, log, chunks - {id}, hdr, Min(end, Base(c, id)))
  {
    IdsInRange(c, o, log);
    var end' := Min(end, Base(c, id));
    forall i: nat | 0 < i
      ensures Base(c, i) < end' ==> Base(c, i) + c <= Base(c, id)
              ensures Base(c, i) < end && i != id ==> Base(c, i) < end'
    {
      assert Base(c, id) - Base(c, i) == (id - i) * c;
      MultipleSign(c, id - i);
    }
    forall k | 0 <= k < |log| && IsDataOf(c, o, log[k]) && IsLive(chunks - {id}, log[k])
      ensures Base(c, log[k].id) + log[k].nBytes <= end'
    {
      assert IsLive(chunks, log[k]);
    }
  }

  /** A header that does not cut the log changes nothing in the part below `end`; the end need not be the size in
      the header. */
  lemma PartHeader(c: nat, o: nat, log: seq<Page>, chunks: ChunkMap, hdr: nat, end: int, p: Page)
    requires IsHeaderOf(c, o, p) && !InDeletedDir(p) && Free(log, p.chunk)
    requires Part(c, o, log, chunks, hdr, end) && (p.isShrink ==> end <= p.size)
    ensures Part(c, o, log + [p], chunks, p.chunk, end)
    ensures LastHeaderAt(c, o, log + [p]) == |log|
  {
    DistinctAppend(log, p);
    HeaderAppend(c, o, log, p);
    Append(c, o, log, p);
    if p.isShrink { KeepTwice(c, Raw(c, o, log), p.size, end); }
    assert Tight(c, o, log + [p], chunks, end);
  }

  /** A header that is copied while the file is being written has the size from before: until the next header a scan
      finds only the chunks below that size, and hence all of them exactly if none starts beyond. */
  lemma CopyHides(c: nat, o: nat, log: seq<Page>, chunks: ChunkMap, hdr: nat, end: int, p: Page)
    requires IsHeaderOf(c, o, p) && !InDeletedDir(p) && !p.isShrink && p.size <= end
    requires Part(c, o, log, chunks, hdr, end)
    ensures Replay(c, o, log + [p]) == Keep(c, chunks, p.size)
    ensures Replay(c, o, log + [p]) == chunks <==> forall id :: id in chunks ==> Base(c, id) < p.size
  {
    Append(c, o, log, p);
    KeepTwice(c, Raw(c, o, log), end, p.size);
    if exists id :: id in chunks && Base(c, id) >= p.size {
      var id :| id in chunks && Base(c, id) >= p.size;
      assert id !in Keep(c, chunks, p.size);
    }
  }

  /** A header with the size of the file makes a scan find the file. */
  lemma StepHeader(c: nat, o: nat, log: seq<Page>, chunks: ChunkMap, hdr: nat, p: Page)
    requires IsHeaderOf(c, o, p) && !InDeletedDir(p) && Free(log, p.chunk)
    requires Part(c, o, log, chunks, hdr, p.size)
    ensures InStep(c, o, log + [p], chunks, p.chunk, p.size)
    ensures Raw(c, o, log + [p]) == if p.isShrink then chunks else Raw(c, o, log)
    ensures LastHeaderAt(c, o, log + [p]) == |log| && HeaderSize(c, o, log + [p]) == p.size
    ensures Reaches(c, o, log + [p], chunks, p.size)
  {
    PartHeader(c, o, log, chunks, hdr, p.size, p);
    Append(c, o, log, p);
  }

  /** The first header of a file.  Its size is zero, so that nothing counts that an earlier file of the same number has
      left in the log. */
  lemma FirstHeader(c: nat, o: nat, log: seq<Page>, p: Page)
    requires IsHeaderOf(c, o, p) && !InDeletedDir(p) && p.size == 0 && Free(log, p.chunk) && DistinctAddresses(log)
    requires c > 0
    ensures InStep(c, o, log + [p], map[], p.chunk, 0)
    ensures HeaderSize(c, o, log + [p]) == 0 && Reaches(c, o, log + [p], map[], 0)
  {
    DistinctAppend(log, p);
    HeaderAppend(c, o, log, p);
    Append(c, o, log, p);
    IdsInRange(c, o, log + [p]);
    assert forall id: nat :: id > 0 ==> Base(c, id) >= 0;
  }

  /** The collector copies the current page `log[k]`. */
  lemma StepCopy(c: nat, o: nat, log: seq<Page>, chunks: ChunkMap, hdr: nat, end: int, k: nat, p: Page)
    requires Part(c, o, log, chunks, hdr, end) && Free(log, p.chunk) && IsDataOf(c, o, p)
    requires k < |log| && IsDataOf(c, o, log[k]) && IsLive(chunks, log[k])
    requires p.id == log[k].id && p.nBytes == log[k].nBytes
    ensures Part(c, o, log + [p], chunks[p.id := p.chunk], hdr, end)
    ensures InStep(c, o, log, chunks, hdr, end) ==> InStep(c, o, log + [p], chunks[p.id := p.chunk], hdr, end)
  {
    PartKeys(c, o, log, chunks, hdr, end);
    PartData(c, o, log, chunks, hdr, end, end, p);
    if InStep(c, o, log, chunks, hdr, end) { StepData(c, o, log, chunks, hdr, end, end, p); }
  }

  lemma ReachesCopy(c: nat, o: nat, log: seq<Page>, chunks: ChunkMap, n: int, k: nat, p: Page)
    requires Reaches(c, o, log, chunks, n) && DistinctAddresses(log) && Free(log, p.chunk) && IsDataOf(c, o, p)
    requires k < |log| && IsDataOf(c, o, log[k]) && IsLive(chunks, log[k])
    requires p.id == log[k].id && p.nBytes == log[k].nBytes
    ensures Reaches(c, o, log + [p], chunks[p.id := p.chunk], n)
  {
    HeaderAppend(c, o, log, p);
    var log', chunks' := log + [p], chunks[p.id := p.chunk];
    assert log'[|log|] == p && IsLive(chunks', p);
    if n > HeaderSize(c, o, log) {
      var i :| LastHeaderAt(c, o, log) < i < |log| && IsDataOf(c, o, log[i]) && IsLive(chunks, log[i])
               && n <= Base(c, log[i].id) + log[i].nBytes;
      assert log'[i] == log[i];
      if log[i].id == p.id { assert i == k; }
    }
  }

  /** A page of another object, or one that is not believed, is appended. */
  lemma StepForeign(c: nat, o: nat, log: seq<Page>, chunks: ChunkMap, hdr: nat, p: Page)
    requires Free(log, p.chunk) && (p.Blank? || p.obj != o)
    ensures Raw(c, o, log + [p]) == Raw(c, o, log)
    ensures forall end :: Part(c, o, log, chunks, hdr, end) ==> Part(c, o, log + [p], chunks, hdr, end)
    ensures forall end :: InStep(c, o, log, chunks, hdr, end) ==> InStep(c, o, log + [p], chunks, hdr, end)
    ensures forall n :: Reaches(c, o, log, chunks, n) ==> Reaches(c, o, log + [p], chunks, n)
    ensures HeaderSize(c, o, log + [p]) == HeaderSize(c, o, log)
  {
    Append(c, o, log, p);
    HeaderAppend(c, o, log, p);
    forall end | Part(c, o, log, chunks, hdr, end) ensures Part(c, o, log + [p], chunks, hdr, end) {
      DistinctAppend(log, p);
    }
    forall n | Reaches(c, o, log, chunks, n) ensures Reaches(c, o, log + [p], chunks, n) {
      if n > HeaderSize(c, o, log) {
        var k :| LastHeaderAt(c, o, log) < k < |log| && IsDataOf(c, o, log[k]) && IsLive(chunks, log[k])
                 && n <= Base(c, log[k].id) + log[k].nBytes;
        assert (log + [p])[k] == log[k];
      }
    }
  }

  /** A file that a scan would find, and whose size is reached, is found with its size. */
  lemma SizeReached(c: nat, o: nat, log: seq<Page>, chunks: ChunkMap, n: int)
    requires Reaches(c, o, log, chunks, n)
    ensures n <= ReplaySize(c, o, log) || n < 0
  {
    HeaderFacts(c, o, log);
    if n > HeaderSize(c, o, log) {
      var k :| LastHeaderAt(c, o, log) < k < |log| && IsDataOf(c, o, log[k]) && IsLive(chunks, log[k])
               && n <= Base(c, log[k].id) + log[k].nBytes;
      DataReaches(c, o, log, k);
    }
  }

  lemma {:induction false} DataReaches(c: nat, o: nat, log: seq<Page>, k: nat)
    requires LastHeaderAt(c, o, log) < k < |log| && IsDataOf(c, o, log[k])
    ensures Base(c, log[k].id) + log[k].nBytes <= ReplaySize(c, o, log)
  {
    if k < |log| - 1 { DataReaches(c, o, log[..|log| - 1], k); }
  }

  lemma PartKeys(c: nat, o: nat, log: seq<Page>, chunks: ChunkMap, hdr: nat, end: int)
    requires Part(c, o, log, chunks, hdr, end)
    ensures forall id :: id in chunks <==> id in Raw(c, o, log) && Base(c, id) < end
    ensures forall id :: id in chunks ==> chunks[id] == Raw(c, o, log)[id] && 0 < id <= MAX_CHUNK_ID
  {
    IdsInRange(c, o, log);
  }

  // ---------- Erasing keeps the agreement ----------

  lemma {:induction false} HeaderFacts(c: nat, o: nat, log: seq<Page>)
    ensures var j := LastHeaderAt(c, o, log);
            if j < 0 then LastHeader(c, o, log) == 0
            else LastHeader(c, o, log) == log[j].chunk && log[j].size <= ReplaySize(c, o, log)
  {
    if log != [] { HeaderFacts(c, o, log[..|log| - 1]); }
  }

  /** Erasing pages other than the last header keeps it the last one, and does not enlarge the file. */
  lemma {:induction false} EraseHeader(c: nat, o: nat, log: seq<Page>, cpb: nat, b: nat)
    requires cpb > 0
    requires var j := LastHeaderAt(c, o, log); j >= 0 ==> BlockOf(cpb, log[j]) != b
    ensures LastHeaderAt(c, o, Erase(log, cpb, b)) == LastHeaderAt(c, o, log)
    ensures ReplaySize(c, o, Erase(log, cpb, b)) <= ReplaySize(c, o, log)
  {
    if log != [] {
      var n := |log| - 1;
      assert Erase(log, cpb, b)[..n] == Erase(log[..n], cpb, b);
      if !IsHeaderOf(c, o, log[n]) { EraseHeader(c, o, log[..n], cpb, b); }
    }
  }

  lemma EraseMarked(c: nat, o: nat, log: seq<Page>, cpb: nat, b: nat)
    requires cpb > 0
    requires var j := LastHeaderAt(c, o, log); j >= 0 && BlockOf(cpb, log[j]) != b
    ensures Marked(c, o, Erase(log, cpb, b)) == Erase(Marked(c, o, log), cpb, b)
    ensures Harmless(c, o, log, cpb, b) ==> Harmless(c, o, Marked(c, o, log), cpb, b)
  {
    EraseHeader(c, o, log, cpb, b);
    var m, j := Marked(c, o, log), LastHeaderAt(c, o, log);
    if Harmless(c, o, log, cpb, b) {
      forall k, q | 0 <= k < q < |m| && IsDataOf(c, o, m[k]) && BlockOf(cpb, m[k]) != b
                    && IsCut(c, o, m[q]) && BlockOf(cpb, m[q]) == b
        ensures Base(c, m[k].id) < CutSize(m[q])
      {
        assert k != j && q != j && m[k] == log[k] && m[q] == log[q];
      }
    }
  }

  /** Erasing a block from which no chunk in `m`, a part of the log, comes leaves that part as it is. */
  lemma EraseKeepsPart(c: nat, o: nat, log: seq<Page>, end: int, cpb: nat, b: nat)
    requires cpb > 0 && Harmless(c, o, log, cpb, b)
    requires forall id :: id in Raw(c, o, log) && Base(c, id) < end ==> Raw(c, o, log)[id] / cpb != b
    ensures Keep(c, Raw(c, o, Erase(log, cpb, b)), end) == Keep(c, Raw(c, o, log), end)
  {
    var m, m' := Raw(c, o, log), Raw(c, o, Erase(log, cpb, b));
    forall id: nat | Base(c, id) < end
      ensures (id in m <==> id in m') && (id in m ==> m[id] == m'[id])
    {
      forall k | 0 <= k < |log| && Survives(c, o, log, k) && log[k].id == id ensures BlockOf(cpb, log[k]) != b {
        SurvivorIsRaw(c, o, log, k);
      }
      EraseKeepsChunk(c, o, log, cpb, b, id);
    }
  }

  lemma PartHas(c: nat, o: nat, log: seq<Page>, chunks: ChunkMap, hdr: nat, end: int)
    requires Part(c, o, log, chunks, hdr, end)
    ensures Sound(c, o, log, chunks, hdr, end) && HeaderAt(c, o, log, hdr)
    ensures chunks == Keep(c, Raw(c, o, log), end)
  {
  }

  lemma ErasePart(c: nat, o: nat, log: seq<Page>, chunks: ChunkMap, end: int, cpb: nat, b: nat)
    requires cpb > 0 && Harmless(c, o, log, cpb, b)
    requires chunks == Keep(c, Raw(c, o, log), end) && forall id :: id in chunks ==> chunks[id] / cpb != b
    ensures chunks == Keep(c, Raw(c, o, Erase(log, cpb, b)), end)
  {
    var m := Raw(c, o, log);
    forall id | id in m && Base(c, id) < end ensures m[id] / cpb != b { assert id in chunks && chunks[id] == m[id]; }
    EraseKeepsPart(c, o, log, end, cpb, b);
  }

  lemma EraseReplay(c: nat, o: nat, log: seq<Page>, hdr: nat, cpb: nat, b: nat)
    requires c > 0 && cpb > 0 && HeaderAt(c, o, log, hdr) && Harmless(c, o, log, cpb, b)
    requires hdr / cpb != b && forall id :: id in Replay(c, o, log) ==> Replay(c, o, log)[id] / cpb != b
    ensures Replay(c, o, Erase(log, cpb, b)) == Replay(c, o, log)
  {
    hide Harmless, Keep;
    var log', m := Erase(log, cpb, b), Marked(c, o, log);
    EraseHeader(c, o, log, cpb, b);
    EraseMarked(c, o, log, cpb, b);
    ReplayIsRawOfMarked(c, o, log);
    ReplayIsRawOfMarked(c, o, log');
    EraseKeepsPart(c, o, m, MAX_CHUNK_ID * c, cpb, b);
    KeepAll(c, o, m);
    KeepAll(c, o, Erase(m, cpb, b));
  }

  /** A block with nothing current in it, whose cuts matter to no page outside, is erased. */
  lemma EraseInStep(c: nat, o: nat, log: seq<Page>, chunks: ChunkMap, hdr: nat, end: int, cpb: nat, b: nat)
    requires c > 0 && cpb > 0 && Part(c, o, log, chunks, hdr, end) && Harmless(c, o, log, cpb, b)
    requires hdr / cpb != b && forall id :: id in chunks ==> chunks[id] / cpb != b
    ensures Part(c, o, Erase(log, cpb, b), chunks, hdr, end)
    ensures InStep(c, o, log, chunks, hdr, end) ==> InStep(c, o, Erase(log, cpb, b), chunks, hdr, end)
  {
    hide Harmless, DistinctAddresses, Tight, Keep, Sound, HeaderAt;
    PartHas(c, o, log, chunks, hdr, end);
    HeaderElsewhere(c, o, log, hdr, cpb, b);
    EraseHeader(c, o, log, cpb, b);
    ErasePart(c, o, log, chunks, end, cpb, b);
    EraseSound(c, o, log, chunks, hdr, end, cpb, b);
    if InStep(c, o, log, chunks, hdr, end) { EraseReplay(c, o, log, hdr, cpb, b); }
  }

  lemma HeaderElsewhere(c: nat, o: nat, log: seq<Page>, hdr: nat, cpb: nat, b: nat)
    requires cpb > 0 && HeaderAt(c, o, log, hdr) && hdr / cpb != b
    ensures var j := LastHeaderAt(c, o, log); j >= 0 && BlockOf(cpb, log[j]) != b
  {
  }

  /** What is reached by current pages is still reached. */
  lemma EraseReaches(c: nat, o: nat, log: seq<Page>, chunks: ChunkMap, hdr: nat, n: int, cpb: nat, b: nat)
    requires cpb > 0 && HeaderAt(c, o, log, hdr) && hdr / cpb != b
    requires forall id :: id in chunks ==> chunks[id] / cpb != b
    ensures HeaderSize(c, o, Erase(log, cpb, b)) == HeaderSize(c, o, log)
    ensures Reaches(c, o, log, chunks, n) ==> Reaches(c, o, Erase(log, cpb, b), chunks, n)
  {
    EraseHeader(c, o, log, cpb, b);
    var log' := Erase(log, cpb, b);
    if Reaches(c, o, log, chunks, n) && n > HeaderSize(c, o, log) {
      var k :| LastHeaderAt(c, o, log) < k < |log| && IsDataOf(c, o, log[k]) && IsLive(chunks, log[k])
               && n <= Base(c, log[k].id) + log[k].nBytes;
      assert log'[k] == log[k];
    }
  }

  /** Erasing such a block brings no chunk back, and loses none that does not come from it. */
  lemma EraseKeys(c: nat, o: nat, log: seq<Page>, cpb: nat, b: nat)
    requires cpb > 0 && Harmless(c, o, log, cpb, b)
    ensures forall id :: id in Raw(c, o, Erase(log, cpb, b)) ==> id in Raw(c, o, log)
    ensures forall id :: id in Raw(c, o, log) && Raw(c, o, log)[id] / cpb != b ==>
              id in Raw(c, o, Erase(log, cpb, b)) && Raw(c, o, Erase(log, cpb, b))[id] == Raw(c, o, log)[id]
  {
    var m := Raw(c, o, log);
    forall id: nat | id !in m || m[id] / cpb != b
      ensures var m' := Raw(c, o, Erase(log, cpb, b)); (id in m <==> id in m') && (id in m ==> m[id] == m'[id])
    {
      forall k | 0 <= k < |log| && Survives(c, o, log, k) && log[k].id == id ensures BlockOf(cpb, log[k]) != b {
        SurvivorIsRaw(c, o, log, k);
      }
      EraseKeepsChunk(c, o, log, cpb, b, id);
    }
  }

  lemma EraseSound(c: nat, o: nat, log: seq<Page>, chunks: ChunkMap, hdr: nat, end: int, cpb: nat, b: nat)
    requires cpb > 0 && Sound(c, o, log, chunks, hdr, end) && hdr / cpb != b
    ensures Sound(c, o, Erase(log, cpb, b), chunks, hdr, end)
  {
    EraseHeader(c, o, log, cpb, b);
  }

  /** A page that is current was not cut off by any later header. */
  lemma CurrentIsSpared(c: nat, o: nat, log: seq<Page>, k: nat, q: nat)
    requires k < q < |log| && IsDataOf(c, o, log[k]) && IsCut(c, o, log[q]) && DistinctAddresses(log)
    requires IsLive(Raw(c, o, log), log[k])
    ensures Base(c, log[k].id) < CutSize(log[q])
  {
    var i := RawHasSurvivor(c, o, log, log[k].id);
    assert i == k;
    assert Spares(c, o, log[q], log[k].id);
  }

  /** What the guard established lasts while pages are programmed outside the block, whatever becomes of the
      pages that were current when it was evaluated. */
  lemma HarmlessLasts(c: nat, o: nat, log: seq<Page>, cpb: nat, b: nat, p: Page)
    requires cpb > 0 && Harmless(c, o, log, cpb, b) && BlockOf(cpb, p) != b
    ensures Harmless(c, o, log + [p], cpb, b)
  {
  }

  /** The log without its blank pages. */
  function Compact(log: seq<Page>): seq<Page> {
    if log == [] then []
    else Compact(log[..|log| - 1]) + if log[|log| - 1].Blank? then [] else [log[|log| - 1]]
  }

  lemma {:induction false} BlanksDoNotCount(c: nat, o: nat, log: seq<Page>)
    ensures Raw(c, o, Compact(log)) == Raw(c, o, log) && Replay(c, o, Compact(log)) == Replay(c, o, log)
    ensures ReplaySize(c, o, Compact(log)) == ReplaySize(c, o, log)
    ensures LastHeader(c, o, Compact(log)) == LastHeader(c, o, log)
  {
    if log != [] {
      var prefix, p := log[..|log| - 1], log[|log| - 1];
      BlanksDoNotCount(c, o, prefix);
      if p.Blank? { assert Compact(log) == Compact(prefix); } else { Append(c, o, Compact(prefix), p); }
    }
  }

}
