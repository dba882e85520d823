/**
 The log of a YAFFS2 device and what it means.

 Pages are listed oldest first: blocks in the order of their sequence numbers, pages of
 a block in the order in which they were programmed.  `Replay` gives the meaning of a log
 for one object by reading it forwards; `ScanBackwards` (module BackwardScan) is the mount-time
 scan, which reads it newest first.
 */
module FlashLog {
  import opened Common

  const MAX_OBJECT_ID := 0x3_ffff
  const OBJECTID_UNLINKED := 3
  const OBJECTID_DELETED := 4
  const OBJECTID_SUMMARY := 0x10

  /** A programmed page.  `chunk` is its NAND address.  A data page holds `nBytes` bytes of
      chunk `id` (counted from 1) of file `obj`; a header page holds the object's directory,
      its size, and the flag saying that the file was once cut to that size. */
  datatype Page =
    | Blank(chunk: nat)
    | Data(obj: nat, id: nat, nBytes: nat, chunk: nat)
    | Header(obj: nat, parent: nat, size: nat, isShrink: bool, chunk: nat)

  type ChunkMap = map<nat, nat>

  /** File offset of the first byte of a chunk. */
  function Base(c: nat, id: nat): int { (id - 1) * c }

  /** Tags that the scan believes; `c` is the number of data bytes in a chunk. */
  predicate GoodTags(c: nat, p: Page) {
    match p
    case Blank(_) => false
    case Data(obj, id, nBytes, _) =>
      obj <= MAX_OBJECT_ID && obj != OBJECTID_SUMMARY && 0 < id <= MAX_CHUNK_ID && nBytes <= c
    case Header(obj, _, _, _, _) => obj <= MAX_OBJECT_ID && obj != OBJECTID_SUMMARY
  }

  predicate IsDataOf(c: nat, o: nat, p: Page) { p.Data? && GoodTags(c, p) && p.obj == o }

  predicate IsHeaderOf(c: nat, o: nat, p: Page) { p.Header? && GoodTags(c, p) && p.obj == o }

  predicate InDeletedDir(p: Page)
    requires p.Header?
  {
    p.parent == OBJECTID_DELETED || p.parent == OBJECTID_UNLINKED
  }

  /** An old header cuts its file when it is a shrink header, or when it put the file into
      one of the two directories of deleted files, which cuts it to nothing. */
  predicate IsCut(c: nat, o: nat, p: Page) { IsHeaderOf(c, o, p) && (p.isShrink || InDeletedDir(p)) }

  function CutSize(p: Page): nat
    requires p.Header?
  {
    if InDeletedDir(p) then 0 else p.size
  }

  /** The chunks of `m` that start below `size`. */
  function Keep(c: nat, m: ChunkMap, size: int): ChunkMap {
    map id | id in m && Base(c, id) < size :: m[id]
  }

  /** Later data replaces earlier data, and every cut removes what lies at or beyond it. */
  function Raw(c: nat, o: nat, log: seq<Page>): ChunkMap {
    if log == [] then map[] else
    var p, before := log[|log| - 1], Raw(c, o, log[..|log| - 1]);
    if IsDataOf(c, o, p) then before[p.id := p.chunk]
    else if IsCut(c, o, p) then Keep(c, before, CutSize(p))
    else before
  }

  /** The meaning of a log: like `Raw`, and in addition the last header, of whatever kind,
      removes what lies at or beyond its size. */
  function Replay(c: nat, o: nat, log: seq<Page>): ChunkMap {
    if log == [] then map[] else
    var p, prefix := log[|log| - 1], log[..|log| - 1];
    if IsDataOf(c, o, p) then Replay(c, o, prefix)[p.id := p.chunk]
    else if IsHeaderOf(c, o, p) then Keep(c, Raw(c, o, prefix), p.size)
    else Replay(c, o, prefix)
  }

  /** The size: that of the last header, unless data written after it ends beyond. */
  function ReplaySize(c: nat, o: nat, log: seq<Page>): nat {
    if log == [] then 0 else
    var p, prefix := log[|log| - 1], log[..|log| - 1];
    if IsDataOf(c, o, p) then Max(ReplaySize(c, o, prefix), Base(c, p.id) + p.nBytes)
    else if IsHeaderOf(c, o, p) then p.size
    else ReplaySize(c, o, prefix)
  }

  /** The address of the last header, 0 when there is none. */
  function LastHeader(c: nat, o: nat, log: seq<Page>): nat {
    if log == [] then 0
    else if IsHeaderOf(c, o, log[|log| - 1]) then log[|log| - 1].chunk
    else LastHeader(c, o, log[..|log| - 1])
  }

  /** One more page at the end of the log. */
  lemma Append(c: nat, o: nat, log: seq<Page>, p: Page)
    ensures Raw(c, o, log + [p]) ==
            if IsDataOf(c, o, p) then Raw(c, o, log)[p.id := p.chunk]
            else if IsCut(c, o, p) then Keep(c, Raw(c, o, log), CutSize(p))
            else Raw(c, o, log)
    ensures Replay(c, o, log + [p]) ==
            if IsDataOf(c, o, p) then Replay(c, o, log)[p.id := p.chunk]
            else if IsHeaderOf(c, o, p) then Keep(c, Raw(c, o, log), p.size)
            else Replay(c, o, log)
    ensures ReplaySize(c, o, log + [p]) ==
            if IsDataOf(c, o, p) then Max(ReplaySize(c, o, log), Base(c, p.id) + p.nBytes)
            else if IsHeaderOf(c, o, p) then p.size
            else ReplaySize(c, o, log)
    ensures LastHeader(c, o, log + [p]) ==
            if IsHeaderOf(c, o, p) then p.chunk else LastHeader(c, o, log)
  {
    assert (log + [p])[..|log|] == log;
  }

  lemma {:induction false} IdsInRange(c: nat, o: nat, log: seq<Page>)
    ensures forall id :: id in Raw(c, o, log) ==> 0 < id <= MAX_CHUNK_ID
    ensures forall id :: id in Replay(c, o, log) ==> 0 < id <= MAX_CHUNK_ID
  {
    if log != [] { IdsInRange(c, o, log[..|log| - 1]); }
  }

  // ---------- Which page a chunk comes from ----------

  /** Page `q`, written after a copy of chunk `id`, leaves that copy alone. */
  predicate Spares(c: nat, o: nat, q: Page, id: nat) {
    && !(IsDataOf(c, o, q) && q.id == id)
    && !(IsCut(c, o, q) && CutSize(q) <= Base(c, id))
  }

  /** Page `k` holds data of `o` that no later page replaces or cuts off. */
  predicate Survives(c: nat, o: nat, log: seq<Page>, k: nat)
    requires k < |log|
  {
    IsDataOf(c, o, log[k]) && forall j | k < j < |log| :: Spares(c, o, log[j], log[k].id)
  }

  /** A surviving page is what `Raw` gives for its chunk. */
  lemma {:induction false} SurvivorIsRaw(c: nat, o: nat, log: seq<Page>, k: nat)
    requires k < |log| && Survives(c, o, log, k)
    ensures log[k].id in Raw(c, o, log) && Raw(c, o, log)[log[k].id] == log[k].chunk
  {
    var n := |log| - 1;
    if k < n {
      var prefix := log[..n];
      assert Survives(c, o, prefix, k) by {
        forall j | k < j < n ensures Spares(c, o, prefix[j], prefix[k].id) {
          assert prefix[j] == log[j];
        }
      }
      SurvivorIsRaw(c, o, prefix, k);
      assert Spares(c, o, log[n], log[k].id);
    }
  }

  /** Every chunk that `Raw` gives comes from a surviving page. */
  lemma {:induction false} RawHasSurvivor(c: nat, o: nat, log: seq<Page>, id: nat) returns (k: nat)
    requires id in Raw(c, o, log)
    ensures k < |log| && Survives(c, o, log, k)
    ensures log[k].id == id && log[k].chunk == Raw(c, o, log)[id]
  {
    var n := |log| - 1;
    if IsDataOf(c, o, log[n]) && log[n].id == id {
      k := n;
    } else {
      var prefix := log[..n];
      k := RawHasSurvivor(c, o, prefix, id);
      forall j | k < j < |log| ensures Spares(c, o, log[j], log[k].id) {
        if j < n { assert prefix[j] == log[j]; }
      }
    }
  }
}
