/**
 The bytes of a file on a device: what its pages hold, seen as the chunks of module FileCache without a cache, and what
 a scan finds of them.
 */
module Contents {
  import opened BackwardScan
  import opened ChunkMath
  import opened Common
  import opened DeviceLog
  import opened Owners
  import opened Space
  import F = FileCache
  import L = FlashLog

  /** A chunk of which the first bytes are `d`, and the others zero. */
  function Padded(c: nat, d: F.Bytes): (r: F.Bytes)
    ensures |r| == c
  {
    if |d| >= c then d[..c] else d + Fill(c - |d|, 0)
  }

  /** The chunks of file `o` on a device. */
  function Stored(c: nat, nand: Nand, objs: Objs, o: nat): F.Flash {
    if o in objs then
      map id | id in objs[o].chunks && Lookup(nand, objs, o, id).Some? && F.Small(F.Key(o, id)) ::
        F.Key(o, id) := Padded(c, Lookup(nand, objs, o, id).value)
    else map[]
  }

  lemma StoredAt(c: nat, nand: Nand, objs: Objs, o: nat, k: F.Key)
    ensures k in Stored(c, nand, objs, o) <==> k.obj == o && Lookup(nand, objs, o, k.id).Some? && F.Small(k)
    ensures k in Stored(c, nand, objs, o) ==>
              Stored(c, nand, objs, o)[k] == Padded(c, Lookup(nand, objs, o, k.id).value)
  {
    assert k == F.Key(k.obj, k.id);
  }

  lemma StoredOk(c: nat, nand: Nand, objs: Objs, o: nat)
    ensures F.CacheOk(c, Stored(c, nand, objs, o), []) && Own(Stored(c, nand, objs, o), o)
  {
    hide Stored;
    forall k | k in Stored(c, nand, objs, o)
      ensures k.obj == o && F.Small(k) && |Stored(c, nand, objs, o)[k]| == c
    {
      StoredAt(c, nand, objs, o, k);
    }
  }

  /** All chunks are those of file `o`. */
  ghost predicate Own(flash: F.Flash, o: nat) { forall k :: k in flash ==> k.obj == o }

  lemma StoredSame(c: nat, nand: Nand, objs: Objs, nand': Nand, objs': Objs, o: nat)
    requires forall id :: Lookup(nand', objs', o, id) == Lookup(nand, objs, o, id)
    ensures Stored(c, nand', objs', o) == Stored(c, nand, objs, o)
  {
    hide Stored, Lookup;
    var s, s' := Stored(c, nand, objs, o), Stored(c, nand', objs', o);
    forall k: F.Key ensures (k in s' <==> k in s) && (k in s ==> s'[k] == s[k]) {
      StoredAt(c, nand, objs, o, k);
      StoredAt(c, nand', objs', o, k);
    }
  }

  lemma StoredPut(c: nat, nand: Nand, objs: Objs, nand': Nand, objs': Objs, o: nat, id: nat, d: F.Bytes)
    requires ReadsBut(nand, objs, nand', objs', DataPage(o, id, d)) && 0 < id <= MAX_CHUNK_ID
    ensures Stored(c, nand', objs', o) == F.Put(Stored(c, nand, objs, o), F.Key(o, id), Padded(c, d))
  {
    hide Stored, Lookup, Padded;
    var s, s' := Stored(c, nand, objs, o), Stored(c, nand', objs', o);
    var t := F.Put(s, F.Key(o, id), Padded(c, d));
    forall k: F.Key ensures (k in s' <==> k in t) && (k in t ==> s'[k] == t[k]) {
      StoredAt(c, nand, objs, o, k);
      StoredAt(c, nand', objs', o, k);
    }
  }

  lemma StoredDrop(c: nat, nand: Nand, objs: Objs, nand': Nand, objs': Objs, o: nat, id: nat)
    requires forall i :: Lookup(nand', objs', o, i) == if i == id then None else Lookup(nand, objs, o, i)
    ensures Stored(c, nand', objs', o) == Stored(c, nand, objs, o) - {F.Key(o, id)}
  {
    hide Stored, Lookup, Padded;
    var s, s' := Stored(c, nand, objs, o), Stored(c, nand', objs', o);
    forall k: F.Key ensures (k in s' <==> k in s && k != F.Key(o, id)) && (k in s' ==> s'[k] == s[k]) {
      StoredAt(c, nand, objs, o, k);
      StoredAt(c, nand', objs', o, k);
    }
  }

  lemma NewStored(c: nat, nand: Nand, objs: Objs, o: nat)
    requires o in objs && objs[o] == NewObj()
    ensures Stored(c, nand, objs, o) == map[]
  {
  }

  lemma NotStored(c: nat, nand: Nand, objs: Objs, o: nat, id: nat)
    requires o in objs && id !in objs[o].chunks
    ensures F.Key(o, id) !in Stored(c, nand, objs, o)
  {
  }

  lemma NoneStored(c: nat, o: nat)
    requires c > 0
    ensures ZeroAfter(c, map[], o, 0) && F.FileBytes(c, map[], [], o, 0) == []
  {
  }

  /** The bytes of file `o` from `end` on are zero. */
  ghost predicate ZeroAfter(c: nat, flash: F.Flash, o: nat, end: nat)
    requires c > 0
  {
    F.CacheOk(c, flash, []) && Own(flash, o) && F.ZeroFrom(c, flash, [], o, end)
  }

  /** `d` was written into file `o` at `offset`, so far as flash can hold it, and nothing else changed. */
  ghost predicate WrittenAt(c: nat, flash: F.Flash, flash': F.Flash, o: nat, offset: nat, d: F.Bytes)
    requires c > 0
  {
    F.Patched(c, flash, [], flash', [], o, offset, F.Clip(c, offset, d))
  }

  lemma OthersZero(c: nat, flash: F.Flash, o: nat, j: nat, n: nat)
    requires c > 0 && Own(flash, o) && j != o
    ensures F.ZeroFrom(c, flash, [], j, n)
  {
  }

  lemma ZeroBeyondIs(c: nat, flash: F.Flash, o: nat, size: nat, end: nat)
    requires c > 0 && Own(flash, o)
    ensures F.ZeroBeyond(c, flash, [], map[o := size], o, end) <==> F.ZeroFrom(c, flash, [], o, Max(size, end))
  {
    hide F.ZeroFrom;
    var sizes := map[o := size];
    assert F.Reach(sizes, o, o, end) == Max(size, end);
    if F.ZeroFrom(c, flash, [], o, Max(size, end)) {
      forall j: nat ensures F.ZeroFrom(c, flash, [], j, F.Reach(sizes, j, o, end)) {
        if j != o { OthersZero(c, flash, o, j, F.Reach(sizes, j, o, end)); }
      }
    }
  }

  /** What is not programmed of a chunk is zero anyway. */
  lemma RestIsZero(c: nat, flash: F.Flash, o: nat, end: nat, off: nat, d: F.Bytes, wb: nat)
    requires c > 0 && ZeroAfter(c, flash, o, end) && Rem(c, off) + |d| <= wb <= c
    requires wb == c || Quo(c, off) * c + wb >= end
    requires F.InReach(c, off)
    ensures var v := F.OnFlash(c, flash, F.Key(o, Quo(c, off) + 1));
            |v| == c && Padded(c, Splice(v, Rem(c, off), d)[..wb]) == Splice(v, Rem(c, off), d)
  {
    hide Quo, Rem;
    var k := F.Key(o, Quo(c, off) + 1);
    var v := F.OnFlash(c, flash, k);
    F.ViewLength(c, flash, [], k);
    forall i | wb <= i < c ensures v[i] == 0 {
      var pos: nat := Quo(c, off) * c + i;
      QuotientIs(c, Quo(c, off), pos);
      F.FarZero(c, flash, [], o, end, pos);
    }
  }

  /** The next part of a request was programmed, or is beyond the largest id. */
  lemma PartStored(c: nat, f0: F.Flash, f1: F.Flash, f2: F.Flash, o: nat, size: nat, offset: nat, data: F.Bytes, m: nat,
                   n: nat, wb: nat)
    requires c > 0 && m + n <= |data| && Own(f2, o)
    requires var off := offset + m; var k := F.Key(o, Quo(c, off) + 1);
             && Rem(c, off) + n <= wb <= c && (wb == c || Quo(c, off) * c + wb >= Max(size, off))
             && ZeroAfter(c, f1, o, Max(size, off)) && WrittenAt(c, f0, f1, o, offset, data[..m])
             && var v := F.OnFlash(c, f1, k);
             && |v| == c
             && f2 == if F.Small(k) then F.Put(f1, k, Padded(c, Splice(v, Rem(c, off), data[m..m + n])[..wb])) else f1
    ensures WrittenAt(c, f0, f2, o, offset, data[..m + n]) && ZeroAfter(c, f2, o, Max(size, offset + m + n))
  {
    hide F.CacheOk, F.ZeroFrom, F.Patched, F.Wrote, F.OnFlash, Padded, Own, F.Clip, F.ZeroBeyond, F.PartResult, Quo,
      Rem;
    var off, d := offset + m, data[m..m + n];
    var k := F.Key(o, Quo(c, off) + 1);
    var v := F.OnFlash(c, f1, k);
    if F.Small(k) { RestIsZero(c, f1, o, Max(size, off), off, d, wb); }
    F.WritePast(c, f1, [], k, Splice(v, Rem(c, off), d));
    assert F.Invalidated([], k) == [];
    ZeroBeyondIs(c, f1, o, size, off);
    PartIs(c, f1, f2, o, off, d);
    F.PartDone(c, f0, [], f1, [], f2, [], map[o := size], o, offset, data, m, n, true, false);
    ZeroBeyondIs(c, f2, o, size, off + n);
  }

  lemma PartIs(c: nat, f1: F.Flash, f2: F.Flash, o: nat, off: nat, d: F.Bytes)
    requires c > 0 && Rem(c, off) + |d| <= c
    requires var k := F.Key(o, Quo(c, off) + 1); var v := F.OnFlash(c, f1, k);
             |v| == c && F.Wrote(c, f1, [], f2, [], k, Splice(v, Rem(c, off), d))
    ensures F.PartResult(c, f1, [], f2, [], o, off, d, true, false)
  {
  }

  lemma SameStored(c: nat, nand: Nand, objs: Objs, nand': Nand, objs': Objs, o: nat)
    requires SameReads(nand, objs, nand', objs')
    ensures Stored(c, nand', objs', o) == Stored(c, nand, objs, o)
  {
    hide Lookup, Stored;
    StoredSame(c, nand, objs, nand', objs', o);
  }

  /** Another page was programmed: a header, or a page of another object. */
  lemma OtherStored(c: nat, nand: Nand, objs: Objs, nand': Nand, objs': Objs, o: nat, p: Page)
    requires ReadsBut(nand, objs, nand', objs', p) && (p.obj != o || p.id == 0)
    ensures Stored(c, nand', objs', o) == Stored(c, nand, objs, o)
  {
    hide Lookup, Stored;
    forall id: nat ensures Lookup(nand', objs', o, id) == Lookup(nand, objs, o, id) {
      if p.obj == o && id == 0 { assert Lookup(nand', objs', o, id) == Lookup(nand, objs, o, id); }
    }
    StoredSame(c, nand, objs, nand', objs', o);
  }

  lemma NothingWritten(c: nat, flash: F.Flash, o: nat, offset: nat, d: F.Bytes)
    requires c > 0 && d == []
    ensures WrittenAt(c, flash, flash, o, offset, d)
  {
  }

  lemma ZeroFarther(c: nat, flash: F.Flash, o: nat, end: nat, end': nat)
    requires c > 0 && ZeroAfter(c, flash, o, end) && end <= end'
    ensures ZeroAfter(c, flash, o, end')
  {
    F.Farther(c, flash, [], o, end, end');
  }

  /** Files as byte sequences: a write patches them. */
  lemma WrittenBytes(c: nat, f0: F.Flash, f1: F.Flash, o: nat, size: nat, offset: nat, d: F.Bytes)
    requires c > 0 && ZeroAfter(c, f0, o, size) && WrittenAt(c, f0, f1, o, offset, d)
    ensures F.FileBytes(c, f1, [], o, Max(size, offset + |d|)) ==
            F.Patch(F.FileBytes(c, f0, [], o, size), offset, F.Clip(c, offset, d))
  {
    hide F.ZeroFrom, F.Patched, F.PatchedBelow, F.CacheOk, F.Clip, Own;
    F.PatchedBytes(c, f0, [], f1, [], o, offset, F.Clip(c, offset, d), size);
  }

  /** No byte changes if zeros are written at the end. */
  lemma ZerosStored(c: nat, f0: F.Flash, f1: F.Flash, f2: F.Flash, o: nat, size: nat, n: nat, nDone: nat)
    requires c > 0 && SameBytes(c, f0, f1) && nDone <= n
    requires ZeroAfter(c, f1, o, size) && ZeroAfter(c, f2, o, size + nDone)
    requires WrittenAt(c, f1, f2, o, size, Fill(n, 0)[..nDone])
    ensures SameBytes(c, f0, f2)
  {
    hide F.ZeroFrom, F.Patched, F.PatchedBelow, F.CacheOk, F.SameContent, F.InReach, Own;
    var d := F.Clip(c, size, Fill(n, 0)[..nDone]);
    F.PatchedBytes(c, f1, [], f2, [], o, size, d, size);
    F.ZerosWritten(c, f1, [], f2, [], o, size, d);
    F.ContentThen(c, f0, [], f1, [], f2, []);
  }

  /** The same bytes, in chunks that may be others. */
  ghost predicate SameBytes(c: nat, flash: F.Flash, flash': F.Flash)
    requires c > 0
  {
    F.SameContent(c, flash, [], flash', [])
  }

  lemma BytesSame(c: nat, flash: F.Flash)
    requires c > 0
    ensures SameBytes(c, flash, flash)
  {
  }

  /** A gap bridged before makes no difference to what a write yields. */
  lemma GapBytes(c: nat, f0: F.Flash, f1: F.Flash, o: nat, size0: nat, size1: nat, offset: nat, d: F.Bytes)
    requires c > 0 && SameBytes(c, f0, f1) && ZeroAfter(c, f0, o, size0)
    requires size1 == size0 || size1 == offset > size0
    ensures F.Patch(F.FileBytes(c, f1, [], o, size1), offset, F.Clip(c, offset, d)) ==
            F.Patch(F.FileBytes(c, f0, [], o, size0), offset, F.Clip(c, offset, d))
  {
    hide F.ZeroFrom, F.CacheOk, F.SameContent, F.Clip, F.Patch, F.FileBytes, Own;
    F.HoleBytes(c, f0, [], f1, [], o, size0, size1, offset, F.Clip(c, offset, d));
  }

  /** Chunks deleted and the last one padded: the file is cut. */
  lemma CutStored(c: nat, f0: F.Flash, f1: F.Flash, f2: F.Flash, o: nat, size: nat, newSize: nat)
    requires c > 0 && newSize <= size && ZeroAfter(c, f0, o, size) && Own(f2, o)
    requires F.Pruned(f0, f1, o, F.StartDel(c, newSize), F.LastDel(c, size))
    requires var k := F.Key(o, Quo(c, newSize) + 1);
             if Rem(c, newSize) == 0 then f2 == f1
             else
               && |F.OnFlash(c, f1, k)| == c
               && f2 == F.Put(f1, k, Padded(c, F.OnFlash(c, f1, k)[..Rem(c, newSize)]))
    ensures F.Trimmed(c, f0, f2, [], o, newSize) && ZeroAfter(c, f2, o, newSize)
  {
    hide F.ZeroFrom, F.CacheOk, F.Trimmed, F.Pruned, F.StartDel, F.LastDel, F.OnFlash, Own, Quo, Rem;
    Split(c, newSize);
    forall j: nat ensures F.ZeroFrom(c, f0, [], j, F.SizeOf(map[o := size], j)) {
      if j != o { OthersZero(c, f0, o, j, 0); }
    }
    F.WholeCut(c, f0, f1, f2, [], o, newSize, size, map[o := size], map[o := newSize]);
    assert F.SizeOf(map[o := newSize], o) == newSize;
  }

  /** Cutting off what was filled in before changes no byte. */
  lemma UndoneSame(c: nat, f0: F.Flash, f1: F.Flash, f2: F.Flash, o: nat, size: nat)
    requires c > 0 && SameBytes(c, f0, f1) && ZeroAfter(c, f0, o, size) && F.Trimmed(c, f1, f2, [], o, size)
    ensures SameBytes(c, f0, f2)
  {
    hide F.ZeroFrom, F.CacheOk, F.Trimmed, F.SameContent, F.ZeroTail, Own;
    F.FilledZero(c, f0, [], f1, [], o, size);
    F.TrimNothing(c, f1, f2, [], o, size);
    F.ContentThen(c, f0, [], f1, [], f2, []);
  }

  lemma ExtendedStored(c: nat, f0: F.Flash, f1: F.Flash, o: nat, size: nat, newSize: nat)
    requires c > 0 && SameBytes(c, f0, f1) && ZeroAfter(c, f0, o, size) && newSize >= size
    ensures F.FileBytes(c, f1, [], o, newSize) == F.Extract(F.FileBytes(c, f0, [], o, size), 0, newSize)
  {
    hide F.ZeroFrom, F.CacheOk, F.SameContent, Own;
    F.ExtendedBytes(c, f0, [], f1, [], o, size, newSize);
  }

  lemma TrimmedStored(c: nat, f0: F.Flash, f1: F.Flash, o: nat, size: nat, newSize: nat)
    requires c > 0 && F.Trimmed(c, f0, f1, [], o, newSize) && newSize <= size
    ensures F.FileBytes(c, f1, [], o, newSize) == F.Extract(F.FileBytes(c, f0, [], o, size), 0, newSize)
  {
    hide F.Trimmed, F.SameContent;
    F.ContentSame(c, f0, []);
    F.TrimmedBytes(c, f0, [], f0, f1, [], o, size, newSize);
  }

  // ---------- What a scan finds ----------

  /** The byte at position `pos` of a file that a scan found. */
  function FoundByte(c: nat, cpb: nat, nand: Nand, found: Scanned, pos: nat): F.Byte
    requires c > 0
  {
    var id := Quo(c, pos) + 1;
    if id in found.chunks && 0 < cpb <= found.chunks[id] && ChunkAt(cpb, found.chunks[id]) in nand then
      F.ByteOf(nand[ChunkAt(cpb, found.chunks[id])].data, Rem(c, pos))
    else 0
  }

  /** The bytes of a file that a scan found. */
  function FoundBytes(c: nat, cpb: nat, nand: Nand, found: Scanned): F.Bytes
    requires c > 0
  {
    seq(found.size, pos requires 0 <= pos => FoundByte(c, cpb, nand, found, pos))
  }

  /** They are the bytes in memory, if its chunks and its size are found. */
  lemma FoundIs(c: nat, cpb: nat, nand: Nand, objs: Objs, o: nat, found: Scanned)
    requires c > 0 && o in objs && found.chunks == Addrs(cpb, objs[o].chunks) && found.size == objs[o].size
    requires forall id :: id in objs[o].chunks ==> objs[o].chunks[id].page < cpb && id <= MAX_CHUNK_ID
    ensures FoundBytes(c, cpb, nand, found) == F.FileBytes(c, Stored(c, nand, objs, o), [], o, objs[o].size)
  {
    hide Stored, FoundByte, F.Content, Addrs;
    forall pos: nat
      ensures FoundByte(c, cpb, nand, found, pos) == F.Content(c, Stored(c, nand, objs, o), [], o, pos)
    {
      FoundByteIs(c, cpb, nand, objs, o, found, pos);
    }
  }

  lemma FoundByteIs(c: nat, cpb: nat, nand: Nand, objs: Objs, o: nat, found: Scanned, pos: nat)
    requires c > 0 && o in objs && found.chunks == Addrs(cpb, objs[o].chunks)
    requires forall id :: id in objs[o].chunks ==> objs[o].chunks[id].page < cpb && id <= MAX_CHUNK_ID
    ensures FoundByte(c, cpb, nand, found, pos) == F.Content(c, Stored(c, nand, objs, o), [], o, pos)
  {
    hide Stored, Quo, Rem, ChunkAt, Addr;
    var id := Quo(c, pos) + 1;
    StoredAt(c, nand, objs, o, F.Key(o, id));
    Split(c, pos);
    if id in objs[o].chunks { AddrSplit(cpb, objs[o].chunks[id]); }
  }
}
