/**
 File contents behind the short-op cache: reading, writing, stretching and cutting a file through
 write-back cache entries behaves as one zero-extended byte sequence per file.
 */
module FileCache {
  import opened ChunkMath
  import opened Common
  import A = ChunkAddress

  type Byte = bv8
  type Bytes = seq<Byte>

  /** Chunk `id`, counted from 1, of file `obj`. */
  datatype Key = Key(obj: nat, id: nat)

  /** A cache entry; `owner` is `None` when the entry is free. */
  datatype Entry = Entry(owner: Option<Key>, dirty: bool, nBytes: nat, lastUse: int, data: Bytes)

  type Flash = map<Key, Bytes>
  type Cache = seq<Entry>

  lemma SpliceWhole(s: Bytes, d: Bytes)
    requires |s| == |d|
    ensures Splice(s, 0, d) == d
  {
  }

  // ---------- What a chunk holds ----------

  /** A chunk that flash can hold.  Writing another one is not refused, but does nothing. */
  predicate Small(k: Key) { k.id <= MAX_CHUNK_ID }

  /** Chunk `k` is programmed. */
  function Put(flash: Flash, k: Key, d: Bytes): Flash { if Small(k) then flash[k := d] else flash }

  /** A chunk as it is on flash; a hole reads as zeros. */
  function OnFlash(c: nat, flash: Flash, k: Key): Bytes {
    if k in flash then flash[k] else Fill(c, 0)
  }

  /** Index of the entry of `k`, -1 when it is not cached. */
  function IndexOf(cache: Cache, k: Key): (i: int)
    ensures -1 <= i < |cache|
    ensures i >= 0 ==> cache[i].owner == Some(k)
    ensures i < 0 ==> forall j :: 0 <= j < |cache| ==> cache[j].owner != Some(k)
  {
    if cache == [] then -1
    else if cache[|cache| - 1].owner == Some(k) then |cache| - 1
    else IndexOf(cache[..|cache| - 1], k)
  }

  /** The current contents of a chunk: the cached data, or else what is on flash. */
  function View(c: nat, flash: Flash, cache: Cache, k: Key): Bytes {
    var i := IndexOf(cache, k);
    if i >= 0 then cache[i].data else OnFlash(c, flash, k)
  }

  /** Every chunk is cached at most once, and a clean entry holds what is on flash. */
  ghost predicate CacheOk(c: nat, flash: Flash, cache: Cache) {
    && (forall k :: k in flash ==> |flash[k]| == c && Small(k))
    && (forall i :: 0 <= i < |cache| ==> |cache[i].data| == c)
    && (forall i, j :: 0 <= i < j < |cache| && cache[i].owner.Some? ==> cache[i].owner != cache[j].owner)
    && (forall i :: 0 <= i < |cache| && cache[i].owner.Some? && !cache[i].dirty && Small(cache[i].owner.value) ==>
          cache[i].data == OnFlash(c, flash, cache[i].owner.value))
  }

  /** No chunk changed; what is on flash now was there before, or was in the cache. */
  ghost predicate Settled(c: nat, flash: Flash, cache: Cache, flash': Flash, cache': Cache) {
    forall k :: Small(k) ==>
      && View(c, flash', cache', k) == View(c, flash, cache, k)
      && (OnFlash(c, flash', k) == OnFlash(c, flash, k) || OnFlash(c, flash', k) == View(c, flash, cache, k))
  }

  /** Only chunk `k` changed; it now holds `d`. */
  ghost predicate Wrote(c: nat, flash: Flash, cache: Cache, flash': Flash, cache': Cache, k: Key, d: Bytes) {
    forall j :: Small(j) ==>
      && View(c, flash', cache', j) == (if j == k then d else View(c, flash, cache, j))
      && (OnFlash(c, flash', j) == OnFlash(c, flash, j) || OnFlash(c, flash', j) == View(c, flash, cache, j)
          || (j == k && OnFlash(c, flash', j) == d))
  }

  lemma WroteAt(c: nat, flash: Flash, cache: Cache, flash': Flash, cache': Cache, k: Key, d: Bytes, j: Key)
    requires Wrote(c, flash, cache, flash', cache', k, d) && Small(j)
    ensures View(c, flash', cache', j) == if j == k then d else View(c, flash, cache, j)
    ensures OnFlash(c, flash', j) == OnFlash(c, flash, j) || OnFlash(c, flash', j) == View(c, flash, cache, j)
            || (j == k && OnFlash(c, flash', j) == d)
  {
    assert View(c, flash', cache', j) == if j == k then d else View(c, flash, cache, j);
  }

  lemma SettledThen(c: nat, f0: Flash, c0: Cache, f1: Flash, c1: Cache, f2: Flash, c2: Cache)
    requires Settled(c, f0, c0, f1, c1) && Settled(c, f1, c1, f2, c2)
    ensures Settled(c, f0, c0, f2, c2)
  {
    forall k | Small(k)
             ensures View(c, f2, c2, k) == View(c, f0, c0, k) &&
                     (OnFlash(c, f2, k) == OnFlash(c, f0, k) || OnFlash(c, f2, k) == View(c, f0, c0, k))
    {
      assert View(c, f1, c1, k) == View(c, f0, c0, k);
      assert View(c, f2, c2, k) == View(c, f1, c1, k);
    }
  }

  lemma SettledThenWrote(c: nat, f0: Flash, c0: Cache, f1: Flash, c1: Cache, f2: Flash, c2: Cache, k: Key, d: Bytes)
    requires Settled(c, f0, c0, f1, c1) && Wrote(c, f1, c1, f2, c2, k, d)
    ensures Wrote(c, f0, c0, f2, c2, k, d)
  {
    forall j | Small(j)
             ensures && View(c, f2, c2, j) == (if j == k then d else View(c, f0, c0, j))
                     && (OnFlash(c, f2, j) == OnFlash(c, f0, j) || OnFlash(c, f2, j) == View(c, f0, c0, j)
                         || (j == k && OnFlash(c, f2, j) == d))
    {
      assert View(c, f1, c1, j) == View(c, f0, c0, j);
    }
  }

  lemma WroteThenSettled(c: nat, f0: Flash, c0: Cache, f1: Flash, c1: Cache, f2: Flash, c2: Cache, k: Key, d: Bytes)
    requires Wrote(c, f0, c0, f1, c1, k, d) && Settled(c, f1, c1, f2, c2)
    ensures Wrote(c, f0, c0, f2, c2, k, d)
  {
    forall j | Small(j)
             ensures && View(c, f2, c2, j) == (if j == k then d else View(c, f0, c0, j))
                     && (OnFlash(c, f2, j) == OnFlash(c, f0, j) || OnFlash(c, f2, j) == View(c, f0, c0, j)
                         || (j == k && OnFlash(c, f2, j) == d))
    {
      assert View(c, f2, c2, j) == View(c, f1, c1, j);
    }
  }

  lemma ViewIs(c: nat, flash: Flash, cache: Cache, i: nat)
    requires CacheOk(c, flash, cache) && i < |cache| && cache[i].owner.Some?
    ensures IndexOf(cache, cache[i].owner.value) == i && View(c, flash, cache, cache[i].owner.value) == cache[i].data
  {
  }

  lemma NoOther(c: nat, flash: Flash, cache: Cache, i: nat)
    requires CacheOk(c, flash, cache) && i < |cache| && cache[i].owner.Some?
    ensures forall j :: 0 <= j < |cache| && j != i ==> cache[j].owner != cache[i].owner
  {
  }

  lemma EntryLength(c: nat, flash: Flash, cache: Cache, i: nat)
    requires CacheOk(c, flash, cache) && i < |cache|
    ensures |cache[i].data| == c
  {
  }

  lemma LargeIsZero(c: nat, flash: Flash, cache: Cache, k: Key)
    requires CacheOk(c, flash, cache) && !Small(k)
    ensures OnFlash(c, flash, k) == Fill(c, 0)
  {
  }

  /** Writing a chunk that flash cannot hold is like writing nothing. */
  lemma WroteNothing(c: nat, flash: Flash, cache: Cache, flash': Flash, cache': Cache, k: Key, d: Bytes, d': Bytes)
    requires Wrote(c, flash, cache, flash', cache', k, d) && !Small(k)
    ensures Wrote(c, flash, cache, flash', cache', k, d') && Settled(c, flash, cache, flash', cache')
  {
    forall j | Small(j)
      ensures View(c, flash', cache', j) == View(c, flash, cache, j)
      ensures OnFlash(c, flash', j) == OnFlash(c, flash, j) || OnFlash(c, flash', j) == View(c, flash, cache, j)
    {
      WroteAt(c, flash, cache, flash', cache', k, d, j);
    }
  }

  lemma ViewLength(c: nat, flash: Flash, cache: Cache, k: Key)
    requires CacheOk(c, flash, cache)
    ensures |View(c, flash, cache, k)| == c && |OnFlash(c, flash, k)| == c
  {
  }

  // ---------- What the cache operations do ----------

  lemma WriteOutOk(c: nat, flash: Flash, cache: Cache, i: nat, e: Entry)
    requires CacheOk(c, flash, cache) && i < |cache| && cache[i].owner.Some?
    requires !e.dirty && e.data == cache[i].data && (e.owner.None? || e.owner == cache[i].owner)
    ensures CacheOk(c, Put(flash, cache[i].owner.value, cache[i].data), cache[i := e])
  {
  }

  /** Entry `i` is written out; it is freed, or stays as a clean entry. */
  lemma WriteOut(c: nat, flash: Flash, cache: Cache, i: nat, e: Entry)
    requires CacheOk(c, flash, cache) && i < |cache| && cache[i].owner.Some?
    requires !e.dirty && e.data == cache[i].data && (e.owner.None? || e.owner == cache[i].owner)
    ensures var flash', cache' := Put(flash, cache[i].owner.value, cache[i].data), cache[i := e];
            CacheOk(c, flash', cache') && Settled(c, flash, cache, flash', cache')
  {
    hide CacheOk;
    var key := cache[i].owner.value;
    var flash', cache' := Put(flash, key, cache[i].data), cache[i := e];
    WriteOutOk(c, flash, cache, i, e);
    ViewIs(c, flash, cache, i);
    NoOther(c, flash, cache, i);
    forall k | Small(k) ensures View(c, flash', cache', k) == View(c, flash, cache, k) {
      var j := IndexOf(cache, k);
      if j >= 0 && (j != i || e.owner.Some?) { ViewIs(c, flash', cache', j); }
    }
  }

  /** A free or clean entry is taken over for chunk `k`, which is read from flash. */
  lemma LoadEntry(c: nat, flash: Flash, cache: Cache, i: nat, k: Key, e: Entry)
    requires CacheOk(c, flash, cache) && i < |cache| && IndexOf(cache, k) < 0
    requires cache[i].owner.Some? ==> !cache[i].dirty
    requires e.owner == Some(k) && !e.dirty && e.data == OnFlash(c, flash, k)
    ensures CacheOk(c, flash, cache[i := e]) && Settled(c, flash, cache, flash, cache[i := e])
    ensures IndexOf(cache[i := e], k) == i
  {
    var cache' := cache[i := e];
    ViewLength(c, flash, cache, k);
    ViewIs(c, flash, cache', i);
    forall j | Small(j) ensures View(c, flash, cache', j) == View(c, flash, cache, j) {
      var m := IndexOf(cache, j);
      if m >= 0 && m != i { ViewIs(c, flash, cache', m); }
    }
  }

  /** Cached data is changed; the entry becomes dirty. */
  lemma StoreEntry(c: nat, flash: Flash, cache: Cache, i: nat, e: Entry)
    requires CacheOk(c, flash, cache) && i < |cache| && cache[i].owner.Some?
    requires e.owner == cache[i].owner && e.dirty && |e.data| == c
    ensures CacheOk(c, flash, cache[i := e])
    ensures Wrote(c, flash, cache, flash, cache[i := e], e.owner.value, e.data)
  {
    var cache' := cache[i := e];
    ViewIs(c, flash, cache', i);
    forall j ensures View(c, flash, cache', j) == if j == e.owner.value then e.data else View(c, flash, cache, j) {
      var m := IndexOf(cache, j);
      if m >= 0 && m != i { ViewIs(c, flash, cache', m); }
    }
  }

  /** The entry of chunk `k`, if there is one, is freed without being written out. */
  function Invalidated(cache: Cache, k: Key): Cache {
    var i := IndexOf(cache, k);
    if i >= 0 then cache[i := cache[i].(owner := None)] else cache
  }

  lemma InvalidatedView(c: nat, flash: Flash, cache: Cache, k: Key, j: Key)
    requires CacheOk(c, flash, cache)
    ensures IndexOf(Invalidated(cache, k), j) == if j == k then -1 else IndexOf(cache, j)
    ensures View(c, flash, Invalidated(cache, k), j) == if j == k then OnFlash(c, flash, j)
            else View(c, flash, cache, j)
  {
    var i, cache' := IndexOf(cache, k), Invalidated(cache, k);
    var m := IndexOf(cache, j);
    var m' := IndexOf(cache', j);
    if m >= 0 && j != k { assert cache'[m] == cache[m]; }
    if m' >= 0 { assert cache'[m'] == cache[m']; }
  }

  /** A whole chunk is written past the cache, and its entry invalidated. */
  lemma WritePast(c: nat, flash: Flash, cache: Cache, k: Key, d: Bytes)
    requires CacheOk(c, flash, cache) && |d| == c
    ensures CacheOk(c, Put(flash, k, d), Invalidated(cache, k))
    ensures Wrote(c, flash, cache, Put(flash, k, d), Invalidated(cache, k), k, d)
  {
    WritePastOk(c, flash, cache, k, d);
    hide CacheOk, View, Invalidated;
    forall j | Small(j)
      ensures View(c, Put(flash, k, d), Invalidated(cache, k), j) == if j == k then d else View(c, flash, cache, j)
    {
      InvalidatedView(c, flash, cache, k, j);
    }
    InvalidatedView(c, flash, cache, k, k);
  }

  lemma WritePastOk(c: nat, flash: Flash, cache: Cache, k: Key, d: Bytes)
    requires CacheOk(c, flash, cache) && |d| == c
    ensures CacheOk(c, Put(flash, k, d), Invalidated(cache, k))
  {
    hide IndexOf;
  }

  /** When that write fails the entry is invalidated all the same: then nothing changed exactly if the chunk
      held what is on flash, as it does when it was not cached or its entry was clean. */
  lemma FailedWritePast(c: nat, flash: Flash, cache: Cache, k: Key)
    requires CacheOk(c, flash, cache)
    ensures CacheOk(c, flash, Invalidated(cache, k))
    ensures Wrote(c, flash, cache, flash, Invalidated(cache, k), k, OnFlash(c, flash, k))
    ensures Settled(c, flash, cache, flash, Invalidated(cache, k)) <==>
              !Small(k) || View(c, flash, cache, k) == OnFlash(c, flash, k)
    ensures Small(k) && (IndexOf(cache, k) < 0 || !cache[IndexOf(cache, k)].dirty) ==>
              View(c, flash, cache, k) == OnFlash(c, flash, k)
  {
    hide CacheOk, OnFlash, View, Invalidated;
    InvalidatedOk(c, flash, cache, k);
    forall j | Small(j)
      ensures View(c, flash, Invalidated(cache, k), j) == if j == k then OnFlash(c, flash, k)
              else View(c, flash, cache, j)
    {
      InvalidatedView(c, flash, cache, k, j);
    }
    InvalidatedView(c, flash, cache, k, k);
    if Small(k) { CleanView(c, flash, cache, k); }
  }

  lemma InvalidatedOk(c: nat, flash: Flash, cache: Cache, k: Key)
    requires CacheOk(c, flash, cache)
    ensures CacheOk(c, flash, Invalidated(cache, k))
  {
  }

  lemma CleanView(c: nat, flash: Flash, cache: Cache, k: Key)
    requires CacheOk(c, flash, cache) && Small(k)
    ensures IndexOf(cache, k) < 0 || !cache[IndexOf(cache, k)].dirty ==>
            View(c, flash, cache, k) == OnFlash(c, flash, k)
  {
  }

  /** A dirty chunk does get lost that way. */
  lemma FailedWriteLoses()
    ensures var k := Key(7, 1);
            var cache := [Entry(Some(k), true, 1, 0, [0x41])];
            View(1, map[], cache, k) == [0x41] && View(1, map[], Invalidated(cache, k), k) == [0]
  {
    var k := Key(7, 1);
    var cache := [Entry(Some(k), true, 1, 0, [0x41])];
    assert IndexOf(cache, k) == 0;
    assert Invalidated(cache, k)[0].owner == None;
    assert Fill(1, 0) == [0];
  }

  // ---------- Files as byte sequences ----------

  function ByteOf(v: Bytes, i: nat): Byte { if i < |v| then v[i] else 0 }

  /** A position that flash can hold. */
  predicate InReach(c: nat, pos: nat)
    requires c > 0
  {
    Quo(c, pos) < MAX_CHUNK_ID
  }

  lemma ReachIs(c: nat, pos: nat)
    requires c > 0
    ensures InReach(c, pos) <==> pos < MAX_CHUNK_ID * c
  {
    Split(c, pos);
    assert (Quo(c, pos) - MAX_CHUNK_ID) * c == Quo(c, pos) * c - MAX_CHUNK_ID * c;
    MultipleSign(c, Quo(c, pos) - MAX_CHUNK_ID);
  }

  /** The byte at position `pos` of file `o`; what flash cannot hold counts as zero. */
  function Content(c: nat, flash: Flash, cache: Cache, o: nat, pos: nat): Byte
    requires c > 0
  {
    if InReach(c, pos) then ByteOf(View(c, flash, cache, Key(o, Quo(c, pos) + 1)), Rem(c, pos)) else 0
  }

  function FlashContent(c: nat, flash: Flash, o: nat, pos: nat): Byte
    requires c > 0
  {
    if InReach(c, pos) then ByteOf(OnFlash(c, flash, Key(o, Quo(c, pos) + 1)), Rem(c, pos)) else 0
  }

  /** All bytes of file `o` from `size` on are zero. */
  ghost predicate ZeroFrom(c: nat, flash: Flash, cache: Cache, o: nat, size: nat)
    requires c > 0
  {
    forall pos: nat :: pos >= size ==> Content(c, flash, cache, o, pos) == 0 && FlashContent(c, flash, o, pos) == 0
  }

  ghost predicate SameContent(c: nat, flash: Flash, cache: Cache, flash': Flash, cache': Cache)
    requires c > 0
  {
    forall o: nat, pos: nat :: Content(c, flash', cache', o, pos) == Content(c, flash, cache, o, pos)
  }

  /** Bytes `d` were written to file `o` from `off` on; nothing else changed. */
  ghost predicate Patched(c: nat, flash: Flash, cache: Cache, flash': Flash, cache': Cache, o: nat, off: nat, d: Bytes)
    requires c > 0
  {
    forall j: nat, pos: nat :: Content(c, flash', cache', j, pos) ==
      if j == o && off <= pos < off + |d| then d[pos - off] else Content(c, flash, cache, j, pos)
  }

  /** The same, as far as the end of `d` in file `o`; beyond it the file may have changed. */
  ghost predicate PatchedBelow(c: nat, flash: Flash, cache: Cache, flash': Flash, cache': Cache, o: nat, off: nat,
                               d: Bytes)
    requires c > 0
  {
    forall j: nat, pos: nat :: j != o || pos < off + |d| ==>
      Content(c, flash', cache', j, pos) ==
      if j == o && off <= pos < off + |d| then d[pos - off] else Content(c, flash, cache, j, pos)
  }

  lemma SettledContent(c: nat, flash: Flash, cache: Cache, flash': Flash, cache': Cache)
    requires c > 0 && Settled(c, flash, cache, flash', cache')
    ensures SameContent(c, flash, cache, flash', cache')
    ensures forall o: nat, size: nat :: ZeroFrom(c, flash, cache, o, size) ==> ZeroFrom(c, flash', cache', o, size)
  {
    forall o: nat, pos: nat ensures Content(c, flash', cache', o, pos) == Content(c, flash, cache, o, pos) {
      if InReach(c, pos) {
        assert View(c, flash', cache', Key(o, Quo(c, pos) + 1)) == View(c, flash, cache, Key(o, Quo(c, pos) + 1));
      }
    }
    forall o: nat, size: nat | ZeroFrom(c, flash, cache, o, size) ensures ZeroFrom(c, flash', cache', o, size) {
      forall pos: nat | pos >= size ensures FlashContent(c, flash', o, pos) == 0 {
        var k := Key(o, Quo(c, pos) + 1);
        if Small(k) { assert View(c, flash', cache', k) == View(c, flash, cache, k); }
        assert Content(c, flash, cache, o, pos) == 0 && FlashContent(c, flash, o, pos) == 0;
      }
    }
  }

  /** No byte of a file other than `o` changed. */
  ghost predicate OthersSame(c: nat, flash: Flash, cache: Cache, flash': Flash, cache': Cache, o: nat)
    requires c > 0
  {
    forall j: nat, pos: nat :: j != o ==> Content(c, flash', cache', j, pos) == Content(c, flash, cache, j, pos)
  }

  lemma OthersUnchanged(c: nat, flash: Flash, cache: Cache, o: nat)
    requires c > 0
    ensures OthersSame(c, flash, cache, flash, cache, o)
  {
  }

  lemma OthersOf(c: nat, f0: Flash, c0: Cache, f1: Flash, c1: Cache, o: nat)
    requires c > 0 && SameContent(c, f0, c0, f1, c1)
    ensures OthersSame(c, f0, c0, f1, c1, o)
  {
    hide Content;
  }

  lemma OthersThen(c: nat, f0: Flash, c0: Cache, f1: Flash, c1: Cache, f2: Flash, c2: Cache, o: nat)
    requires c > 0 && OthersSame(c, f0, c0, f1, c1, o) && OthersSame(c, f1, c1, f2, c2, o)
    ensures OthersSame(c, f0, c0, f2, c2, o)
  {
    hide Content;
    forall j: nat, pos: nat | j != o ensures Content(c, f2, c2, j, pos) == Content(c, f0, c0, j, pos) {
      assert Content(c, f1, c1, j, pos) == Content(c, f0, c0, j, pos);
    }
  }

  /** A part of a request changes no other file, wherever it lands. */
  lemma PartElsewhere(c: nat, f1: Flash, c1: Cache, f2: Flash, c2: Cache, o: nat, off: nat, d: Bytes, ok: bool,
                      lost: bool)
    requires c > 0 && PartResult(c, f1, c1, f2, c2, o, off, d, ok, lost)
    ensures OthersSame(c, f1, c1, f2, c2, o)
  {
    hide Wrote, Settled, View, OnFlash, Splice, Quo, Rem, InReach;
    var k := Key(o, Quo(c, off) + 1);
    if !ok && !lost {
      SettledContent(c, f1, c1, f2, c2);
      OthersOf(c, f1, c1, f2, c2, o);
    } else {
      var v := if ok then Splice(View(c, f1, c1, k), Rem(c, off), d) else OnFlash(c, f1, k);
      forall j: nat, pos: nat | j != o ensures Content(c, f2, c2, j, pos) == Content(c, f1, c1, j, pos) {
        if InReach(c, pos) {
          ReachSmall(c, j, pos);
          WroteAt(c, f1, c1, f2, c2, k, v, Key(j, Quo(c, pos) + 1));
        }
      }
    }
  }

  lemma ReachSmall(c: nat, o: nat, pos: nat)
    requires c > 0 && InReach(c, pos)
    ensures Small(Key(o, Quo(c, pos) + 1))
  {
  }

  lemma PartIsLost(c: nat, f1: Flash, c1: Cache, f2: Flash, c2: Cache, o: nat, off: nat, d: Bytes, ok: bool, lost: bool)
    requires c > 0 && PartResult(c, f1, c1, f2, c2, o, off, d, ok, lost)
    ensures lost ==> !ok
  {
  }

  /** Splicing `d` into the chunk of position `off` patches the file there. */
  lemma WrotePatches(c: nat, flash: Flash, cache: Cache, flash': Flash, cache': Cache, o: nat, off: nat, d: Bytes)
    requires c > 0 && Rem(c, off) + |d| <= c && CacheOk(c, flash, cache) && InReach(c, off)
    requires |View(c, flash, cache, Key(o, Quo(c, off) + 1))| == c
    requires Wrote(c, flash, cache, flash', cache', Key(o, Quo(c, off) + 1),
                   Splice(View(c, flash, cache, Key(o, Quo(c, off) + 1)), Rem(c, off), d))
    ensures Patched(c, flash, cache, flash', cache', o, off, d)
  {
    hide View, OnFlash, CacheOk, Splice, Wrote, Quo, Rem;
    var k := Key(o, Quo(c, off) + 1);
    var d' := Splice(View(c, flash, cache, k), Rem(c, off), d);
    forall j: nat, pos: nat
      ensures Content(c, flash', cache', j, pos) ==
              if j == o && off <= pos < off + |d| then d[pos - off] else Content(c, flash, cache, j, pos)
    {
      InPart(c, off, |d|, pos);
      if InReach(c, pos) { WroteAt(c, flash, cache, flash', cache', k, d', Key(j, Quo(c, pos) + 1)); }
    }
  }

  lemma FlashIsOneOf(c: nat, flash: Flash, cache: Cache, flash': Flash, cache': Cache, k: Key, d: Bytes, o: nat,
                     pos: nat)
    requires c > 0 && Wrote(c, flash, cache, flash', cache', k, d)
    ensures var b := FlashContent(c, flash', o, pos);
            b == FlashContent(c, flash, o, pos) || b == Content(c, flash, cache, o, pos)
              || b == Content(c, flash', cache', o, pos)
  {
    hide Wrote, View, OnFlash;
    if InReach(c, pos) { WroteAt(c, flash, cache, flash', cache', k, d, Key(o, Quo(c, pos) + 1)); }
  }

  lemma WroteZeroFrom(c: nat, flash: Flash, cache: Cache, flash': Flash, cache': Cache, o: nat, off: nat, d: Bytes,
                      j: nat, size: nat)
    requires c > 0 && Rem(c, off) + |d| <= c && CacheOk(c, flash, cache) && InReach(c, off)
    requires |View(c, flash, cache, Key(o, Quo(c, off) + 1))| == c
    requires Wrote(c, flash, cache, flash', cache', Key(o, Quo(c, off) + 1),
                   Splice(View(c, flash, cache, Key(o, Quo(c, off) + 1)), Rem(c, off), d))
    requires ZeroFrom(c, flash, cache, j, size) && (j == o ==> off + |d| <= size)
    ensures ZeroFrom(c, flash', cache', j, size)
  {
    hide Wrote, Splice, Content, FlashContent, CacheOk;
    WrotePatches(c, flash, cache, flash', cache', o, off, d);
    var k := Key(o, Quo(c, off) + 1);
    var d' := Splice(View(c, flash, cache, k), Rem(c, off), d);
    forall pos: nat | pos >= size
      ensures FlashContent(c, flash', j, pos) == 0
              && Content(c, flash', cache', j, pos) == 0
    {
      assert Content(c, flash, cache, j, pos) == 0 && FlashContent(c, flash, j, pos) == 0;
      FlashIsOneOf(c, flash, cache, flash', cache', k, d', j, pos);
    }
  }

  // ---------- The file layer ----------

  predicate DirtyOf(e: Entry, o: nat) { e.owner.Some? && e.owner.value.obj == o && e.dirty }

  function SizeOf(sizes: map<nat, nat>, o: nat): nat { if o in sizes then sizes[o] else 0 }

  /** `cache'` is `cache` with some entries freed that were dirty entries of file `o`. */
  ghost predicate Freed(cache: Cache, cache': Cache, o: nat) {
    |cache'| == |cache| && forall i :: 0 <= i < |cache| ==>
      cache'[i] == cache[i] || (DirtyOf(cache[i], o) && cache'[i].owner.None?)
  }

  /** Of file `o` no chunk is dirty in the cache that flash can hold. */
  ghost predicate NoneDirty(cache: Cache, o: nat) {
    forall i :: 0 <= i < |cache| && DirtyOf(cache[i], o) ==> !Small(cache[i].owner.value)
  }

  /** Chunk `k` is dirty in the cache. */
  ghost predicate DirtyIn(cache: Cache, k: Key) {
    exists i :: 0 <= i < |cache| && cache[i].owner == Some(k) && cache[i].dirty
  }

  /** Only chunks that were dirty are. */
  ghost predicate NoNewDirty(cache: Cache, cache': Cache) { forall k: Key :: DirtyIn(cache', k) ==> DirtyIn(cache, k) }

  lemma NoneNewlyDirty(cache: Cache)
    ensures NoNewDirty(cache, cache)
  {
  }

  lemma NoNewThen(c0: Cache, c1: Cache, c2: Cache)
    requires NoNewDirty(c0, c1) && NoNewDirty(c1, c2)
    ensures NoNewDirty(c0, c2)
  {
  }

  /** Each entry is as it was, or has become clean or free, or has only been used. */
  lemma CleanerEntries(cache: Cache, cache': Cache)
    requires |cache'| == |cache|
    requires forall i :: 0 <= i < |cache| && cache'[i].dirty && cache'[i].owner.Some? ==>
               cache[i].dirty && cache[i].owner == cache'[i].owner
    ensures NoNewDirty(cache, cache')
  {
    forall k: Key | DirtyIn(cache', k) ensures DirtyIn(cache, k) {
      var i :| 0 <= i < |cache'| && cache'[i].owner == Some(k) && cache'[i].dirty;
      assert cache[i].owner == Some(k) && cache[i].dirty;
    }
  }

  ghost function DirtySet(cache: Cache, o: nat): set<nat> { set i | 0 <= i < |cache| && DirtyOf(cache[i], o) }

  /** The first `size` bytes of file `o`. */
  function FileBytes(c: nat, flash: Flash, cache: Cache, o: nat, size: nat): (s: Bytes)
    requires c > 0
    ensures |s| == size
  {
    seq(size, pos requires 0 <= pos => Content(c, flash, cache, o, pos))
  }

  class FileSys {
    const c: nat           // data bytes per chunk
    const w: nat           // how many values a position or a size can have
    const mayFail: bool    // whether a write that may not use the reserve can find no space

    var flash: Flash
    var cache: Cache
    var sizes: map<nat, nat>
    var lastUse: int

    ghost predicate Sound()
      reads this
    {
      0 < c < A.TWO32 && A.IsWidth(w) && CacheOk(c, flash, cache)
    }

    ghost predicate Valid()
      reads this
    {
      Sound() && forall o: nat :: ZeroFrom(c, flash, cache, o, SizeOf(sizes, o))
    }

    /** The bytes of file `o`. */
    ghost function Bytes(o: nat): Bytes
      requires c > 0
      reads this
    {
      FileBytes(c, flash, cache, o, SizeOf(sizes, o))
    }

    /** A chunk is programmed; this may fail for lack of space, unless the reserve may be used.  A chunk beyond the
        largest id is dropped, which callers do not take for a failure. */
    method WrDataObj(k: Key, d: Bytes, useReserve: bool) returns (r: int, full: bool)
      modifies this`flash
      ensures flash == if r > 0 then Put(old(flash), k, d) else old(flash)
      ensures (r == 0 <==> !Small(k)) && (r < 0 <==> Small(k) && full && !useReserve) && (full ==> mayFail)
    {
      full := *;
      full := full && mayFail;
      if !Small(k) { return 0, full; }
      r := if useReserve || !full then 1 else -1;
      if r > 0 { flash := flash[k := d]; }
    }

    /** The dirty entry of file `o` with the lowest chunk id, -1 when there is none. */
    method LowestDirty(o: nat) returns (r: int)
      ensures -1 <= r < |cache|
      ensures r == -1 ==> forall j :: 0 <= j < |cache| ==> !DirtyOf(cache[j], o)
      ensures r >= 0 ==> DirtyOf(cache[r], o)
      ensures r >= 0 ==> forall j :: 0 <= j < |cache| && DirtyOf(cache[j], o) ==>
              cache[r].owner.value.id <= cache[j].owner.value.id
    {
      r := -1;
      for i := 0 to |cache|
        invariant -1 <= r < i
        invariant r == -1 ==> forall j :: 0 <= j < i ==> !DirtyOf(cache[j], o)
        invariant r >= 0 ==> DirtyOf(cache[r], o)
        invariant r >= 0 ==> forall j :: 0 <= j < i && DirtyOf(cache[j], o) ==>
                  cache[r].owner.value.id <= cache[j].owner.value.id
      {
        if DirtyOf(cache[i], o) && (r == -1 || cache[i].owner.value.id < cache[r].owner.value.id) { r := i; }
      }
    }

    /** Writes out and frees the dirty entries of a file, lowest chunk first, as far as flash can hold them; of the
        others one is freed. */
    method FlushFileCache(o: nat)
      requires CacheOk(c, flash, cache)
      modifies this`flash, this`cache
      ensures CacheOk(c, flash, cache) && Settled(c, old(flash), old(cache), flash, cache)
      ensures Freed(old(cache), cache, o) && NoneDirty(cache, o)
      ensures (exists i :: 0 <= i < |cache| && DirtyOf(old(cache)[i], o)) ==>
                exists i :: 0 <= i < |cache| && cache[i].owner.None?
      ensures NoNewDirty(old(cache), cache)
    {
      hide CacheOk, Settled, NoNewDirty;
      SettledSame(c, flash, cache);
      NoneNewlyDirty(cache);
      var r := 1;
      while r > 0
        invariant CacheOk(c, flash, cache) && Settled(c, old(flash), old(cache), flash, cache) && r >= 0
        invariant NoNewDirty(old(cache), cache)
        invariant Freed(old(cache), cache, o) && (r <= 0 ==> NoneDirty(cache, o))
        invariant (r > 0 && cache == old(cache)) || exists i :: 0 <= i < |cache| && cache[i].owner.None?
        decreases DirtySet(cache, o)
      {
        var i := LowestDirty(o);
        if i < 0 { return; }
        var e := cache[i];
        ghost var f1, c1 := flash, cache;
        WriteOut(c, flash, cache, i, e.(dirty := false, owner := None));
        var full;
        r, full := WrDataObj(e.owner.value, e.data, true);
        cache := cache[i := e.(dirty := false, owner := None)];
        SettledThen(c, old(flash), old(cache), f1, c1, flash, cache);
        CleanerEntries(c1, cache);
        NoNewThen(old(cache), c1, cache);
        assert i in DirtySet(c1, o) && DirtySet(cache, o) == DirtySet(c1, o) - {i};
        assert cache[i].owner.None?;
      }
    }

    /** The first free entry, -1 when there is none. */
    method FreeEntry() returns (r: int)
      ensures -1 <= r < |cache| && (r >= 0 ==> cache[r].owner.None?)
      ensures r < 0 ==> forall i :: 0 <= i < |cache| ==> cache[i].owner.Some?
    {
      r := -1;
      for i := 0 to |cache|
        invariant forall j :: 0 <= j < i ==> cache[j].owner.Some?
      {
        if cache[i].owner.None? { return i; }
      }
    }

    /** The least recently used entry. */
    method LeastRecentlyUsed() returns (r: nat)
      requires |cache| > 0 && forall i :: 0 <= i < |cache| ==> cache[i].owner.Some?
      ensures r < |cache| && forall i :: 0 <= i < |cache| ==> cache[r].lastUse <= cache[i].lastUse
    {
      r := 0;
      for i := 0 to |cache|
        invariant r < |cache| && forall j :: 0 <= j < i ==> cache[r].lastUse <= cache[j].lastUse
      {
        if cache[i].lastUse < cache[r].lastUse { r := i; }
      }
    }

    /** An entry that may be taken over: a free one, the least recently used one if it is clean, or one freed by
        writing out the file to which the least recently used one belongs. */
    method GrabChunkCache() returns (r: nat)
      requires CacheOk(c, flash, cache) && |cache| > 0
      modifies this`flash, this`cache
      ensures CacheOk(c, flash, cache) && Settled(c, old(flash), old(cache), flash, cache)
      ensures r < |cache| == |old(cache)| && (cache[r].owner.Some? ==> !cache[r].dirty)
      ensures forall k :: IndexOf(old(cache), k) < 0 ==> IndexOf(cache, k) < 0
      ensures NoNewDirty(old(cache), cache)
    {
      hide CacheOk, Settled, NoNewDirty;
      SettledSame(c, flash, cache);
      NoneNewlyDirty(cache);
      var i := FreeEntry();
      if i < 0 {
        i := LeastRecentlyUsed();
        if cache[i].dirty {
          assert DirtyOf(cache[i], cache[i].owner.value.obj);
          FlushFileCache(cache[i].owner.value.obj);
          i := FreeEntry();
        }
      }
      r := i;
      forall k | IndexOf(cache, k) >= 0 ensures IndexOf(old(cache), k) >= 0 {
        assert old(cache)[IndexOf(cache, k)].owner == Some(k);
      }
    }

    /** Marks entry `i` as the most recently used one. */
    method UseCache(i: nat, isWrite: bool)
      requires i < |cache|
      modifies this`cache, this`lastUse
      ensures |cache| == |old(cache)|
      ensures forall j :: 0 <= j < |cache| ==>
              cache[j] ==
              old(cache)[j].(lastUse := cache[j].lastUse, dirty := cache[j].dirty)
      ensures forall j :: 0 <= j < |cache| ==> cache[j].dirty == (old(cache)[j].dirty || (j == i && isWrite))
      ensures var reset := old(lastUse) < 0 || old(lastUse) > 100000000;
              && lastUse == (if reset then 1 else old(lastUse) + 1)
              && forall j :: 0 <= j < |cache| ==>
                   cache[j].lastUse == if j == i then lastUse else if reset && j > 0 then 0 else old(cache)[j].lastUse
    {
      if lastUse < 0 || lastUse > 100000000 {
        for j := 1 to |cache|
          invariant |cache| == |old(cache)| && lastUse == old(lastUse)
          invariant forall m :: 0 <= m < |cache| ==>
                    cache[m] == old(cache)[m].(lastUse := if 0 < m < j then 0 else old(cache)[m].lastUse)
        {
          cache := cache[j := cache[j].(lastUse := 0)];
        }
        lastUse := 0;
      }
      lastUse := lastUse + 1;
      cache := cache[i := cache[i].(lastUse := lastUse, dirty := cache[i].dirty || isWrite)];
    }

    /** Sees to it that chunk `k` is cached. */
    method Load(k: Key) returns (i: nat)
      requires CacheOk(c, flash, cache) && |cache| > 0 && IndexOf(cache, k) < 0
      modifies this`flash, this`cache
      ensures CacheOk(c, flash, cache) && Settled(c, old(flash), old(cache), flash, cache)
      ensures i < |cache| == |old(cache)| && cache[i].owner == Some(k)
      ensures !Small(k) ==> cache[i].data == Fill(c, 0)
      ensures NoNewDirty(old(cache), cache)
      ensures !cache[i].dirty
    {
      hide CacheOk, Settled, NoNewDirty;
      i := GrabChunkCache();
      ghost var f1, c1 := flash, cache;
      if !Small(k) { LargeIsZero(c, flash, cache, k); }
      var e := Entry(Some(k), false, 0, cache[i].lastUse, OnFlash(c, flash, k));
      LoadEntry(c, flash, cache, i, k, e);
      cache := cache[i := e];
      CleanerEntries(c1, cache);
      NoNewThen(old(cache), c1, cache);
      SettledThen(c, old(flash), old(cache), f1, c1, flash, cache);
    }

    /** Reads part of one chunk, through the cache unless the whole chunk is wanted and not cached. */
    method RdPart(k: Key, start: nat, n: nat) returns (d: Bytes)
      requires CacheOk(c, flash, cache) && start + n <= c
      modifies this`flash, this`cache, this`lastUse
      ensures CacheOk(c, flash, cache) && Settled(c, old(flash), old(cache), flash, cache)
      ensures |d| == n && |View(c, old(flash), old(cache), k)| == c
      ensures Small(k) ==> d == View(c, old(flash), old(cache), k)[start..start + n]
      ensures !Small(k) && IndexOf(old(cache), k) < 0 ==> d == Fill(n, 0)
      ensures NoNewDirty(old(cache), cache)
      ensures if |cache| > 0 && (n != c || IndexOf(old(cache), k) >= 0)
              then exists i :: 0 <= i < |cache| && cache[i].owner == Some(k) && cache[i].lastUse == lastUse
              else cache == old(cache)
    {
      hide CacheOk, Settled, NoNewDirty;
      ViewLength(c, flash, cache, k);
      if !Small(k) { LargeIsZero(c, flash, cache, k); }
      SettledSame(c, flash, cache);
      NoneNewlyDirty(cache);
      var i := IndexOf(cache, k);
      if (i >= 0 || n != c) && |cache| > 0 {
        if i < 0 { i := Load(k); }
        ghost var f1, c1 := flash, cache;
        ViewIs(c, flash, cache, i);
        if Small(k) { SettledAt(c, old(flash), old(cache), flash, cache, k); }
        EntryLength(c, flash, cache, i);
        UseCache(i, false);
        Touched(c, flash, c1, cache);
        CleanerEntries(c1, cache);
        NoNewThen(old(cache), c1, cache);
        SettledThen(c, old(flash), old(cache), f1, c1, flash, cache);
        d := cache[i].data[start..start + n];
      } else {
        d := OnFlash(c, flash, k)[start..start + n];
      }
    }

    /** Writes part of a chunk into entry `i`, which holds the chunk, and through to flash if asked to. */
    method WrEntry(i: nat, start: nat, d: Bytes, nWriteback: nat, writeThrough: bool)
      requires CacheOk(c, flash, cache) && i < |cache| && cache[i].owner.Some? && start + |d| <= c
               && |cache[i].data| == c
      modifies this`flash, this`cache, this`lastUse
      ensures CacheOk(c, flash, cache) && |cache| == |old(cache)|
      ensures Wrote(c, old(flash), old(cache), flash, cache, old(cache[i]).owner.value,
                    Splice(old(cache[i]).data, start, d))
      ensures writeThrough ==> NoNewDirty(old(cache), cache)
      ensures old(cache[i]).owner == cache[i].owner && cache[i].lastUse == lastUse
      ensures cache[i].nBytes == nWriteback && (cache[i].dirty <==> !writeThrough)
    {
      hide CacheOk, Settled, Wrote, NoNewDirty;
      ghost var k, v := cache[i].owner.value, Splice(cache[i].data, start, d);
      UseCache(i, true);
      Touched(c, flash, old(cache), cache);
      var e := cache[i].(data := Splice(cache[i].data, start, d), nBytes := nWriteback);
      ghost var c1 := cache;
      StoreEntry(c, flash, cache, i, e);
      cache := cache[i := e];
      SettledThenWrote(c, flash, old(cache), flash, c1, flash, cache, k, v);
      if writeThrough {
        ghost var c2 := cache;
        WriteOut(c, flash, cache, i, e.(dirty := false));
        var _, _ := WrDataObj(cache[i].owner.value, cache[i].data, true);
        cache := cache[i := e.(dirty := false)];
        CleanerEntries(old(cache), cache);
        WroteThenSettled(c, old(flash), old(cache), old(flash), c2, flash, cache, k, v);
      }
    }

    /** Writes part of a chunk by way of the cache.  Without space for the chunk the write fails, unless the chunk
        is dirty in the cache already and so has space set aside for it. */
    method WrCached(k: Key, start: nat, d: Bytes, nWriteback: nat, writeThrough: bool)
      returns (ok: bool, available: bool)
      requires CacheOk(c, flash, cache) && |cache| > 0 && start + |d| <= c
      requires |View(c, flash, cache, k)| == c
      modifies this`flash, this`cache, this`lastUse
      ensures CacheOk(c, flash, cache) && |cache| == |old(cache)|
      ensures if ok then Wrote(c, old(flash), old(cache), flash, cache, k,
                               Splice(View(c, old(flash), old(cache), k), start, d))
              else Settled(c, old(flash), old(cache), flash, cache)
      ensures ok <==> available || (IndexOf(old(cache), k) >= 0 && old(cache)[IndexOf(old(cache), k)].dirty)
      ensures !mayFail ==> available
      ensures writeThrough ==> NoNewDirty(old(cache), cache)
    {
      hide CacheOk, Settled, Wrote, NoNewDirty;
      SettledSame(c, flash, cache);
      NoneNewlyDirty(cache);
      var full: bool := *;
      available := !mayFail || !full;
      var i := IndexOf(cache, k);
      if i < 0 && available {
        i := Load(k);
      } else if i >= 0 && !cache[i].dirty && !available {
        i := -1;
      }
      ok := i >= 0;
      if ok {
        ghost var f1, c1 := flash, cache;
        ViewIs(c, flash, cache, i);
        EntryLength(c, flash, cache, i);
        if Small(k) { SettledAt(c, old(flash), old(cache), flash, cache, k); }
        WrEntry(i, start, d, nWriteback, writeThrough);
        if writeThrough { NoNewThen(old(cache), c1, cache); }
        SettledThenWrote(c, old(flash), old(cache), f1, c1, flash, cache, k, Splice(c1[i].data, start, d));
        if !Small(k) {
          WroteNothing(c, old(flash), old(cache), flash, cache, k, Splice(c1[i].data, start, d),
                       Splice(View(c, old(flash), old(cache), k), start, d));
        }
      }
    }

    method InvalidateChunkCache(k: Key)
      modifies this`cache
      ensures cache == Invalidated(old(cache), k) && |cache| == |old(cache)|
      ensures NoNewDirty(old(cache), cache)
    {
      var i := IndexOf(cache, k);
      NoneNewlyDirty(cache);
      if i >= 0 { cache := cache[i := cache[i].(owner := None)]; }
      CleanerEntries(old(cache), cache);
    }

    /** Writes the part of a request that lies in one chunk.  `lost` says that a write of a whole chunk failed and
        took data with it that was in the cache only. */
    method WrPart(k: Key, start: nat, d: Bytes, nWriteback: nat, writeThrough: bool)
      returns (ok: bool, full: bool, ghost lost: bool)
      requires CacheOk(c, flash, cache) && start + |d| <= c && |View(c, flash, cache, k)| == c
      modifies this`flash, this`cache, this`lastUse
      ensures CacheOk(c, flash, cache) && |cache| == |old(cache)|
      ensures ok ==> Wrote(c, old(flash), old(cache), flash, cache, k,
                           Splice(View(c, old(flash), old(cache), k), start, d))
      ensures !ok && !lost ==> Settled(c, old(flash), old(cache), flash, cache)
      ensures lost ==> !ok && |d| == c && Wrote(c, old(flash), old(cache), flash, cache, k, OnFlash(c, old(flash), k))
      ensures lost ==> IndexOf(old(cache), k) >= 0 && old(cache)[IndexOf(old(cache), k)].dirty
      ensures full ==> mayFail
      ensures |d| == c || cache == [] ==> (ok <==> !full || !Small(k))
      ensures |d| != c && cache != [] ==>
                (ok <==> !full || (IndexOf(old(cache), k) >= 0 && old(cache)[IndexOf(old(cache), k)].dirty))
      ensures writeThrough ==> NoNewDirty(old(cache), cache)
    {
      hide CacheOk, Settled, Wrote, Splice, View, OnFlash, IndexOf, NoNewDirty;
      if |d| != c {
        lost := false;
        NoneNewlyDirty(cache);
        if |cache| > 0 {
          var available;
          ok, available := WrCached(k, start, d, nWriteback, writeThrough);
          full := !available;
        } else {
          ok, full := WrUncached(k, start, d);
        }
      } else {
        SpliceWhole(View(c, flash, cache, k), d);
        ok, full, lost := WrWhole(k, d);
      }
    }

    /** Without a cache, a chunk is read, patched and written back. */
    method WrUncached(k: Key, start: nat, d: Bytes) returns (ok: bool, full: bool)
      requires CacheOk(c, flash, cache) && cache == [] && start + |d| <= c
      requires |View(c, flash, cache, k)| == c
      modifies this`flash
      ensures CacheOk(c, flash, cache)
      ensures if ok then Wrote(c, old(flash), cache, flash, cache, k, Splice(View(c, old(flash), cache, k), start, d))
              else Settled(c, old(flash), cache, flash, cache)
      ensures (ok <==> !full || !Small(k)) && (full ==> mayFail)
    {
      hide CacheOk, Settled, Wrote, Splice;
      var buffer := Splice(OnFlash(c, flash, k), start, d);
      WritePast(c, flash, cache, k, buffer);
      SettledSame(c, flash, cache);
      var r;
      r, full := WrDataObj(k, buffer, false);
      ok := r >= 0;
    }

    /** A whole chunk goes past the cache; its entry is invalidated whether the write succeeded or not. */
    method WrWhole(k: Key, d: Bytes) returns (ok: bool, full: bool, ghost lost: bool)
      requires CacheOk(c, flash, cache) && |d| == c
      modifies this`flash, this`cache
      ensures CacheOk(c, flash, cache) && |cache| == |old(cache)|
      ensures ok ==> Wrote(c, old(flash), old(cache), flash, cache, k, d)
      ensures !ok && !lost ==> Settled(c, old(flash), old(cache), flash, cache)
      ensures lost ==> !ok && Wrote(c, old(flash), old(cache), flash, cache, k, OnFlash(c, old(flash), k))
      ensures lost ==> IndexOf(old(cache), k) >= 0 && old(cache)[IndexOf(old(cache), k)].dirty
      ensures (ok <==> !full || !Small(k)) && (full ==> mayFail)
      ensures NoNewDirty(old(cache), cache)
    {
      hide CacheOk, Settled, Wrote, View, OnFlash, IndexOf, Invalidated;
      WritePast(c, flash, cache, k, d);
      FailedWritePast(c, flash, cache, k);
      var r;
      r, full := WrDataObj(k, d, false);
      ok := r >= 0;
      InvalidateChunkCache(k);
      lost := !ok && View(c, old(flash), old(cache), k) != OnFlash(c, old(flash), k);
    }

    /** Writes the first part, as far as one chunk goes, of the `rest` of a request, at position `off`, or where this
        lands. */
    method WrFirstPart(o: nat, rest: Bytes, off: nat, writeThrough: bool)
      returns (ok: bool, nCopy: nat, ghost lost: bool)
      requires Sound() && rest != []
      modifies this`flash, this`cache, this`lastUse
      ensures Sound() && 0 < nCopy <= |rest| && Rem(c, A.Landing(c, w, off)) + nCopy <= c
      ensures PartResult(c, old(flash), old(cache), flash, cache, o, A.Landing(c, w, off), rest[..nCopy], ok, lost)
      ensures !mayFail ==> ok
      ensures writeThrough ==> NoNewDirty(old(cache), cache)
    {
      hide CacheOk, Wrote, Settled, View, OnFlash, Splice, Writeback, Quo, Rem, A.Landing, A.SplitPos, NoNewDirty;
      A.SplitLands(c, w, off);
      var (chunk, start) := A.SplitPos(c, w, off);
      nCopy := if start + |rest| < c then |rest| else c - start;
      var k := Key(o, A.ToWord(chunk) + 1);
      ViewLength(c, flash, cache, k);
      var full;
      ok, full, lost := WrPart(k, start, rest[..nCopy], Writeback(c, SizeOf(sizes, o), A.ToWord(chunk), start, |rest|),
                         writeThrough);
    }

    /** One turn of the writing loop, for the bytes from `m` on; `inside` says that all of the request is split
        right. */
    method WrStep(o: nat, data: Bytes, offset: nat, m: nat, writeThrough: bool, ghost f0: Flash, ghost c0: Cache,
                  ghost inside: bool)
      returns (ok: bool, nCopy: nat, ghost lost: bool)
      requires Sound() && m < |data| && OthersSame(c, f0, c0, flash, cache, o)
      requires inside ==> && offset + |data| <= A.Limit(c, w) && ZeroBeyond(c, flash, cache, sizes, o, offset + m)
                          && Patched(c, f0, c0, flash, cache, o, offset, Clip(c, offset, data[..m]))
      modifies this`flash, this`cache, this`lastUse
      ensures Sound() && 0 < nCopy <= |data| - m && (lost ==> !ok) && (!mayFail ==> ok)
      ensures OthersSame(c, f0, c0, flash, cache, o)
      ensures inside ==> ZeroBeyond(c, flash, cache, sizes, o, if ok then offset + m + nCopy else offset + m)
      ensures inside && !lost ==> Patched(c, f0, c0, flash, cache, o, offset,
                                          Clip(c, offset, data[..if ok then m + nCopy else m]))
      ensures inside && lost ==> PatchedBelow(c, f0, c0, flash, cache, o, offset, Clip(c, offset, data[..m]))
      ensures writeThrough ==> NoNewDirty(old(cache), cache)
    {
      hide CacheOk, ZeroBeyond, Patched, PartResult, PatchedBelow, OthersSame, A.Landing, A.Limit, NoNewDirty;
      ok, nCopy, lost := WrFirstPart(o, data[m..], offset + m, writeThrough);
      assert data[m..][..nCopy] == data[m..m + nCopy];
      PartIsLost(c, old(flash), old(cache), flash, cache, o, A.Landing(c, w, offset + m), data[m..m + nCopy], ok, lost);
      PartElsewhere(c, old(flash), old(cache), flash, cache, o, A.Landing(c, w, offset + m), data[m..m + nCopy], ok,
                    lost);
      OthersThen(c, f0, c0, old(flash), old(cache), flash, cache, o);
      if inside {
        A.SplitLands(c, w, offset + m);
        PartDone(c, f0, c0, old(flash), old(cache), flash, cache, sizes, o, offset, data, m, nCopy, ok, lost);
      }
    }

    /** The writing loop: writes a request chunk by chunk until it is done or a part fails. */
    method WrLoop(o: nat, data: Bytes, offset: nat, writeThrough: bool) returns (nDone: nat, ghost lost: bool)
      requires Sound()
      modifies this`flash, this`cache, this`lastUse
      ensures Sound() && nDone <= |data| && (lost ==> nDone < |data|) && (!mayFail ==> nDone == |data|)
      ensures OthersSame(c, old(flash), old(cache), flash, cache, o)
      ensures old(Valid()) && offset + |data| <= A.Limit(c, w) ==>
                && ZeroBeyond(c, flash, cache, sizes, o, offset + nDone)
                && (!lost ==> Patched(c, old(flash), old(cache), flash, cache, o, offset,
                                      Clip(c, offset, data[..nDone])))
                && (lost ==> PatchedBelow(c, old(flash), old(cache), flash, cache, o, offset,
                                          Clip(c, offset, data[..nDone])))
      ensures writeThrough ==> NoNewDirty(old(cache), cache)
    {
      hide CacheOk, ZeroBeyond, Patched, PatchedBelow, OthersSame, A.Limit, ZeroFrom, NoNewDirty;
      nDone, lost := 0, false;
      var ok := true;
      ghost var inside := Valid() && offset + |data| <= A.Limit(c, w);
      PatchedNothing(c, flash, cache, o, offset, Clip(c, offset, data[..0]));
      OthersUnchanged(c, flash, cache, o);
      NoneNewlyDirty(cache);
      if inside { ReachGrows(c, flash, cache, sizes, o, offset); }
      while nDone < |data| && ok
        invariant nDone <= |data| && Sound() && (lost ==> nDone < |data| && !ok) && (!mayFail ==> ok)
        invariant writeThrough ==> NoNewDirty(old(cache), cache)
        invariant OthersSame(c, old(flash), old(cache), flash, cache, o)
        invariant inside ==> ZeroBeyond(c, flash, cache, sizes, o, offset + nDone)
        invariant inside && !lost ==> Patched(c, old(flash), old(cache), flash, cache, o, offset,
                                              Clip(c, offset, data[..nDone]))
        invariant inside && lost ==> PatchedBelow(c, old(flash), old(cache), flash, cache, o, offset,
                                                  Clip(c, offset, data[..nDone]))
        decreases |data| - nDone, ok
      {
        var nCopy;
        ghost var c1 := cache;
        ok, nCopy, lost := WrStep(o, data, offset, nDone, writeThrough, old(flash), old(cache), inside);
        if writeThrough { NoNewThen(old(cache), c1, cache); }
        if ok { nDone := nDone + nCopy; }
      }
    }

    /** Writes `data` at `offset`.  If all positions up to its end are split right, the file holds, as far as this
        succeeds, what a byte sequence would, unless a failed write of a whole chunk took cached data with it.  No
        other file changes in any case. */
    method DoFileWr(o: nat, data: Bytes, offset: nat, writeThrough: bool) returns (nDone: nat, ghost lost: bool)
      requires Sound()
      modifies this
      ensures Sound() && nDone <= |data| && (lost ==> nDone < |data|) && (!mayFail ==> nDone == |data|)
      ensures SizeOf(sizes, o) == Max(old(SizeOf(sizes, o)), (offset + nDone) % w)
      ensures forall j: nat :: j != o ==> SizeOf(sizes, j) == old(SizeOf(sizes, j))
      ensures OthersSame(c, old(flash), old(cache), flash, cache, o)
      ensures old(Valid()) && Inside(c, w, offset + |data|) ==>
                && Valid() && SizeOf(sizes, o) == Max(old(SizeOf(sizes, o)), offset + nDone)
                && (!lost ==> Bytes(o) == Patch(old(Bytes(o)), offset, Clip(c, offset, data[..nDone])))
                && PatchedBelow(c, old(flash), old(cache), flash, cache, o, offset, Clip(c, offset, data[..nDone]))
      ensures writeThrough ==> NoNewDirty(old(cache), cache)
    {
      hide CacheOk, ZeroFrom, Patched, PatchedBelow, OthersSame, A.Limit, NoNewDirty;
      ghost var inside := Valid() && Inside(c, w, offset + |data|);
      nDone, lost := WrLoop(o, data, offset, writeThrough);
      ghost var size := SizeOf(sizes, o);
      var end := (offset + nDone) % w;
      if end > SizeOf(sizes, o) { sizes := sizes[o := end]; }
      if inside {
        Reached(c, flash, cache, old(sizes), sizes, o, offset + nDone);
        if !lost {
          assert ZeroFrom(c, old(flash), old(cache), o, size);
          PatchedBytes(c, old(flash), old(cache), flash, cache, o, offset, Clip(c, offset, data[..nDone]), size);
        }
      }
    }

    /** One turn of the reading loop. */
    method RdStep(o: nat, offset: nat, n: nat, read: Bytes, ghost f0: Flash, ghost c0: Cache) returns (buffer: Bytes)
      requires Valid() && |read| < n && SameContent(c, f0, c0, flash, cache)
      requires offset + n <= A.Limit(c, w) ==> HasRead(c, f0, c0, o, offset, read)
      modifies this`flash, this`cache, this`lastUse
      ensures Valid() && SameContent(c, f0, c0, flash, cache) && |read| < |buffer| <= n
      ensures offset + n <= A.Limit(c, w) ==> HasRead(c, f0, c0, o, offset, buffer)
      ensures NoNewDirty(old(cache), cache)
    {
      hide CacheOk, ZeroFrom, SameContent, Settled, HasRead, View, Quo, Rem, A.Landing, A.SplitPos, A.Limit, NoNewDirty;
      var off := offset + |read|;
      A.SplitLands(c, w, off);
      var (chunk, start) := A.SplitPos(c, w, off);
      var left := n - |read|;
      var nCopy := if start + left < c then left else c - start;
      var d := RdPart(Key(o, A.ToWord(chunk) + 1), start, nCopy);
      PartRead(c, old(flash), old(cache), o, A.Landing(c, w, off), d);
      SettledContent(c, old(flash), old(cache), flash, cache);
      ContentThen(c, f0, c0, old(flash), old(cache), flash, cache);
      if offset + n <= A.Limit(c, w) { ReadMore(c, f0, c0, old(flash), old(cache), o, offset, read, d); }
      buffer := read + d;
    }

    /** Reads `n` bytes at `offset`; positions beyond the end of the file read as zero.  What is read beyond the largest
        chunk is not looked at.  Reading changes no file, wherever the request lies. */
    method FileRd(o: nat, offset: nat, n: nat) returns (buffer: Bytes)
      requires Valid()
      modifies this`flash, this`cache, this`lastUse
      ensures Valid() && SameContent(c, old(flash), old(cache), flash, cache) && |buffer| == n
      ensures offset + n <= A.Limit(c, w) ==> Clip(c, offset, buffer) == Extract(old(Bytes(o)), offset, n)
      ensures offset + n <= A.Limit(c, w) && offset + n <= MAX_CHUNK_ID * c ==>
                buffer == Extract(old(Bytes(o)), offset, n)
      ensures NoNewDirty(old(cache), cache)
    {
      hide CacheOk, ZeroFrom, SameContent, Settled, Content, A.Limit, NoNewDirty;
      buffer := [];
      ContentSame(c, flash, cache);
      NoneNewlyDirty(cache);
      while |buffer| < n
        invariant |buffer| <= n && Valid() && SameContent(c, old(flash), old(cache), flash, cache)
        invariant NoNewDirty(old(cache), cache)
        invariant offset + n <= A.Limit(c, w) ==> HasRead(c, old(flash), old(cache), o, offset, buffer)
      {
        ghost var c1 := cache;
        buffer := RdStep(o, offset, n, buffer, old(flash), old(cache));
        NoNewThen(old(cache), c1, cache);
      }
      if offset + n <= A.Limit(c, w) {
        ExtractIs(c, old(flash), old(cache), o, SizeOf(sizes, o), offset, buffer);
        ClipIs(c, offset, buffer);
      }
    }

    /** Fills the hole between the end of the file and `newSize` with zeros, a chunk's worth at a time. */
    method ZeroFill(o: nat, newSize: nat) returns (ok: bool)
      requires Sound() && SizeOf(sizes, o) <= newSize
      modifies this
      ensures Sound() && OthersSame(c, old(flash), old(cache), flash, cache, o) && (!mayFail ==> ok)
      ensures SizeOf(sizes, o) >= old(SizeOf(sizes, o))
      ensures forall j: nat :: j != o ==> SizeOf(sizes, j) == old(SizeOf(sizes, j))
      ensures old(Valid()) && Inside(c, w, newSize) ==>
                && Valid() && SameContent(c, old(flash), old(cache), flash, cache)
                && old(SizeOf(sizes, o)) <= SizeOf(sizes, o) <= newSize && (ok ==> SizeOf(sizes, o) == newSize)
    {
      hide CacheOk, ZeroFrom, SameContent, PatchedBelow, Patched, Patch, OthersSame, A.Limit;
      var pos := SizeOf(sizes, o);
      ok := true;
      ghost var inside := Valid() && Inside(c, w, newSize);
      ContentSame(c, flash, cache);
      OthersUnchanged(c, flash, cache, o);
      while pos < newSize && ok
        invariant Sound() && OthersSame(c, old(flash), old(cache), flash, cache, o) && (!mayFail ==> ok)
        invariant pos <= newSize && SizeOf(sizes, o) >= old(SizeOf(sizes, o))
        invariant forall j: nat :: j != o ==> SizeOf(sizes, j) == old(SizeOf(sizes, j))
        invariant inside ==>
                    && Valid() && SameContent(c, old(flash), old(cache), flash, cache)
                    && old(SizeOf(sizes, o)) <= SizeOf(sizes, o) <= newSize && (ok ==> pos == SizeOf(sizes, o))
        decreases newSize - pos, ok
      {
        var thisWrite := if newSize - pos < c then newSize - pos else c;
        ghost var f1, c1 := flash, cache;
        if inside { assert ZeroFrom(c, flash, cache, o, SizeOf(sizes, o)); }
        var written, lost := DoFileWr(o, Fill(thisWrite, 0), pos, false);
        OthersThen(c, old(flash), old(cache), f1, c1, flash, cache, o);
        if inside {
          assert ZeroFrom(c, flash, cache, o, SizeOf(sizes, o));
          ZerosWritten(c, f1, c1, flash, cache, o, pos, Clip(c, pos, Fill(thisWrite, 0)[..written]));
          ContentThen(c, old(flash), old(cache), f1, c1, flash, cache);
        }
        if written == thisWrite { pos := pos + thisWrite; } else { ok := false; }
      }
    }

    /** Deletes the chunks that lie wholly at or beyond `newSize`, last one first. */
    method PruneChunks(o: nat, newSize: nat)
      requires 0 < c < A.TWO32 && A.IsWidth(w)
      modifies this`flash
      ensures Pruned(old(flash), flash, o, FirstPruned(c, w, newSize), LastPruned(c, w, SizeOf(sizes, o)))
    {
      hide A.SplitPos;
      var last, start := LastPruned(c, w, SizeOf(sizes, o)), FirstPruned(c, w, newSize);
      var i := last;
      while i >= start
        invariant i <= last && (i + 1 >= start || i == last)
        invariant Pruned(old(flash), flash, o, i + 1, last)
      {
        if i >= 0 { flash := flash - {Key(o, i)}; }
        i := i - 1;
      }
    }

    /** Cuts a file down to `newSize` on flash, leaving the cache alone.  The file is cut as it should be if its size
        is split right and so is the end of a chunk that starts at the new size.  If that end does not fit into a
        position any more, then all of the file is gone. */
    method ResizeFileDown(o: nat, newSize: nat)
      requires Sound() && newSize <= SizeOf(sizes, o) && newSize < w
      modifies this`flash, this`sizes
      ensures sizes == old(sizes)[o := newSize] && OthersSame(c, old(flash), cache, flash, cache, o)
      ensures old(Valid()) && CutFits(c, w, old(SizeOf(sizes, o)), newSize) &&
              (Uncached(cache, o) || ZeroTail(c, old(flash), cache, o, newSize)) ==>
                Valid() && Trimmed(c, old(flash), flash, cache, o, newSize)
      ensures old(Valid()) && CutWraps(c, w, old(SizeOf(sizes, o)), newSize) && Uncached(cache, o) ==>
                Valid() && Trimmed(c, old(flash), flash, cache, o, 0)
    {
      hide CacheOk, ZeroFrom, ZeroTail, Trimmed, Pruned, StartDel, LastDel, OnFlash, Quo, Rem, A.SplitPos, A.Limit,
        Uncached, OthersSame, FirstPruned, LastPruned;
      A.SplitLands(c, w, newSize);
      ghost var f0 := flash;
      PruneChunks(o, newSize);
      ghost var f1 := flash;
      var (newFull, newPartial) := A.SplitPos(c, w, newSize);
      ghost var k := Key(o, A.ToWord(newFull) + 1);
      if newPartial != 0 {
        var buffer := OnFlash(c, flash, Key(o, A.ToWord(newFull) + 1));
        PrunedLength(c, f0, f1, cache, o, FirstPruned(c, w, newSize), LastPruned(c, w, SizeOf(sizes, o)), k);
        var _, _ := WrDataObj(Key(o, A.ToWord(newFull) + 1), buffer[..newPartial] + Fill(c - newPartial, 0), true);
      }
      CutElsewhere(c, f0, f1, flash, cache, o, FirstPruned(c, w, newSize), LastPruned(c, w, SizeOf(sizes, o)), k,
                   newPartial);
      ghost var size := SizeOf(sizes, o);
      sizes := sizes[o := newSize];
      if old(Valid()) && CutFits(c, w, size, newSize) && (Uncached(cache, o) || ZeroTail(c, f0, cache, o, newSize)) {
        PruneFits(c, w, size, newSize);
        WholeCut(c, f0, f1, flash, cache, o, newSize, size, old(sizes), sizes);
      }
      if old(Valid()) && CutWraps(c, w, size, newSize) && Uncached(cache, o) {
        PruneWraps(c, w, size, newSize);
        WrappedCut(c, f0, f1, flash, cache, o, newSize, size, k, newPartial, old(sizes), sizes);
      }
    }

    /** Bridges the gap between the end of a file and `newSize`: a small one with zeros, if there is space for them;
        a large one by a hole, for which nothing has to be written.  What is left when zeros found no space and
        undoing this goes wrong is not looked at: `fine` says that it did not come to that. */
    method HandleHole(o: nat, newSize: nat) returns (fine: bool)
      requires Valid() && newSize < w
      modifies this
      ensures OthersSame(c, old(flash), old(cache), flash, cache, o) && (fine ==> Sound())
      ensures forall j: nat :: j != o ==> SizeOf(sizes, j) == old(SizeOf(sizes, j))
      ensures HoleFits(c, w, old(SizeOf(sizes, o)), newSize, mayFail) ==>
                && fine && Valid() && SameContent(c, old(flash), old(cache), flash, cache)
                && (SizeOf(sizes, o) == old(SizeOf(sizes, o)) ||
                    SizeOf(sizes, o) == newSize > old(SizeOf(sizes, o)))
      ensures newSize - old(SizeOf(sizes, o)) >= 4 * c ==> unchanged(this) && fine
    {
      hide CacheOk, ZeroFrom, SameContent, Trimmed, OthersSame, A.Limit;
      var size := SizeOf(sizes, o);
      fine := true;
      ContentSame(c, flash, cache);
      OthersUnchanged(c, flash, cache, o);
      if newSize <= size { return; }
      var available: bool := *;
      if newSize - size < SMALL_HOLE_THRESHOLD * c && available {
        assert ZeroFrom(c, old(flash), old(cache), o, size);
        var ok := ZeroFill(o, newSize);
        if !ok {
          ghost var f1 := flash;
          fine := HoleFits(c, w, size, newSize, mayFail);
          if fine { FilledZero(c, old(flash), old(cache), flash, cache, o, size); }
          ResizeFileDown(o, size);
          OthersThen(c, old(flash), old(cache), f1, cache, flash, cache, o);
          if fine {
            TrimNothing(c, f1, flash, cache, o, size);
            ContentThen(c, old(flash), old(cache), f1, cache, flash, cache);
          }
        }
      }
    }

    /** Writes `data` at `offset` of a file, which may lie beyond its end. */
    method WrFile(o: nat, data: Bytes, offset: nat, writeThrough: bool) returns (nDone: nat, ghost lost: bool)
      requires Valid() && offset < w
      modifies this
      ensures nDone <= |data| && forall j: nat :: j != o ==> Bytes(j) == old(Bytes(j))
      ensures Inside(c, w, offset + |data|) && HoleFits(c, w, old(SizeOf(sizes, o)), offset, mayFail) ==>
                && Valid() && (lost ==> nDone < |data|) && (!mayFail ==> nDone == |data|)
                && |Bytes(o)| == Max(|old(Bytes(o))|, offset + nDone)
                && (!lost ==> Bytes(o) == Patch(old(Bytes(o)), offset, Clip(c, offset, data[..nDone])))
                && Bytes(o)[..offset + nDone] == Patch(old(Bytes(o)), offset,
                                                       Clip(c, offset, data[..nDone]))[..offset + nDone]
      ensures offset + nDone <= MAX_CHUNK_ID * c ==> Clip(c, offset, data[..nDone]) == data[..nDone]
    {
      hide CacheOk, ZeroFrom, SameContent, Patched, PatchedBelow, Patch, FileBytes, Clip, InReach, OthersSame, A.Limit;
      ghost var size0 := SizeOf(sizes, o);
      ghost var inside := Inside(c, w, offset + |data|) && HoleFits(c, w, size0, offset, mayFail);
      assert ZeroFrom(c, flash, cache, o, size0);
      nDone, lost := 0, false;
      var fine := HandleHole(o, offset);
      ghost var f1, c1, size := flash, cache, SizeOf(sizes, o);
      if fine {
        nDone, lost := DoFileWr(o, data, offset, writeThrough);
        OthersThen(c, old(flash), old(cache), f1, c1, flash, cache, o);
      }
      ClipIs(c, offset, data[..nDone]);
      if inside {
        HoleBytes(c, old(flash), old(cache), f1, c1, o, size0, size, offset, Clip(c, offset, data[..nDone]));
        PrefixBytes(c, f1, c1, flash, cache, o, offset, Clip(c, offset, data[..nDone]), size);
      }
      forall j: nat | j != o ensures Bytes(j) == old(Bytes(j)) {
        OtherBytes(c, old(flash), old(cache), flash, cache, o, j, SizeOf(sizes, j));
      }
    }

    /** Frees all entries of a file without writing them out. */
    method InvalidateWholeCache(o: nat)
      modifies this`cache
      ensures cache == AllInvalidated(old(cache), o)
    {
      for i := 0 to |cache|
        invariant |cache| == |old(cache)|
        invariant forall j :: 0 <= j < |cache| ==> cache[j] == if j < i then InvalidatedEntry(old(cache)[j], o)
                  else old(cache)[j]
      {
        if cache[i].owner.Some? && cache[i].owner.value.obj == o { cache := cache[i := cache[i].(owner := None)]; }
      }
    }

    /** Sets the size of a file: it is cut off, or extended with zeros.  Near the end of the positions cutting takes
        all of its bytes. */
    method ResizeFile(o: nat, newSize: nat)
      requires Valid() && newSize < w
      modifies this
      ensures forall j: nat :: j != o ==> Bytes(j) == old(Bytes(j))
      ensures (if newSize >= old(SizeOf(sizes, o)) then HoleFits(c, w, old(SizeOf(sizes, o)), newSize, mayFail)
               else CutFits(c, w, old(SizeOf(sizes, o)), newSize)) ==>
                Valid() && Bytes(o) == Extract(old(Bytes(o)), 0, newSize)
      ensures newSize < old(SizeOf(sizes, o)) && CutWraps(c, w, old(SizeOf(sizes, o)), newSize) ==>
                Valid() && Bytes(o) == Fill(newSize, 0)
    {
      hide CacheOk, ZeroFrom, SameContent, Settled, FileBytes, Extract, Trimmed, OthersSame, A.Limit;
      FlushFileCache(o);
      ghost var f1, c1 := flash, cache;
      InvalidateWholeCache(o);
      InvalidatedClean(c, f1, c1, o);
      SettledThen(c, old(flash), old(cache), f1, c1, flash, cache);
      SettledContent(c, old(flash), old(cache), flash, cache);
      ghost var f2, c2 := flash, cache;
      var size := SizeOf(sizes, o);
      assert forall j: nat :: ZeroFrom(c, old(flash), old(cache), j, SizeOf(sizes, j));
      OthersOf(c, old(flash), old(cache), flash, cache, o);
      assert Valid();
      if newSize >= size {
        if newSize > size {
          var fine := HandleHole(o, newSize);
          ghost var s1 := sizes;
          sizes := sizes[o := newSize];
          if HoleFits(c, w, size, newSize, mayFail) {
            ContentThen(c, old(flash), old(cache), f2, c2, flash, cache);
            forall j: nat ensures ZeroFrom(c, flash, cache, j, SizeOf(sizes, j)) {
              assert ZeroFrom(c, flash, cache, j, SizeOf(s1, j));
              Farther(c, flash, cache, j, SizeOf(s1, j), SizeOf(sizes, j));
            }
          }
        }
        if HoleFits(c, w, size, newSize, mayFail) {
          ExtendedBytes(c, old(flash), old(cache), flash, cache, o, size, newSize);
        }
      } else {
        ResizeFileDown(o, newSize);
        if CutFits(c, w, size, newSize) {
          TrimmedBytes(c, old(flash), old(cache), f2, flash, cache, o, size, newSize);
        }
        if CutWraps(c, w, size, newSize) { GoneBytes(c, f2, flash, cache, o, newSize); }
      }
      if newSize != size { OthersThen(c, old(flash), old(cache), f2, c2, flash, cache, o); }
      forall j: nat | j != o ensures Bytes(j) == old(Bytes(j)) {
        OtherBytes(c, old(flash), old(cache), flash, cache, o, j, SizeOf(sizes, j));
      }
    }

    /** Afterwards flash alone holds the file. */
    method FlushFile(o: nat)
      requires Valid()
      modifies this`flash, this`cache
      ensures Valid() && forall j: nat :: Bytes(j) == old(Bytes(j))
      ensures Bytes(o) == FileBytes(c, flash, [], o, SizeOf(sizes, o))
      ensures NoNewDirty(old(cache), cache)
    {
      hide CacheOk, ZeroFrom, SameContent, Settled, FileBytes, NoNewDirty;
      FlushFileCache(o);
      SettledContent(c, old(flash), old(cache), flash, cache);
      forall j: nat ensures Bytes(j) == old(Bytes(j)) && ZeroFrom(c, flash, cache, j, SizeOf(sizes, j)) {
        assert ZeroFrom(c, old(flash), old(cache), j, SizeOf(sizes, j));
        SameBytes(c, old(flash), old(cache), flash, cache, j, SizeOf(sizes, j));
      }
      FlushedBytes(c, flash, cache, o, SizeOf(sizes, o));
    }

    /** An empty file system with `nCaches` cache entries. */
    constructor (chunkSize: nat, nCaches: nat, w: nat, mayFail: bool)
      requires 0 < chunkSize < A.TWO32 && A.IsWidth(w)
      ensures Valid() && c == chunkSize && this.w == w && this.mayFail == mayFail && |cache| == nCaches
              && forall o: nat :: Bytes(o) == []
      ensures flash == map[] && sizes == map[] && forall e :: e in cache ==> e.owner.None? && !e.dirty
    {
      c, this.w, this.mayFail := chunkSize, w, mayFail;
      flash := map[];
      cache := seq(nCaches, _ => Entry(None, false, 0, 0, Fill(chunkSize, 0)));
      sizes := map[];
      lastUse := 0;
      new;
      forall o: nat ensures ZeroFrom(c, flash, cache, o, 0) && Bytes(o) == [] { Blank(c, cache, o); }
    }
  }

  /** Writing a chunk beyond the largest id succeeds, but reading gives zeros. */
  method WriteBeyond() returns (ok: bool, written: Bytes, buffer: Bytes)
    ensures ok && written == [0x41] && buffer == [0]
  {
    hide CacheOk, Wrote, Settled, ZeroFrom;
    var fs := new FileSys(1, 0, A.TWO32, false);
    var k := Key(7, MAX_CHUNK_ID + 1);
    written := [0x41];
    ghost var lost;
    var full;
    ok, full, lost := fs.WrWhole(k, written);
    buffer := fs.RdPart(k, 0, 1);
    assert Fill(1, 0) == [0];
  }

  /** The two turns of the writing loop for two bytes at the last position of 32 bits: the second byte becomes the
      first one of the file. */
  method WriteWraps() returns (buffer: Bytes)
    ensures buffer == [0x42]
  {
    hide CacheOk, ZeroFrom, Settled, Quo, Rem, A.SplitPos, A.Limit, View;
    var fs := new FileSys(2, 0, A.TWO32, false);
    A.Limit32(2);
    A.SplitLands(2, fs.w, 0xffff_ffff);
    A.Wrapped(2);
    Split(2, 0xffff_ffff);
    QuotientIs(2, 0, 0);
    var data: Bytes := [0x41, 0x42];
    var ok, nCopy;
    ghost var lost;
    ok, nCopy, lost := fs.WrFirstPart(7, data, 0xffff_ffff, false);
    assert nCopy == 1 by { QuotientIs(2, 0x7fff_ffff, 0xffff_ffff); }
    ghost var f1, c1 := fs.flash, fs.cache;
    ok, nCopy, lost := fs.WrFirstPart(7, data[nCopy..], 0xffff_ffff + nCopy, false);
    var k := Key(7, 1);
    assert View(2, fs.flash, fs.cache, k) == Splice(View(2, f1, c1, k), 0, [0x42]);
    buffer := fs.RdPart(k, 0, 1);
  }

  /** A file of the largest 32-bit size is made one byte shorter: its first byte, and every other, is zero then. */
  method CutLosesAll() returns (before: Bytes, after: Bytes)
    ensures before == [0x41] && after == [0]
  {
    hide CacheOk, ZeroFrom, SameContent, A.Limit, FileBytes;
    var fs := new FileSys(4, 0, A.TWO32, false);
    A.Limit32(4);
    var nDone;
    ghost var lost;
    nDone, lost := fs.WrFile(7, [0x41], 0, false);
    fs.ResizeFile(7, 0xffff_ffff);
    assert fs.Bytes(7)[0] == 0x41;
    before := fs.FileRd(7, 0, 1);
    fs.ResizeFile(7, 0xffff_fffe);
    after := fs.FileRd(7, 0, 1);
  }

  function StartDel(c: nat, newSize: nat): (r: nat)
    requires c > 0
    ensures r >= 1
  {
    Quo(c, newSize + c - 1) + 1
  }

  function LastDel(c: nat, size: nat): nat
    requires c > 0
  {
    if size > 0 then Quo(c, size - 1) + 1 else 1
  }

  /** Chunks `first` to `last` of file `o` are gone. */
  ghost predicate Pruned(flash: Flash, flash': Flash, o: nat, first: int, last: int) {
    && (forall k: Key :: k in flash' <==> k in flash && !(k.obj == o && first <= k.id <= last))
    && (forall k :: k in flash' ==> flash'[k] == flash[k])
  }

  /** File `o` is cut off at `newSize` on flash. */
  ghost predicate CutFlash(c: nat, flash: Flash, flash': Flash, o: nat, newSize: nat)
    requires c > 0
  {
    && (forall k :: k in flash' ==> |flash'[k]| == c && Small(k))
    && (forall k: Key :: k.obj != o || k.id == 0 ==> OnFlash(c, flash', k) == OnFlash(c, flash, k))
    && (forall pos: nat :: FlashContent(c, flash', o, pos) == if pos >= newSize then 0
        else FlashContent(c, flash, o, pos))
  }

  /** File `o` is cut off at `newSize`. */
  ghost predicate Trimmed(c: nat, flash: Flash, flash': Flash, cache: Cache, o: nat, newSize: nat)
    requires c > 0
  {
    forall j: nat, pos: nat :: Content(c, flash', cache, j, pos) ==
      if j == o && pos >= newSize then 0 else Content(c, flash, cache, j, pos)
  }

  ghost predicate ZeroTail(c: nat, flash: Flash, cache: Cache, o: nat, size: nat)
    requires c > 0
  {
    forall pos: nat :: pos >= size ==> Content(c, flash, cache, o, pos) == 0
  }

  ghost predicate Uncached(cache: Cache, o: nat) {
    forall i :: 0 <= i < |cache| && cache[i].owner.Some? ==> cache[i].owner.value.obj != o
  }

  function InvalidatedEntry(e: Entry, o: nat): Entry {
    if e.owner.Some? && e.owner.value.obj == o then e.(owner := None) else e
  }

  function AllInvalidated(cache: Cache, o: nat): (r: Cache)
    ensures |r| == |cache| && Uncached(r, o)
  {
    seq(|cache|, i requires 0 <= i < |cache| => InvalidatedEntry(cache[i], o))
  }

  lemma PrunedLength(c: nat, f0: Flash, f1: Flash, cache: Cache, o: nat, first: int, last: int, k: Key)
    requires CacheOk(c, f0, cache) && Pruned(f0, f1, o, first, last)
    ensures |OnFlash(c, f1, k)| == c
  {
  }

  /** The first and the last chunk to be deleted, as they are found by splitting positions. */
  function FirstPruned(c: nat, w: nat, newSize: nat): int
    requires c > 0 && w > 0
  {
    A.SplitPos(c, w, newSize + c - 1).0 + 1
  }

  function LastPruned(c: nat, w: nat, size: nat): int
    requires c > 0 && w > 0
  {
    if size > 0 then A.SplitPos(c, w, size - 1).0 + 1 else 1
  }

  /** Positions up to `end` are split right, and `end` can be a size. */
  predicate Inside(c: nat, w: nat, end: nat)
    requires c > 0
  {
    end <= A.Limit(c, w) && end < w
  }

  /** Positions up to `size` are split right, and so is the end of a chunk that starts at `newSize`. */
  predicate CutFits(c: nat, w: nat, size: nat, newSize: nat)
    requires c > 0
  {
    size <= A.Limit(c, w) && newSize + c <= A.Limit(c, w)
  }

  /** The end of a chunk that starts at `newSize` is cut down to the width of positions. */
  predicate CutWraps(c: nat, w: nat, size: nat, newSize: nat)
    requires c > 0
  {
    size <= A.Limit(c, w) && w < newSize + c
  }

  /** There is no gap before `newSize`, or it can be bridged; undoing this needs room for a chunk above the size. */
  predicate HoleFits(c: nat, w: nat, size: nat, newSize: nat, mayFail: bool)
    requires c > 0
  {
    newSize <= size || (Inside(c, w, newSize) && (mayFail ==> size + c <= A.Limit(c, w)))
  }

  lemma PruneFits(c: nat, w: nat, size: nat, newSize: nat)
    requires 0 < c < A.TWO32 && A.IsWidth(w) && CutFits(c, w, size, newSize)
    ensures FirstPruned(c, w, newSize) == StartDel(c, newSize) && LastPruned(c, w, size) == LastDel(c, size)
    ensures A.ToWord(A.SplitPos(c, w, newSize).0) == Quo(c, newSize) && A.SplitPos(c, w, newSize).1 == Rem(c, newSize)
  {
    hide A.SplitPos, A.Limit, Quo, Rem;
    A.SplitLands(c, w, newSize + c - 1);
    A.SplitLands(c, w, newSize);
    if size > 0 { A.SplitLands(c, w, size - 1); }
  }

  lemma PruneWraps(c: nat, w: nat, size: nat, newSize: nat)
    requires 0 < c < A.TWO32 && A.IsWidth(w) && CutWraps(c, w, size, newSize) && newSize < w
    ensures FirstPruned(c, w, newSize) == 1 && LastPruned(c, w, size) == LastDel(c, size)
  {
    hide A.SplitPos, A.Limit, Quo, Rem;
    A.SmallPosition(c, w, newSize + c - 1);
    if size > 0 { A.SplitLands(c, w, size - 1); }
  }

  /** Other files do not notice. */
  lemma CutElsewhere(c: nat, f0: Flash, f1: Flash, f2: Flash, cache: Cache, o: nat, first: int, last: int, k: Key,
                     n: nat)
    requires c > 0 && Pruned(f0, f1, o, first, last) && k.obj == o && n < c
    requires n != 0 ==> |OnFlash(c, f1, k)| == c
    requires f2 == if n == 0 then f1 else Put(f1, k, OnFlash(c, f1, k)[..n] + Fill(c - n, 0))
    ensures OthersSame(c, f0, cache, f2, cache, o)
  {
    hide InReach, Quo, Rem;
    forall j: nat, pos: nat | j != o ensures Content(c, f2, cache, j, pos) == Content(c, f0, cache, j, pos) {
      assert OnFlash(c, f2, Key(j, Quo(c, pos) + 1)) == OnFlash(c, f0, Key(j, Quo(c, pos) + 1));
    }
  }

  lemma WholeCut(c: nat, f0: Flash, f1: Flash, f2: Flash, cache: Cache, o: nat, newSize: nat, size: nat,
                 sizes: map<nat, nat>, sizes': map<nat, nat>)
    requires c > 0 && CacheOk(c, f0, cache) && newSize <= size == SizeOf(sizes, o) && sizes' == sizes[o := newSize]
    requires forall j: nat :: ZeroFrom(c, f0, cache, j, SizeOf(sizes, j))
    requires Uncached(cache, o) || ZeroTail(c, f0, cache, o, newSize)
    requires Pruned(f0, f1, o, StartDel(c, newSize), LastDel(c, size))
    requires var k := Key(o, Quo(c, newSize) + 1);
             if Rem(c, newSize) == 0 then f2 == f1
             else
               && |OnFlash(c, f1, k)| == c
               && f2 == Put(f1, k, OnFlash(c, f1, k)[..Rem(c, newSize)] + Fill(c - Rem(c, newSize), 0))
    ensures CacheOk(c, f2, cache) && Trimmed(c, f0, f2, cache, o, newSize)
    ensures forall j: nat :: ZeroFrom(c, f2, cache, j, SizeOf(sizes', j))
  {
    hide CacheOk, ZeroFrom, ZeroTail, Trimmed, CutFlash, Pruned, StartDel, LastDel, OnFlash, Quo, Rem, Uncached;
    assert ZeroFrom(c, f0, cache, o, size);
    PrunedIsCut(c, f0, f1, f2, cache, o, newSize, size);
    CutTrims(c, f0, f2, cache, o, newSize);
    TrimZeros(c, f0, f2, cache, o, newSize, sizes, sizes');
  }

  /** All chunks of the file were deleted; what is written back into one of them is zeros, up to the size. */
  lemma WrappedCut(c: nat, f0: Flash, f1: Flash, f2: Flash, cache: Cache, o: nat, newSize: nat, size: nat, k: Key,
                   n: nat, sizes: map<nat, nat>, sizes': map<nat, nat>)
    requires c > 0 && CacheOk(c, f0, cache) && size == SizeOf(sizes, o) && sizes' == sizes[o := newSize]
    requires forall j: nat :: ZeroFrom(c, f0, cache, j, SizeOf(sizes, j))
    requires Uncached(cache, o) && Pruned(f0, f1, o, 1, LastDel(c, size)) && k.obj == o && n < c
    requires n != 0 ==> |OnFlash(c, f1, k)| == c
    requires f2 == if n == 0 then f1 else Put(f1, k, OnFlash(c, f1, k)[..n] + Fill(c - n, 0))
    requires k.id > 0
    ensures CacheOk(c, f2, cache) && Trimmed(c, f0, f2, cache, o, 0)
    ensures forall j: nat :: ZeroFrom(c, f2, cache, j, SizeOf(sizes', j))
  {
    hide CacheOk, ZeroFrom, Trimmed, CutFlash, Uncached;
    GoneFlash(c, f0, f1, f2, cache, o, size, k, n);
    CutTrims(c, f0, f2, cache, o, 0);
    TrimZeros(c, f0, f2, cache, o, 0, sizes, sizes[o := 0]);
    forall j: nat ensures ZeroFrom(c, f2, cache, j, SizeOf(sizes', j)) {
      assert ZeroFrom(c, f2, cache, j, SizeOf(sizes[o := 0], j));
      Farther(c, f2, cache, j, SizeOf(sizes[o := 0], j), SizeOf(sizes', j));
    }
  }

  lemma GoneFlash(c: nat, f0: Flash, f1: Flash, f2: Flash, cache: Cache, o: nat, size: nat, k: Key, n: nat)
    requires c > 0 && CacheOk(c, f0, cache) && ZeroFrom(c, f0, cache, o, size)
    requires Pruned(f0, f1, o, 1, LastDel(c, size)) && k.obj == o && k.id > 0 && n < c
    requires n != 0 ==> |OnFlash(c, f1, k)| == c
    requires f2 == if n == 0 then f1 else Put(f1, k, OnFlash(c, f1, k)[..n] + Fill(c - n, 0))
    ensures CutFlash(c, f0, f2, o, 0)
  {
    hide ZeroFrom, FlashContent, LastDel, Quo, Rem, InReach;
    forall pos: nat ensures FlashContent(c, f2, o, pos) == 0 { GoneByte(c, f0, f1, f2, cache, o, size, k, n, pos); }
  }

  lemma GoneByte(c: nat, f0: Flash, f1: Flash, f2: Flash, cache: Cache, o: nat, size: nat, k: Key, n: nat, pos: nat)
    requires c > 0 && CacheOk(c, f0, cache) && ZeroFrom(c, f0, cache, o, size)
    requires Pruned(f0, f1, o, 1, LastDel(c, size)) && k.obj == o && k.id > 0 && n < c
    requires n != 0 ==> |OnFlash(c, f1, k)| == c
    requires f2 == if n == 0 then f1 else Put(f1, k, OnFlash(c, f1, k)[..n] + Fill(c - n, 0))
    ensures FlashContent(c, f2, o, pos) == 0
  {
    hide ZeroFrom, CacheOk, Quo, Rem, InReach;
    CutPlace(c, 0, size, pos);
    FarZero(c, f0, cache, o, size, pos);
  }

  lemma GoneBytes(c: nat, f0: Flash, f1: Flash, cache: Cache, o: nat, newSize: nat)
    requires c > 0 && Trimmed(c, f0, f1, cache, o, 0)
    ensures FileBytes(c, f1, cache, o, newSize) == Fill(newSize, 0)
  {
    hide Content;
    forall pos: nat ensures Content(c, f1, cache, o, pos) == 0 { }
  }

  /** Where the bytes at and beyond the new size are: in deleted chunks, in the rest of the last chunk kept, or beyond
      the old size. */
  lemma CutPlace(c: nat, newSize: nat, size: nat, pos: nat)
    requires c > 0 && newSize <= size
    ensures pos < newSize ==>
            Quo(c, pos) + 1 < StartDel(c, newSize)
            && (Quo(c, pos) == Quo(c, newSize) ==> Rem(c, pos) < Rem(c, newSize))
    ensures pos >= newSize && Quo(c, pos) + 1 < StartDel(c, newSize) ==>
              Rem(c, newSize) != 0 && Quo(c, pos) == Quo(c, newSize) && Rem(c, pos) >= Rem(c, newSize)
    ensures Quo(c, pos) + 1 > LastDel(c, size) ==> pos >= size
    ensures Rem(c, newSize) != 0 ==> Quo(c, newSize) + 1 < StartDel(c, newSize)
  {
    StartIs(c, newSize);
    Order(c, pos, newSize);
    if size > 0 { Order(c, pos, size - 1); }
  }

  /** Deletion starts at the first chunk that begins at or beyond the new size. */
  lemma StartIs(c: nat, newSize: nat)
    requires c > 0
    ensures StartDel(c, newSize) == if Rem(c, newSize) == 0 then Quo(c, newSize) + 1 else Quo(c, newSize) + 2
  {
    Split(c, newSize);
    var q := Quo(c, newSize);
    if Rem(c, newSize) == 0 {
      QuotientIs(c, q, newSize + c - 1);
    } else {
      assert (q + 1) * c == q * c + c;
      QuotientIs(c, q + 1, newSize + c - 1);
    }
  }

  /** Deleting whole chunks and padding the last one with zeros cuts the file. */
  lemma PrunedIsCut(c: nat, f0: Flash, f1: Flash, f2: Flash, cache: Cache, o: nat, newSize: nat, size: nat)
    requires c > 0 && CacheOk(c, f0, cache) && newSize <= size && ZeroFrom(c, f0, cache, o, size)
    requires Pruned(f0, f1, o, StartDel(c, newSize), LastDel(c, size))
    requires var k := Key(o, Quo(c, newSize) + 1);
             if Rem(c, newSize) == 0 then f2 == f1
             else
               && |OnFlash(c, f1, k)| == c
               && f2 == Put(f1, k, OnFlash(c, f1, k)[..Rem(c, newSize)] + Fill(c - Rem(c, newSize), 0))
    ensures CutFlash(c, f0, f2, o, newSize)
  {
    hide ZeroFrom, StartDel, LastDel, FlashContent, Quo, Rem;
    CutPlace(c, newSize, size, 0);
    forall pos: nat ensures FlashContent(c, f2, o, pos) == if pos >= newSize then 0 else FlashContent(c, f0, o, pos) {
      PrunedByte(c, f0, f1, f2, cache, o, newSize, size, pos);
    }
  }

  lemma PrunedByte(c: nat, f0: Flash, f1: Flash, f2: Flash, cache: Cache, o: nat, newSize: nat, size: nat, pos: nat)
    requires c > 0 && CacheOk(c, f0, cache) && newSize <= size && ZeroFrom(c, f0, cache, o, size)
    requires Pruned(f0, f1, o, StartDel(c, newSize), LastDel(c, size))
    requires var k := Key(o, Quo(c, newSize) + 1);
             if Rem(c, newSize) == 0 then f2 == f1
             else
               && |OnFlash(c, f1, k)| == c
               && f2 == Put(f1, k, OnFlash(c, f1, k)[..Rem(c, newSize)] + Fill(c - Rem(c, newSize), 0))
    ensures FlashContent(c, f2, o, pos) == if pos >= newSize then 0 else FlashContent(c, f0, o, pos)
  {
    hide ZeroFrom, StartDel, LastDel, CacheOk, OnFlash, View, Pruned, Quo, Rem;
    CutPlace(c, newSize, size, pos);
    Split(c, newSize);
    FarZero(c, f0, cache, o, size, pos);
    Split(c, pos);
    var k := Key(o, Quo(c, pos) + 1);
    ViewLength(c, f0, cache, k);
    if !InReach(c, pos) { return; }
    PrunedChunk(c, f0, f1, f2, o, StartDel(c, newSize), LastDel(c, size), Key(o, Quo(c, newSize) + 1), Rem(c, newSize),
                k);
    CutByte(c, OnFlash(c, f0, k), OnFlash(c, f2, k), StartDel(c, newSize), LastDel(c, size), Rem(c, newSize), newSize,
            Quo(c, newSize), pos, Quo(c, pos), Rem(c, pos));
  }

  /** What the cut makes of byte `r` of chunk `q` from 0, at position `pos`. */
  lemma CutByte(c: nat, v0: Bytes, v2: Bytes, first: nat, last: nat, n: nat, newSize: nat, m: nat, pos: nat, q: nat,
                r: nat)
    requires r < c == |v0| && n < c
    requires v2 == if first <= q + 1 <= last then Fill(c, 0) else if n != 0 && q == m then v0[..n] + Fill(c - n, 0)
             else v0
    requires pos < newSize ==> q + 1 < first && (q == m ==> r < n)
    requires pos >= newSize && q + 1 < first ==> n != 0 && q == m && r >= n
    requires pos >= newSize && q + 1 > last ==> v0[r] == 0
    ensures |v2| == c && v2[r] == if pos >= newSize then 0 else v0[r]
  {
  }

  lemma PrunedChunk(c: nat, f0: Flash, f1: Flash, f2: Flash, o: nat, first: nat, last: nat, kept: Key, n: nat, k: Key)
    requires Pruned(f0, f1, o, first, last) && n < c
    requires n != 0 ==> kept.id < first && |OnFlash(c, f1, kept)| == c
    requires f2 == (if n == 0 then f1 else Put(f1, kept, OnFlash(c, f1, kept)[..n] + Fill(c - n, 0))) && Small(k)
    ensures n != 0 ==> |OnFlash(c, f0, kept)| == c
    ensures OnFlash(c, f2, k) == if k.obj == o && first <= k.id <= last then Fill(c, 0)
                                 else if n != 0 && k == kept then OnFlash(c, f0, k)[..n] + Fill(c - n, 0)
                                   else OnFlash(c, f0, k)
  {
  }

  lemma FarZero(c: nat, flash: Flash, cache: Cache, o: nat, size: nat, pos: nat)
    requires c > 0 && ZeroFrom(c, flash, cache, o, size)
    ensures pos >= size ==> FlashContent(c, flash, o, pos) == 0 && Content(c, flash, cache, o, pos) == 0
  {
  }

  /** A chunk is known by its bytes. */
  lemma ChunkIs(c: nat, flash: Flash, flash': Flash, k: Key)
    requires c > 0 && 0 < k.id <= MAX_CHUNK_ID && |OnFlash(c, flash, k)| == c && |OnFlash(c, flash', k)| == c
    requires forall pos: nat :: Quo(c, pos) + 1 == k.id ==>
             FlashContent(c, flash', k.obj, pos) == FlashContent(c, flash, k.obj, pos)
    ensures OnFlash(c, flash', k) == OnFlash(c, flash, k)
  {
    hide OnFlash;
    forall i | 0 <= i < c ensures OnFlash(c, flash', k)[i] == OnFlash(c, flash, k)[i] {
      var pos: nat := (k.id - 1) * c + i;
      QuotientIs(c, k.id - 1, pos);
      assert FlashContent(c, flash', k.obj, pos) == FlashContent(c, flash, k.obj, pos);
    }
  }

  lemma CutAt(c: nat, flash: Flash, flash': Flash, o: nat, newSize: nat, pos: nat)
    requires c > 0 && CutFlash(c, flash, flash', o, newSize)
    ensures FlashContent(c, flash', o, pos) == if pos >= newSize then 0 else FlashContent(c, flash, o, pos)
  {
  }

  lemma CutSizes(c: nat, flash: Flash, flash': Flash, cache: Cache, o: nat, newSize: nat, k: Key)
    requires c > 0 && CacheOk(c, flash, cache) && CutFlash(c, flash, flash', o, newSize)
    ensures |OnFlash(c, flash, k)| == c && |OnFlash(c, flash', k)| == c
    ensures k.obj != o || !(0 < k.id <= MAX_CHUNK_ID) ==> OnFlash(c, flash', k) == OnFlash(c, flash, k)
  {
  }

  /** If the file holds nothing but zeros from the cut on, no chunk changes that is not dirty in the cache. */
  lemma CutZeros(c: nat, flash: Flash, flash': Flash, cache: Cache, o: nat, newSize: nat, k: Key)
    requires c > 0 && CacheOk(c, flash, cache) && CutFlash(c, flash, flash', o, newSize)
             && ZeroTail(c, flash, cache, o, newSize)
    requires IndexOf(cache, k) < 0 || !cache[IndexOf(cache, k)].dirty
    ensures OnFlash(c, flash', k) == OnFlash(c, flash, k)
  {
    hide CacheOk, CutFlash, ZeroTail, OnFlash, View, IndexOf, Quo, Rem, ByteOf, InReach;
    CutSizes(c, flash, flash', cache, o, newSize, k);
    if k.obj == o && 0 < k.id <= MAX_CHUNK_ID {
      CleanView(c, flash, cache, k);
      forall pos: nat | Quo(c, pos) + 1 == k.id
        ensures FlashContent(c, flash', o, pos) ==
                FlashContent(c, flash, o, pos)
      {
        CutAt(c, flash, flash', o, newSize, pos);
        TailAt(c, flash, cache, o, newSize, pos);
      }
      ChunkIs(c, flash, flash', k);
    }
  }

  lemma CutTail(c: nat, flash: Flash, flash': Flash, cache: Cache, o: nat, newSize: nat)
    requires c > 0 && CacheOk(c, flash, cache) && CutFlash(c, flash, flash', o, newSize)
             && ZeroTail(c, flash, cache, o, newSize)
    ensures CacheOk(c, flash', cache) && Trimmed(c, flash, flash', cache, o, newSize)
  {
    hide CacheOk, CutFlash, ZeroTail, OnFlash, FlashContent, View, Quo, Rem, ByteOf;
    CutCacheOk(c, flash, flash', cache, o, newSize);
    forall j: nat, pos: nat
      ensures Content(c, flash', cache, j, pos) ==
              if j == o && pos >= newSize then 0 else Content(c, flash, cache, j, pos)
    {
      CutView(c, flash, flash', cache, o, newSize, Key(j, Quo(c, pos) + 1));
      TailAt(c, flash, cache, o, newSize, pos);
    }
  }

  lemma CutView(c: nat, flash: Flash, flash': Flash, cache: Cache, o: nat, newSize: nat, k: Key)
    requires c > 0 && CacheOk(c, flash, cache) && CutFlash(c, flash, flash', o, newSize)
             && ZeroTail(c, flash, cache, o, newSize)
    ensures View(c, flash', cache, k) == View(c, flash, cache, k)
  {
    hide CacheOk, CutFlash, ZeroTail, OnFlash, FlashContent;
    var i := IndexOf(cache, k);
    if i < 0 || !cache[i].dirty { CutZeros(c, flash, flash', cache, o, newSize, k); }
  }

  lemma CutCacheOk(c: nat, flash: Flash, flash': Flash, cache: Cache, o: nat, newSize: nat)
    requires c > 0 && CacheOk(c, flash, cache) && CutFlash(c, flash, flash', o, newSize)
             && ZeroTail(c, flash, cache, o, newSize)
    ensures CacheOk(c, flash', cache)
  {
    hide CutFlash, ZeroTail, OnFlash, FlashContent, View;
    forall i | 0 <= i < |cache| && cache[i].owner.Some? && !cache[i].dirty && Small(cache[i].owner.value)
      ensures cache[i].data == OnFlash(c, flash', cache[i].owner.value)
    {
      ViewIs(c, flash, cache, i);
      CutZeros(c, flash, flash', cache, o, newSize, cache[i].owner.value);
    }
    CutLengths(c, flash, flash', o, newSize);
  }

  lemma CutLengths(c: nat, flash: Flash, flash': Flash, o: nat, newSize: nat)
    requires c > 0 && CutFlash(c, flash, flash', o, newSize)
    ensures forall k :: k in flash' ==> |flash'[k]| == c && Small(k)
  {
  }

  lemma TailAt(c: nat, flash: Flash, cache: Cache, o: nat, size: nat, pos: nat)
    requires c > 0 && ZeroTail(c, flash, cache, o, size)
    ensures pos >= size ==> Content(c, flash, cache, o, pos) == 0
  {
  }

  lemma CutUncached(c: nat, flash: Flash, flash': Flash, cache: Cache, o: nat, newSize: nat)
    requires c > 0 && CacheOk(c, flash, cache) && CutFlash(c, flash, flash', o, newSize) && Uncached(cache, o)
    ensures CacheOk(c, flash', cache) && Trimmed(c, flash, flash', cache, o, newSize)
  {
    hide OnFlash;
    forall j: nat, pos: nat
      ensures Content(c, flash', cache, j, pos) ==
              if j == o && pos >= newSize then 0 else Content(c, flash, cache, j, pos)
    {
      var k := Key(j, Quo(c, pos) + 1);
      if j == o {
        assert IndexOf(cache, k) < 0;
        assert FlashContent(c, flash', o, pos) == if pos >= newSize then 0 else FlashContent(c, flash, o, pos);
      } else {
        assert OnFlash(c, flash', k) == OnFlash(c, flash, k);
      }
    }
  }

  lemma CutTrims(c: nat, flash: Flash, flash': Flash, cache: Cache, o: nat, newSize: nat)
    requires c > 0 && CacheOk(c, flash, cache) && CutFlash(c, flash, flash', o, newSize)
    requires Uncached(cache, o) || ZeroTail(c, flash, cache, o, newSize)
    ensures CacheOk(c, flash', cache) && Trimmed(c, flash, flash', cache, o, newSize)
  {
    if Uncached(cache, o) {
      CutUncached(c, flash, flash', cache, o, newSize);
    } else {
      CutTail(c, flash, flash', cache, o, newSize);
    }
  }

  lemma TrimZero(c: nat, flash: Flash, flash': Flash, cache: Cache, o: nat, newSize: nat, j: nat, size: nat)
    requires c > 0 && CutFlash(c, flash, flash', o, newSize) && Trimmed(c, flash, flash', cache, o, newSize)
    requires ZeroFrom(c, flash, cache, j, size)
    ensures ZeroFrom(c, flash', cache, j, if j == o then newSize else size)
  {
    hide OnFlash, View;
    forall pos: nat | pos >= if j == o then newSize else size
      ensures Content(c, flash', cache, j, pos) == 0 && FlashContent(c, flash', j, pos) == 0
    {
      FarZero(c, flash, cache, j, size, pos);
      if j == o {
        assert FlashContent(c, flash', o, pos) == 0;
      } else {
        assert OnFlash(c, flash', Key(j, Quo(c, pos) + 1)) == OnFlash(c, flash, Key(j, Quo(c, pos) + 1));
      }
      assert Content(c, flash', cache, j, pos) == if j == o && pos >= newSize then 0
        else Content(c, flash, cache, j, pos);
    }
  }

  lemma TrimZeros(c: nat, flash: Flash, flash': Flash, cache: Cache, o: nat, newSize: nat,
                  sizes: map<nat, nat>, sizes': map<nat, nat>)
    requires c > 0 && CutFlash(c, flash, flash', o, newSize) && Trimmed(c, flash, flash', cache, o, newSize)
    requires forall j: nat :: ZeroFrom(c, flash, cache, j, SizeOf(sizes, j))
    requires sizes' == sizes[o := newSize]
    ensures forall j: nat :: ZeroFrom(c, flash', cache, j, SizeOf(sizes', j))
  {
    hide CutFlash, Trimmed, ZeroFrom;
    forall j: nat ensures ZeroFrom(c, flash', cache, j, SizeOf(sizes', j)) {
      assert ZeroFrom(c, flash, cache, j, SizeOf(sizes, j));
      TrimZero(c, flash, flash', cache, o, newSize, j, SizeOf(sizes, j));
    }
  }

  lemma TrimNothing(c: nat, flash: Flash, flash': Flash, cache: Cache, o: nat, size: nat)
    requires c > 0 && Trimmed(c, flash, flash', cache, o, size) && ZeroTail(c, flash, cache, o, size)
    ensures SameContent(c, flash, cache, flash', cache)
  {
    hide Content;
    forall j: nat, pos: nat ensures Content(c, flash', cache, j, pos) == Content(c, flash, cache, j, pos) {
      TailAt(c, flash, cache, o, size, pos);
    }
  }

  lemma FilledZero(c: nat, f0: Flash, c0: Cache, f1: Flash, c1: Cache, o: nat, size: nat)
    requires c > 0 && SameContent(c, f0, c0, f1, c1) && ZeroFrom(c, f0, c0, o, size)
    ensures ZeroTail(c, f1, c1, o, size)
  {
    hide Content;
    forall pos: nat | pos >= size ensures Content(c, f1, c1, o, pos) == 0 {
      FarZero(c, f0, c0, o, size, pos);
      ContentAt(c, f0, c0, f1, c1, o, pos);
    }
  }

  /** A hole bridged beforehand makes no difference to what a write yields. */
  lemma HoleBytes(c: nat, f0: Flash, c0: Cache, f1: Flash, c1: Cache, o: nat, size0: nat, size1: nat, offset: nat,
                  d: Bytes)
    requires c > 0 && SameContent(c, f0, c0, f1, c1) && ZeroFrom(c, f0, c0, o, size0)
    requires size1 == size0 || size1 == offset > size0
    ensures Patch(FileBytes(c, f1, c1, o, size1), offset, d) == Patch(FileBytes(c, f0, c0, o, size0), offset, d)
  {
    hide Content, Patch;
    var p1, p0 := Patch(FileBytes(c, f1, c1, o, size1), offset, d), Patch(FileBytes(c, f0, c0, o, size0), offset, d);
    forall i | 0 <= i < |p1| ensures p1[i] == p0[i] {
      FarZero(c, f0, c0, o, size0, i);
      ContentAt(c, f0, c0, f1, c1, o, i);
    }
  }

  lemma PrefixBytes(c: nat, f1: Flash, c1: Cache, f2: Flash, c2: Cache, o: nat, offset: nat, d: Bytes, size: nat)
    requires c > 0 && PatchedBelow(c, f1, c1, f2, c2, o, offset, d) && ZeroFrom(c, f1, c1, o, size)
    ensures FileBytes(c, f2, c2, o, Max(size, offset + |d|))[..offset + |d|] ==
            Patch(FileBytes(c, f1, c1, o, size), offset, d)[..offset + |d|]
  {
    hide Content, Patch;
    var b, p := FileBytes(c, f2, c2, o, Max(size, offset + |d|)), Patch(FileBytes(c, f1, c1, o, size), offset, d);
    forall i | 0 <= i < offset + |d| ensures b[i] == p[i] {
      FarZero(c, f1, c1, o, size, i);
      assert Content(c, f2, c2, o, i) == if offset <= i < offset + |d| then d[i - offset] else Content(c, f1, c1, o, i);
    }
  }

  lemma OtherBytes(c: nat, f0: Flash, c0: Cache, f1: Flash, c1: Cache, o: nat, j: nat, size: nat)
    requires c > 0 && OthersSame(c, f0, c0, f1, c1, o) && j != o
    ensures FileBytes(c, f1, c1, j, size) == FileBytes(c, f0, c0, j, size)
  {
    hide Content;
    forall pos: nat ensures Content(c, f1, c1, j, pos) == Content(c, f0, c0, j, pos) { }
  }

  lemma InvalidatedClean(c: nat, flash: Flash, cache: Cache, o: nat)
    requires CacheOk(c, flash, cache) && NoneDirty(cache, o)
    ensures CacheOk(c, flash, AllInvalidated(cache, o)) && Settled(c, flash, cache, flash, AllInvalidated(cache, o))
  {
    var cache' := AllInvalidated(cache, o);
    forall k | Small(k) ensures View(c, flash, cache', k) == View(c, flash, cache, k) {
      var i, i' := IndexOf(cache, k), IndexOf(cache', k);
      if i' >= 0 {
        ViewIs(c, flash, cache, i');
      } else if i >= 0 {
        assert cache'[i].owner != Some(k);
      }
    }
  }

  lemma ExtendedBytes(c: nat, f0: Flash, c0: Cache, f1: Flash, c1: Cache, o: nat, size: nat, newSize: nat)
    requires c > 0 && SameContent(c, f0, c0, f1, c1) && ZeroFrom(c, f0, c0, o, size)
    requires newSize >= size
    ensures FileBytes(c, f1, c1, o, newSize) == Extract(FileBytes(c, f0, c0, o, size), 0, newSize)
  {
    hide Content, Extract;
    var b, e := FileBytes(c, f1, c1, o, newSize), Extract(FileBytes(c, f0, c0, o, size), 0, newSize);
    forall i | 0 <= i < newSize ensures b[i] == e[i] {
      FarZero(c, f0, c0, o, size, i);
      ContentAt(c, f0, c0, f1, c1, o, i);
    }
  }

  lemma SameBytes(c: nat, f0: Flash, c0: Cache, f1: Flash, c1: Cache, o: nat, size: nat)
    requires c > 0 && SameContent(c, f0, c0, f1, c1)
    ensures FileBytes(c, f1, c1, o, size) == FileBytes(c, f0, c0, o, size)
  {
    hide Content;
    forall pos: nat ensures Content(c, f1, c1, o, pos) == Content(c, f0, c0, o, pos) {
      ContentAt(c, f0, c0, f1, c1, o, pos);
    }
  }

  lemma TrimmedBytes(c: nat, f0: Flash, c0: Cache, f1: Flash, f2: Flash, c1: Cache, o: nat, size: nat, newSize: nat)
    requires c > 0 && SameContent(c, f0, c0, f1, c1) && Trimmed(c, f1, f2, c1, o, newSize)
    requires newSize <= size
    ensures FileBytes(c, f2, c1, o, newSize) == Extract(FileBytes(c, f0, c0, o, size), 0, newSize)
  {
    hide Content, Extract;
    var b, e := FileBytes(c, f2, c1, o, newSize), Extract(FileBytes(c, f0, c0, o, size), 0, newSize);
    forall i | 0 <= i < newSize ensures b[i] == e[i] {
      ContentAt(c, f0, c0, f1, c1, o, i);
      assert Content(c, f2, c1, o, i) == Content(c, f1, c1, o, i);
    }
  }

  lemma FlushedBytes(c: nat, flash: Flash, cache: Cache, o: nat, size: nat)
    requires c > 0 && CacheOk(c, flash, cache) && NoneDirty(cache, o)
    ensures FileBytes(c, flash, cache, o, size) == FileBytes(c, flash, [], o, size)
  {
    forall pos: nat ensures Content(c, flash, cache, o, pos) == Content(c, flash, [], o, pos) {
      var k := Key(o, Quo(c, pos) + 1);
      var i := IndexOf(cache, k);
      if i >= 0 && InReach(c, pos) { assert !DirtyOf(cache[i], o); }
    }
  }

  lemma Blank(c: nat, cache: Cache, o: nat)
    requires c > 0 && forall i :: 0 <= i < |cache| ==> cache[i].owner.None?
    ensures ZeroFrom(c, map[], cache, o, 0) && FileBytes(c, map[], cache, o, 0) == []
  {
    forall pos: nat ensures Content(c, map[], cache, o, pos) == 0 {
      assert IndexOf(cache, Key(o, Quo(c, pos) + 1)) < 0;
    }
  }

  /** `n` bytes of a zero-extended byte sequence. */
  /** A chunk is programmed to its end, or to where the file ends, then. */
  lemma WritebackReaches(c: nat, size: nat, chunk: nat, start: nat, n: nat)
    requires 0 < c && start < c
    ensures chunk * c + Writeback(c, size, chunk, start, n) == Min(chunk * c + c, Max(size, chunk * c + start + n))
  {
  }

  function Extract(s: Bytes, at: nat, n: nat): (r: Bytes)
    ensures |r| == n && forall i :: 0 <= i < n ==> r[i] == if at + i < |s| then s[at + i] else 0
  {
    seq(n, i requires 0 <= i => if at + i < |s| then s[at + i] else 0)
  }

  lemma ContentSame(c: nat, flash: Flash, cache: Cache)
    requires c > 0
    ensures SameContent(c, flash, cache, flash, cache)
  {
  }

  lemma ContentThen(c: nat, f0: Flash, c0: Cache, f1: Flash, c1: Cache, f2: Flash, c2: Cache)
    requires c > 0 && SameContent(c, f0, c0, f1, c1) && SameContent(c, f1, c1, f2, c2)
    ensures SameContent(c, f0, c0, f2, c2)
  {
    hide Content;
    forall o: nat, pos: nat ensures Content(c, f2, c2, o, pos) == Content(c, f0, c0, o, pos) {
      ContentAt(c, f0, c0, f1, c1, o, pos);
      ContentAt(c, f1, c1, f2, c2, o, pos);
    }
  }

  lemma ContentAt(c: nat, f0: Flash, c0: Cache, f1: Flash, c1: Cache, o: nat, pos: nat)
    requires c > 0 && SameContent(c, f0, c0, f1, c1)
    ensures Content(c, f1, c1, o, pos) == Content(c, f0, c0, o, pos)
  {
  }

  /** `d` is what file `o` has from `off` on. */
  ghost predicate HasRead(c: nat, flash: Flash, cache: Cache, o: nat, off: nat, d: Bytes)
    requires c > 0
  {
    forall i: nat :: i < |d| && InReach(c, off + i) ==> d[i] == Content(c, flash, cache, o, off + i)
  }

  lemma ReadMore(c: nat, f0: Flash, c0: Cache, f1: Flash, c1: Cache, o: nat, offset: nat, read: Bytes, d: Bytes)
    requires c > 0 && SameContent(c, f0, c0, f1, c1) && HasRead(c, f0, c0, o, offset, read)
    requires HasRead(c, f1, c1, o, offset + |read|, d)
    ensures HasRead(c, f0, c0, o, offset, read + d)
  {
    hide Content;
    forall i: nat | i < |read + d| && InReach(c, offset + i)
      ensures (read + d)[i] == Content(c, f0, c0, o, offset + i)
    {
      if i >= |read| {
        ContentAt(c, f0, c0, f1, c1, o, offset + i);
        assert d[i - |read|] == Content(c, f1, c1, o, offset + |read| + (i - |read|));
      }
    }
  }

  /** What was read out of one chunk is what the file has there. */
  lemma PartRead(c: nat, flash: Flash, cache: Cache, o: nat, off: nat, d: Bytes)
    requires c > 0 && Rem(c, off) + |d| <= c
    requires InReach(c, off) ==>
               var v := View(c, flash, cache, Key(o, Quo(c, off) + 1));
                 |v| == c && d == v[Rem(c, off)..Rem(c, off) + |d|]
    ensures HasRead(c, flash, cache, o, off, d)
  {
    hide View, Quo, Rem;
    forall i: nat | i < |d| && InReach(c, off + i) ensures d[i] == Content(c, flash, cache, o, off + i) {
      InPart(c, off, |d|, off + i);
    }
  }

  lemma ExtractIs(c: nat, flash: Flash, cache: Cache, o: nat, size: nat, offset: nat, buffer: Bytes)
    requires c > 0 && ZeroFrom(c, flash, cache, o, size)
    requires HasRead(c, flash, cache, o, offset, buffer)
    ensures Clip(c, offset, buffer) == Extract(FileBytes(c, flash, cache, o, size), offset, |buffer|)
  {
    hide View, Extract;
    forall i | 0 <= i < |buffer|
      ensures Clip(c, offset, buffer)[i] == Extract(FileBytes(c, flash, cache, o, size), offset, |buffer|)[i]
    {
      if offset + i >= size { assert Content(c, flash, cache, o, offset + i) == 0; }
    }
  }

  /** Zeros written at the end of a file change nothing. */
  lemma ZerosWritten(c: nat, f0: Flash, c0: Cache, f1: Flash, c1: Cache, o: nat, size: nat, d: Bytes)
    requires c > 0 && PatchedBelow(c, f0, c0, f1, c1, o, size, d) && forall i :: 0 <= i < |d| ==> d[i] == 0
    requires ZeroFrom(c, f0, c0, o, size) && ZeroFrom(c, f1, c1, o, size + |d|)
    ensures SameContent(c, f0, c0, f1, c1)
  {
    hide Content;
    forall j: nat, pos: nat ensures Content(c, f1, c1, j, pos) == Content(c, f0, c0, j, pos) {
      if j == o && pos >= size { assert Content(c, f0, c0, o, pos) == 0; }
    }
  }

  /** How far file `j` reaches while file `o` is being written up to `end`. */
  function Reach(sizes: map<nat, nat>, j: nat, o: nat, end: nat): nat {
    if j == o then Max(SizeOf(sizes, j), end) else SizeOf(sizes, j)
  }

  /** Number of bytes of a chunk that will have to be programmed. */
  function Writeback(c: nat, size: nat, chunk: nat, start: nat, n: nat): nat
    requires c > 0
  {
    var chunkStart := chunk * c;
    if start + n < c then
      var read := if chunkStart > size then 0 else if size - chunkStart > c then c else size - chunkStart;
      if read > start + n then read else start + n
    else c
  }

  /** Bytes written at `off`, as far as flash can hold them. */
  function Clip(c: nat, off: nat, d: Bytes): (r: Bytes)
    requires c > 0
    ensures |r| == |d| && forall i :: 0 <= i < |d| ==> r[i] == if InReach(c, off + i) then d[i] else 0
  {
    seq(|d|, i requires 0 <= i < |d| => if InReach(c, off + i) then d[i] else 0)
  }

  /** Nothing is clipped exactly if what lies beyond the largest chunk is zero anyway. */
  lemma ClipIs(c: nat, off: nat, d: Bytes)
    requires c > 0
    ensures Clip(c, off, d) == d <==> forall i :: 0 <= i < |d| && off + i >= MAX_CHUNK_ID * c ==> d[i] == 0
    ensures off + |d| <= MAX_CHUNK_ID * c ==> Clip(c, off, d) == d
  {
    hide InReach;
    forall pos: nat ensures InReach(c, pos) <==> pos < MAX_CHUNK_ID * c { ReachIs(c, pos); }
    if Clip(c, off, d) == d {
      forall i | 0 <= i < |d| && off + i >= MAX_CHUNK_ID * c ensures d[i] == 0 { assert Clip(c, off, d)[i] == d[i]; }
    } else {
      var i :| 0 <= i < |d| && Clip(c, off, d)[i] != d[i];
      assert off + i >= MAX_CHUNK_ID * c;
    }
  }

  /** `d` written at `at` into a byte sequence that is extended with zeros as needed. */
  function Patch(s: Bytes, at: nat, d: Bytes): (r: Bytes)
    ensures |r| == Max(|s|, at + |d|)
    ensures forall i :: 0 <= i < |r| ==> r[i] == if at <= i < at + |d| then d[i - at] else if i < |s| then s[i] else 0
  {
    seq(Max(|s|, at + |d|), i requires 0 <= i => if at <= i < at + |d| then d[i - at] else if i < |s| then s[i] else 0)
  }

  /** Every file is zero beyond its end, with file `o` counted as reaching up to `end` at least. */
  ghost predicate ZeroBeyond(c: nat, flash: Flash, cache: Cache, sizes: map<nat, nat>, o: nat, end: nat)
    requires c > 0
  {
    forall j: nat :: ZeroFrom(c, flash, cache, j, Reach(sizes, j, o, end))
  }

  lemma PatchedNothing(c: nat, flash: Flash, cache: Cache, o: nat, offset: nat, d: Bytes)
    requires c > 0 && d == []
    ensures Patched(c, flash, cache, flash, cache, o, offset, d)
  {
  }

  lemma ReachGrows(c: nat, flash: Flash, cache: Cache, sizes: map<nat, nat>, o: nat, end: nat)
    requires c > 0 && forall j: nat :: ZeroFrom(c, flash, cache, j, SizeOf(sizes, j))
    ensures ZeroBeyond(c, flash, cache, sizes, o, end)
  {
    forall j: nat ensures ZeroFrom(c, flash, cache, j, Reach(sizes, j, o, end)) {
      assert ZeroFrom(c, flash, cache, j, SizeOf(sizes, j));
    }
  }

  /** What became of the attempt to write `d`, which lies in one chunk, at `off`. */
  ghost predicate PartResult(c: nat, f1: Flash, c1: Cache, f2: Flash, c2: Cache, o: nat, off: nat, d: Bytes, ok: bool,
                             lost: bool)
    requires c > 0
  {
    var k := Key(o, Quo(c, off) + 1);
    && |View(c, f1, c1, k)| == c && (lost ==> !ok)
    && (ok ==> Rem(c, off) + |d| <= c && Wrote(c, f1, c1, f2, c2, k, Splice(View(c, f1, c1, k), Rem(c, off), d)))
    && (!ok && !lost ==> Settled(c, f1, c1, f2, c2))
    && (lost ==> Rem(c, off) == 0 && Wrote(c, f1, c1, f2, c2, k, OnFlash(c, f1, k)))
  }

  /** An attempt to write the next part of a request was made. */
  lemma PartDone(c: nat, f0: Flash, c0: Cache, f1: Flash, c1: Cache, f2: Flash, c2: Cache, sizes: map<nat, nat>,
                 o: nat, offset: nat, data: Bytes, m: nat, n: nat, ok: bool, lost: bool)
    requires c > 0 && m + n <= |data| && CacheOk(c, f1, c1)
    requires Patched(c, f0, c0, f1, c1, o, offset, Clip(c, offset, data[..m]))
             && ZeroBeyond(c, f1, c1, sizes, o, offset + m)
    requires PartResult(c, f1, c1, f2, c2, o, offset + m, data[m..m + n], ok, lost)
    ensures lost ==> !ok
    ensures ZeroBeyond(c, f2, c2, sizes, o, if ok then offset + m + n else offset + m)
    ensures !lost ==> Patched(c, f0, c0, f2, c2, o, offset, Clip(c, offset, data[..if ok then m + n else m]))
    ensures lost ==> PatchedBelow(c, f0, c0, f2, c2, o, offset, Clip(c, offset, data[..m]))
  {
    hide CacheOk, ZeroBeyond, Patched, Wrote, Settled, PatchedBelow, Clip, InReach;
    var off := offset + m;
    if ok {
      if InReach(c, off) {
        PartWritten(c, f0, c0, f1, c1, f2, c2, sizes, o, offset, data, m, n);
      } else {
        PartDropped(c, f0, c0, f1, c1, f2, c2, sizes, o, offset, data, m, n);
      }
    } else if lost {
      LostPart(c, f1, c1, f2, c2, sizes, o, off, Key(o, Quo(c, off) + 1));
      LostBelow(c, f0, c0, f1, c1, f2, c2, o, offset, Clip(c, offset, data[..m]));
    } else {
      SettledContent(c, f1, c1, f2, c2);
      ZeroSettled(c, f1, c1, f2, c2, sizes, o, off);
      PatchedSettled(c, f0, c0, f1, c1, f2, c2, o, offset, Clip(c, offset, data[..m]));
    }
  }

  /** A part that lies in one chunk is within reach as a whole, or not at all. */
  lemma PartReach(c: nat, off: nat, n: nat)
    requires c > 0 && Rem(c, off) + n <= c
    ensures forall pos: nat :: off <= pos < off + n ==> (InReach(c, pos) <==> InReach(c, off))
  {
    forall pos: nat | off <= pos < off + n ensures InReach(c, pos) <==> InReach(c, off) { InPart(c, off, n, pos); }
  }

  /** Two parts of a request, clipped, are the request clipped. */
  lemma ClipNext(c: nat, offset: nat, data: Bytes, m: nat, n: nat)
    requires c > 0 && m + n <= |data| && Rem(c, offset + m) + n <= c
    ensures forall i :: 0 <= i < m ==> Clip(c, offset, data[..m + n])[i] == Clip(c, offset, data[..m])[i]
    ensures forall i :: m <= i < m + n ==>
              Clip(c, offset, data[..m + n])[i] == if InReach(c, offset + m) then data[i] else 0
  {
    hide InReach;
    PartReach(c, offset + m, n);
    forall i | m <= i < m + n
      ensures Clip(c, offset, data[..m + n])[i] == if InReach(c, offset + m) then data[i] else 0
    {
      var pos: nat := offset + i;
      assert InReach(c, pos) <==> InReach(c, offset + m);
    }
  }

  /** The next part of a request was written. */
  lemma PartWritten(c: nat, f0: Flash, c0: Cache, f1: Flash, c1: Cache, f2: Flash, c2: Cache, sizes: map<nat, nat>,
                    o: nat, offset: nat, data: Bytes, m: nat, n: nat)
    requires c > 0 && m + n <= |data| && CacheOk(c, f1, c1) && Rem(c, offset + m) + n <= c && InReach(c, offset + m)
    requires Patched(c, f0, c0, f1, c1, o, offset, Clip(c, offset, data[..m]))
    requires ZeroBeyond(c, f1, c1, sizes, o, offset + m)
    requires var off := offset + m; var k := Key(o, Quo(c, off) + 1);
             && |View(c, f1, c1, k)| == c
             && Wrote(c, f1, c1, f2, c2, k, Splice(View(c, f1, c1, k), Rem(c, off), data[m..m + n]))
    ensures Patched(c, f0, c0, f2, c2, o, offset, Clip(c, offset, data[..m + n]))
    ensures ZeroBeyond(c, f2, c2, sizes, o, offset + m + n)
  {
    hide CacheOk, ZeroFrom, Wrote, View, Content;
    var off, d := offset + m, data[m..m + n];
    WrotePatches(c, f1, c1, f2, c2, o, off, d);
    ClipNext(c, offset, data, m, n);
    TwoPatches(c, f0, c0, f1, c1, f2, c2, o, offset, Clip(c, offset, data[..m]), d, Clip(c, offset, data[..m + n]));
    var end := off + n;
    forall j: nat ensures ZeroFrom(c, f2, c2, j, Reach(sizes, j, o, end)) {
      assert ZeroFrom(c, f1, c1, j, Reach(sizes, j, o, off));
      Farther(c, f1, c1, j, Reach(sizes, j, o, off), Reach(sizes, j, o, end));
      WroteZeroFrom(c, f1, c1, f2, c2, o, off, d, j, Reach(sizes, j, o, end));
    }
  }

  lemma TwoPatches(c: nat, f0: Flash, c0: Cache, f1: Flash, c1: Cache, f2: Flash, c2: Cache, o: nat, offset: nat,
                   d0: Bytes, d1: Bytes, d: Bytes)
    requires c > 0 && Patched(c, f0, c0, f1, c1, o, offset, d0) && Patched(c, f1, c1, f2, c2, o, offset + |d0|, d1)
    requires |d| == |d0| + |d1| && (forall i :: 0 <= i < |d0| ==> d[i] == d0[i])
    requires forall i :: |d0| <= i < |d| ==> d[i] == d1[i - |d0|]
    ensures Patched(c, f0, c0, f2, c2, o, offset, d)
  {
    hide Content;
    forall j: nat, pos: nat
      ensures Content(c, f2, c2, j, pos) ==
              if j == o && offset <= pos < offset + |d| then d[pos - offset] else Content(c, f0, c0, j, pos)
    {
      var off := offset + |d0|;
      assert Content(c, f2, c2, j, pos) ==
        if j == o && off <= pos < off + |d1| then d1[pos - off] else Content(c, f1, c1, j, pos);
      assert Content(c, f1, c1, j, pos) ==
        if j == o && offset <= pos < offset + |d0| then d0[pos - offset] else Content(c, f0, c0, j, pos);
    }
  }

  /** The next part of a request lies beyond what flash can hold, and was dropped. */
  lemma PartDropped(c: nat, f0: Flash, c0: Cache, f1: Flash, c1: Cache, f2: Flash, c2: Cache, sizes: map<nat, nat>,
                    o: nat, offset: nat, data: Bytes, m: nat, n: nat)
    requires c > 0 && m + n <= |data| && Rem(c, offset + m) + n <= c && !InReach(c, offset + m)
    requires Patched(c, f0, c0, f1, c1, o, offset, Clip(c, offset, data[..m]))
    requires ZeroBeyond(c, f1, c1, sizes, o, offset + m)
    requires var off := offset + m; var k := Key(o, Quo(c, off) + 1);
             && |View(c, f1, c1, k)| == c
             && Wrote(c, f1, c1, f2, c2, k, Splice(View(c, f1, c1, k), Rem(c, off), data[m..m + n]))
    ensures Patched(c, f0, c0, f2, c2, o, offset, Clip(c, offset, data[..m + n]))
    ensures ZeroBeyond(c, f2, c2, sizes, o, offset + m + n)
  {
    hide Wrote, Settled, View, ByteOf, ZeroFrom;
    var off := offset + m;
    var k := Key(o, Quo(c, off) + 1);
    var d := Splice(View(c, f1, c1, k), Rem(c, off), data[m..m + n]);
    WroteNothing(c, f1, c1, f2, c2, k, d, d);
    SettledContent(c, f1, c1, f2, c2);
    ZeroSettled(c, f1, c1, f2, c2, sizes, o, off);
    PartReach(c, off, n);
    ClipNext(c, offset, data, m, n);
    ZeroPatch(c, f1, c1, f2, c2, o, off, Fill(n, 0));
    TwoPatches(c, f0, c0, f1, c1, f2, c2, o, offset, Clip(c, offset, data[..m]), Fill(n, 0),
               Clip(c, offset, data[..m + n]));
    var end := off + n;
    forall j: nat ensures ZeroFrom(c, f2, c2, j, Reach(sizes, j, o, end)) {
      assert ZeroFrom(c, f2, c2, j, Reach(sizes, j, o, off));
      Farther(c, f2, c2, j, Reach(sizes, j, o, off), Reach(sizes, j, o, end));
    }
  }

  /** Beyond what flash can hold there are zeros only. */
  lemma ZeroPatch(c: nat, f1: Flash, c1: Cache, f2: Flash, c2: Cache, o: nat, off: nat, d: Bytes)
    requires c > 0 && SameContent(c, f1, c1, f2, c2) && forall i :: 0 <= i < |d| ==> d[i] == 0
    requires forall pos: nat :: off <= pos < off + |d| ==> !InReach(c, pos)
    ensures Patched(c, f1, c1, f2, c2, o, off, d)
  {
    hide View, OnFlash;
    forall j: nat, pos: nat
      ensures Content(c, f2, c2, j, pos) ==
              if j == o && off <= pos < off + |d| then d[pos - off] else Content(c, f1, c1, j, pos)
    {
      ContentAt(c, f1, c1, f2, c2, j, pos);
      if off <= pos < off + |d| { assert !InReach(c, pos); }
    }
  }

  lemma Farther(c: nat, flash: Flash, cache: Cache, o: nat, size: nat, size': nat)
    requires c > 0 && ZeroFrom(c, flash, cache, o, size) && size <= size'
    ensures ZeroFrom(c, flash, cache, o, size')
  {
  }

  lemma ZeroSettled(c: nat, f1: Flash, c1: Cache, f2: Flash, c2: Cache, sizes: map<nat, nat>, o: nat, end: nat)
    requires c > 0 && Settled(c, f1, c1, f2, c2) && ZeroBeyond(c, f1, c1, sizes, o, end)
    ensures ZeroBeyond(c, f2, c2, sizes, o, end)
  {
    hide Settled;
    SettledContent(c, f1, c1, f2, c2);
    forall j: nat ensures ZeroFrom(c, f2, c2, j, Reach(sizes, j, o, end)) {
      assert ZeroFrom(c, f1, c1, j, Reach(sizes, j, o, end));
    }
  }

  lemma Reached(c: nat, flash: Flash, cache: Cache, sizes: map<nat, nat>, sizes': map<nat, nat>, o: nat, end: nat)
    requires c > 0 && ZeroBeyond(c, flash, cache, sizes, o, end)
    requires forall j: nat :: SizeOf(sizes', j) == Reach(sizes, j, o, end)
    ensures forall j: nat :: ZeroFrom(c, flash, cache, j, SizeOf(sizes', j))
  {
    forall j: nat ensures ZeroFrom(c, flash, cache, j, SizeOf(sizes', j)) {
      assert ZeroFrom(c, flash, cache, j, Reach(sizes, j, o, end));
    }
  }

  /** Losing a chunk leaves what lies before it as it was written. */
  lemma LostBelow(c: nat, f0: Flash, c0: Cache, f1: Flash, c1: Cache, f2: Flash, c2: Cache, o: nat, offset: nat,
                  d: Bytes)
    requires c > 0 && Patched(c, f0, c0, f1, c1, o, offset, d) && Rem(c, offset + |d|) == 0
    requires var k := Key(o, Quo(c, offset + |d|) + 1); Wrote(c, f1, c1, f2, c2, k, OnFlash(c, f1, k))
    ensures PatchedBelow(c, f0, c0, f2, c2, o, offset, d)
  {
    hide Wrote, View, OnFlash;
    var off := offset + |d|;
    var k := Key(o, Quo(c, off) + 1);
    forall j: nat, pos: nat | j != o || pos < off
      ensures Content(c, f2, c2, j, pos) ==
        if j == o && offset <= pos < offset + |d| then d[pos - offset] else Content(c, f0, c0, j, pos)
    {
      InPart(c, off, c, pos);
      Split(c, pos);
      if InReach(c, pos) { WroteAt(c, f1, c1, f2, c2, k, OnFlash(c, f1, k), Key(j, Quo(c, pos) + 1)); }
      assert Content(c, f1, c1, j, pos) == if j == o && offset <= pos < offset + |d| then d[pos - offset]
        else Content(c, f0, c0, j, pos);
    }
  }

  lemma LostPart(c: nat, f1: Flash, c1: Cache, f2: Flash, c2: Cache, sizes: map<nat, nat>, o: nat, end: nat, k: Key)
    requires c > 0 && Wrote(c, f1, c1, f2, c2, k, OnFlash(c, f1, k))
    requires ZeroBeyond(c, f1, c1, sizes, o, end)
    ensures ZeroBeyond(c, f2, c2, sizes, o, end)
  {
    hide Wrote, View, OnFlash;
    forall j: nat ensures ZeroFrom(c, f2, c2, j, Reach(sizes, j, o, end)) {
      assert ZeroFrom(c, f1, c1, j, Reach(sizes, j, o, end));
      forall pos: nat | pos >= Reach(sizes, j, o, end)
        ensures Content(c, f2, c2, j, pos) == 0 && FlashContent(c, f2, j, pos) == 0
      {
        assert Content(c, f1, c1, j, pos) == 0 && FlashContent(c, f1, j, pos) == 0;
        if InReach(c, pos) { WroteAt(c, f1, c1, f2, c2, k, OnFlash(c, f1, k), Key(j, Quo(c, pos) + 1)); }
      }
    }
  }

  lemma PatchedSettled(c: nat, f0: Flash, c0: Cache, f1: Flash, c1: Cache, f2: Flash, c2: Cache, o: nat, offset: nat,
                       d: Bytes)
    requires c > 0 && Patched(c, f0, c0, f1, c1, o, offset, d) && SameContent(c, f1, c1, f2, c2)
    ensures Patched(c, f0, c0, f2, c2, o, offset, d)
  {
    forall j: nat, pos: nat
      ensures Content(c, f2, c2, j, pos) ==
              if j == o && offset <= pos < offset + |d| then d[pos - offset] else Content(c, f0, c0, j, pos)
    {
      assert Content(c, f2, c2, j, pos) == Content(c, f1, c1, j, pos);
    }
  }

  lemma PatchedBytes(c: nat, f0: Flash, c0: Cache, f1: Flash, c1: Cache, o: nat, offset: nat, d: Bytes, size: nat)
    requires c > 0 && Patched(c, f0, c0, f1, c1, o, offset, d) && ZeroFrom(c, f0, c0, o, size)
    ensures FileBytes(c, f1, c1, o, Max(size, offset + |d|)) == Patch(FileBytes(c, f0, c0, o, size), offset, d)
    ensures PatchedBelow(c, f0, c0, f1, c1, o, offset, d)
  {
    hide Content, Patch;
    forall i | 0 <= i < Max(size, offset + |d|)
      ensures FileBytes(c, f1, c1, o, Max(size, offset + |d|))[i] == Patch(FileBytes(c, f0, c0, o, size), offset, d)[i]
    {
      assert Content(c, f1, c1, o, i) == if offset <= i < offset + |d| then d[i - offset] else Content(c, f0, c0, o, i);
    }
  }

  /** Only use counters changed, and clean entries may have been marked dirty. */
  lemma Touched(c: nat, flash: Flash, cache: Cache, cache': Cache)
    requires CacheOk(c, flash, cache) && |cache'| == |cache|
    requires forall j :: 0 <= j < |cache| ==>
             cache'[j] ==
             cache[j].(lastUse := cache'[j].lastUse, dirty := cache'[j].dirty)
    requires forall j :: 0 <= j < |cache| && cache[j].dirty ==> cache'[j].dirty
    ensures CacheOk(c, flash, cache') && Settled(c, flash, cache, flash, cache')
  {
    forall k ensures View(c, flash, cache', k) == View(c, flash, cache, k) {
      var i := IndexOf(cache, k);
      if i >= 0 { assert cache'[i].owner == Some(k); ViewIs(c, flash, cache', i); }
    }
  }

  lemma SettledAt(c: nat, flash: Flash, cache: Cache, flash': Flash, cache': Cache, k: Key)
    requires Settled(c, flash, cache, flash', cache') && Small(k)
    ensures View(c, flash', cache', k) == View(c, flash, cache, k)
  {
  }

  lemma SettledSame(c: nat, flash: Flash, cache: Cache)
    ensures Settled(c, flash, cache, flash, cache)
  {
  }
}
