/**
 Saving a checkpoint and restoring it.  The block records are streamed out while the states of blocks are still being
 changed by the streaming itself; restoring the stream gives back the states after the save all the same.  That a save
 reports success does not mean that there is something to restore.
 */
module CheckptSave {
  import opened CheckptObjs
  import opened CheckptStream
  import opened CheckptTnodes
  import opened ChunkMath
  import opened Common
  import opened Octets
  import T = TnodeTree

  const MAGIC := 0x5941ff53
  const VERSION := 6
  const INFO_BYTES := 8

  // ---------- Block records ----------

  function Code(s: State): (c: Byte)
    ensures c < 10
  {
    match s
    case Unknown => 0 case Scanning => 1 case NeedsScan => 2 case Empty => 3 case Allocating => 4
    case Full => 5 case Dirty => 6 case Checkpoint => 7 case Collecting => 8 case Dead => 9
  }

  function StateOf(c: Byte): State {
    if c == 1 then Scanning else if c == 2 then NeedsScan else if c == 3 then Empty else if c == 4 then Allocating
    else if c == 5 then Full else if c == 6 then Dirty else if c == 7 then Checkpoint else if c == 8 then Collecting
    else if c == 9 then Dead else Unknown
  }

  /** Byte `i` of a block record: the state is in the upper half of byte 2, `raw` has all the rest. */
  function InfoByte(raw: Bytes, s: State, i: nat): Byte
    requires |raw| == INFO_BYTES && i < INFO_BYTES
  {
    if i == 2 then raw[2] % 16 + 16 * Code(s) else raw[i]
  }

  predicate RawOk(raws: seq<Bytes>) {
    forall b :: 0 <= b < |raws| ==> |raws[b]| == INFO_BYTES && raws[b][2] < 16
  }

  lemma StateBack(x: Byte, s: State)
    requires x < 16
    ensures StateOf((x % 16 + 16 * Code(s)) / 16) == s && (x % 16 + 16 * Code(s)) % 16 == x
  {
  }

  /** Byte `i` of the block records that start with the one of block `start`. */
  function LiveByte(states: seq<State>, raws: seq<Bytes>, start: nat, i: nat): Byte
    requires RawOk(raws) && i < INFO_BYTES * |raws| && |states| == start + |raws|
  {
    InfoByte(raws[i / INFO_BYTES], states[start + i / INFO_BYTES], i % INFO_BYTES)
  }

  /** A byte of the block records as streamed out: as it would be now, or as it was when the block was still erased. */
  predicate ByteOk(infos: Bytes, states: seq<State>, blocks: seq<int>, raws: seq<Bytes>, start: nat, i: nat)
    requires RawOk(raws) && i < |infos| <= INFO_BYTES * |raws| && |states| == start + |raws|
  {
    || infos[i] == LiveByte(states, raws, start, i)
    || (&& start + i / INFO_BYTES in blocks && states[start + i / INFO_BYTES].Checkpoint?
        && infos[i] == InfoByte(raws[i / INFO_BYTES], Empty, i % INFO_BYTES))
  }

  ghost predicate Restorable(infos: Bytes, states: seq<State>, blocks: seq<int>, raws: seq<Bytes>, start: nat) {
    && RawOk(raws) && |infos| <= INFO_BYTES * |raws| && |states| == start + |raws|
    && forall i :: 0 <= i < |infos| ==> ByteOk(infos, states, blocks, raws, start, i)
  }

  /** Claiming more blocks for the checkpoint does not spoil what has been streamed out. */
  lemma StillRestorable(infos: Bytes, states: seq<State>, log: seq<Loc>, states': seq<State>, log': seq<Loc>,
                        raws: seq<Bytes>, start: nat)
    requires Restorable(infos, states, BlocksOf(log), raws, start) && Claimed(states, log, states', log')
    ensures |states'| == start + |raws| && Restorable(infos, states', BlocksOf(log'), raws, start)
  {
    hide BlocksOf, RawOk, InfoByte;
    forall i | 0 <= i < |infos| ensures ByteOk(infos, states', BlocksOf(log'), raws, start, i) {
      assert ByteOk(infos, states, BlocksOf(log), raws, start, i);
      var b := start + i / INFO_BYTES;
      if b in BlocksOf(log) { BlocksStay(log, log', b); }
      assert states'[b] == states[b] || (states[b].Empty? && states'[b].Checkpoint? && b in BlocksOf(log'));
    }
  }

  lemma NothingStreamed(states: seq<State>, blocks: seq<int>, raws: seq<Bytes>, start: nat)
    requires RawOk(raws) && |states| == start + |raws|
    ensures Restorable([], states, blocks, raws, start)
  {
  }

  lemma RestorableMore(infos: Bytes, states: seq<State>, blocks: seq<int>, raws: seq<Bytes>, start: nat)
    requires Restorable(infos, states, blocks, raws, start) && |infos| < INFO_BYTES * |raws|
    ensures Restorable(infos + [LiveByte(states, raws, start, |infos|)], states, blocks, raws, start)
  {
    var infos' := infos + [LiveByte(states, raws, start, |infos|)];
    forall i | 0 <= i < |infos'| ensures ByteOk(infos', states, blocks, raws, start, i) {
      if i < |infos| { assert ByteOk(infos, states, blocks, raws, start, i); }
    }
  }

  /** What a block record read back says. */
  lemma RecordBack(infos: Bytes, states: seq<State>, blocks: seq<int>, raws: seq<Bytes>, start: nat, b: nat)
    requires Restorable(infos, states, blocks, raws, start) && |infos| == INFO_BYTES * |raws| && b < |raws|
    ensures var r := infos[INFO_BYTES * b..INFO_BYTES * b + INFO_BYTES]; var s := StateOf(r[2] / 16);
            && r[2 := r[2] % 16] == raws[b]
            && (s == states[start + b] || (start + b in blocks && states[start + b].Checkpoint? && s.Empty?))
  {
    hide ByteOk, RawOk, Code, StateOf;
    var r := infos[INFO_BYTES * b..INFO_BYTES * b + INFO_BYTES];
    RecordByte(infos, states, blocks, raws, start, b, 2);
    forall k | 0 <= k < INFO_BYTES ensures r[2 := r[2] % 16][k] == raws[b][k] {
      RecordByte(infos, states, blocks, raws, start, b, k);
    }
  }

  lemma RecordByte(infos: Bytes, states: seq<State>, blocks: seq<int>, raws: seq<Bytes>, start: nat, b: nat, k: nat)
    requires Restorable(infos, states, blocks, raws, start) && |infos| == INFO_BYTES * |raws| && b < |raws|
             && k < INFO_BYTES
    ensures var x, s := infos[INFO_BYTES * b + k], StateOf(infos[INFO_BYTES * b + k] / 16);
            && |raws[b]| == INFO_BYTES
            && raws[b][k] == (if k == 2 then x % 16 else x)
            && (k == 2 ==> s == states[start + b] || (start + b in blocks && states[start + b].Checkpoint? && s.Empty?))
  {
    hide Code, StateOf;
    var i := INFO_BYTES * b + k;
    assert i / INFO_BYTES == b && i % INFO_BYTES == k;
    assert ByteOk(infos, states, blocks, raws, start, i);
    StateBack(raws[b][2], states[start + b]);
    StateBack(raws[b][2], Empty);
  }

  // ---------- The parts of a checkpoint ----------

  /** Device values that go into a checkpoint besides the numbers of erased blocks and of free chunks. */
  datatype Counters = Counters(allocBlock: int, allocPage: int, nDeleted: int, nUnlinked: int, nBgDeletions: int,
                               seqNumber: int)

  predicate Storable(nErased: int, nFree: int, c: Counters) {
    && In32(nErased) && In32(nFree) && In32(c.allocBlock) && In32(c.nDeleted) && In32(c.nUnlinked)
    && In32(c.nBgDeletions) && 0 <= c.allocPage < 0x1_0000_0000 && 0 <= c.seqNumber < 0x1_0000_0000
  }

  function Marker(head: int): (s: Bytes)
    ensures |s| == 16
  {
    Words([16, MAGIC, VERSION, head])
  }

  /** Its bytes: its length, the magic number, the version, and whether it is the first or the last one. */
  lemma MarkerBytes(head: nat)
    requires head < 2
    ensures Marker(head) == [16, 0, 0, 0, 0x53, 0xff, 0x41, 0x59, 6, 0, 0, 0, head, 0, 0, 0]
  {
    var xs := [16, MAGIC, VERSION, head];
    assert xs[..3][..2] == xs[..2] && xs[..2][..1] == xs[..1] && xs[..1][..0] == [];
    assert Words(xs) == Words(xs[..3]) + Le4(head);
    assert Words(xs[..3]) == Words(xs[..2]) + Le4(VERSION);
    assert Words(xs[..2]) == Words(xs[..1]) + Le4(MAGIC);
    assert Words(xs[..1]) == Le4(16);
    SmallBytes(16); SmallBytes(VERSION); SmallBytes(head);
    MagicBytes();
  }

  lemma SmallBytes(x: nat)
    requires x < 256
    ensures Le4(x) == [x, 0, 0, 0]
  {
    assert Octet(x, 3) == Octet(0, 2) == Octet(0, 1) == Octet(0, 0);
  }

  lemma MagicBytes()
    ensures Le4(MAGIC) == [0x53, 0xff, 0x41, 0x59]
  {
    assert Octet(MAGIC, 1) == Octet(0x5941ff, 0) && Octet(MAGIC, 2) == Octet(0x5941ff, 1) == Octet(0x5941, 0);
    assert Octet(MAGIC, 3) == Octet(0x5941ff, 2) == Octet(0x5941, 1) == Octet(0x59, 0);
  }

  function DevBytes(nErased: int, nFree: int, c: Counters): (s: Bytes)
    ensures |s| == 36
  {
    Words([36, nErased, c.allocBlock, c.allocPage, nFree, c.nDeleted, c.nUnlinked, c.nBgDeletions, c.seqNumber])
  }

  function ErasedOf(d: Bytes): int
    requires |d| == 36
  {
    Signed4(WordAt(d, 1))
  }

  function FreeOf(d: Bytes): int
    requires |d| == 36
  {
    Signed4(WordAt(d, 4))
  }

  function CountersOf(d: Bytes): Counters
    requires |d| == 36
  {
    Counters(Signed4(WordAt(d, 2)), Unsigned4(WordAt(d, 3)), Signed4(WordAt(d, 5)), Signed4(WordAt(d, 6)),
             Signed4(WordAt(d, 7)), Unsigned4(WordAt(d, 8)))
  }

  lemma CountersBack(nErased: int, nFree: int, c: Counters)
    ensures var d := DevBytes(nErased, nFree, c);
            && WordAt(d, 0) == Le4(36)
            && (Storable(nErased, nFree, c) ==> ErasedOf(d) == nErased && FreeOf(d) == nFree && CountersOf(d) == c)
  {
    hide Words, WordAt, Le4, Signed4, Unsigned4;
    var xs := [36, nErased, c.allocBlock, c.allocPage, nFree, c.nDeleted, c.nUnlinked, c.nBgDeletions, c.seqNumber];
    WordsAt(xs, 0);
    WordsAt(xs, 1); Le4Back(xs[1]);
    WordsAt(xs, 2); Le4Back(xs[2]);
    WordsAt(xs, 3); Le4Back(xs[3]);
    WordsAt(xs, 4); Le4Back(xs[4]);
    WordsAt(xs, 5); Le4Back(xs[5]);
    WordsAt(xs, 6); Le4Back(xs[6]);
    WordsAt(xs, 7); Le4Back(xs[7]);
    WordsAt(xs, 8); Le4Back(xs[8]);
  }

  /** What comes before the checksum. */
  function Body(dev: Bytes, infos: Bytes, bits: Bytes, objs: Bytes): Bytes {
    Marker(1) + dev + infos + bits + objs + Marker(0)
  }

  /** The checksum: the sum without its highest byte, then the exclusive or. */
  function Composite(sum: nat, xor: Byte): nat { sum * 256 % 0x1_0000_0000 + xor }

  function SumBytes(body: Bytes): (s: Bytes)
    ensures |s| == 4
  {
    Le4(Composite(SumOf(body), XorOf(body)))
  }

  /** A whole checkpoint. */
  function Checkpt(dev: Bytes, infos: Bytes, bits: Bytes, objs: Bytes): Bytes {
    Body(dev, infos, bits, objs) + SumBytes(Body(dev, infos, bits, objs))
  }

  /** The size of a checkpoint. */
  function Needed(nBlocks: nat, nBits: nat, nObjs: nat): nat { 16 + 36 + INFO_BYTES * nBlocks + nBits + nObjs + 16 + 4 }

  lemma CheckptLength(dev: Bytes, infos: Bytes, bits: Bytes, objs: Bytes, nBlocks: nat)
    requires |dev| == 36 && |infos| == INFO_BYTES * nBlocks
    ensures |Body(dev, infos, bits, objs)| + 4 == Needed(nBlocks, |bits|, |objs|) == |Checkpt(dev, infos, bits, objs)|
  {
  }

  /** What a checkpoint says. */
  datatype Image = Image(dev: Bytes, infos: Bytes, bits: Bytes, objs: seq<ObjRead>)

  /** The checkpoint that `v` starts with; it has `n` block records and `nBits` bytes of chunk bits. */
  function ParseCheckpt(v: Bytes, n: nat, nBits: nat, width: nat, types: Types): (r: Parsed<Image>)
    requires width % 2 == 0
    ensures r.Got? ==>
            r.at <= |v| && |r.value.dev| == 36 && |r.value.infos| == INFO_BYTES * n
            && |r.value.bits| == nBits
  {
    var i, b, p := 52, 52 + INFO_BYTES * n, 52 + INFO_BYTES * n + nBits;
    if p > |v| || v[..16] != Marker(1) || WordAt(v[16..52], 0) != Le4(36) then Failed
    else
      var objs := ParseObjs(v, p, width, types);
      if objs.Failed? then Failed
      else if !ParseEnd(v, objs.at) then Failed
      else Got(Image(v[16..i], v[i..b], v[b..p], objs.value), objs.at + 20)
  }

  /** The second marker and the right checksum stand at `q`. */
  predicate ParseEnd(v: Bytes, q: nat) {
    q + 20 <= |v| && v[q..q + 16] == Marker(0) && v[q + 16..q + 20] == SumBytes(v[..q + 16])
  }

  /** A whole checkpoint says what was put into it, if its objects can be entered. */
  lemma CheckptParses(v: Bytes, dev: Bytes, infos: Bytes, bits: Bytes, objs: seq<ObjRead>, n: nat, width: nat,
                      types: Types)
    requires width % 2 == 0 && ReadsOk(objs, width) && |dev| == 36 && WordAt(dev, 0) == Le4(36)
    requires |infos| == INFO_BYTES * n && Checkpt(dev, infos, bits, ObjsBytes(objs)) <= v
    ensures ParseCheckpt(v, n, |bits|, width, types) ==
            if Compatible(types, objs)
            then Got(Image(dev, infos, bits, objs), |Checkpt(dev, infos, bits, ObjsBytes(objs))|) else Failed
  {
    hide WordAt, Le4, Marker, SumOf, XorOf, ParseObjs, ObjsBytes, Sits, ReadsOk, Enters, Compatible, SumBytes;
    var body, b := Body(dev, infos, bits, ObjsBytes(objs)), ObjsBytes(objs);
    var p := 52 + |infos| + |bits|;
    Layers(v, dev, infos, bits, b);
    StandsAt(v, p, b);
    ObjsParse(v, p, objs, width, types);
    EntersIff(types, objs);
  }

  lemma StandsAt(v: Bytes, pos: nat, b: Bytes)
    requires pos + |b| <= |v| && v[pos..pos + |b|] == b
    ensures Sits(v, pos, b)
  {
  }

  /** Where the parts are. */
  lemma Layers(v: Bytes, dev: Bytes, infos: Bytes, bits: Bytes, objs: Bytes)
    requires |dev| == 36 && Checkpt(dev, infos, bits, objs) <= v
    ensures var b := 52 + |infos|; var p := b + |bits|; var q := p + |objs|;
            && q + 20 == |Checkpt(dev, infos, bits, objs)| <= |v| && v[..16] == Marker(1) && v[16..52] == dev
            && v[52..b] == infos && v[b..p] == bits && v[p..q] == objs && ParseEnd(v, q)
  {
    hide Marker, SumBytes;
    var b := 52 + |infos|;
    var p := b + |bits|;
    var q := p + |objs|;
    var body, w := Body(dev, infos, bits, objs), Checkpt(dev, infos, bits, objs);
    LayersOf(dev, infos, bits, objs);
    Same(v, w, 0, 16); Same(v, w, 16, 52); Same(v, w, 52, b); Same(v, w, b, p); Same(v, w, p, q);
    Same(v, w, q, q + 16); Same(v, w, q + 16, q + 20); Same(v, w, 0, q + 16);
    hide Checkpt, Body;
  }

  lemma LayersOf(dev: Bytes, infos: Bytes, bits: Bytes, objs: Bytes)
    requires |dev| == 36
    ensures var b := 52 + |infos|; var p := b + |bits|; var q := p + |objs|;
            var body, w := Body(dev, infos, bits, objs), Checkpt(dev, infos, bits, objs);
            && q + 20 == |w| && w[0..16] == Marker(1) && w[16..52] == dev && w[52..b] == infos && w[b..p] == bits
            && w[p..q] == objs && w[q..q + 16] == Marker(0) && w[0..q + 16] == body
              && w[q + 16..q + 20] == SumBytes(body)
  {
    hide Marker, SumBytes;
  }

  lemma Same(v: Bytes, w: Bytes, i: nat, j: nat)
    requires w <= v && i <= j <= |w|
    ensures v[i..j] == w[i..j] && (i == 0 ==> v[..j] == v[i..j])
  {
    assert v[..|w|][i..j] == v[i..j];
  }

  /** The beginning of a checkpoint says the same as the checkpoint. */
  lemma CheckptStable(v: Bytes, v': Bytes, n: nat, nBits: nat, width: nat, types: Types)
    requires v <= v' && width % 2 == 0 && ParseCheckpt(v, n, nBits, width, types).Got?
    ensures ParseCheckpt(v', n, nBits, width, types) == ParseCheckpt(v, n, nBits, width, types)
  {
    hide WordAt, Le4, Marker, SumBytes, ParseObjs;
    var i, b, p := 52, 52 + INFO_BYTES * n, 52 + INFO_BYTES * n + nBits;
    ObjsStable(v, v', p, width, types);
    var q := ParseObjs(v, p, width, types).at;
    assert v'[..16] == v[..16] && v'[16..52] == v[16..52] && v'[i..b] == v[i..b] && v'[b..p] == v[b..p];
    assert v'[q..q + 16] == v[q..q + 16] && v'[q + 16..q + 20] == v[q + 16..q + 20] && v'[..q + 16] == v[..q + 16];
  }

  /** A checkpoint that is cut off says nothing. */
  lemma CutCheckpt(v: Bytes, dev: Bytes, infos: Bytes, bits: Bytes, objs: seq<ObjRead>, n: nat, width: nat,
                   types: Types)
    requires width % 2 == 0 && ReadsOk(objs, width) && |dev| == 36 && WordAt(dev, 0) == Le4(36)
    requires |infos| == INFO_BYTES * n
    requires var w := Checkpt(dev, infos, bits, ObjsBytes(objs)); v <= w && |v| < |w|
    ensures ParseCheckpt(v, n, |bits|, width, types).Failed?
  {
    hide WordAt, Le4, ParseCheckpt, Checkpt, ReadsOk;
    var w := Checkpt(dev, infos, bits, ObjsBytes(objs));
    if ParseCheckpt(v, n, |bits|, width, types).Got? {
      CheckptStable(v, w, n, |bits|, width, types);
      CheckptParses(w, dev, infos, bits, objs, n, width, types);
    }
  }

  // ---------- Saving ----------

  /** What fits into the pages of all erased blocks and into the buffer. */
  function Limit(bpc: nat, cpb: nat, nErased: int): int { Size(bpc, Pages(cpb, nErased)) + bpc }

  /** Streams out the block records as they are at the moment at which each byte is written. */
  method WrBlockInfo(s: Stream, raws: seq<Bytes>) returns (ok: bool, ghost infos: Bytes)
    requires s.Open() && RawOk(raws) && |s.states| == s.start + |raws|
    modifies s, s.buffer
    ensures s.Open() && s.nErased == old(s.nErased) && s.nFree == old(s.nFree)
    ensures s.all == old(s.all) + infos && Restorable(infos, s.states, BlocksOf(s.log), raws, s.start)
    ensures |s.states| == |old(s.states)|
    ensures |infos| <= INFO_BYTES * |raws| && (ok <==> |infos| == INFO_BYTES * |raws|)
    ensures !ok ==> |s.all| >= Limit(s.bpc, s.cpb, s.nErased)
  {
    hide *;
    infos := [];
    ok := true;
    var i := 0;
    NothingStreamed(s.states, BlocksOf(s.log), raws, s.start);
    LimitIs(s.bpc, s.cpb, s.nErased);
    while i < INFO_BYTES * |raws| && ok
      invariant i == |infos| <= INFO_BYTES * |raws| && s.Open() && s.all == old(s.all) + infos
      invariant |s.states| == s.start + |raws| && Restorable(infos, s.states, BlocksOf(s.log), raws, s.start)
      invariant s.nErased == old(s.nErased) && s.nFree == old(s.nFree)
      invariant !ok ==> |s.all| >= Limit(s.bpc, s.cpb, s.nErased)
    {
      var b := LiveByte(s.states, raws, s.start, i);
      ghost var states0, log0 := s.states, s.log;
      RestorableMore(infos, s.states, BlocksOf(s.log), raws, s.start);
      ok := s.PutByte(b);
      infos := infos + [b];
      StillRestorable(infos, states0, log0, s.states, s.log, raws, s.start);
      i := i + 1;
    }
    ok := i == INFO_BYTES * |raws|;
  }

  lemma LimitIs(bpc: nat, cpb: nat, nErased: int)
    ensures Limit(bpc, cpb, nErased) == Size(bpc, Pages(cpb, nErased)) + bpc
  {
  }

  /** Appends the pieces one after another.  This fails only if not all of them fit. */
  method WrAll(s: Stream, pieces: seq<Bytes>) returns (ok: bool)
    requires s.Open()
    modifies s, s.buffer
    ensures s.Open() && s.nErased == old(s.nErased) && s.nFree == old(s.nFree)
    ensures Claimed(old(s.states), old(s.log), s.states, s.log)
    ensures s.all <= old(s.all) + Flat(pieces) && (ok ==> s.all == old(s.all) + Flat(pieces))
    ensures !ok ==>
            |s.all| >= Limit(s.bpc, s.cpb, s.nErased)
            && |old(s.all) + Flat(pieces)| > Limit(s.bpc, s.cpb, s.nErased)
  {
    hide *;
    var i := 0;
    NothingClaimed(s.states, s.log);
    NothingFlat(pieces);
    LimitIs(s.bpc, s.cpb, s.nErased);
    while i < |pieces|
      invariant 0 <= i <= |pieces|
      invariant s.Open() && s.all == old(s.all) + Flat(pieces[..i])
      invariant Claimed(old(s.states), old(s.log), s.states, s.log)
      invariant s.nErased == old(s.nErased) && s.nFree == old(s.nFree)
    {
      ghost var states0, log0 := s.states, s.log;
      var n := s.Wr(pieces[i]);
      FlatGrows(pieces, i);
      FlatPrefix(pieces, i + 1);
      PieceOf(old(s.all), Flat(pieces[..i]), pieces[i], n, Flat(pieces));
      ClaimedOn(old(s.states), old(s.log), states0, log0, s.states, s.log);
      MinIs(|pieces[i]|, 1);
      MinIs(|pieces[i]|, Limit(s.bpc, s.cpb, s.nErased) - |old(s.all) + Flat(pieces[..i])|);
      if n < |pieces[i]| { return false; }
      assert pieces[i][..n] == pieces[i];
      i := i + 1;
    }
    assert pieces[..|pieces|] == pieces;
    ok := true;
  }

  lemma MinIs(a: int, b: int)
    ensures Min(a, b) == if a <= b then a else b
  {
  }

  lemma NothingFlat(pieces: seq<Bytes>)
    ensures Flat(pieces[..0]) == []
  {
  }

  lemma PieceOf(all: Bytes, before: Bytes, piece: Bytes, n: nat, flat: Bytes)
    requires n <= |piece| && before + piece <= flat
    ensures all + before + piece[..n] <= all + flat
    ensures all + before + piece == all + (before + piece)
    ensures |all + before| + |piece| <= |all + flat|
  {
  }

  /** Ends the stream with the checksum over all that has been written. */
  method WrSum(s: Stream) returns (ok: bool)
    requires s.Open()
    modifies s, s.buffer
    ensures s.Open() && s.nErased == old(s.nErased) && s.nFree == old(s.nFree)
    ensures Claimed(old(s.states), old(s.log), s.states, s.log)
    ensures s.all <= old(s.all) + SumBytes(old(s.all)) && (ok ==> s.all == old(s.all) + SumBytes(old(s.all)))
    ensures ok <==> |old(s.all)| + 4 <= Limit(s.bpc, s.cpb, s.nErased)
    ensures !ok ==> |s.all| >= Limit(s.bpc, s.cpb, s.nErased)
  {
    hide Claimed, Flat, SumOf, XorOf, Stream.Writing, Stream.Broken, Stream.Open, Size, Pages;
    SumIs(s);
    var sum := Le4(Composite(s.sum, s.xor));
    var n := s.Wr(sum);
    ok := n == 4;
    assert ok ==> sum[..n] == sum;
  }

  lemma SumIs(s: Stream)
    requires s.Open()
    ensures s.sum == SumOf(s.all) && s.xor == XorOf(s.all)
  {
    hide Claimed, Flat, SumOf, XorOf, Tidy, Chain, Holds, At, Passed, Size, Pages;
  }

  /** Block records, filled up to their full length. */
  function Filled(infos: Bytes, n: nat): (r: Bytes)
    requires |infos| <= INFO_BYTES * n
    ensures |r| == INFO_BYTES * n && r[..|infos|] == infos
  {
    infos + Zeros(INFO_BYTES * n - |infos|)
  }

  function Blank(n: nat): (r: Bytes)
    ensures |r| == INFO_BYTES * n
  {
    Zeros(INFO_BYTES * n)
  }

  /** All pieces of a checkpoint; `infos` are the block records, filled up if they were not written to the end. */
  method WrParts(s: Stream, raws: seq<Bytes>, c: Counters, bits: Bytes, objs: seq<ObjRead>)
    returns (ok: bool, ghost infos: Bytes)
    requires s.Open() && s.all == [] && RawOk(raws) && |s.states| == s.start + |raws|
    modifies s, s.buffer
    ensures s.Open() && s.nErased == old(s.nErased) && s.nFree == old(s.nFree) && |s.states| == |old(s.states)|
    ensures |infos| == INFO_BYTES * |raws|
    ensures var w := Checkpt(DevBytes(s.nErased, s.nFree, c), infos, bits, ObjsBytes(objs));
            && s.all <= w && (ok ==> s.all == w) && (ok <==> |w| <= Limit(s.bpc, s.cpb, s.nErased))
    ensures ok ==> Restorable(infos, s.states, BlocksOf(s.log), raws, s.start)
    ensures !ok ==> |s.all| >= Limit(s.bpc, s.cpb, s.nErased)
  {
    hide *;
    var dev := DevBytes(s.nErased, s.nFree, c);
    FlatTwo(Marker(1), dev);
    infos := Blank(|raws|);
    PartsOf(dev, infos, bits, objs);
    ok := WrAll(s, [Marker(1), dev]);
    ClaimedLength(old(s.states), old(s.log), s.states, s.log);
    if !ok { return; }
    ghost var some;
    ok, some := WrBlockInfo(s, raws);
    infos := Filled(some, |raws|);
    PartsOf(dev, infos, bits, objs);
    if !ok { return; }
    assert infos[..|infos|] == infos;
    ghost var states0, log0 := s.states, s.log;
    ok := WrAll(s, [bits] + ObjsPieces(objs) + [Marker(0)]);
    ClaimedLength(states0, log0, s.states, s.log);
    StillRestorable(infos, states0, log0, s.states, s.log, raws, s.start);
    FlatFramed(bits, ObjsPieces(objs), Marker(0));
    ObjsFlat(objs);
    if !ok { return; }
    ghost var states1, log1 := s.states, s.log;
    ok := WrSum(s);
    ClaimedLength(states1, log1, s.states, s.log);
    StillRestorable(infos, states1, log1, s.states, s.log, raws, s.start);
  }

  lemma ClaimedLength(states: seq<State>, log: seq<Loc>, states': seq<State>, log': seq<Loc>)
    requires Claimed(states, log, states', log')
    ensures |states'| == |states|
  {
  }

  lemma FlatTwo(a: Bytes, b: Bytes)
    ensures Flat([a, b]) == a + b
  {
    assert [a, b] == [a] + [b];
    FlatConcat([a], [b]);
    FlatOne(a);
    FlatOne(b);
  }

  lemma FlatFramed(a: Bytes, objs: seq<Bytes>, b: Bytes)
    ensures Flat([a] + objs + [b]) == a + Flat(objs) + b
  {
    FlatMore([a] + objs, b);
    FlatConcat([a], objs);
    FlatOne(a);
  }

  /** The parts of a checkpoint, one after another. */
  lemma PartsOf(dev: Bytes, infos: Bytes, bits: Bytes, objs: seq<ObjRead>)
    ensures var w, body, b := Checkpt(dev, infos, bits, ObjsBytes(objs)), Body(dev, infos, bits, ObjsBytes(objs)),
            ObjsBytes(objs);
            && [] + (Marker(1) + dev) <= w && [] + (Marker(1) + dev) + infos <= w
            && (forall k :: 0 <= k <= |infos| ==> [] + (Marker(1) + dev) + infos[..k] <= w)
            && [] + (Marker(1) + dev) + infos + (bits + b + Marker(0)) == body <= w && body + SumBytes(body) == w
            && |w| == |body| + 4
  {
    hide Marker, SumBytes, ObjsBytes;
    var w := Checkpt(dev, infos, bits, ObjsBytes(objs));
    forall k | 0 <= k <= |infos| ensures [] + (Marker(1) + dev) + infos[..k] <= w {
      assert infos == infos[..k] + infos[k..];
    }
  }

  /** What a save leaves on flash: the checkpoint `w`, filled up to a whole page, or as much of it as fits. */
  ghost predicate Stored(s: Stream, w: Bytes, nErased: int)
    reads s
  {
    && s.Layout() && Tidy(s.start, s.end, s.flash, s.states) && Chain(s.cpb, s.start, s.log)
    && Holds(s.bpc, s.flash, s.log, s.datas)
    && (if |w| <= Size(s.bpc, Pages(s.cpb, nErased)) then w <= Flat(s.datas) && |Flat(s.datas)| < |w| + s.bpc
        else Flat(s.datas) <= w && |Flat(s.datas)| < |w|)
  }

  /** The counters after the blocks of the checkpoint have been taken off. */
  ghost predicate Counted(s: Stream, nErased: int, nFree: int)
    reads s
  {
    && s.Layout() && s.nErased == nErased - |BlocksOf(s.log)| && s.nFree == nFree - |BlocksOf(s.log)| * s.cpb
    && s.nErased == CountEmpty(s.states, s.start, s.end + 1)
  }

  /** The number of erased blocks once old checkpoints have been erased. */
  function ErasedThen(states: seq<State>, start: nat, end: nat): nat
    requires start <= end && |states| == end + 1
  {
    CountEmpty(Freed(states, start, end + 1), start, end + 1)
  }

  /** Saves a checkpoint.  If there is space for one at all, success is reported exactly if it fits into the pages of
      all erased blocks and one page more; but it is on flash exactly if it fits into the pages of all erased blocks. */
  method Save(s: Stream, raws: seq<Bytes>, c: Counters, bits: Bytes, objs: seq<ObjRead>)
    returns (ok: bool, ghost infos: Bytes)
    requires s.Layout() && Tidy(s.start, s.end, s.flash, s.states)
             && s.nErased == CountEmpty(s.states, s.start, s.end + 1)
    requires RawOk(raws) && |raws| == s.end - s.start + 1
    modifies s, s.buffer
    ensures |infos| == INFO_BYTES * |raws|
    ensures if old(s.nErased) - s.nReserved > 0 then
              var nErased := ErasedThen(old(s.states), s.start, s.end);
              var nFree := old(s.nFree) + s.cpb * (nErased - old(s.nErased));
              var w := Checkpt(DevBytes(nErased, nFree, c), infos, bits, ObjsBytes(objs));
              && (ok <==> |w| <= Limit(s.bpc, s.cpb, nErased))
              && Stored(s, w, nErased) && Counted(s, nErased, nFree)
              && (ok ==> Restorable(infos, s.states, BlocksOf(s.log), raws, s.start))
            else !ok && s.flash == old(s.flash) && s.states == old(s.states) && s.nErased == old(s.nErased)
                 && s.nFree == old(s.nFree)
  {
    hide *;
    infos := Blank(|raws|);
    LayoutSizes(s);
    ok := s.OpenWrite();
    if !ok { return; }
    ErasedThenIs(old(s.states), s.start, s.end);
    ghost var nErased, nFree := s.nErased, s.nFree;
    FreeThen(s.cpb, nErased, old(s.nErased), nFree, old(s.nFree));
    ok, infos := WrParts(s, raws, c, bits, objs);
    ghost var states0, log0 := s.states, s.log;
    ghost var flushed := s.CloseWrite();
    if ok { StillRestorable(infos, states0, log0, s.states, s.log, raws, s.start); }
    ghost var w := Checkpt(DevBytes(nErased, nFree, c), infos, bits, ObjsBytes(objs));
    LayoutSizes(s);
    LimitIs(s.bpc, s.cpb, nErased);
    StoredIs(s, w, nErased, flushed);
    CountedIs(s, nErased, nFree);
  }

  lemma LayoutSizes(s: Stream)
    requires s.Layout()
    ensures s.start <= s.end && s.cpb > 0 && s.bpc > 0 && |s.states| == s.end + 1
  {
  }

  lemma ErasedThenIs(states: seq<State>, start: nat, end: nat)
    requires start <= end && |states| == end + 1
    ensures |Freed(states, start, end + 1)| == |states|
    ensures ErasedThen(states, start, end) == CountEmpty(Freed(states, start, end + 1), start, end + 1)
  {
  }

  lemma FreeThen(cpb: nat, nErased: int, nErased0: int, nFree: int, nFree0: int)
    requires nFree - cpb * nErased == nFree0 - cpb * nErased0
    ensures nFree == nFree0 + cpb * (nErased - nErased0)
  {
  }

  lemma StoredIs(s: Stream, w: Bytes, nErased: int, flushed: bool)
    requires s.Layout() && Tidy(s.start, s.end, s.flash, s.states) && Chain(s.cpb, s.start, s.log)
    requires Holds(s.bpc, s.flash, s.log, s.datas) && s.all <= w
    requires s.all == w || (|s.all| >= Limit(s.bpc, s.cpb, nErased) && |w| > Limit(s.bpc, s.cpb, nErased))
    requires flushed <==> |s.all| <= Size(s.bpc, Pages(s.cpb, nErased))
    requires if flushed then s.all <= Flat(s.datas) && |Flat(s.datas)| < |s.all| + s.bpc
             else Flat(s.datas) <= s.all && |Flat(s.datas)| == Size(s.bpc, Pages(s.cpb, nErased))
    ensures Stored(s, w, nErased)
  {
    hide Tidy, Chain, Holds, Flat, Size, Pages;
  }

  lemma CountedIs(s: Stream, nErased: int, nFree: int)
    requires s.Layout() && s.nErased == nErased - |BlocksOf(s.log)| && s.nFree == nFree - |BlocksOf(s.log)| * s.cpb
    requires s.nErased == CountEmpty(s.states, s.start, s.end + 1)
    ensures Counted(s, nErased, nFree)
  {
  }

  // ---------- Restoring ----------

  /** The numbers of erased blocks and free chunks are taken over from what was read. */
  method TakeCounters(s: Stream, d: Bytes, ghost v: Bytes, ghost pos: nat)
    requires ReadTo(s, v, pos) && |d| == 36
    modifies s`nErased, s`nFree
    ensures ReadTo(s, v, pos) && s.nErased == ErasedOf(d) && s.nFree == FreeOf(d)
  {
    hide Chain, Holds, Tidy, Flat, SumOf, XorOf, BlocksOf, At, ErasedOf, FreeOf, Reach;
    s.nErased := ErasedOf(d);
    s.nFree := FreeOf(d);
  }

  /** What the block records read say about the blocks from `start` on. */
  ghost predicate Taken(infos: Bytes, states: seq<State>, raws: seq<Bytes>, start: nat, n: nat) {
    && |infos| >= INFO_BYTES * n && |states| >= start + n && |raws| == n
    && forall b :: 0 <= b < n ==>
         states[start + b] == StateOf(infos[INFO_BYTES * b + 2] / 16) && raws[b] == RawOf(infos, b)
  }

  function RawOf(infos: Bytes, b: nat): Bytes
    requires INFO_BYTES * b + INFO_BYTES <= |infos|
  {
    var r := infos[INFO_BYTES * b..INFO_BYTES * b + INFO_BYTES];
    r[2 := r[2] % 16]
  }

  /** The block records are taken over from what was read. */
  method TakeInfos(s: Stream, infos: Bytes, ghost v: Bytes, ghost pos: nat) returns (raws: seq<Bytes>)
    requires ReadTo(s, v, pos) && s.start <= s.end && |infos| == INFO_BYTES * (s.end - s.start + 1)
    modifies s`states
    ensures ReadTo(s, v, pos) && Taken(infos, s.states, raws, s.start, s.end - s.start + 1)
  {
    hide Chain, Holds, Tidy, Flat, SumOf, XorOf, BlocksOf, At, StateOf, RawOf, Reach;
    raws := [];
    var b := 0;
    while b < s.end - s.start + 1
      invariant 0 <= b <= s.end - s.start + 1 && ReadTo(s, v, pos) && Taken(infos, s.states, raws, s.start, b)
    {
      s.states := s.states[s.start + b := StateOf(infos[INFO_BYTES * b + 2] / 16)];
      raws := raws + [RawOf(infos, b)];
      b := b + 1;
    }
  }

  /** Reads the first marker and the device values. */
  method RdDev(s: Stream, ghost v: Bytes) returns (ok: bool, dev: Bytes)
    requires ReadTo(s, v, 0)
    modifies s`curBlock, s`curChunk, s`nextBlock, s`blocksIn, s`blockList, s`byteOffs, s`pageSeq, s`sum, s`xor, s`got
    modifies s`nErased, s`nFree, s.buffer
    ensures ok <==> |v| >= 52 && v[..16] == Marker(1) && WordAt(v[16..52], 0) == Le4(36)
    ensures if ok then ReadTo(s, v, 52) && dev == v[16..52] && s.nErased == ErasedOf(dev) && s.nFree == FreeOf(dev)
            else Short(s)
  {
    hide *;
    dev := [];
    var h := RdPart(s, 16, v, 0);
    if |h| == 16 { IsShort(s, v, 16); }
    assert |v| >= 16 ==> v[0..16] == v[..16];
    if h != Marker(1) { return false, dev; }
    dev := RdPart(s, 36, v, 16);
    if |dev| < 36 { return false, dev; }
    IsShort(s, v, 52);
    if WordAt(dev, 0) != Le4(36) { return false, dev; }
    TakeCounters(s, dev, v, 52);
    ok := true;
  }

  /** Reads the second marker and the checksum, and compares it with that of what has been read. */
  method RdEnd(s: Stream, ghost v: Bytes, ghost q: nat) returns (ok: bool)
    requires ReadTo(s, v, q)
    modifies s`curBlock, s`curChunk, s`nextBlock, s`blocksIn, s`blockList, s`byteOffs, s`pageSeq, s`sum, s`xor, s`got
    modifies s.buffer
    ensures ok <==> ParseEnd(v, q)
    ensures if ok then ReadTo(s, v, q + 20) else Short(s)
  {
    hide *;
    EndIs(v, q);
    var h := RdPart(s, 16, v, q);
    if |h| == 16 { IsShort(s, v, q + 16); }
    if h != Marker(0) { return false; }
    var sum := CheckSum(s, v, q + 16);
    var x := RdPart(s, 4, v, q + 16);
    if |x| == 4 { IsShort(s, v, q + 20); }
    ok := x == sum;
  }

  lemma EndIs(v: Bytes, q: nat)
    ensures ParseEnd(v, q) <==>
            q + 20 <= |v| && v[q..q + 16] == Marker(0) && v[q + 16..q + 20] == SumBytes(v[..q + 16])
  {
  }

  method CheckSum(s: Stream, ghost v: Bytes, ghost pos: nat) returns (sum: Bytes)
    requires ReadTo(s, v, pos)
    ensures sum == SumBytes(v[..pos])
  {
    hide Chain, Holds, Tidy, Flat, SumOf, XorOf, BlocksOf, At, Reach;
    sum := Le4(Composite(s.sum, s.xor));
  }

  /** Reads a whole checkpoint.  This fails exactly if the stream does not show one. */
  method RdCheckpt(s: Stream, nBits: nat, width: nat, grpBits: nat, types: Types, ghost v: Bytes)
    returns (ok: bool, dev: Bytes, raws: seq<Bytes>, bits: Bytes, objs: seq<Restored>)
    requires ReadTo(s, v, 0) && s.start <= s.end && 0 < width < 32 && width % 2 == 0
    modifies s`curBlock, s`curChunk, s`nextBlock, s`blocksIn, s`blockList, s`byteOffs, s`pageSeq, s`sum, s`xor, s`got
    modifies s`nErased, s`nFree, s`states, s.buffer
    ensures ok <==> ParseCheckpt(v, s.end - s.start + 1, nBits, width, types).Got?
    ensures if ok then
              var im, at := ParseCheckpt(v, s.end - s.start + 1, nBits, width, types).value,
                            ParseCheckpt(v, s.end - s.start + 1, nBits, width, types).at;
              && ReadTo(s, v, at) && dev == im.dev && bits == im.bits && AllRebuilt(objs, im.objs, width)
              && s.nErased == ErasedOf(dev) && s.nFree == FreeOf(dev)
              && Taken(im.infos, s.states, raws, s.start, s.end - s.start + 1)
            else Short(s)
    ensures fresh(Trees(objs))
  {
    hide ParseCheckpt, ParseObjs, ParseEnd, ReadTo, Short, Taken, Marker, WordAt, Le4, ErasedOf, FreeOf, Rebuilt;
    ghost var n := s.end - s.start + 1;
    ghost var b, p := 52 + INFO_BYTES * n, 52 + INFO_BYTES * n + nBits;
    InfoSize(s.start, s.end);
    CheckptIs(v, n, nBits, width, types);
    raws, bits, objs := [], [], [];
    NoTrees();
    ok, dev := RdDev(s, v);
    if !ok { return; }
    var i := RdPart(s, INFO_BYTES * (s.end - s.start + 1), v, 52);
    if |i| < INFO_BYTES * (s.end - s.start + 1) { return false, dev, raws, bits, objs; }
    raws := TakeInfos(s, i, v, b);
    bits := RdPart(s, nBits, v, b);
    if |bits| < nBits { return false, dev, raws, bits, objs; }
    ok, objs := RdObjs(s, width, grpBits, types, v, p);
    if !ok { return; }
    ok := RdEnd(s, v, ParseObjs(v, p, width, types).at);
  }

  lemma InfoSize(start: nat, end: nat)
    requires start <= end
    ensures INFO_BYTES == 8
  {
  }

  lemma NoTrees()
    ensures Trees([]) == {}
  {
  }

  lemma CheckptIs(v: Bytes, n: nat, nBits: nat, width: nat, types: Types)
    requires width % 2 == 0
    ensures var b, p := 52 + INFO_BYTES * n, 52 + INFO_BYTES * n + nBits;
            ParseCheckpt(v, n, nBits, width, types) ==
            if p > |v| || v[..16] != Marker(1) || WordAt(v[16..52], 0) != Le4(36)
                || ParseObjs(v, p, width, types).Failed?
               || !ParseEnd(v, ParseObjs(v, p, width, types).at)
            then Failed
            else Got(Image(v[16..52], v[52..b], v[b..p], ParseObjs(v, p, width, types).value),
                     ParseObjs(v, p, width, types).at + 20)
  {
  }

  /** Restores a device from the checkpoint on flash, as far as the reader gets to see it; `taken` are the states that
      the checkpoint gives.  Blocks that were visited are taken for checkpoint blocks then. */
  method Restore(s: Stream, nBits: nat, width: nat, grpBits: nat, types: Types, ghost log: seq<Loc>,
                 ghost datas: seq<Bytes>)
    returns (ok: bool, dev: Bytes, raws: seq<Bytes>, bits: Bytes, objs: seq<Restored>, ghost taken: seq<State>)
    requires s.Layout() && Chain(s.cpb, s.start, log) && Holds(s.bpc, s.flash, log, datas)
    requires forall k :: 0 <= k < |log| ==> log[k].block <= s.end
    requires 0 < width < 32 && width % 2 == 0
    modifies s, s.buffer
    ensures s.flash == old(s.flash) && |datas| == |log| && |taken| == s.end + 1 && fresh(Trees(objs))
    ensures var im := ParseCheckpt(Flat(datas[..Reach(log, (s.end - s.start) / 16 + 2)]), s.end - s.start + 1, nBits,
                                   width, types);
            && (ok <==> im.Got?)
            && (ok ==> dev == im.value.dev && bits == im.value.bits && AllRebuilt(objs, im.value.objs, width)
                       && Taken(im.value.infos, taken, raws, s.start, s.end - s.start + 1))
            && (ok && im.at + s.bpc > |Flat(datas)| ==>
                  && s.states == Visited(taken, BlocksOf(log)) && s.nErased == ErasedOf(dev) - |BlocksOf(log)|
                  && s.nFree == FreeOf(dev) - |BlocksOf(log)| * s.cpb)
  {
    hide ParseCheckpt, ParseObjs, ParseEnd, Short, Taken, Marker, WordAt, Le4, ErasedOf, FreeOf, Rebuilt, ReadTo;
    hide Chain, Holds, Tidy, Flat, SumOf, XorOf, BlocksOf, At, Reach, Stream.Reading, Stream.Ended, Stuck;
    ghost var max := (s.end - s.start) / 16 + 2;
    s.OpenRead(log, datas);
    StartRead(s);
    ghost var v := s.Visible();
    ok, dev, raws, bits, objs := RdCheckpt(s, nBits, width, grpBits, types, v);
    ghost var im := ParseCheckpt(v, s.end - s.start + 1, nBits, width, types);
    if ok { IsShort(s, v, im.at); }
    ListedIn(s);
    taken := s.states;
    if ok && im.at + s.bpc > |Flat(datas)| { AllPagesRead(s, v, im.at); }
    s.CloseRead();
  }

  lemma StartRead(s: Stream)
    requires s.Reading() && s.got == []
    ensures |s.datas| == |s.log| && ReadTo(s, s.Visible(), 0)
  {
    hide Chain, Holds, Tidy, Flat, SumOf, XorOf, BlocksOf, At, Reach;
    assert s.Visible()[..0] == [];
  }

  lemma ListedIn(s: Stream)
    requires Short(s) && Chain(s.cpb, s.start, s.log) && forall k :: 0 <= k < |s.log| ==> s.log[k].block <= s.end
    ensures s.Layout() && s.blocksIn <= |s.blockList| && forall k :: 0 <= k < s.blocksIn ==>
            s.start <= s.blockList[k] <= s.end
  {
    hide BlocksOf, Flat, Holds, SumOf, XorOf, At, Stuck;
    assert forall k :: 0 <= k < |s.log| ==> s.start <= s.log[k].block <= s.end;
    BlocksInRange(s.log[..s.pageSeq], s.start, s.end);
    forall k | 0 <= k < s.blocksIn ensures s.start <= s.blockList[k] <= s.end {
      assert s.blockList[k] == s.blockList[..s.blocksIn][k];
    }
  }

  lemma {:induction false} BlocksInRange(log: seq<Loc>, start: int, end: int)
    requires forall k :: 0 <= k < |log| ==> start <= log[k].block <= end
    ensures forall k :: 0 <= k < |BlocksOf(log)| ==> start <= BlocksOf(log)[k] <= end
  {
    if log != [] { BlocksInRange(log[..|log| - 1], start, end); }
  }

  /** A reader that has less than a page left has seen every page. */
  lemma AllPagesRead(s: Stream, v: Bytes, pos: nat)
    requires ReadTo(s, v, pos) && pos + s.bpc > |Flat(s.datas)|
    ensures s.blocksIn <= |s.blockList| && s.blockList[..s.blocksIn] == BlocksOf(s.log)
            && s.blocksIn == |BlocksOf(s.log)|
  {
    hide BlocksOf, Flat, Chain, SumOf, XorOf, At, Reach;
    if s.pageSeq < |s.log| { PagesShort(s.datas, s.pageSeq, s.bpc); }
    assert s.log[..|s.log|] == s.log;
  }

  lemma {:induction false} PagesShort(datas: seq<Bytes>, r: nat, bpc: nat)
    requires r < |datas| && forall k :: 0 <= k < |datas| ==> |datas[k]| == bpc
    ensures |Flat(datas[..r])| + bpc <= |Flat(datas)|
  {
    var n := |datas| - 1;
    if r < n {
      PagesShort(datas[..n], r, bpc);
      assert datas[..n][..r] == datas[..r];
    }
  }

  /** Turning the visited blocks that were streamed out as erased into checkpoint blocks gives the states after the
      save. */
  lemma StatesBack(infos: Bytes, read: seq<State>, states: seq<State>, blocks: seq<int>, raws: seq<Bytes>,
                   raws0: seq<Bytes>, start: nat, end: nat)
    requires start <= end && |read| == end + 1 && Taken(infos, read, raws, start, end - start + 1)
    requires Restorable(infos, states, blocks, raws0, start) && |infos| == INFO_BYTES * |raws0|
             && |raws0| == end - start + 1
    requires forall b :: b in blocks ==> start <= b <= end && states[b].Checkpoint?
    ensures raws == raws0 && forall b :: start <= b <= end ==> Visited(read, blocks)[b] == states[b]
  {
    hide Restorable, StateOf;
    assert |states| == end + 1 by { RestorableSize(infos, states, blocks, raws0, start); }
    forall b | 0 <= b < |raws0| ensures raws[b] == raws0[b] { RecordBack(infos, states, blocks, raws0, start, b); }
    forall b | start <= b <= end ensures Visited(read, blocks)[b] == states[b] {
      RecordBack(infos, states, blocks, raws0, start, b - start);
      assert read[start + (b - start)] == StateOf(infos[INFO_BYTES * (b - start) + 2] / 16);
    }
  }

  lemma RestorableSize(infos: Bytes, states: seq<State>, blocks: seq<int>, raws: seq<Bytes>, start: nat)
    requires Restorable(infos, states, blocks, raws, start)
    ensures |states| == start + |raws|
  {
  }

  // ---------- What can be restored ----------

  lemma {:induction false} BlocksOfLog(log: seq<Loc>, b: int)
    requires b in BlocksOf(log)
    ensures exists k :: 0 <= k < |log| && log[k].block == b
  {
    var n := |log| - 1;
    if b in BlocksOf(log[..n]) {
      BlocksOfLog(log[..n], b);
      var k :| 0 <= k < n && log[..n][k].block == b;
      assert log[k].block == b;
    } else {
      assert log[n].block == b;
    }
  }

  /** The blocks of what a save left on flash. */
  lemma StoredBlocks(s: Stream, w: Bytes, nErased: int)
    requires Stored(s, w, nErased)
    ensures s.Layout() && Chain(s.cpb, s.start, s.log) && Holds(s.bpc, s.flash, s.log, s.datas)
    ensures forall k :: 0 <= k < |s.log| ==> s.log[k].block <= s.end
    ensures forall b :: b in BlocksOf(s.log) ==> s.start <= b <= s.end && s.states[b].Checkpoint?
  {
    hide BlocksOf, Flat, Chain, Size, Pages;
    forall k | 0 <= k < |s.log| ensures s.start <= s.log[k].block <= s.end && s.states[s.log[k].block].Checkpoint? {
      assert IsMarked(s.flash, s.log[k]);
    }
    forall b | b in BlocksOf(s.log) ensures s.start <= b <= s.end && s.states[b].Checkpoint? {
      BlocksOfLog(s.log, b);
    }
  }

  /** The number of blocks it takes to store `n` bytes. */
  function BlocksFor(bpc: nat, cpb: nat, n: nat): nat
    requires bpc > 0 && cpb > 0
  {
    Ceil(Ceil(n, bpc), cpb)
  }

  lemma ChainPrefix(cpb: nat, start: int, log: seq<Loc>)
    requires Chain(cpb, start, log) && |log| >= 2
    ensures var n := |log| - 1; Chain(cpb, start, log[..n]) && log[..n][n - 1] == log[n - 1]
    ensures Follows(cpb, log[|log| - 2], log[|log| - 1]) && log[|log| - 2].index < cpb
  {
    var log' := log[..|log| - 1];
    assert forall k, m :: 0 <= k && m == k + 1 < |log'| ==> log'[k] == log[k] && log'[m] == log[m];
  }

  /** All blocks of a checkpoint but the last are full. */
  lemma {:induction false} BlocksFull(cpb: nat, start: int, log: seq<Loc>)
    requires Chain(cpb, start, log) && cpb > 0
    ensures |log| > 0 ==> |log| == Pages(cpb, |BlocksOf(log)| - 1) + log[|log| - 1].index + 1
    ensures log == [] ==> BlocksOf(log) == []
  {
    hide Pages;
    var n := |log| - 1;
    if n >= 1 {
      ChainPrefix(cpb, start, log);
      hide Chain;
      BlocksFull(cpb, start, log[..n]);
      MoreBlocks(cpb, |BlocksOf(log[..n])| - 1);
    } else if n == 0 {
      FirstOfChain(cpb, start, log);
      MoreBlocks(cpb, 0);
    }
  }

  lemma FirstOfChain(cpb: nat, start: int, log: seq<Loc>)
    requires Chain(cpb, start, log) && |log| == 1
    ensures log[0].index == 0 && |BlocksOf(log)| == 1
  {
    assert log[..0] == [];
  }

  lemma HowManyBlocks(bpc: nat, cpb: nat, start: int, flash: Flash, log: seq<Loc>, datas: seq<Bytes>, n: nat)
    requires Chain(cpb, start, log) && Holds(bpc, flash, log, datas) && bpc > 0 && cpb > 0
    requires n <= |Flat(datas)| < n + bpc
    ensures |BlocksOf(log)| == BlocksFor(bpc, cpb, n)
  {
    hide Flat, BlocksOf;
    WrittenLength(log, datas, bpc, flash);
    CeilIs(n, bpc, |log|);
    BlocksFull(cpb, start, log);
    if |log| > 0 {
      ChainIndex(cpb, start, log, |log| - 1);
      MoreBlocks(cpb, |BlocksOf(log)| - 1);
      CeilIs(|log|, cpb, |BlocksOf(log)|);
    } else {
      CeilIs(0, cpb, 0);
    }
  }

  /** A reader who looks for up to `max` blocks finds the checkpoint exactly if all of it fitted, into so many
      blocks. */
  lemma FindsCheckpt(s: Stream, dev: Bytes, infos: Bytes, bits: Bytes, objs: seq<ObjRead>, nErased: int, max: nat,
                     n: nat, width: nat, types: Types)
    requires width % 2 == 0 && ReadsOk(objs, width) && |dev| == 36 && WordAt(dev, 0) == Le4(36)
    requires |infos| == INFO_BYTES * n && Stored(s, Checkpt(dev, infos, bits, ObjsBytes(objs)), nErased)
    ensures s.Layout() && |s.datas| == |s.log|
    ensures var w := Checkpt(dev, infos, bits, ObjsBytes(objs));
            ParseCheckpt(Flat(s.datas[..Reach(s.log, max)]), n, |bits|, width, types) ==
            if |w| <= Size(s.bpc, Pages(s.cpb, nErased)) && BlocksFor(s.bpc, s.cpb, |w|) <= max
                && Compatible(types, objs)
            then Got(Image(dev, infos, bits, objs), |w|) else Failed
  {
    hide Flat, BlocksOf, Chain, Holds, Tidy, Size, Pages, Reach, ParseCheckpt, Checkpt, ReadsOk, WordAt, Le4,
      Compatible, BlocksFor;
    var w := Checkpt(dev, infos, bits, ObjsBytes(objs));
    var r := Reach(s.log, max);
    WrittenLength(s.log, s.datas, s.bpc, s.flash);
    var v := Flat(s.datas[..r]);
    FlatPrefix(s.datas, r);
    AllInReach(s.log, max);
    var fits := |w| <= Size(s.bpc, Pages(s.cpb, nErased));
    if fits { HowManyBlocks(s.bpc, s.cpb, s.start, s.flash, s.log, s.datas, |w|); }
    if fits && r == |s.log| {
      assert s.datas[..r] == s.datas;
      CheckptParses(v, dev, infos, bits, objs, n, width, types);
    } else {
      if fits {
        PagesFull(s.bpc, s.flash, s.log, s.datas);
        PagesShort(s.datas, r, s.bpc);
        Shorter(v, w, Flat(s.datas));
      }
      CutCheckpt(v, dev, infos, bits, objs, n, width, types);
    }
  }

  lemma PagesFull(bpc: nat, flash: Flash, log: seq<Loc>, datas: seq<Bytes>)
    requires Holds(bpc, flash, log, datas)
    ensures |datas| == |log| && forall k :: 0 <= k < |datas| ==> |datas[k]| == bpc
  {
  }

  lemma Shorter(v: Bytes, w: Bytes, stream: Bytes)
    requires v <= stream && w <= stream && |v| < |w|
    ensures v <= w
  {
    assert stream[..|v|] == v && stream[..|w|] == w && stream[..|w|][..|v|] == stream[..|v|];
  }

  /** The objects are back: each with its record, and each file with a tree that holds what the tree saved holds. */
  ghost predicate AllRestored(objs': seq<Restored>, objs: seq<CheckptObj>, width: nat)
    requires 0 < width < 32 && width % 2 == 0 && ObjsOk(objs, width)
    reads Trees(objs')
  {
    && |objs'| == |objs|
    && forall k :: 0 <= k < |objs| ==>
         && objs'[k].rec == objs[k].rec
         && (objs[k].rec.variant == FILE ==> objs'[k].tree.Some? && Holding(objs'[k].tree.value, objs[k], width))
  }

  ghost predicate Holding(f: T.FileVar, o: CheckptObj, width: nat)
    requires 0 < width < 32 && width % 2 == 0 && ObjOk(o, width) && o.rec.variant == FILE
    reads f
  {
    f.Valid() && f.width == width && forall y: nat :: f.Stands(y) == T.Lookup(o.tn, o.level, width, y)
  }

  lemma ObjectsBack(objs': seq<Restored>, objs: seq<CheckptObj>, width: nat)
    requires 0 < width < 32 && width % 2 == 0 && ObjsOk(objs, width) && AllRebuilt(objs', Reads(objs, width), width)
    ensures AllRestored(objs', objs, width)
  {
    hide T.Lookup, T.FileVar.Valid, T.FileVar.Stands, Held, Dump, T.Shaped;
    forall k | 0 <= k < |objs| && objs[k].rec.variant == FILE
      ensures Rebuilt(objs'[k], Reads(objs, width)[k], width) && objs'[k].tree.Some?
              && Holding(objs'[k].tree.value, objs[k], width)
    {
      assert Rebuilt(objs'[k], Reads(objs, width)[k], width) && ObjOk(objs[k], width);
      var f, o := objs'[k].tree.value, objs[k];
      forall y: nat ensures f.Stands(y) == T.Lookup(o.tn, o.level, width, y) { HeldIsLookup(o.tn, o.level, width, y); }
    }
    forall k | 0 <= k < |objs| ensures objs'[k].rec == objs[k].rec {
      assert Rebuilt(objs'[k], Reads(objs, width)[k], width);
    }
  }

  /** A device is saved, and another one that knows nothing but what is on flash restores it.  Whether saving reports
      success and whether the device can be restored depends on the size of the checkpoint, and on what object ids are
      used for; the two do not agree if only the last page finds no block, or if there are too many blocks for the block
      list.  A device that can be restored ends up with the same block states and records, counters, chunk bits and
      objects, and its files with trees that hold the same. */
  method SaveThenRestore(w: Stream, raws: seq<Bytes>, c: Counters, bits: Bytes, objs: seq<CheckptObj>, width: nat,
                         grpBits: nat, types: Types, blank: seq<State>)
    returns (saved: bool, r: Stream, ok: bool, c': Counters, raws': seq<Bytes>, bits': Bytes, objs': seq<Restored>)
    requires w.Layout() && Tidy(w.start, w.end, w.flash, w.states)
             && w.nErased == CountEmpty(w.states, w.start, w.end + 1)
    requires RawOk(raws) && |raws| == w.end - w.start + 1 && |blank| == w.end + 1
    requires 0 < width < 32 && width % 2 == 0 && ObjsOk(objs, width)
    modifies w, w.buffer
    ensures old(w.nErased) - w.nReserved > 0 ==>
              var nErased := ErasedThen(old(w.states), w.start, w.end);
              var nFree := old(w.nFree) + w.cpb * (nErased - old(w.nErased));
              var n := Needed(|raws|, |bits|, |ObjsBytes(Reads(objs, width))|);
              && (saved <==> n <= Size(w.bpc, Pages(w.cpb, nErased)) + w.bpc)
              && (ok <==> && n <= Size(w.bpc, Pages(w.cpb, nErased))
                          && BlocksFor(w.bpc, w.cpb, n) <= (w.end - w.start) / 16 + 2
                          && Compatible(types, Reads(objs, width)))
              && (ok && Storable(nErased, nFree, c) ==>
                    && c' == c && raws' == raws && bits' == bits && AllRestored(objs', objs, width)
                    && r.nErased == w.nErased && r.nFree == w.nFree && |r.states| == |w.states| == w.end + 1
                    && forall b :: w.start <= b <= w.end ==> r.states[b] == w.states[b])
    ensures old(w.nErased) - w.nReserved <= 0 ==> !saved && !ok
  {
    hide *;
    ghost var infos, taken;
    var isOpen := w.nErased - w.nReserved > 0;
    LayoutSizes(w);
    saved, infos := Save(w, raws, c, bits, Reads(objs, width));
    r := new Stream(w.start, w.end, w.cpb, w.bpc, w.nReserved, w.flash, blank, 0, 0);
    ok, c', raws', bits', objs' := false, c, [], [], [];
    if isOpen {
      ghost var nErased := ErasedThen(old(w.states), w.start, w.end);
      ghost var nFree := old(w.nFree) + w.cpb * (nErased - old(w.nErased));
      ghost var dev, os, max := DevBytes(nErased, nFree, c), Reads(objs, width), (w.end - w.start) / 16 + 2;
      ghost var img := Checkpt(dev, infos, bits, ObjsBytes(os));
      StoredBlocks(w, img, nErased);
      LayoutFrom(r);
      var dev';
      ok, dev', raws', bits', objs', taken := Restore(r, |bits|, width, grpBits, types, w.log, w.datas);
      ReadsAreOk(objs, width);
      CountersBack(nErased, nFree, c);
      CheckptLength(dev, infos, bits, ObjsBytes(os), |raws|);
      LimitIs(w.bpc, w.cpb, nErased);
      FindsCheckpt(w, dev, infos, bits, os, nErased, max, |raws|, width, types);
      if ok {
        c' := CountersOf(dev');
        StoredLength(w, img, nErased);
        ObjectsBack(objs', objs, width);
        StatesBack(infos, taken, w.states, BlocksOf(w.log), raws', raws, w.start, w.end);
        CountedMeans(w, nErased, nFree);
        VisitedLength(taken, BlocksOf(w.log));
      }
    }
  }

  lemma VisitedLength(states: seq<State>, blocks: seq<int>)
    ensures |Visited(states, blocks)| == |states|
  {
  }

  lemma CountedMeans(s: Stream, nErased: int, nFree: int)
    requires Counted(s, nErased, nFree)
    ensures s.Layout() && |s.states| == s.end + 1
    ensures s.nErased == nErased - |BlocksOf(s.log)| && s.nFree == nFree - |BlocksOf(s.log)| * s.cpb
  {
  }

  lemma StoredLength(s: Stream, w: Bytes, nErased: int)
    requires Stored(s, w, nErased)
    ensures |w| <= Size(s.bpc, Pages(s.cpb, nErased)) ==> |Flat(s.datas)| < |w| + s.bpc
  {
  }

  lemma LayoutFrom(s: Stream)
    requires s.start <= s.end && s.cpb > 0 && s.bpc > 0 && s.buffer.Length == s.bpc && |s.states| == s.end + 1
    ensures s.Layout()
  {
  }

  // ---------- Checkpoints that are reported saved and cannot be restored ----------

  lemma ErasedDevice(states: seq<State>)
    requires states != [] && forall b :: 0 <= b < |states| ==> states[b].Empty?
    ensures CountEmpty(states, 0, |states|) == |states| && Freed(states, 0, |states|) == states
    ensures Tidy(0, |states| - 1, map[], states)
  {
    AllCounted(states, |states|);
  }

  lemma {:induction false} AllCounted(states: seq<State>, to: nat)
    requires to <= |states| && forall b :: 0 <= b < to ==> states[b].Empty?
    ensures CountEmpty(states, 0, to) == to
  {
    if to > 0 { AllCounted(states, to - 1); }
  }

  /** The one erased block has room for 100 of the 113 bytes: nobody says that the rest is lost. */
  method LastPageLost() returns (saved: bool, ok: bool)
    ensures saved && !ok
  {
    ErasedDevice([Empty]);
    var w := new Stream(0, 0, 1, 100, 0, map[], [Empty], 1, 1);
    assert |ObjsBytes(Reads([], 16))| == REC_BYTES;
    assert Size(100, Pages(1, 1)) == 100;
    var r, c, raws, bits, objs;
    saved, r, ok, c, raws, bits, objs :=
      SaveThenRestore(w, [Blank(1)], Counters(-1, 0, 0, 0, 0, 0x1000), [0], [], 16, 0, map[], [Unknown]);
  }

  /** All 129 bytes are on flash, in three blocks, but there is room for two in the list of the reader. */
  method TooManyBlocks() returns (saved: bool, ok: bool)
    ensures saved && !ok
  {
    ErasedDevice([Empty, Empty, Empty]);
    var w := new Stream(0, 2, 1, 50, 0, map[], [Empty, Empty, Empty], 3, 3);
    assert |ObjsBytes(Reads([], 16))| == REC_BYTES;
    assert Size(50, Pages(1, 3)) == 150;
    CeilIs(129, 50, 3);
    CeilIs(3, 1, 3);
    var raw := Blank(1);
    var r, c, raws, bits, objs;
    saved, r, ok, c, raws, bits, objs :=
      SaveThenRestore(w, [raw, raw, raw], Counters(-1, 0, 0, 0, 0, 0x1000), [0], [], 16, 0, map[],
                      [Unknown, Unknown, Unknown]);
  }
}
