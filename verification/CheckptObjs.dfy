/**
 The objects in a checkpoint: a record for each, followed, for a file, by the leaves of its tnode tree.  Records and
 leaves are read back until the markers at their ends; how many there are is not known beforehand.
 */
module CheckptObjs {
  import opened CheckptStream
  import opened CheckptTnodes
  import opened Common
  import opened Octets
  import PackedLeaf
  import T = TnodeTree

  const FILE := 1
  const DIRECTORY := 3
  const REC_BYTES := 32
  const NONE := 0xffff_ffff

  /** What is found at some place of a checkpoint, and where it ends. */
  datatype Parsed<T> = Failed | Got(value: T, at: nat)

  // ---------- Objects as bytes ----------

  /** What a checkpoint says about an object; `flags` are its six one-bit fields. */
  datatype ObjRec = ObjRec(objId: int, parentId: int, hdrChunk: int, variant: int, flags: int, serial: int, nData: int,
                           size: int)

  /** An object to be saved; the tree counts for files only. */
  datatype CheckptObj = CheckptObj(rec: ObjRec, tn: T.Tnode, level: nat)

  /** An object as it stands in a checkpoint, with its leaves if it is a file. */
  datatype ObjRead = ObjRead(rec: ObjRec, leaves: Option<seq<Record>>)

  /** An object read back, with its tree if it is a file. */
  datatype Restored = Restored(rec: ObjRec, tree: Option<T.FileVar>)

  predicate In32(x: int) { -0x8000_0000 <= x < 0x8000_0000 }

  predicate RecOk(r: ObjRec) {
    && 0 <= r.objId < NONE && 0 <= r.parentId <= NONE && In32(r.hdrChunk) && In32(r.nData)
    && 0 <= r.variant < 8 && 0 <= r.flags < 64 && 0 <= r.serial < 256 && 0 <= r.size < 0x1_0000_0000_0000_0000
  }

  function Fields(r: ObjRec): seq<int> {
    [REC_BYTES, r.objId, r.parentId, r.hdrChunk, r.variant + 8 * r.flags + 65536 * r.serial, r.nData,
     r.size % 0x1_0000_0000, r.size / 0x1_0000_0000]
  }

  function RecBytes(r: ObjRec): (s: Bytes)
    ensures |s| == REC_BYTES
  {
    Words(Fields(r))
  }

  /** The record that ends the list. */
  function EndBytes(): (s: Bytes)
    ensures |s| == REC_BYTES
  {
    Words([REC_BYTES, -1, -1, -1, -1, -1, -1, -1])
  }

  function RecOf(d: Bytes): ObjRec
    requires |d| == REC_BYTES
  {
    var packed := Unsigned4(WordAt(d, 4));
    ObjRec(Unsigned4(WordAt(d, 1)), Unsigned4(WordAt(d, 2)), Signed4(WordAt(d, 3)), packed % 8, packed % 65536 / 8,
           packed / 65536, Signed4(WordAt(d, 5)), Unsigned4(WordAt(d, 6)) + 0x1_0000_0000 * Unsigned4(WordAt(d, 7)))
  }

  lemma RecBack(r: ObjRec)
    requires RecOk(r)
    ensures var d := RecBytes(r); WordAt(d, 0) == Le4(REC_BYTES) && RecOf(d) == r
  {
    hide Words, WordAt, Le4, Signed4, Unsigned4;
    var xs := Fields(r);
    WordsAt(xs, 0);
    WordsAt(xs, 1); Le4Back(xs[1]);
    WordsAt(xs, 2); Le4Back(xs[2]);
    WordsAt(xs, 3); Le4Back(xs[3]);
    WordsAt(xs, 4); Le4Back(xs[4]);
    WordsAt(xs, 5); Le4Back(xs[5]);
    WordsAt(xs, 6); Le4Back(xs[6]);
    WordsAt(xs, 7); Le4Back(xs[7]);
    PackedBack(r.variant, r.flags, r.serial);
  }

  lemma PackedBack(variant: int, flags: int, serial: int)
    requires 0 <= variant < 8 && 0 <= flags < 64 && 0 <= serial < 256
    ensures var x := variant + 8 * flags + 65536 * serial;
            0 <= x < 0x1_0000_0000 && x % 8 == variant && x % 65536 / 8 == flags && x / 65536 == serial
  {
  }

  lemma EndBack()
    ensures var d := EndBytes(); WordAt(d, 0) == Le4(REC_BYTES) && RecOf(d).objId == NONE
  {
    hide Words, WordAt, Le4, Signed4, Unsigned4;
    var xs := [REC_BYTES, -1, -1, -1, -1, -1, -1, -1];
    WordsAt(xs, 0);
    WordsAt(xs, 1);
    Le4Octets(-1);
  }

  // ---------- Leaves as bytes ----------

  /** The `k` lowest binary digits of a number, lowest first. */
  function Digits(n: nat, k: nat): (b: seq<bool>)
    ensures |b| == k
  {
    if k == 0 then [] else [n % 2 == 1] + Digits(n / 2, k - 1)
  }

  lemma {:induction false} DigitsBack(b: seq<bool>)
    ensures Digits(PackedLeaf.Number(b), |b|) == b && PackedLeaf.Number(b) < Pow2(|b|)
  {
    if b != [] {
      var n, one := PackedLeaf.Number(b[1..]), if b[0] then 1 else 0;
      assert (one + 2 * n) / 2 == n && (one + 2 * n) % 2 == one;
      DigitsBack(b[1..]);
    }
  }

  /** Eight bits as a byte. */
  function ByteOf(b: seq<bool>): Byte
    requires |b| == 8
  {
    DigitsBack(b);
    TwoTo8();
    PackedLeaf.Number(b)
  }

  lemma TwoTo8()
    ensures Pow2(8) == 256
  {
    assert Pow2(4) == 16;
  }

  function BitsOf(x: Byte): (b: seq<bool>)
    ensures |b| == 8
  {
    Digits(x, 8)
  }

  lemma BitsBack(b: seq<bool>)
    requires |b| == 8
    ensures BitsOf(ByteOf(b)) == b
  {
    hide Digits, PackedLeaf.Number;
    DigitsBack(b);
  }

  function WordBytes(w: PackedLeaf.Word): (s: Bytes)
    ensures |s| == 4
  {
    [ByteOf(w[..8]), ByteOf(w[8..16]), ByteOf(w[16..24]), ByteOf(w[24..])]
  }

  function WordOf(s: Bytes): PackedLeaf.Word
    requires |s| == 4
  {
    BitsOf(s[0]) + BitsOf(s[1]) + BitsOf(s[2]) + BitsOf(s[3])
  }

  lemma WordBack(w: PackedLeaf.Word)
    ensures WordOf(WordBytes(w)) == w
  {
    hide ByteOf, BitsOf;
    BitsBack(w[..8]);
    BitsBack(w[8..16]);
    BitsBack(w[16..24]);
    BitsBack(w[24..]);
  }

  function LeafBytes(words: seq<PackedLeaf.Word>): (s: Bytes)
    ensures |s| == 4 * |words|
  {
    if words == [] then [] else WordBytes(words[0]) + LeafBytes(words[1..])
  }

  function LeafOf(s: Bytes): (words: seq<PackedLeaf.Word>)
    requires |s| % 4 == 0
    ensures |words| == |s| / 4
  {
    if s == [] then [] else [WordOf(s[..4])] + LeafOf(s[4..])
  }

  lemma {:induction false} LeafBack(words: seq<PackedLeaf.Word>)
    ensures LeafOf(LeafBytes(words)) == words
  {
    if words != [] {
      var s := LeafBytes(words);
      assert s[..4] == WordBytes(words[0]) && s[4..] == LeafBytes(words[1..]);
      WordBack(words[0]);
      LeafBack(words[1..]);
    }
  }

  // ---------- Checkpoints as bytes ----------

  /** The leaves of a tree, each after the first chunk id it covers, and the marker at their end. */
  function TreeBytes(leaves: seq<Record>): Bytes {
    if leaves == [] then Le4(NONE) else Le4(leaves[0].base) + LeafBytes(leaves[0].words) + TreeBytes(leaves[1..])
  }

  /** The pieces in which a tree is written. */
  function TreePieces(leaves: seq<Record>): seq<Bytes> {
    if leaves == [] then [Le4(NONE)] else [Le4(leaves[0].base), LeafBytes(leaves[0].words)] + TreePieces(leaves[1..])
  }

  predicate ObjOk(o: CheckptObj, width: nat) {
    RecOk(o.rec) && (o.rec.variant == FILE ==> o.level <= T.MAX_LEVEL && T.Shaped(o.tn, o.level, width / 2))
  }

  predicate ObjsOk(objs: seq<CheckptObj>, width: nat) { forall k :: 0 <= k < |objs| ==> ObjOk(objs[k], width) }

  function LeavesOf(o: CheckptObj, width: nat): Option<seq<Record>>
    requires ObjOk(o, width)
  {
    if o.rec.variant == FILE then Some(Dump(o.tn, o.level, width / 2, 0)) else None
  }

  /** What a checkpoint should say about the objects. */
  function Reads(objs: seq<CheckptObj>, width: nat): (r: seq<ObjRead>)
    requires ObjsOk(objs, width)
    ensures |r| == |objs| && forall k :: 0 <= k < |r| ==> r[k] == ObjRead(objs[k].rec, LeavesOf(objs[k], width))
  {
    seq(|objs|, k requires 0 <= k < |objs| => ObjRead(objs[k].rec, LeavesOf(objs[k], width)))
  }

  function ObjBytes(o: ObjRead): Bytes {
    RecBytes(o.rec) + if o.leaves.Some? then TreeBytes(o.leaves.value) else []
  }

  function ObjPieces(o: ObjRead): seq<Bytes> {
    [RecBytes(o.rec)] + if o.leaves.Some? then TreePieces(o.leaves.value) else []
  }

  function ObjsBytes(objs: seq<ObjRead>): Bytes {
    if objs == [] then EndBytes() else ObjBytes(objs[0]) + ObjsBytes(objs[1..])
  }

  /** The pieces in which the objects are written. */
  function ObjsPieces(objs: seq<ObjRead>): seq<Bytes> {
    if objs == [] then [EndBytes()] else ObjPieces(objs[0]) + ObjsPieces(objs[1..])
  }

  lemma {:induction false} FlatConcat(a: seq<Bytes>, b: seq<Bytes>)
    ensures Flat(a + b) == Flat(a) + Flat(b)
  {
    if b == [] {
      assert a + b == a;
    } else {
      var n := |b| - 1;
      assert (a + b)[..|a + b| - 1] == a + b[..n];
      FlatConcat(a, b[..n]);
    }
  }

  lemma FlatOne(a: Bytes)
    ensures Flat([a]) == a
  {
    assert [a][..0] == [];
  }

  lemma {:induction false} TreeFlat(leaves: seq<Record>)
    ensures Flat(TreePieces(leaves)) == TreeBytes(leaves)
  {
    if leaves == [] {
      FlatOne(Le4(NONE));
    } else {
      var a, b := Le4(leaves[0].base), LeafBytes(leaves[0].words);
      FlatConcat([a, b], TreePieces(leaves[1..]));
      FlatConcat([a], [b]);
      FlatOne(a);
      FlatOne(b);
      assert [a, b] == [a] + [b];
      TreeFlat(leaves[1..]);
    }
  }

  lemma {:induction false} ObjsFlat(objs: seq<ObjRead>)
    ensures Flat(ObjsPieces(objs)) == ObjsBytes(objs)
  {
    if objs == [] {
      FlatOne(EndBytes());
    } else {
      var o := objs[0];
      FlatConcat(ObjPieces(o), ObjsPieces(objs[1..]));
      FlatConcat([RecBytes(o.rec)], if o.leaves.Some? then TreePieces(o.leaves.value) else []);
      FlatOne(RecBytes(o.rec));
      if o.leaves.Some? { TreeFlat(o.leaves.value); }
      ObjsFlat(objs[1..]);
    }
  }

  // ---------- What a checkpoint says ----------

  /** The leaves of a tree that stand in `v` from `pos` on, up to the marker.  A leaf for a chunk id that is too large
      cannot be plugged into a tree. */
  function ParseTree(v: Bytes, pos: nat, width: nat): (r: Parsed<seq<Record>>)
    requires width % 2 == 0
    ensures r.Got? ==> pos + 4 <= r.at <= |v|
    decreases |v| - pos
  {
    if pos + 4 > |v| then Failed
    else
      var base, p := Unsigned4(v[pos..pos + 4]), pos + 4 + 2 * width;
      if base == NONE then Got([], pos + 4)
      else if p > |v| || base > MAX_CHUNK_ID then Failed
      else
        var rest := ParseTree(v, p, width);
        if rest.Failed? then Failed else Got([Record(base, LeafOf(v[pos + 4..p]))] + rest.value, rest.at)
  }

  /** The types of the objects there are, by object id; only positive ids are looked up. */
  type Types = map<int, int>

  predicate Clashes(types: Types, id: int, variant: int) { 0 < id < 0x8000_0000 && id in types && types[id] != variant }

  /** An object is entered, and its parent if that is not there yet, unless one of them is there with another type. */
  function Enter(types: Types, rec: ObjRec): Option<Types> {
    var types' := types[rec.objId := rec.variant];
    if Clashes(types, rec.objId, rec.variant) then None
    else if rec.parentId == 0 then Some(types')
    else if Clashes(types', rec.parentId, DIRECTORY) then None
    else Some(types'[rec.parentId := DIRECTORY])
  }

  /** The objects that stand in `v` from `pos` on, up to the marker, and their types. */
  function ParseObjs(v: Bytes, pos: nat, width: nat, types: Types): (r: Parsed<seq<ObjRead>>)
    requires width % 2 == 0
    ensures r.Got? ==> pos + REC_BYTES <= r.at <= |v|
    decreases |v| - pos
  {
    if pos + REC_BYTES > |v| then Failed
    else
      var rec := RecOf(v[pos..pos + REC_BYTES]);
      if WordAt(v[pos..pos + REC_BYTES], 0) != Le4(REC_BYTES) then Failed
      else if rec.objId == NONE then Got([], pos + REC_BYTES)
      else if Enter(types, rec).None? then Failed
      else
        var leaves := ParseLeaves(v, pos + REC_BYTES, width, rec);
        if leaves.Failed? then Failed
        else
          var rest := ParseObjs(v, leaves.at, width, Enter(types, rec).value);
          if rest.Failed? then Failed else Got([ObjRead(rec, leaves.value)] + rest.value, rest.at)
  }

  /** A file is followed by its leaves. */
  function ParseLeaves(v: Bytes, pos: nat, width: nat, rec: ObjRec): (r: Parsed<Option<seq<Record>>>)
    requires width % 2 == 0
    ensures r.Got? ==> r.at >= pos && (pos <= |v| ==> r.at <= |v|)
  {
    if rec.variant != FILE then Got(None, pos)
    else
      var tree := ParseTree(v, pos, width);
      if tree.Failed? then Failed else Got(Some(tree.value), tree.at)
  }

  // ---------- What was written is what is read ----------

  /** `b` stands in `v` from `pos` on. */
  predicate Sits(v: Bytes, pos: nat, b: Bytes) { pos + |b| <= |v| && v[pos..pos + |b|] == b }

  lemma SitsParts(v: Bytes, pos: nat, a: Bytes, b: Bytes)
    requires Sits(v, pos, a + b)
    ensures Sits(v, pos, a) && Sits(v, pos + |a|, b)
  {
    var w := v[pos..pos + |a + b|];
    assert w[..|a|] == a && w[|a|..] == b;
    assert w[..|a|] == v[pos..pos + |a|] && w[|a|..] == v[pos + |a|..pos + |a| + |b|];
  }

  ghost predicate LeavesOk(leaves: seq<Record>, width: nat) {
    width % 2 == 0 && forall k :: 0 <= k < |leaves| ==> leaves[k].base <= MAX_CHUNK_ID && |leaves[k].words| == width / 2
  }

  /** A leaf is found where it was written. */
  lemma LeafParses(v: Bytes, pos: nat, r: Record, width: nat)
    requires width % 2 == 0 && r.base <= MAX_CHUNK_ID && |r.words| == width / 2
    requires Sits(v, pos, Le4(r.base) + LeafBytes(r.words))
    ensures var p := pos + 4 + 2 * width;
            p <= |v| && Unsigned4(v[pos..pos + 4]) == r.base < NONE && LeafOf(v[pos + 4..p]) == r.words
  {
    hide Le4, LeafBytes, LeafOf, Unsigned4;
    SitsParts(v, pos, Le4(r.base), LeafBytes(r.words));
    Le4Back(r.base);
    LeafBack(r.words);
  }

  lemma {:induction false} TreeParses(v: Bytes, pos: nat, leaves: seq<Record>, width: nat)
    requires LeavesOk(leaves, width) && Sits(v, pos, TreeBytes(leaves))
    ensures ParseTree(v, pos, width) == Got(leaves, pos + |TreeBytes(leaves)|)
    decreases |leaves|
  {
    hide Le4, LeafBytes, LeafOf, Unsigned4, Sits;
    SitsWhole(v, pos, TreeBytes(leaves));
    if leaves == [] {
      Le4Back(NONE);
    } else {
      var r := leaves[0];
      SitsParts(v, pos, Le4(r.base) + LeafBytes(r.words), TreeBytes(leaves[1..]));
      LeafParses(v, pos, r, width);
      TreeParses(v, pos + 4 + 2 * width, leaves[1..], width);
      assert [Record(r.base, r.words)] + leaves[1..] == leaves;
    }
  }

  lemma SitsWhole(v: Bytes, pos: nat, b: Bytes)
    requires Sits(v, pos, b)
    ensures pos + |b| <= |v| && v[pos..pos + |b|] == b
  {
  }

  /** The leaves of a tree are as they have to be for writing. */
  lemma DumpLeavesOk(tn: T.Tnode, l: nat, width: nat)
    requires l <= T.MAX_LEVEL && T.Shaped(tn, l, width / 2) && width % 2 == 0
    ensures LeavesOk(Dump(tn, l, width / 2, 0), width)
  {
    hide Dump, T.Above;
    var leaves := Dump(tn, l, width / 2, 0);
    forall k | 0 <= k < |leaves| ensures leaves[k].base <= MAX_CHUNK_ID && |leaves[k].words| == width / 2 {
      DumpSound(tn, l, width / 2, 0, leaves[k]);
      IdInRange(leaves[k].base, l);
      T.LeafWords(T.Leaf(leaves[k].words), width / 2);
    }
  }

  ghost predicate ReadOk(o: ObjRead, width: nat) {
    RecOk(o.rec) && (o.leaves.Some? <==> o.rec.variant == FILE) && (o.leaves.Some? ==> LeavesOk(o.leaves.value, width))
  }

  ghost predicate ReadsOk(objs: seq<ObjRead>, width: nat) { forall k :: 0 <= k < |objs| ==> ReadOk(objs[k], width) }

  lemma ReadsAreOk(objs: seq<CheckptObj>, width: nat)
    requires ObjsOk(objs, width) && width % 2 == 0
    ensures ReadsOk(Reads(objs, width), width)
  {
    hide LeavesOk, Dump;
    forall k | 0 <= k < |objs| ensures ReadOk(Reads(objs, width)[k], width) {
      if objs[k].rec.variant == FILE { DumpLeavesOk(objs[k].tn, objs[k].level, width); }
    }
  }

  /** All objects can be entered one after another. */
  predicate Enters(types: Types, objs: seq<ObjRead>)
    decreases |objs|
  {
    objs == [] || (Enter(types, objs[0].rec).Some? && Enters(Enter(types, objs[0].rec).value, objs[1..]))
  }

  /** An object is found where it was written. */
  lemma ObjParses(v: Bytes, pos: nat, o: ObjRead, width: nat)
    requires width % 2 == 0 && ReadOk(o, width) && Sits(v, pos, ObjBytes(o))
    ensures var p := pos + REC_BYTES;
            && p <= |v| && WordAt(v[pos..p], 0) == Le4(REC_BYTES) && RecOf(v[pos..p]) == o.rec && o.rec.objId != NONE
            && ParseLeaves(v, p, width, o.rec) == Got(o.leaves, pos + |ObjBytes(o)|)
  {
    hide RecOf, WordAt, Le4, RecBytes, LeavesOk, ParseTree, Sits, TreeBytes;
    SitsWhole(v, pos, ObjBytes(o));
    RecBack(o.rec);
    if o.leaves.Some? {
      SitsParts(v, pos, RecBytes(o.rec), TreeBytes(o.leaves.value));
      SitsWhole(v, pos, RecBytes(o.rec));
      TreeParses(v, pos + REC_BYTES, o.leaves.value, width);
    } else {
      assert ObjBytes(o) == RecBytes(o.rec);
    }
  }

  /** Objects as they were written are read back, provided that they can be entered. */
  lemma {:induction false} ObjsParse(v: Bytes, pos: nat, objs: seq<ObjRead>, width: nat, types: Types)
    requires width % 2 == 0 && ReadsOk(objs, width) && Sits(v, pos, ObjsBytes(objs))
    ensures ParseObjs(v, pos, width, types) == if Enters(types, objs) then Got(objs, pos + |ObjsBytes(objs)|)
            else Failed
    decreases |objs|
  {
    hide RecOf, WordAt, Le4, RecBytes, EndBytes, Enter, LeavesOk, ParseTree, ParseLeaves, ObjBytes, Sits, ReadOk;
    SitsWhole(v, pos, ObjsBytes(objs));
    if objs == [] {
      EndBack();
    } else {
      var o := objs[0];
      SitsParts(v, pos, ObjBytes(o), ObjsBytes(objs[1..]));
      ObjParses(v, pos, o, width);
      assert [ObjRead(o.rec, o.leaves)] + objs[1..] == objs;
      if Enter(types, o.rec).Some? {
        ObjsParse(v, pos + |ObjBytes(o)|, objs[1..], width, Enter(types, o.rec).value);
      }
    }
  }

  // ---------- Which objects can be entered ----------

  predicate Fixed(id: int) { 0 < id < 0x8000_0000 }

  /** No object, and no parent, is of another type than the object of its id that is there. */
  predicate Fits(types: Types, rec: ObjRec) {
    && (Fixed(rec.objId) && rec.objId in types ==> types[rec.objId] == rec.variant)
    && (Fixed(rec.parentId) && rec.parentId in types ==> types[rec.parentId] == DIRECTORY)
  }

  /** Two objects of the same id are of the same type, and the parent of one is a directory if it is the other. */
  predicate Agree(a: ObjRec, b: ObjRec) {
    && (a.objId == b.objId && Fixed(a.objId) ==> a.variant == b.variant)
    && (a.parentId == b.objId && Fixed(b.objId) ==> b.variant == DIRECTORY)
    && (b.parentId == a.objId && Fixed(a.objId) ==> a.variant == DIRECTORY)
  }

  ghost predicate Compatible(types: Types, objs: seq<ObjRead>) {
    && (forall k :: 0 <= k < |objs| ==> Fits(types, objs[k].rec))
    && (forall j, k :: 0 <= j <= k < |objs| ==> Agree(objs[j].rec, objs[k].rec))
  }

  /** Objects can be entered exactly if no id stands for objects of different types. */
  lemma {:induction false} EntersIff(types: Types, objs: seq<ObjRead>)
    ensures Enters(types, objs) <==> Compatible(types, objs)
    decreases |objs|
  {
    if objs != [] {
      var a, rest := objs[0].rec, objs[1..];
      if Fits(types, a) && Agree(a, a) {
        var types' := Enter(types, a).value;
        EntersIff(types', rest);
        forall k | 0 <= k < |rest|
          ensures Fits(types', rest[k].rec) <==> Fits(types, rest[k].rec) && Agree(a, rest[k].rec)
        {
        }
        CompatibleSplit(types, types', objs);
      } else {
        assert Fits(types, objs[0].rec) ==> !Agree(objs[0].rec, objs[0].rec);
      }
    }
  }

  lemma CompatibleSplit(types: Types, types': Types, objs: seq<ObjRead>)
    requires objs != [] && Fits(types, objs[0].rec) && Agree(objs[0].rec, objs[0].rec)
    requires forall k :: 0 <= k < |objs[1..]| ==>
               (Fits(types', objs[1..][k].rec) <==>
                Fits(types, objs[1..][k].rec) && Agree(objs[0].rec, objs[1..][k].rec))
    ensures Compatible(types, objs) <==> Compatible(types', objs[1..])
  {
    hide Fits, Agree;
    var rest := objs[1..];
    assert forall k :: 0 <= k < |rest| ==> rest[k] == objs[k + 1];
    if Compatible(types', rest) {
      forall j, k | 0 <= j <= k < |objs| ensures Agree(objs[j].rec, objs[k].rec) {
        if j > 0 {
          assert Agree(rest[j - 1].rec, rest[k - 1].rec);
        } else if k > 0 {
          assert Fits(types', rest[k - 1].rec);
        }
      }
      forall k | 0 <= k < |objs| ensures Fits(types, objs[k].rec) {
        if k > 0 { assert Fits(types', rest[k - 1].rec); }
      }
    }
    if Compatible(types, objs) {
      forall k | 0 <= k < |rest| ensures Fits(types', rest[k].rec) {
        assert Fits(types, objs[k + 1].rec) && Agree(objs[0].rec, objs[k + 1].rec);
      }
      forall j, k | 0 <= j <= k < |rest| ensures Agree(rest[j].rec, rest[k].rec) {
        assert Agree(objs[j + 1].rec, objs[k + 1].rec);
      }
    }
  }

  // ---------- A checkpoint that is cut off ----------

  lemma {:induction false} TreeStable(v: Bytes, v': Bytes, pos: nat, width: nat)
    requires v <= v' && width % 2 == 0 && ParseTree(v, pos, width).Got?
    ensures ParseTree(v', pos, width) == ParseTree(v, pos, width)
    decreases |v| - pos
  {
    var p := pos + 4 + 2 * width;
    assert v'[pos..pos + 4] == v[pos..pos + 4];
    if Unsigned4(v[pos..pos + 4]) != NONE {
      assert v'[pos + 4..p] == v[pos + 4..p];
      TreeStable(v, v', p, width);
    }
  }

  /** Whatever comes behind, the same objects are read. */
  lemma {:induction false} ObjsStable(v: Bytes, v': Bytes, pos: nat, width: nat, types: Types)
    requires v <= v' && width % 2 == 0 && ParseObjs(v, pos, width, types).Got?
    ensures ParseObjs(v', pos, width, types) == ParseObjs(v, pos, width, types)
    decreases |v| - pos
  {
    hide RecOf, WordAt, Le4, Enter, ParseTree;
    assert v'[pos..pos + REC_BYTES] == v[pos..pos + REC_BYTES];
    var rec := RecOf(v[pos..pos + REC_BYTES]);
    if rec.objId != NONE {
      if rec.variant == FILE { TreeStable(v, v', pos + REC_BYTES, width); }
      ObjsStable(v, v', ParseLeaves(v, pos + REC_BYTES, width, rec).at, width, Enter(types, rec).value);
    }
  }

  // ---------- Reading ----------

  /** The stream shows `v`, and has been read up to `pos`. */
  ghost predicate ReadTo(s: Stream, v: Bytes, pos: nat)
    reads s, s.buffer
  {
    s.Reading() && |s.datas| == |s.log| && s.Visible() == v && pos <= |v| && s.got == v[..pos]
  }

  /** The stream ended before all that was asked for had been read. */
  ghost predicate Short(s: Stream)
    reads s, s.buffer
  {
    s.Reading() || s.Ended()
  }

  /** Reads the next `n` bytes; there are fewer exactly if the stream does not show so many. */
  method RdPart(s: Stream, n: nat, ghost v: Bytes, ghost pos: nat) returns (data: Bytes)
    requires ReadTo(s, v, pos)
    modifies s`curBlock, s`curChunk, s`nextBlock, s`blocksIn, s`blockList, s`byteOffs, s`pageSeq, s`sum, s`xor, s`got
    modifies s.buffer
    ensures |data| <= n && (|data| == n <==> pos + n <= |v|)
    ensures if |data| == n then data == v[pos..pos + n] && ReadTo(s, v, pos + n) else Short(s)
  {
    hide Stream.Reading, Stream.Ended, Flat, Reach;
    data := s.Rd(n);
    assert s.got[..pos + |data|] == s.got;
    assert v[..pos + |data|] == v[..pos] + data;
  }

  /** Reads the leaves of a tree up to the marker, and plugs them into a new tree. */
  method RdTnodes(s: Stream, f: T.FileVar, ghost v: Bytes, ghost pos: nat) returns (ok: bool)
    requires ReadTo(s, v, pos) && Plugged(f, [])
    modifies s`curBlock, s`curChunk, s`nextBlock, s`blocksIn, s`blockList, s`byteOffs, s`pageSeq, s`sum, s`xor, s`got
    modifies s.buffer, f
    ensures f.Valid() && (ok <==> ParseTree(v, pos, f.width).Got?)
    ensures if ok then var t := ParseTree(v, pos, f.width); ReadTo(s, v, t.at) && Plugged(f, t.value) else Short(s)
  {
    hide ReadTo, Held, T.FileVar.Valid, T.FileVar.Stands, Unsigned4, LeafOf, Short;
    ghost var whole := ParseTree(v, pos, f.width);
    ghost var p, seen: seq<Record> := pos, [];
    LeadsStart(whole);
    var head := RdPart(s, 4, v, p);
    ok := |head| == 4;
    while ok && Unsigned4(head) != NONE
      invariant f.Valid() && f.width % 2 == 0 && (ok <==> |head| == 4)
      invariant if ok then ReadTo(s, v, p + 4) && p + 4 <= |v| && head == v[p..p + 4] && Plugged(f, seen) else Short(s)
      invariant ok ==> Leads(whole, seen, ParseTree(v, p, f.width))
      invariant !ok ==> whole.Failed?
      decreases |v| - p, ok
    {
      var leaf := RdPart(s, 2 * f.width, v, p + 4);
      if |leaf| < 2 * f.width { return false; }
      IsShort(s, v, p + 4 + 2 * f.width);
      ok := Plug(f, Record(Unsigned4(head), LeafOf(leaf)), seen);
      if !ok { return false; }
      LeadsOn(whole, seen, Record(Unsigned4(head), LeafOf(leaf)), ParseTree(v, p + 4 + 2 * f.width, f.width));
      seen := seen + [Record(Unsigned4(head), LeafOf(leaf))];
      p := p + 4 + 2 * f.width;
      head := RdPart(s, 4, v, p);
      ok := |head| == 4;
    }
    assert seen + [] == seen;
  }

  lemma IsShort(s: Stream, v: Bytes, pos: nat)
    requires ReadTo(s, v, pos)
    ensures Short(s)
  {
  }

  /** An object is read back: its record, and, if it is a file, a tree that holds what its leaves say. */
  ghost predicate Rebuilt(o: Restored, r: ObjRead, width: nat)
    reads if o.tree.Some? then {o.tree.value} else {}
  {
    && o.rec == r.rec && (o.tree.Some? <==> r.leaves.Some?)
    && (o.tree.Some? ==> o.tree.value.width == width && Plugged(o.tree.value, r.leaves.value))
  }

  function Trees(objs: seq<Restored>): set<T.FileVar> {
    set k | 0 <= k < |objs| && objs[k].tree.Some? :: objs[k].tree.value
  }

  ghost predicate AllRebuilt(objs: seq<Restored>, seen: seq<ObjRead>, width: nat)
    reads Trees(objs)
  {
    |objs| == |seen| && forall k :: 0 <= k < |objs| ==> Rebuilt(objs[k], seen[k], width)
  }

  /** Reads what follows the record of an object. */
  method RdLeaves(s: Stream, width: nat, grpBits: nat, rec: ObjRec, ghost v: Bytes, ghost pos: nat)
    returns (ok: bool, o: Restored)
    requires ReadTo(s, v, pos) && 0 < width < 32 && width % 2 == 0
    modifies s`curBlock, s`curChunk, s`nextBlock, s`blocksIn, s`blockList, s`byteOffs, s`pageSeq, s`sum, s`xor, s`got
    modifies s.buffer
    ensures ok <==> ParseLeaves(v, pos, width, rec).Got?
    ensures if ok then var l := ParseLeaves(v, pos, width, rec);
                       ReadTo(s, v, l.at) && Rebuilt(o, ObjRead(rec, l.value), width)
            else Short(s)
    ensures o.tree.Some? ==> fresh(o.tree.value)
  {
    hide ReadTo, Short, Held, T.FileVar.Valid, T.FileVar.Stands, ParseTree;
    if rec.variant != FILE { return true, Restored(rec, None); }
    var f := new T.FileVar(width, grpBits);
    NothingPlugged(f);
    ok := RdTnodes(s, f, v, pos);
    o := Restored(rec, Some(f));
  }

  lemma NothingPlugged(f: T.FileVar)
    requires f.Valid() && forall y: nat :: f.Stands(y) == T.Zeros(f.width)
    ensures Plugged(f, [])
  {
  }

  /** Reads objects up to the marker, and enters them.  This fails exactly if there are no such objects to be read, or
      if they cannot be entered. */
  method RdObjs(s: Stream, width: nat, grpBits: nat, types: Types, ghost v: Bytes, ghost pos: nat)
    returns (ok: bool, objs: seq<Restored>)
    requires ReadTo(s, v, pos) && 0 < width < 32 && width % 2 == 0
    modifies s`curBlock, s`curChunk, s`nextBlock, s`blocksIn, s`blockList, s`byteOffs, s`pageSeq, s`sum, s`xor, s`got
    modifies s.buffer
    ensures ok <==> ParseObjs(v, pos, width, types).Got?
    ensures if ok then var r := ParseObjs(v, pos, width, types); ReadTo(s, v, r.at) && AllRebuilt(objs, r.value, width)
            else Short(s)
    ensures fresh(Trees(objs))
  {
    hide ReadTo, Short, Rebuilt, ParseLeaves, RecOf, WordAt, Le4, Enter, Leads;
    ghost var whole := ParseObjs(v, pos, width, types);
    ghost var p, seen: seq<ObjRead> := pos, [];
    var types' := types;
    objs := [];
    LeadsStart(whole);
    while true
      invariant ReadTo(s, v, p) && AllRebuilt(objs, seen, width) && fresh(Trees(objs))
      invariant Leads(whole, seen, ParseObjs(v, p, width, types'))
      decreases |v| - p
    {
      LeadsFails(whole, seen, ParseObjs(v, p, width, types'));
      var d := RdPart(s, REC_BYTES, v, p);
      if |d| < REC_BYTES { return false, objs; }
      IsShort(s, v, p + REC_BYTES);
      if WordAt(d, 0) != Le4(REC_BYTES) { return false, objs; }
      var rec := RecOf(d);
      if rec.objId == NONE { return true, objs; }
      var entered := Enter(types', rec);
      if entered.None? { return false, objs; }
      var o;
      ok, o := RdLeaves(s, width, grpBits, rec, v, p + REC_BYTES);
      if !ok { return false, objs; }
      ghost var l := ParseLeaves(v, p + REC_BYTES, width, rec);
      LeadsOn(whole, seen, ObjRead(rec, l.value), ParseObjs(v, l.at, width, entered.value));
      MoreRebuilt(objs, seen, o, ObjRead(rec, l.value), width);
      objs, seen, types', p := objs + [o], seen + [ObjRead(rec, l.value)], entered.value, l.at;
    }
  }

  lemma MoreRebuilt(objs: seq<Restored>, seen: seq<ObjRead>, o: Restored, r: ObjRead, width: nat)
    requires AllRebuilt(objs, seen, width) && Rebuilt(o, r, width)
    ensures AllRebuilt(objs + [o], seen + [r], width)
    ensures Trees(objs + [o]) == Trees(objs) + if o.tree.Some? then {o.tree.value} else {}
  {
    var objs' := objs + [o];
    assert forall k :: 0 <= k < |objs| ==> objs'[k] == objs[k];
    assert objs'[|objs|] == o;
    forall f | f in Trees(objs) ensures f in Trees(objs') {
      var k :| 0 <= k < |objs| && objs[k].tree.Some? && objs[k].tree.value == f;
      assert objs'[k] == objs[k];
    }
  }

  lemma LeadsFails<T(!new)>(whole: Parsed<seq<T>>, seen: seq<T>, rest: Parsed<seq<T>>)
    requires Leads(whole, seen, rest)
    ensures whole.Failed? <==> rest.Failed?
    ensures rest.Got? && rest.value == [] ==> whole == Got(seen, rest.at)
  {
    assert seen + [] == seen;
  }

  /** After `seen`, the rest of what stands there is `rest`. */
  ghost predicate Leads<T(!new)>(whole: Parsed<seq<T>>, seen: seq<T>, rest: Parsed<seq<T>>) {
    whole == if rest.Failed? then Failed else Got(seen + rest.value, rest.at)
  }

  lemma LeadsStart<T(!new)>(whole: Parsed<seq<T>>)
    ensures Leads(whole, [], whole)
  {
    if whole.Got? { assert [] + whole.value == whole.value; }
  }

  lemma LeadsOn<T(!new)>(whole: Parsed<seq<T>>, seen: seq<T>, x: T, rest: Parsed<seq<T>>)
    requires Leads(whole, seen, if rest.Failed? then Failed else Got([x] + rest.value, rest.at))
    ensures Leads(whole, seen + [x], rest)
  {
    if rest.Got? { assert seen + ([x] + rest.value) == seen + [x] + rest.value; }
  }
}
