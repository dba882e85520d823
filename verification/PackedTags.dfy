/**
 Tags of a page packed into 16 bytes with an error correcting code.  Any single wrong bit is put right when the tags are
 unpacked, unless it makes the page look unused.
 */
module PackedTags {
  import opened Common
  import opened Ecc

  type Word = bv32

  const EXTRA_HEADER_INFO_FLAG: Word := 0x80000000
  const EXTRA_SHRINK_FLAG: Word := 0x40000000
  const EXTRA_SHADOWS_FLAG: Word := 0x20000000
  const ALL_EXTRA_FLAGS: Word := 0xf0000000
  const OBJECT_TYPE_MASK: Word := 0xf0000000
  const UNUSED: Word := 0xffffffff

  const FILE: Word := 1
  const HARDLINK: Word := 4

  /** Tags as the rest of the file system sees them. */
  datatype Tags = Tags(used: bool, objId: Word, chunkId: Word, nBytes: Word, seqNumber: Word, extraAvailable: bool,
                       parentId: Word, isShrink: bool, shadows: bool, objType: Word, fileSize: bv64, equivId: Word)

  const BLANK: Tags := Tags(false, 0, 0, 0, 0, false, 0, false, false, 0, 0, 0)

  /** Tags as they are stored. */
  datatype Packed = Packed(seqNumber: Word, objId: Word, chunkId: Word, nBytes: Word)

  predicate Fits31(size: bv64) { size >> 31 == 0 }

  /** The extra tags of an object header are stored, unless it is for a file too long for that. */
  predicate ExtraPackable(t: Tags) {
    t.chunkId == 0 && t.extraAvailable && !(t.objType == FILE && !Fits31(t.fileSize))
  }

  /** The extra tags in place of a chunk id, and the object type in the upper bits of an object id. */
  function ExtraWord(parentId: Word, isShrink: bool, shadows: bool): Word {
    WithFlags(parentId, Flags(isShrink, shadows))
  }

  function WithFlags(parentId: Word, f: Word): Word { EXTRA_HEADER_INFO_FLAG | parentId | f }

  predicate OnlyFlags(f: Word) { f & 0x9fffffff == 0 }

  function Flags(isShrink: bool, shadows: bool): Word {
    if isShrink && shadows then EXTRA_SHRINK_FLAG | EXTRA_SHADOWS_FLAG else if isShrink then EXTRA_SHRINK_FLAG
    else if shadows then EXTRA_SHADOWS_FLAG else 0
  }

  function TypedWord(objId: Word, objType: Word): Word { (objId & !OBJECT_TYPE_MASK) | (objType << 28) }

  function SizeWord(size: bv64): Word { (size & 0xffffffff) as Word }

  function LongSize(w: Word): bv64 { w as bv64 }

  predicate Below28(w: Word) { w < 0x10000000 }

  predicate Below31(w: Word) { w < 0x80000000 }

  predicate HasExtra(w: Word) { w & EXTRA_HEADER_INFO_FLAG != 0 }

  function ParentOf(w: Word): Word { w & !ALL_EXTRA_FLAGS }

  predicate Shrinks(w: Word) { w & EXTRA_SHRINK_FLAG != 0 }

  predicate DoesShadow(w: Word) { w & EXTRA_SHADOWS_FLAG != 0 }

  function IdOf(w: Word): Word { w & !OBJECT_TYPE_MASK }

  function TypeOf(w: Word): Word { w >> 28 }

  function PackOnly(t: Tags): Packed {
    if ExtraPackable(t) then
      Packed(t.seqNumber, TypedWord(t.objId, t.objType), ExtraWord(t.parentId, t.isShrink, t.shadows),
             if t.objType == HARDLINK then t.equivId else if t.objType == FILE then SizeWord(t.fileSize) else 0)
    else Packed(t.seqNumber, t.objId, t.chunkId, t.nBytes)
  }

  function UnpackOnly(p: Packed): Tags {
    if p.seqNumber == UNUSED then BLANK
    else if HasExtra(p.chunkId) then
      var objType := TypeOf(p.objId);
      Tags(true, IdOf(p.objId), 0, 0, p.seqNumber, true, ParentOf(p.chunkId), Shrinks(p.chunkId), DoesShadow(p.chunkId),
           objType, if objType == HARDLINK then 0 else LongSize(p.nBytes), if objType == HARDLINK then p.nBytes else 0)
    else Tags(true, p.objId, p.chunkId, p.nBytes, p.seqNumber, false, 0, false, false, 0, 0, 0)
  }

  /** What of the tags is meant to be stored. */
  function Meaning(t: Tags): Tags {
    if ExtraPackable(t) then
      Tags(true, t.objId, 0, 0, t.seqNumber, true, t.parentId, t.isShrink, t.shadows, t.objType,
           if t.objType == FILE then t.fileSize else 0, if t.objType == HARDLINK then t.equivId else 0)
    else Tags(true, t.objId, t.chunkId, t.nBytes, t.seqNumber, false, 0, false, false, 0, 0, 0)
  }

  /** The ids are small enough not to get into the way of the flags and the object type, and the page is in use. */
  predicate Storable(t: Tags) {
    && t.seqNumber != UNUSED
    && if ExtraPackable(t) then Below28(t.objId) && Below28(t.parentId) else Below31(t.chunkId)
  }

  lemma FlagsBack(isShrink: bool, shadows: bool)
    ensures var f := Flags(isShrink, shadows);
            Shrinks(f) == isShrink && DoesShadow(f) == shadows && OnlyFlags(f)
  {
  }

  lemma ParentBack(parentId: Word, f: Word)
    requires OnlyFlags(f)
    ensures HasExtra(WithFlags(parentId, f))
    ensures ParentOf(WithFlags(parentId, f)) == parentId <==> Below28(parentId)
  {
  }

  lemma ShrinkBack(parentId: Word, f: Word)
    requires Below28(parentId)
    ensures Shrinks(WithFlags(parentId, f)) == Shrinks(f)
  {
  }

  lemma ShadowsBack(parentId: Word, f: Word)
    requires Below28(parentId)
    ensures DoesShadow(WithFlags(parentId, f)) == DoesShadow(f)
  {
  }

  lemma ExtraBack(parentId: Word, isShrink: bool, shadows: bool)
    ensures var w := ExtraWord(parentId, isShrink, shadows);
            && HasExtra(w) && (ParentOf(w) == parentId <==> Below28(parentId))
            && (Below28(parentId) ==> Shrinks(w) == isShrink && DoesShadow(w) == shadows)
  {
    hide HasExtra, ParentOf, Below28, Shrinks, DoesShadow, Flags, WithFlags, OnlyFlags;
    var f := Flags(isShrink, shadows);
    FlagsBack(isShrink, shadows);
    ParentBack(parentId, f);
    if Below28(parentId) {
      ShrinkBack(parentId, f);
      ShadowsBack(parentId, f);
    }
  }

  lemma TypeBack(objId: Word, objType: Word)
    requires objType <= 5
    ensures var w := TypedWord(objId, objType); TypeOf(w) == objType && (IdOf(w) == objId <==> Below28(objId))
  {
  }

  lemma SizeBack(size: bv64)
    requires Fits31(size)
    ensures LongSize(SizeWord(size)) == size
  {
  }

  lemma NoExtra(w: Word)
    ensures HasExtra(w) <==> !Below31(w)
  {
  }

  lemma NoSize()
    ensures LongSize(0) == 0
  {
  }

  lemma PackExtra(t: Tags)
    requires t.objType <= 5 && ExtraPackable(t) && t.seqNumber != UNUSED
    ensures UnpackOnly(PackOnly(t)) == Meaning(t) <==> Below28(t.objId) && Below28(t.parentId)
  {
    hide ExtraWord, TypedWord, SizeWord, LongSize, HasExtra, ParentOf, Shrinks, DoesShadow, IdOf, TypeOf, Fits31,
      Below28;
    ExtraBack(t.parentId, t.isShrink, t.shadows);
    TypeBack(t.objId, t.objType);
    if t.objType == FILE { SizeBack(t.fileSize); }
    NoSize();
  }

  lemma PackPlain(t: Tags)
    requires !ExtraPackable(t) && t.seqNumber != UNUSED
    ensures UnpackOnly(PackOnly(t)) == Meaning(t) <==> Below31(t.chunkId)
  {
    hide ExtraWord, TypedWord, SizeWord, LongSize, HasExtra, ParentOf, Shrinks, DoesShadow, IdOf, TypeOf, Fits31,
      Below31;
    NoExtra(t.chunkId);
  }

  /** Packing keeps the meaning of the tags exactly if they are storable. */
  lemma PackUnpack(t: Tags)
    requires t.objType <= 5
    ensures UnpackOnly(PackOnly(t)) == Meaning(t) <==> Storable(t)
  {
    if t.seqNumber == UNUSED {
      assert UnpackOnly(PackOnly(t)) == BLANK;
    } else if ExtraPackable(t) {
      PackExtra(t);
    } else {
      PackPlain(t);
    }
  }

  /** Of which pages the extra tags come back: of headers that have them, but for files of 2^31 bytes and more.  Of the
      others, and of data pages, the chunk id and the number of bytes do. */
  lemma ExtraComesBack(t: Tags)
    requires t.objType <= 5 && t.seqNumber != 0xffff_ffff && t.objId < 0x1000_0000 && t.parentId < 0x1000_0000
    requires t.chunkId < 0x8000_0000
    ensures var u := UnpackOnly(PackOnly(t));
            && u.used && u.objId == t.objId && u.seqNumber == t.seqNumber
            && (u.extraAvailable <==>
                  t.chunkId == 0 && t.extraAvailable && (t.objType == 1 ==> t.fileSize < 0x8000_0000))
            && (u.extraAvailable ==>
                  && u.chunkId == 0 && u.parentId == t.parentId && u.isShrink == t.isShrink && u.shadows == t.shadows
                  && u.objType == t.objType && (t.objType == 1 ==> u.fileSize == t.fileSize)
                  && (t.objType == 4 ==> u.equivId == t.equivId))
            && (!u.extraAvailable ==> u.chunkId == t.chunkId && u.nBytes == t.nBytes)
  {
    hide PackOnly, UnpackOnly, Storable, ExtraPackable;
    PackUnpack(t);
    SmallIds(t);
    PackableIs(t);
  }

  lemma SmallIds(t: Tags)
    requires t.seqNumber != UNUSED && t.objId < 0x1000_0000 && t.parentId < 0x1000_0000 && t.chunkId < 0x8000_0000
    ensures Storable(t)
  {
    hide ExtraPackable;
  }

  lemma PackableIs(t: Tags)
    ensures ExtraPackable(t) <==>
              t.chunkId == 0 && t.extraAvailable && (t.objType == 1 ==> t.fileSize < 0x8000_0000)
  {
    LongIs(t.fileSize);
    hide Fits31;
  }

  lemma LongIs(size: bv64)
    ensures Fits31(size) <==> size < 0x8000_0000
  {
  }

  // ---------- Words and bytes ----------

  function ByteOf(w: Word, k: nat): Byte
    requires k < 4
  {
    if k == 0 then (w & 0xff) as Byte else if k == 1 then ((w >> 8) & 0xff) as Byte
    else if k == 2 then ((w >> 16) & 0xff) as Byte else (w >> 24) as Byte
  }

  function WordOf(b0: Byte, b1: Byte, b2: Byte, b3: Byte): Word {
    (b0 as Word) | ((b1 as Word) << 8) | ((b2 as Word) << 16) | ((b3 as Word) << 24)
  }

  lemma WordBack(w: Word)
    ensures WordOf(ByteOf(w, 0), ByteOf(w, 1), ByteOf(w, 2), ByteOf(w, 3)) == w
  {
  }

  lemma AllOnes(b0: Byte, b1: Byte, b2: Byte, b3: Byte)
    ensures WordOf(b0, b1, b2, b3) == UNUSED <==> b0 == 0xff && b1 == 0xff && b2 == 0xff && b3 == 0xff
  {
  }

  // ---------- Tags with their code ----------

  /** The 16 bytes of packed tags. */
  function Bytes16(p: Packed): (s: seq<Byte>)
    ensures |s| == 16
  {
    seq(16, i requires 0 <= i < 16 =>
      ByteOf(if i < 4 then p.seqNumber else if i < 8 then p.objId else if i < 12 then p.chunkId else p.nBytes, i % 4))
  }

  function WordAt(s: seq<Byte>, i: nat): Word
    requires i + 4 <= |s|
  {
    WordOf(s[i], s[i + 1], s[i + 2], s[i + 3])
  }

  function Packed16(s: seq<Byte>): Packed
    requires |s| == 16
  {
    Packed(WordAt(s, 0), WordAt(s, 4), WordAt(s, 8), WordAt(s, 12))
  }

  lemma BytesBack(p: Packed)
    ensures Packed16(Bytes16(p)) == p
  {
    hide ByteOf, WordOf;
    WordBack(p.seqNumber);
    WordBack(p.objId);
    WordBack(p.chunkId);
    WordBack(p.nBytes);
  }

  datatype EccResult = NoErrorFound | Fixed | Unfixed

  /** 16 bytes that were read with code `ecc`, after correction. */
  function Mended(s: seq<Byte>, ecc: EccOther, tagsEcc: bool): (r: seq<Byte>)
    requires |s| == 16
    ensures |r| == 16
  {
    if WordAt(s, 0) != UNUSED && tagsEcc then FixOther(s, ecc, Other(s)).1 else s
  }

  /** What unpacking them gives. */
  function Unpacked(s: seq<Byte>, ecc: EccOther, tagsEcc: bool): (Tags, EccResult)
    requires |s| == 16
  {
    var result := if WordAt(s, 0) != UNUSED && tagsEcc then FixOther(s, ecc, Other(s)).0 else 0;
    (UnpackOnly(Packed16(Mended(s, ecc, tagsEcc))), if result == 0 then NoErrorFound else if result == 1 then Fixed
     else Unfixed)
  }

  method Pack(t: Tags) returns (data: seq<Byte>, ecc: EccOther)
    ensures data == Bytes16(PackOnly(t)) && ecc == Other(data)
  {
    data := Bytes16(PackOnly(t));
    ecc := CalcOther(data);
  }

  /** Unpacks tags, correcting their bytes in place. */
  method Unpack(data: array<Byte>, ecc: EccOther, tagsEcc: bool) returns (t: Tags, result: EccResult)
    requires data.Length == 16
    modifies data
    ensures (t, result) == Unpacked(old(data[..]), ecc, tagsEcc)
    ensures data[..] == Mended(old(data[..]), ecc, tagsEcc)
  {
    hide UnpackOnly, FixOther, Other, WordAt, Packed16;
    result := NoErrorFound;
    ghost var s := data[..];
    if WordAt(data[..], 0) != UNUSED && tagsEcc {
      var test := CalcOther(data[..]);
      var r, _ := CorrectOther(data, ecc, test);
      result := if r == 0 then NoErrorFound else if r == 1 then Fixed else Unfixed;
    }
    t := UnpackOnly(Packed16(data[..]));
  }

  lemma Small()
    ensures 16 <= Pow2(32)
  {
    Pow2Below(4, 32);
    assert Pow2(4) == 16;
  }

  /** Tags come back as they were stored. */
  lemma SoundTags(t: Tags)
    requires t.objType <= 5 && Storable(t)
    ensures var s := Bytes16(PackOnly(t));
            Unpacked(s, Other(s), true) == (Meaning(t), NoErrorFound) && Mended(s, Other(s), true) == s
  {
    hide PackOnly, UnpackOnly, Meaning, FixOther, Other, Bytes16, Packed16;
    PackUnpack(t);
    BytesBack(PackOnly(t));
    NoError(Bytes16(PackOnly(t)));
  }

  /** They do with any one bit of the 16 bytes wrong, and the error is noted, unless the wrong bit makes the sequence
      number read as that of an unused page: then nothing is left of them. */
  lemma FlippedTags(t: Tags, p: nat, k: nat)
    requires t.objType <= 5 && Storable(t) && p < 16 && k < 8
    ensures var s := Bytes16(PackOnly(t)); var bad := Flip(s, p, k);
            if WordAt(bad, 0) != UNUSED
            then Unpacked(bad, Other(s), true) == (Meaning(t), Fixed) && Mended(bad, Other(s), true) == s
            else Unpacked(bad, Other(s), true) == (BLANK, NoErrorFound) && Mended(bad, Other(s), true) == bad
  {
    hide PackOnly, Meaning, FixOther, Other, Bytes16, Flip, WordOf, Pow2;
    var s := Bytes16(PackOnly(t));
    PackUnpack(t);
    BytesBack(PackOnly(t));
    Small();
    SingleError(s, p, k);
  }

  /** With any one bit of the code wrong they come back, too. */
  lemma WrongCodeTags(t: Tags, which: nat, j: nat)
    requires t.objType <= 5 && Storable(t) && j < if which == 0 then 8 else 32
    ensures var s := Bytes16(PackOnly(t)); var ecc := WrongCode(Other(s), which, j);
            Unpacked(s, ecc, true) == (Meaning(t), Fixed) && Mended(s, ecc, true) == s
  {
    hide PackOnly, Meaning, FixOther, Other, Bytes16, WordOf, WrongCode;
    var s := Bytes16(PackOnly(t));
    PackUnpack(t);
    BytesBack(PackOnly(t));
    SeqWord(t);
    CodeError(s, which, j);
  }

  lemma SeqWord(t: Tags)
    ensures PackOnly(t).seqNumber == t.seqNumber
  {
  }

  /** The wrong bit that hides a page is the only zero bit of its sequence number; so two zero bits are enough. */
  lemma HiddenPage(t: Tags, p: nat, k: nat)
    requires p < 16 && k < 8
    ensures var s := Bytes16(PackOnly(t)); var bad := Flip(s, p, k);
            WordAt(bad, 0) == UNUSED <==>
              if p < 4 then s[..4] == Flip([0xff, 0xff, 0xff, 0xff], p, k) else s[..4] == [0xff, 0xff, 0xff, 0xff]
  {
    hide PackOnly, Bytes16, WordOf, Xor, Mask;
    var s := Bytes16(PackOnly(t));
    var bad := Flip(s, p, k);
    AllOnes(bad[0], bad[1], bad[2], bad[3]);
    var ones := [0xff, 0xff, 0xff, 0xff];
    assert bad[..4] == ones <==> WordAt(bad, 0) == UNUSED;
    if p < 4 {
      FlipTwice(s, p, k);
      FlipTwice(ones, p, k);
      assert bad[..4] == Flip(s[..4], p, k);
      FlipTwice(s[..4], p, k);
    } else {
      assert bad[..4] == s[..4];
    }
  }

  /** A page whose sequence number has bit 31 for its only zero bit: that bit read wrong, the page is taken for
      unused. */
  lemma PageHidden()
    ensures var t := BLANK.(used := true, objId := 300, chunkId := 1, nBytes := 2048, seqNumber := 0x7fffffff);
            var s := Bytes16(PackOnly(t));
            Storable(t) && Meaning(t) == t && Unpacked(Flip(s, 3, 7), Other(s), true) == (BLANK, NoErrorFound)
  {
    hide Other, FixOther, WordOf;
    var t := BLANK.(used := true, objId := 300, chunkId := 1, nBytes := 2048, seqNumber := 0x7fffffff);
    var s := Bytes16(PackOnly(t));
    assert s[..4] == [0xff, 0xff, 0xff, 0x7f];
    assert Flip([0xff, 0xff, 0xff, 0xff], 3, 7) == [0xff, 0xff, 0xff, 0x7f];
    HiddenPage(t, 3, 7);
    FlippedTags(t, 3, 7);
  }
}
