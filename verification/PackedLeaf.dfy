/**
 Level-0 tnodes: sixteen chunk numbers packed side by side into 32-bit words, where an entry may straddle two words.
 A word is the sequence of its bits, least significant bit first.
 */
module PackedLeaf {
  import opened Common

  type Word = w: seq<bool> | |w| == 32 witness seq(32, _ => false)

  const ENTRIES: nat := 16

  function Shl(x: Word, n: nat): Word { seq(32, i requires 0 <= i < 32 => i >= n && x[i - n]) }

  function Shr(x: Word, n: nat): Word { seq(32, i requires 0 <= i < 32 => i + n < 32 && x[i + n]) }

  function And(x: Word, y: Word): Word { seq(32, i requires 0 <= i < 32 => x[i] && y[i]) }

  function Or(x: Word, y: Word): Word { seq(32, i requires 0 <= i < 32 => x[i] || y[i]) }

  function Not(x: Word): Word { seq(32, i requires 0 <= i < 32 => !x[i]) }

  /** The word whose lowest `width` bits are set. */
  function Mask(width: nat): Word { seq(32, i requires 0 <= i < 32 => i < width) }

  function Zero(): Word { seq(32, _ => false) }

  /** The words of a leaf have room for sixteen entries. */
  predicate Roomy(words: seq<Word>, width: nat) {
    0 < width < 32 && ENTRIES * width <= 32 * |words|
  }

  /** Bit `i` of the words laid end to end. */
  function Bit(words: seq<Word>, i: nat): bool
    requires i < 32 * |words|
  {
    words[i / 32][i % 32]
  }

  /** Entry `pos`, as the bits it occupies. */
  function Entry(words: seq<Word>, width: nat, pos: nat): (e: seq<bool>)
    requires Roomy(words, width) && pos < ENTRIES
    ensures |e| == width
  {
    EntryFits(words, width, pos);
    seq(width, j requires 0 <= j < width => Bit(words, pos * width + j))
  }

  lemma BlankEntry(words: seq<Word>, width: nat, pos: nat)
    requires Roomy(words, width) && pos < ENTRIES && forall k :: 0 <= k < |words| ==> words[k] == Zero()
    ensures forall j :: 0 <= j < width ==> !Entry(words, width, pos)[j]
  {
    EntryFits(words, width, pos);
    forall i | 0 <= i < 32 * |words| ensures !Bit(words, i) { assert words[i / 32] == Zero(); }
  }

  /** The `width` bits of `val` from bit `grpBits` on: what an entry keeps of a chunk number. */
  function Stored(val: Word, grpBits: nat, width: nat): seq<bool> {
    seq(width, j requires 0 <= j < width => j + grpBits < 32 && val[j + grpBits])
  }

  lemma EntryFits(words: seq<Word>, width: nat, pos: nat)
    requires Roomy(words, width) && pos < ENTRIES
    ensures pos * width + width <= 32 * |words|
  {
    EntriesApart(width, pos, ENTRIES);
  }

  lemma Scaled(a: nat, b: nat)
    requires a >= 1
    ensures a * b >= b
  {
    assert (a - 1) * b >= 0;
  }

  /** Entries do not overlap. */
  lemma EntriesApart(width: nat, p: nat, q: nat)
    ensures p < q ==> p * width + width <= q * width
  {
    if p < q {
      assert (q - p) * width == q * width - p * width;
      Scaled(q - p, width);
    }
  }

  /** What writing the bits `[base, base + width)` of the leaf leaves in its words. */
  ghost predicate Overwritten(words: seq<Word>, words': seq<Word>, base: nat, e: seq<bool>) {
    |words'| == |words| && forall i :: 0 <= i < 32 * |words| ==>
      Bit(words', i) == if base <= i < base + |e| then e[i - base] else Bit(words, i)
  }

  /** Stores chunk number `val` in entry `pos` (taken modulo 16): no other entry is disturbed. */
  method LoadTnode0(words: seq<Word>, width: nat, grpBits: nat, position: nat, val: Word) returns (words': seq<Word>)
    requires Roomy(words, width)
    ensures |words'| == |words|
    ensures forall p :: 0 <= p < ENTRIES ==>
      Entry(words', width, p) == if p == position % ENTRIES then Stored(val, grpBits, width) else Entry(words, width, p)
  {
    var pos := position % ENTRIES;
    EntryFits(words, width, pos);
    var v := Shr(val, grpBits);
    var bitInMap := pos * width;
    var wordInMap, bitInWord := bitInMap / 32, bitInMap % 32;
    var mask := Shl(Mask(width), bitInWord);
    assert v[..width] == Stored(val, grpBits, width);
    LowPart(words[wordInMap], v, width, bitInWord);
    words' := words[wordInMap := And(words[wordInMap], Not(mask))];
    words' := words'[wordInMap := Or(words'[wordInMap], And(mask, Shl(v, bitInWord)))];
    if width > 32 - bitInWord {
      bitInWord := 32 - bitInWord;
      wordInMap := wordInMap + 1;
      mask := Shr(Mask(width), bitInWord);
      HighPart(words[wordInMap], v, width, bitInWord);
      words' := words'[wordInMap := And(words'[wordInMap], Not(mask))];
      words' := words'[wordInMap := Or(words'[wordInMap], And(mask, Shr(v, bitInWord)))];
    }
    TwoWords(words, words', bitInMap, Stored(val, grpBits, width));
    OverwrittenEntries(words, words', width, pos, Stored(val, grpBits, width));
  }

  /** Word `w` with the bits `e` written over it from bit `at` on, as far as they fall into the word. */
  ghost predicate Covered(w: Word, w': Word, at: int, e: seq<bool>) {
    forall i :: 0 <= i < 32 ==> w'[i] == if at <= i < at + |e| then e[i - at] else w[i]
  }

  lemma LowPart(w: Word, v: Word, width: nat, n: nat)
    requires n < 32 && width < 32
    ensures var mask := Shl(Mask(width), n); Covered(w, Or(And(w, Not(mask)), And(mask, Shl(v, n))), n, v[..width])
  {
  }

  lemma HighPart(w: Word, v: Word, width: nat, n: nat)
    requires width < 32
    ensures var mask := Shr(Mask(width), n); Covered(w, Or(And(w, Not(mask)), And(mask, Shr(v, n))), -(n as int),
                                                     v[..width])
  {
  }

  /** The bits from `base` on, in one word or two. */
  lemma TwoWords(words: seq<Word>, words': seq<Word>, base: nat, e: seq<bool>)
    requires |words'| == |words| && 0 < |e| < 32 && base + |e| <= 32 * |words|
    requires Covered(words[base / 32], words'[base / 32], base % 32, e)
    requires base % 32 + |e| > 32 ==> Covered(words[base / 32 + 1], words'[base / 32 + 1], base % 32 - 32, e)
    requires forall k :: 0 <= k < |words| && k != base / 32 && (k != base / 32 + 1 || base % 32 + |e| <= 32) ==>
             words'[k] == words[k]
    ensures Overwritten(words, words', base, e)
  {
    forall i | 0 <= i < 32 * |words|
      ensures Bit(words', i) == if base <= i < base + |e| then e[i - base]
              else Bit(words, i)
    {
      var k := i / 32;
      if k == base / 32 {
      } else if k == base / 32 + 1 && base % 32 + |e| > 32 {
      } else {
        assert words'[k] == words[k];
      }
    }
  }

  lemma OverwrittenEntries(words: seq<Word>, words': seq<Word>, width: nat, pos: nat, e: seq<bool>)
    requires Roomy(words, width) && pos < ENTRIES && |e| == width && Overwritten(words, words', pos * width, e)
    ensures forall p :: 0 <= p < ENTRIES ==>
      Entry(words', width, p) == if p == pos then e else Entry(words, width, p)
  {
    hide Bit;
    forall p | 0 <= p < ENTRIES ensures Entry(words', width, p) == if p == pos then e else Entry(words, width, p) {
      EntriesApart(width, p, pos);
      EntriesApart(width, pos, p);
      EntryFits(words, width, p);
      forall j | 0 <= j < width
        ensures Entry(words', width, p)[j] == if p == pos then e[j]
                else Entry(words, width, p)[j]
      {
        assert Bit(words', p * width + j) == if p == pos then e[j] else Bit(words, p * width + j);
      }
    }
  }

  /** The chunk number that a stored entry stands for. */
  function Widened(e: seq<bool>, grpBits: nat): Word {
    seq(32, i requires 0 <= i < 32 => 0 <= i - grpBits < |e| && e[i - grpBits])
  }

  /** Reads `width` bits from bit `base` on, which may straddle two words. */
  method ReadBits(words: seq<Word>, base: nat, width: nat) returns (val: Word)
    requires 0 < width < 32 && base + width <= 32 * |words|
    ensures forall i :: 0 <= i < width ==> val[i] == Bit(words, base + i)
    ensures forall i :: width <= i < 32 ==> !val[i]
  {
    var wordInMap, bitInWord := base / 32, base % 32;
    val := Shr(words[wordInMap], bitInWord);
    if width > 32 - bitInWord {
      bitInWord := 32 - bitInWord;
      wordInMap := wordInMap + 1;
      val := Or(val, Shl(words[wordInMap], bitInWord));
    }
    val := And(val, Mask(width));
    ReadTwo(words, base, width, val);
  }

  /** Reads entry `pos` (taken modulo 16). */
  method GetGroupBase(words: seq<Word>, width: nat, grpBits: nat, position: nat) returns (val: Word)
    requires Roomy(words, width)
    ensures val == Widened(Entry(words, width, position % ENTRIES), grpBits)
  {
    var pos := position % ENTRIES;
    EntryFits(words, width, pos);
    val := ReadBits(words, pos * width, width);
    val := Shl(val, grpBits);
  }

  lemma ReadTwo(words: seq<Word>, base: nat, width: nat, val: Word)
    requires width < 32 && base + width <= 32 * |words|
    requires forall i :: 0 <= i < width ==>
      val[i] == if i + base % 32 < 32 then words[base / 32][i + base % 32] else words[base / 32 + 1][i + base % 32 - 32]
    ensures forall i :: 0 <= i < width ==> val[i] == Bit(words, base + i)
  {
  }

  // ---------- Chunk numbers ----------

  /** The number whose bits, lowest first, are `s`. */
  function Number(s: seq<bool>): nat {
    if s == [] then 0 else (if s[0] then 1 else 0) + 2 * Number(s[1..])
  }

  lemma {:induction false} NoBits(s: seq<bool>)
    requires forall i :: 0 <= i < |s| ==> !s[i]
    ensures Number(s) == 0
  {
    if s != [] { NoBits(s[1..]); }
  }

  /** A number below `2^n` has no bits from bit `n` on. */
  lemma {:induction false} SmallNumber(s: seq<bool>, n: nat)
    requires Number(s) < Pow2(n)
    ensures forall i :: n <= i < |s| ==> !s[i]
  {
    if s != [] {
      if n > 0 { SmallNumber(s[1..], n - 1); } else { SmallNumber(s[1..], 0); }
    }
  }

  /** Clearing the lowest `n` bits rounds down to a multiple of `2^n`. */
  lemma {:induction false} Cleared(s: seq<bool>, t: seq<bool>, n: nat)
    requires |t| == |s| && forall i :: 0 <= i < |s| ==> t[i] == (s[i] && i >= n)
    ensures Number(t) <= Number(s) < Number(t) + Pow2(n)
  {
    if s != [] {
      if n > 0 {
        Cleared(s[1..], t[1..], n - 1);
      } else {
        assert t == s;
      }
    }
  }

  /** What an entry gives back for chunk number `val`: the start of a group of `2^grpBits` chunks that contains `val`,
      provided `val` fits into the entry's bits. */
  lemma GroupContains(val: Word, grpBits: nat, width: nat)
    requires Number(val) < Pow2(width + grpBits)
    ensures var b := Number(Widened(Stored(val, grpBits, width), grpBits)); b <= Number(val) < b + Pow2(grpBits)
  {
    SmallNumber(val, width + grpBits);
    Cleared(val, Widened(Stored(val, grpBits, width), grpBits), grpBits);
  }

  /** Without grouping, an entry gives back what was stored exactly if it fits. */
  lemma ExactWithoutGroups(val: Word, width: nat)
    requires width <= 32
    ensures Widened(Stored(val, 0, width), 0) == val <==> Number(val) < Pow2(width)
  {
    var r := Widened(Stored(val, 0, width), 0);
    if Number(val) < Pow2(width) {
      SmallNumber(val, width);
      assert r == val;
    }
    if r == val {
      HighBitsClear(val, width);
    }
  }

  lemma {:induction false} HighBitsClear(s: seq<bool>, n: nat)
    requires forall i :: n <= i < |s| ==> !s[i]
    ensures Number(s) < Pow2(n)
  {
    if s != [] {
      if n > 0 { HighBitsClear(s[1..], n - 1); } else { HighBitsClear(s[1..], 0); }
    }
  }
}
