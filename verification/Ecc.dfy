/**
 The error correcting code of the file system: column parities of the bits of a byte, and line parities of the byte
 positions with an odd number of bits.  One wrong data bit is put right, two are noticed.
 */
module Ecc {
  import opened Common

  type Byte = bv8

  // ---------- Bits of a byte ----------

  function Xor(a: Byte, b: Byte): Byte { a ^ b }

  lemma XorLaws(a: Byte, b: Byte, c: Byte)
    ensures Xor(a, b) == Xor(b, a) && Xor(Xor(a, b), c) == Xor(a, Xor(b, c)) && Xor(Xor(a, b), b) == a && Xor(a, 0) == a
            && Xor(a, a) == 0
  {
  }

  lemma XorRegroup(a: Byte, b: Byte, c: Byte, d: Byte)
    ensures Xor(Xor(a, b), Xor(c, d)) == Xor(Xor(a, c), Xor(b, d))
  {
    hide Xor;
    XorLaws(a, b, Xor(c, d));
    XorLaws(b, c, d);
    XorLaws(c, b, d);
    XorLaws(a, c, Xor(b, d));
  }

  /** Bits 0 to 2, bits 3 to 5 and bits 6 and 7 of a byte. */
  function Lower(b: Byte): (i: Byte)
    ensures i < 8
  {
    b & 7
  }

  function Middle(b: Byte): (i: Byte)
    ensures i < 8
  {
    (b >> 3) & 7
  }

  function Upper(b: Byte): (i: Byte)
    ensures i < 4
  {
    b >> 6
  }

  lemma PartsSum(a: Byte, b: Byte)
    ensures Lower(Xor(a, b)) == Xor(Lower(a), Lower(b))
    ensures Middle(Xor(a, b)) == Xor(Middle(a), Middle(b))
    ensures Upper(Xor(a, b)) == Xor(Upper(a), Upper(b))
  {
  }

  // ---------- Column parity ----------

  function Pick(i: Byte, v0: Byte, v1: Byte, v2: Byte, v3: Byte, v4: Byte, v5: Byte, v6: Byte, v7: Byte): Byte {
    if i == 0 then v0 else if i == 1 then v1 else if i == 2 then v2 else if i == 3 then v3
    else if i == 4 then v4 else if i == 5 then v5 else if i == 6 then v6 else v7
  }

  // The table, eight bytes to a row and eight rows to a quarter.

  function Quarter0(r: Byte, i: Byte): Byte {
    if r == 0 then Pick(i, 0x00, 0x55, 0x59, 0x0c, 0x65, 0x30, 0x3c, 0x69)
    else if r == 1 then Pick(i, 0x69, 0x3c, 0x30, 0x65, 0x0c, 0x59, 0x55, 0x00)
    else if r == 2 then Pick(i, 0x95, 0xc0, 0xcc, 0x99, 0xf0, 0xa5, 0xa9, 0xfc)
    else if r == 3 then Pick(i, 0xfc, 0xa9, 0xa5, 0xf0, 0x99, 0xcc, 0xc0, 0x95)
    else if r == 4 then Pick(i, 0x99, 0xcc, 0xc0, 0x95, 0xfc, 0xa9, 0xa5, 0xf0)
    else if r == 5 then Pick(i, 0xf0, 0xa5, 0xa9, 0xfc, 0x95, 0xc0, 0xcc, 0x99)
    else if r == 6 then Pick(i, 0x0c, 0x59, 0x55, 0x00, 0x69, 0x3c, 0x30, 0x65)
    else Pick(i, 0x65, 0x30, 0x3c, 0x69, 0x00, 0x55, 0x59, 0x0c)
  }

  function Quarter1(r: Byte, i: Byte): Byte {
    if r == 0 then Pick(i, 0xa5, 0xf0, 0xfc, 0xa9, 0xc0, 0x95, 0x99, 0xcc)
    else if r == 1 then Pick(i, 0xcc, 0x99, 0x95, 0xc0, 0xa9, 0xfc, 0xf0, 0xa5)
    else if r == 2 then Pick(i, 0x30, 0x65, 0x69, 0x3c, 0x55, 0x00, 0x0c, 0x59)
    else if r == 3 then Pick(i, 0x59, 0x0c, 0x00, 0x55, 0x3c, 0x69, 0x65, 0x30)
    else if r == 4 then Pick(i, 0x3c, 0x69, 0x65, 0x30, 0x59, 0x0c, 0x00, 0x55)
    else if r == 5 then Pick(i, 0x55, 0x00, 0x0c, 0x59, 0x30, 0x65, 0x69, 0x3c)
    else if r == 6 then Pick(i, 0xa9, 0xfc, 0xf0, 0xa5, 0xcc, 0x99, 0x95, 0xc0)
    else Pick(i, 0xc0, 0x95, 0x99, 0xcc, 0xa5, 0xf0, 0xfc, 0xa9)
  }

  function Quarter2(r: Byte, i: Byte): Byte {
    if r == 0 then Pick(i, 0xa9, 0xfc, 0xf0, 0xa5, 0xcc, 0x99, 0x95, 0xc0)
    else if r == 1 then Pick(i, 0xc0, 0x95, 0x99, 0xcc, 0xa5, 0xf0, 0xfc, 0xa9)
    else if r == 2 then Pick(i, 0x3c, 0x69, 0x65, 0x30, 0x59, 0x0c, 0x00, 0x55)
    else if r == 3 then Pick(i, 0x55, 0x00, 0x0c, 0x59, 0x30, 0x65, 0x69, 0x3c)
    else if r == 4 then Pick(i, 0x30, 0x65, 0x69, 0x3c, 0x55, 0x00, 0x0c, 0x59)
    else if r == 5 then Pick(i, 0x59, 0x0c, 0x00, 0x55, 0x3c, 0x69, 0x65, 0x30)
    else if r == 6 then Pick(i, 0xa5, 0xf0, 0xfc, 0xa9, 0xc0, 0x95, 0x99, 0xcc)
    else Pick(i, 0xcc, 0x99, 0x95, 0xc0, 0xa9, 0xfc, 0xf0, 0xa5)
  }

  function Quarter3(r: Byte, i: Byte): Byte {
    if r == 0 then Pick(i, 0x0c, 0x59, 0x55, 0x00, 0x69, 0x3c, 0x30, 0x65)
    else if r == 1 then Pick(i, 0x65, 0x30, 0x3c, 0x69, 0x00, 0x55, 0x59, 0x0c)
    else if r == 2 then Pick(i, 0x99, 0xcc, 0xc0, 0x95, 0xfc, 0xa9, 0xa5, 0xf0)
    else if r == 3 then Pick(i, 0xf0, 0xa5, 0xa9, 0xfc, 0x95, 0xc0, 0xcc, 0x99)
    else if r == 4 then Pick(i, 0x95, 0xc0, 0xcc, 0x99, 0xf0, 0xa5, 0xa9, 0xfc)
    else if r == 5 then Pick(i, 0xfc, 0xa9, 0xa5, 0xf0, 0x99, 0xcc, 0xc0, 0x95)
    else if r == 6 then Pick(i, 0x00, 0x55, 0x59, 0x0c, 0x65, 0x30, 0x3c, 0x69)
    else Pick(i, 0x69, 0x3c, 0x30, 0x65, 0x0c, 0x59, 0x55, 0x00)
  }

  /** The table: column parities of a byte in bits 7 to 2, its own parity in bit 0. */
  function ColumnParity(b: Byte): Byte {
    if Upper(b) == 0 then Quarter0(Middle(b), Lower(b))
    else if Upper(b) == 1 then Quarter1(Middle(b), Lower(b))
    else if Upper(b) == 2 then Quarter2(Middle(b), Lower(b))
    else Quarter3(Middle(b), Lower(b))
  }

  /** What the table is made of: every bit of a byte adds its own pattern, here in groups of three, three and two
      bits. */
  function Linear(b: Byte): Byte { Xor(Xor(Low(Lower(b)), Mid(Middle(b))), High(Upper(b))) }

  function Low(i: Byte): Byte { Pick(i, 0x00, 0x55, 0x59, 0x0c, 0x65, 0x30, 0x3c, 0x69) }

  function Mid(i: Byte): Byte { Pick(i, 0x00, 0x69, 0x95, 0xfc, 0x99, 0xf0, 0x0c, 0x65) }

  function High(i: Byte): Byte { if i == 0 then 0x00 else if i == 1 then 0xa5 else if i == 2 then 0xa9 else 0x0c }

  lemma Quarter0Is(r: Byte, i: Byte)
    requires r < 8 && i < 8
    ensures Quarter0(r, i) == Xor(Xor(Low(i), Mid(r)), High(0))
  {
  }

  lemma Quarter1Is(r: Byte, i: Byte)
    requires r < 8 && i < 8
    ensures Quarter1(r, i) == Xor(Xor(Low(i), Mid(r)), High(1))
  {
  }

  lemma Quarter2Is(r: Byte, i: Byte)
    requires r < 8 && i < 8
    ensures Quarter2(r, i) == Xor(Xor(Low(i), Mid(r)), High(2))
  {
  }

  lemma Quarter3Is(r: Byte, i: Byte)
    requires r < 8 && i < 8
    ensures Quarter3(r, i) == Xor(Xor(Low(i), Mid(r)), High(3))
  {
  }

  lemma TableIsLinear(b: Byte)
    ensures ColumnParity(b) == Linear(b)
  {
    hide Quarter0, Quarter1, Quarter2, Quarter3, Low, Mid, High, Xor, Lower, Middle, Upper;
    Quarter0Is(Middle(b), Lower(b));
    Quarter1Is(Middle(b), Lower(b));
    Quarter2Is(Middle(b), Lower(b));
    Quarter3Is(Middle(b), Lower(b));
  }

  lemma LowSum(a: Byte, b: Byte)
    requires a < 8 && b < 8
    ensures Low(Xor(a, b)) == Xor(Low(a), Low(b))
  {
  }

  lemma MidSum(a: Byte, b: Byte)
    requires a < 8 && b < 8
    ensures Mid(Xor(a, b)) == Xor(Mid(a), Mid(b))
  {
  }

  lemma HighSum(a: Byte, b: Byte)
    requires a < 4 && b < 4
    ensures High(Xor(a, b)) == Xor(High(a), High(b))
  {
  }

  lemma LinearSum(a: Byte, b: Byte)
    ensures Linear(Xor(a, b)) == Xor(Linear(a), Linear(b))
  {
    hide Low, Mid, High, Xor, Lower, Middle, Upper;
    PartsSum(a, b);
    LowSum(Lower(a), Lower(b));
    MidSum(Middle(a), Middle(b));
    HighSum(Upper(a), Upper(b));
    XorRegroup(Low(Lower(a)), Low(Lower(b)), Mid(Middle(a)), Mid(Middle(b)));
    XorRegroup(Xor(Low(Lower(a)), Mid(Middle(a))), Xor(Low(Lower(b)), Mid(Middle(b))), High(Upper(a)), High(Upper(b)));
  }

  /** Whether a byte has an odd number of bits. */
  predicate Odd(b: Byte) { ColumnParity(b) & 1 != 0 }

  /** Bit `k` of a byte. */
  function Mask(k: nat): Byte
    requires k < 8
  {
    if k == 0 then 0x01 else if k == 1 then 0x02 else if k == 2 then 0x04 else if k == 3 then 0x08
    else if k == 4 then 0x10 else if k == 5 then 0x20 else if k == 6 then 0x40 else 0x80
  }

  lemma LowestSum(a: Byte, b: Byte)
    ensures (Xor(a, b) & 1 != 0) == ((a & 1 != 0) != (b & 1 != 0))
  {
  }

  lemma MaskIsOdd(k: nat)
    requires k < 8
    ensures Linear(Mask(k)) & 1 != 0
  {
  }

  lemma FlippedByte(b: Byte, k: nat)
    requires k < 8
    ensures ColumnParity(Xor(b, Mask(k))) == Xor(ColumnParity(b), Linear(Mask(k))) && Odd(Xor(b, Mask(k))) == !Odd(b)
  {
    hide Linear, ColumnParity, Mask, Xor;
    TableIsLinear(b);
    TableIsLinear(Xor(b, Mask(k)));
    LinearSum(b, Mask(k));
    LowestSum(Linear(b), Linear(Mask(k)));
    MaskIsOdd(k);
  }

  // ---------- Positions ----------

  /** Bitwise exclusive or of numbers. */
  function XorN(a: nat, b: nat): nat
    decreases a + b
  {
    if a == 0 && b == 0 then 0 else (if a % 2 != b % 2 then 1 else 0) + 2 * XorN(a / 2, b / 2)
  }

  /** The complement of a number in `n` bits. */
  function NotN(n: nat, a: nat): nat {
    if n == 0 then 0 else 1 - a % 2 + 2 * NotN(n - 1, a / 2)
  }

  /** The number of bits set. */
  function Weight(a: nat): nat {
    if a == 0 then 0 else a % 2 + Weight(a / 2)
  }

  lemma {:induction false} XorNComm(a: nat, b: nat)
    ensures XorN(a, b) == XorN(b, a)
    decreases a + b
  {
    if a + b > 0 { XorNComm(a / 2, b / 2); }
  }

  lemma {:induction false} XorNZero(a: nat)
    ensures XorN(a, 0) == a
  {
    if a > 0 { XorNZero(a / 2); }
  }

  lemma {:induction false} XorNSelf(a: nat)
    ensures XorN(a, a) == 0
  {
    if a > 0 { XorNSelf(a / 2); }
  }

  lemma XorNStep(a: nat, b: nat)
    ensures XorN(a, b) % 2 == (if a % 2 != b % 2 then 1 else 0) && XorN(a, b) / 2 == XorN(a / 2, b / 2)
  {
  }

  lemma {:induction false} XorNAssoc(a: nat, b: nat, c: nat)
    ensures XorN(XorN(a, b), c) == XorN(a, XorN(b, c))
    decreases a + b + c
  {
    if a + b + c > 0 {
      XorNAssoc(a / 2, b / 2, c / 2);
      XorNStep(a, b);
      XorNStep(b, c);
      XorNStep(XorN(a, b), c);
      XorNStep(a, XorN(b, c));
    }
  }

  lemma XorNLaws(a: nat, b: nat, c: nat)
    ensures XorN(a, b) == XorN(b, a) && XorN(XorN(a, b), c) == XorN(a, XorN(b, c)) && XorN(XorN(a, b), b) == a
    ensures XorN(a, XorN(a, b)) == b
  {
    hide XorN;
    XorNComm(a, b);
    XorNAssoc(a, b, c);
    XorNAssoc(a, b, b);
    XorNAssoc(a, a, b);
    XorNSelf(a);
    XorNSelf(b);
    XorNZero(a);
    XorNZero(b);
    XorNComm(0, b);
  }

  lemma {:induction false} NotNot(n: nat, a: nat)
    requires a < Pow2(n)
    ensures NotN(n, NotN(n, a)) == a && NotN(n, a) < Pow2(n)
  {
    if n > 0 { NotNot(n - 1, a / 2); }
  }

  lemma NotStep(n: nat, a: nat)
    requires n > 0
    ensures NotN(n, a) % 2 == 1 - a % 2 && NotN(n, a) / 2 == NotN(n - 1, a / 2)
  {
  }

  /** Complementing both operands makes no difference. */
  lemma {:induction false} XorNots(n: nat, a: nat, b: nat)
    requires a < Pow2(n) && b < Pow2(n)
    ensures XorN(NotN(n, a), NotN(n, b)) == XorN(a, b)
  {
    if n == 0 {
      assert XorN(0, 0) == 0;
    } else {
      hide XorN, NotN;
      XorNots(n - 1, a / 2, b / 2);
      NotStep(n, a);
      NotStep(n, b);
      XorNStep(a, b);
      XorNStep(NotN(n, a), NotN(n, b));
    }
  }

  lemma {:induction false} WeightNot(n: nat, a: nat)
    requires a < Pow2(n)
    ensures Weight(NotN(n, a)) == n - Weight(a)
  {
    if n > 0 {
      WeightNot(n - 1, a / 2);
      var m := NotN(n, a);
      assert m % 2 == 1 - a % 2 && m / 2 == NotN(n - 1, a / 2);
    }
  }

  lemma {:induction false} WeightZero(a: nat)
    ensures Weight(a) == 0 <==> a == 0
  {
    if a > 0 { WeightZero(a / 2); }
  }

  lemma {:induction false} WeightPow2(j: nat)
    ensures Weight(Pow2(j)) == 1
  {
    if j > 0 { WeightPow2(j - 1); }
  }

  // ---------- Parities of a block of data ----------

  /** The column parity of all bytes. */
  function Col(data: seq<Byte>): Byte {
    if data == [] then 0 else Xor(Col(data[..|data| - 1]), ColumnParity(data[|data| - 1]))
  }

  /** What position `i` contributes to the line parity, and to the one of the complements in `n` bits. */
  function Place(n: nat, prime: bool, i: nat): nat { if prime then NotN(n, i) else i }

  /** The line parity: exclusive or of the places of the bytes with an odd number of bits. */
  function Line(n: nat, prime: bool, data: seq<Byte>): nat {
    if data == [] then 0
    else
      var rest := Line(n, prime, data[..|data| - 1]);
      if Odd(data[|data| - 1]) then XorN(rest, Place(n, prime, |data| - 1)) else rest
  }

  /** Data with bit `k` of byte `p` wrong. */
  function Flip(data: seq<Byte>, p: nat, k: nat): (r: seq<Byte>)
    requires p < |data| && k < 8
    ensures |r| == |data|
  {
    data[p := Xor(data[p], Mask(k))]
  }

  lemma FlipPrefix(data: seq<Byte>, p: nat, k: nat)
    requires p < |data| && k < 8
    ensures p < |data| - 1 ==>
            Flip(data, p, k)[..|data| - 1] == Flip(data[..|data| - 1], p, k)
            && Flip(data, p, k)[|data| - 1] == data[|data| - 1]
    ensures p == |data| - 1 ==> Flip(data, p, k)[..|data| - 1] == data[..|data| - 1]
  {
  }

  lemma {:induction false} FlipCol(data: seq<Byte>, p: nat, k: nat)
    requires p < |data| && k < 8
    ensures Col(Flip(data, p, k)) == Xor(Col(data), Linear(Mask(k)))
  {
    hide ColumnParity, Xor, Mask, Linear;
    var n := |data| - 1;
    FlipPrefix(data, p, k);
    var c, b, m := Col(data[..n]), ColumnParity(data[n]), Linear(Mask(k));
    XorLaws(c, b, m);
    XorLaws(c, m, b);
    XorLaws(m, b, b);
    if p < n { FlipCol(data[..n], p, k); } else { FlippedByte(data[p], k); }
  }

  lemma {:induction false} FlipLine(n: nat, prime: bool, data: seq<Byte>, p: nat, k: nat)
    requires p < |data| && k < 8
    ensures Line(n, prime, Flip(data, p, k)) == XorN(Line(n, prime, data), Place(n, prime, p))
  {
    hide ColumnParity, Odd, Xor, Mask, XorN, Place;
    var l := |data| - 1;
    FlipPrefix(data, p, k);
    var r, x, y := Line(n, prime, data[..l]), Place(n, prime, p), Place(n, prime, l);
    if p < l {
      FlipLine(n, prime, data[..l], p, k);
      XorNLaws(r, x, y);
      XorNLaws(r, y, x);
      XorNLaws(x, y, r);
    } else {
      FlippedByte(data[p], k);
      XorNLaws(r, x, x);
    }
  }

  // ---------- Blocks of any length ----------

  datatype EccOther = EccOther(col: Byte, line: nat, prime: nat)

  /** The six column parity bits. */
  function ColBits(c: Byte): Byte { (c >> 2) & 0x3f }

  function Other(data: seq<Byte>): EccOther {
    EccOther(ColBits(Col(data)), Line(32, false, data), Line(32, true, data))
  }

  /** Computes the code of a block of data. */
  method CalcOther(data: seq<Byte>) returns (ecc: EccOther)
    ensures ecc == Other(data)
  {
    hide ColumnParity, Xor, XorN, NotN, ColBits;
    var col: Byte, line, prime := 0, 0, 0;
    for i := 0 to |data|
      invariant col == Col(data[..i]) && line == Line(32, false, data[..i]) && prime == Line(32, true, data[..i])
    {
      assert data[..i + 1][..i] == data[..i];
      var b := ColumnParity(data[i]);
      col := Xor(col, b);
      if b & 1 != 0 {
        line := XorN(line, i);
        prime := XorN(prime, NotN(32, i));
      }
    }
    assert data[..|data|] == data;
    ecc := EccOther(ColBits(col), line, prime);
  }

  function Weight8(b: Byte): nat {
    (if b & 0x01 != 0 then 1 else 0) + (if b & 0x02 != 0 then 1 else 0) + (if b & 0x04 != 0 then 1 else 0)
    + (if b & 0x08 != 0 then 1 else 0) + (if b & 0x10 != 0 then 1 else 0) + (if b & 0x20 != 0 then 1 else 0)
    + (if b & 0x40 != 0 then 1 else 0) + (if b & 0x80 != 0 then 1 else 0)
  }

  /** In each of the three pairs of column parity bits exactly one is set. */
  predicate PairsDiffer(d: Byte) { (d ^ (d >> 1)) & 0x15 == 0x15 }

  /** The bit that the column parities point at. */
  function BitIndex(d: Byte): (k: nat)
    ensures k < 8
  {
    (if d & 0x20 != 0 then 4 else 0) + (if d & 0x08 != 0 then 2 else 0) + (if d & 0x02 != 0 then 1 else 0)
  }

  /** What becomes of the data and of the code read with them, and the verdict: 0 for no error, 1 for an error that was
      put right, -1 for one that could not be. */
  function FixOther(data: seq<Byte>, read: EccOther, test: EccOther): (int, seq<Byte>, EccOther) {
    var col, line, prime := Xor(read.col, test.col), XorN(read.line, test.line), XorN(read.prime, test.prime);
    if col == 0 && line == 0 && prime == 0 then (0, data, read)
    else if line == NotN(32, prime) && PairsDiffer(col) then
      if line >= |data| then (-1, data, read) else (1, Flip(data, line, BitIndex(col)), read)
    else if Weight(line) + Weight(prime) + Weight8(col) == 1 then (1, data, test)
    else (-1, data, read)
  }

  /** Checks a block of data against the code read with it, and corrects it in place. */
  method CorrectOther(data: array<Byte>, read: EccOther, test: EccOther) returns (result: int, read': EccOther)
    modifies data
    ensures (result, data[..], read') == FixOther(old(data[..]), read, test)
  {
    hide Xor, XorN, NotN, PairsDiffer, Weight8, BitIndex, Mask, Weight;
    var col, line, prime := Xor(read.col, test.col), XorN(read.line, test.line), XorN(read.prime, test.prime);
    read' := read;
    if col == 0 && line == 0 && prime == 0 { return 0, read'; }
    if line == NotN(32, prime) && PairsDiffer(col) {
      var bit := BitIndex(col);
      if line >= data.Length { return -1, read'; }
      data[line] := Xor(data[line], Mask(bit));
      return 1, read';
    }
    if Weight(line) + Weight(prime) + Weight8(col) == 1 { return 1, test; }
    return -1, read';
  }

  lemma ColBitsSum(a: Byte, b: Byte)
    ensures ColBits(Xor(a, b)) == Xor(ColBits(a), ColBits(b))
  {
  }

  /** The column parities of a single bit point at it. */
  lemma ColOfBit(k: nat)
    requires k < 8
    ensures var d := ColBits(Linear(Mask(k))); d != 0 && PairsDiffer(d) && BitIndex(d) == k
  {
  }

  /** Those of two bits do not point at anything, and have at least two bits set. */
  lemma ColOfTwoBits(k: nat, m: nat)
    requires k < 8 && m < 8 && k != m
    ensures var d := Xor(ColBits(Linear(Mask(k))), ColBits(Linear(Mask(m))));
            d != 0 && !PairsDiffer(d) && Weight8(d) >= 2
  {
    SmallCols(k);
    SmallCols(m);
  }

  /** The column parity bits of each bit of a byte. */
  function ColTable(k: nat): Byte
    requires k < 8
  {
    if k == 0 then 0x15 else if k == 1 then 0x16 else if k == 2 then 0x19 else if k == 3 then 0x1a
    else if k == 4 then 0x25 else if k == 5 then 0x26 else if k == 6 then 0x29 else 0x2a
  }

  lemma SmallCols(k: nat)
    requires k < 8
    ensures ColBits(Linear(Mask(k))) == ColTable(k)
  {
  }

  lemma FlipTwice(data: seq<Byte>, p: nat, k: nat)
    requires p < |data| && k < 8
    ensures Flip(Flip(data, p, k), p, k) == data
  {
    hide Xor, Mask;
    XorLaws(data[p], Mask(k), 0);
  }

  /** What one wrong bit makes of the code. */
  lemma OtherFlipped(data: seq<Byte>, p: nat, k: nat)
    requires p < |data| && k < 8
    ensures Other(Flip(data, p, k)) ==
            EccOther(Xor(Other(data).col, ColBits(Linear(Mask(k)))), XorN(Other(data).line, p),
                     XorN(Other(data).prime, NotN(32, p)))
  {
    hide Flip, Col, Line, Xor, XorN, NotN, ColBits, Linear, Mask;
    FlipCol(data, p, k);
    FlipLine(32, false, data, p, k);
    FlipLine(32, true, data, p, k);
    ColBitsSum(Col(data), Linear(Mask(k)));
  }

  /** Sound data are found to be sound. */
  lemma NoError(data: seq<Byte>)
    ensures FixOther(data, Other(data), Other(data)) == (0, data, Other(data))
  {
    hide Other, Xor, XorN;
    var e := Other(data);
    XorLaws(e.col, 0, 0);
    XorNSelf(e.line);
    XorNSelf(e.prime);
  }

  /** One wrong data bit is put right. */
  lemma SingleError(data: seq<Byte>, p: nat, k: nat)
    requires p < |data| <= Pow2(32) && k < 8
    ensures var bad := Flip(data, p, k); FixOther(bad, Other(data), Other(bad)) == (1, data, Other(data))
  {
    hide Flip, Other, Xor, XorN, NotN, ColBits, Linear, Mask, PairsDiffer, BitIndex, Weight, Weight8, Pow2;
    var e, d := Other(data), ColBits(Linear(Mask(k)));
    OtherFlipped(data, p, k);
    XorCancels(e.col, d);
    XorNLaws(e.line, p, 0);
    XorNLaws(e.prime, NotN(32, p), 0);
    NotNot(32, p);
    ColOfBit(k);
    FlipTwice(data, p, k);
  }

  lemma XorCancels(a: Byte, b: Byte)
    ensures Xor(a, Xor(a, b)) == b
  {
  }

  /** The code `e` with one bit wrong: bit `j` of the column parity, of the line parity or of the line parity of
      complements. */
  function WrongCode(e: EccOther, which: nat, j: nat): EccOther
    requires which == 0 ==> j < 8
  {
    if which == 0 then EccOther(Xor(e.col, Mask(j)), e.line, e.prime)
    else if which == 1 then EccOther(e.col, XorN(e.line, Pow2(j)), e.prime)
    else EccOther(e.col, e.line, XorN(e.prime, Pow2(j)))
  }

  lemma MaskWeight(j: nat)
    requires j < 8
    ensures Mask(j) != 0 && Weight8(Mask(j)) == 1
  {
  }

  lemma {:induction false} Pow2Below(j: nat, n: nat)
    requires j < n
    ensures Pow2(j) < Pow2(n)
  {
    if j < n - 1 { Pow2Below(j, n - 1); }
  }

  /** One wrong bit of the code leaves the data as they are, and is put right. */
  lemma CodeError(data: seq<Byte>, which: nat, j: nat)
    requires j < if which == 0 then 8 else 32
    ensures FixOther(data, WrongCode(Other(data), which, j), Other(data)) == (1, data, Other(data))
  {
    hide Other, Xor, XorN, NotN, Mask, PairsDiffer, Weight, Weight8, Pow2;
    var e := Other(data);
    XorLaws(e.col, if which == 0 then Mask(j) else 0, e.col);
    XorNSelf(e.line);
    XorNSelf(e.prime);
    XorNLaws(e.line, Pow2(j), e.line);
    XorNLaws(e.prime, Pow2(j), e.prime);
    XorNLaws(Pow2(j), e.line, e.line);
    XorNLaws(Pow2(j), e.prime, e.prime);
    if which == 0 { XorLaws(Mask(j), e.col, e.col); }
    WrongDeltas(which, j);
  }

  /** A difference of one bit in the code does not look like a wrong data bit. */
  lemma WrongDeltas(which: nat, j: nat)
    requires j < if which == 0 then 8 else 32
    ensures var col: Byte := if which == 0 then Mask(j) else 0;
            var line, prime := if which == 1 then Pow2(j) else 0, if which >= 2 then Pow2(j) else 0;
            && !(col == 0 && line == 0 && prime == 0) && line != NotN(32, prime)
              && Weight(line) + Weight(prime) + Weight8(col) == 1
  {
    hide Mask, NotN;
    assert Weight(0) == 0 && Weight8(0) == 0;
    if which == 0 {
      MaskWeight(j);
      hide Weight8, Weight, Pow2;
      Pow2Below(0, 32);
      WeightNot(32, 0);
    } else {
      WeightPow2(j);
      Pow2Below(j, 32);
      Pow2Below(0, 32);
      hide Weight8, Weight, Pow2;
      WeightNot(32, 0);
      WeightNot(32, Pow2(j));
    }
  }

  lemma XorNApart(p: nat, q: nat)
    requires p != q
    ensures XorN(p, q) != 0
  {
    hide XorN;
    XorNLaws(p, q, 0);
    XorNZero(p);
  }

  lemma UnlikeNot(n: nat, a: nat)
    requires n > 0
    ensures a != NotN(n, a)
  {
    NotStep(n, a);
  }

  /** How two wrong bits show in the parities: the line parities of positions and complements agree. */
  lemma TwoPlaces(n: nat, l: nat, r: nat, p: nat, q: nat)
    requires p < Pow2(n) && q < Pow2(n) && n > 0
    ensures XorN(l, XorN(XorN(l, p), q)) == XorN(p, q)
    ensures XorN(r, XorN(XorN(r, NotN(n, p)), NotN(n, q))) == XorN(p, q)
    ensures XorN(p, q) != NotN(n, XorN(p, q)) && 0 != NotN(n, 0)
    ensures p == q ==> XorN(p, q) == 0
    ensures p != q ==> XorN(p, q) != 0
  {
    hide XorN, NotN, Pow2;
    XorNots(n, p, q);
    XorNLaws(l, p, q);
    XorNLaws(l, XorN(p, q), 0);
    XorNLaws(r, NotN(n, p), NotN(n, q));
    XorNLaws(r, XorN(NotN(n, p), NotN(n, q)), 0);
    UnlikeNot(n, XorN(p, q));
    UnlikeNot(n, 0);
    if p != q { XorNApart(p, q); } else { XorNSelf(p); }
  }

  lemma XorTwo(c: Byte, d: Byte, e: Byte)
    ensures Xor(c, Xor(Xor(c, d), e)) == Xor(d, e)
  {
    hide Xor;
    XorLaws(c, d, e);
    XorCancels(c, Xor(d, e));
  }

  /** Two wrong data bits are noticed. */
  lemma DoubleError(data: seq<Byte>, p: nat, k: nat, q: nat, m: nat)
    requires p < |data| <= Pow2(32) && q < |data| && k < 8 && m < 8 && (p, k) != (q, m)
    ensures var bad := Flip(Flip(data, p, k), q, m); FixOther(bad, Other(data), Other(bad)) == (-1, bad, Other(data))
  {
    hide Flip, Other, Xor, XorN, NotN, ColBits, Linear, Mask, PairsDiffer, BitIndex, Weight, Weight8, Pow2;
    var e, d, d' := Other(data), ColBits(Linear(Mask(k))), ColBits(Linear(Mask(m)));
    OtherFlipped(data, p, k);
    OtherFlipped(Flip(data, p, k), q, m);
    XorTwo(e.col, d, d');
    TwoPlaces(32, e.line, e.prime, p, q);
    WeightZero(XorN(p, q));
    if p == q { ColOfTwoBits(k, m); }
  }

  // ---------- Blocks of 256 bytes ----------

  /** Bit `k` of a number. */
  predicate Bit(x: nat, k: nat) { if k == 0 then x % 2 == 1 else Bit(x / 2, k - 1) }

  function Or(a: Byte, b: Byte): Byte { a | b }

  function Not(a: Byte): Byte { !a }

  /** Four bits of a byte, in its upper and in its lower half. */
  function Upper4(b3: bool, b2: bool, b1: bool, b0: bool): (r: Byte)
    ensures r & 0x0f == 0
  {
    (if b3 then 0x80 else 0) | (if b2 then 0x40 else 0) | (if b1 then 0x20 else 0) | (if b0 then 0x10 else 0)
  }

  function Lower4(b3: bool, b2: bool, b1: bool, b0: bool): (r: Byte)
    ensures r & 0xf0 == 0
  {
    (if b3 then 0x08 else 0) | (if b2 then 0x04 else 0) | (if b1 then 0x02 else 0) | (if b0 then 0x01 else 0)
  }

  /** Four bits of `x` and four of `y`, from bit `k` on, in turn. */
  function Woven(x: nat, y: nat, k: nat): Byte {
    Or(Upper4(Bit(x, k + 3), Bit(y, k + 3), Bit(x, k + 2), Bit(y, k + 2)),
       Lower4(Bit(x, k + 1), Bit(y, k + 1), Bit(x, k), Bit(y, k)))
  }

  /** The three bytes of the code. */
  function Code(data: seq<Byte>): seq<Byte> {
    var line, prime := Line(8, false, data), Line(8, true, data);
    [Not(Woven(line, prime, 0)), Not(Woven(line, prime, 4)), Or(Not(Col(data)), 0x03)]
  }

  /** Computes the code of a block of data. */
  method Calc(data: seq<Byte>) returns (ecc: seq<Byte>)
    requires |data| == 256
    ensures ecc == Code(data)
  {
    hide ColumnParity, Xor, XorN, NotN, Woven, Or, Not;
    var col: Byte, line, prime := 0, 0, 0;
    for i := 0 to 256
      invariant col == Col(data[..i]) && line == Line(8, false, data[..i]) && prime == Line(8, true, data[..i])
    {
      assert data[..i + 1][..i] == data[..i];
      var b := ColumnParity(data[i]);
      col := Xor(col, b);
      if b & 1 != 0 {
        line := XorN(line, i);
        prime := XorN(prime, NotN(8, i));
      }
    }
    assert data[..256] == data;
    ecc := [Not(Woven(line, prime, 0)), Not(Woven(line, prime, 4)), Or(Not(col), 0x03)];
  }

  lemma {:induction false} BitXor(a: nat, b: nat, k: nat)
    ensures Bit(XorN(a, b), k) == (Bit(a, k) != Bit(b, k))
    decreases k
  {
    hide XorN;
    XorNStep(a, b);
    if k > 0 { BitXor(a / 2, b / 2, k - 1); }
  }

  lemma {:induction false} BitNot(n: nat, a: nat, k: nat)
    requires k < n
    ensures Bit(NotN(n, a), k) == !Bit(a, k)
  {
    hide NotN;
    NotStep(n, a);
    if k > 0 { BitNot(n - 1, a / 2, k - 1); }
  }

  lemma Upper4Sum(a: bool, b: bool, c: bool, d: bool, a': bool, b': bool, c': bool, d': bool)
    ensures Xor(Upper4(a, b, c, d), Upper4(a', b', c', d')) == Upper4(a != a', b != b', c != c', d != d')
  {
  }

  lemma Lower4Sum(a: bool, b: bool, c: bool, d: bool, a': bool, b': bool, c': bool, d': bool)
    ensures Xor(Lower4(a, b, c, d), Lower4(a', b', c', d')) == Lower4(a != a', b != b', c != c', d != d')
  {
  }

  lemma HalvesSum(u: Byte, l: Byte, u': Byte, l': Byte)
    requires u & 0x0f == 0 && u' & 0x0f == 0 && l & 0xf0 == 0 && l' & 0xf0 == 0
    ensures Xor(Not(Or(u, l)), Not(Or(u', l'))) == Or(Xor(u, u'), Xor(l, l'))
  {
  }

  lemma WovenSum(x: nat, y: nat, x': nat, y': nat, k: nat)
    ensures Xor(Not(Woven(x, y, k)), Not(Woven(x', y', k))) == Woven(XorN(x, x'), XorN(y, y'), k)
  {
    hide Xor, Or, Not, XorN, Bit, Upper4, Lower4;
    BitXor(x, x', k); BitXor(x, x', k + 1); BitXor(x, x', k + 2); BitXor(x, x', k + 3);
    BitXor(y, y', k); BitXor(y, y', k + 1); BitXor(y, y', k + 2); BitXor(y, y', k + 3);
    Upper4Sum(Bit(x, k + 3), Bit(y, k + 3), Bit(x, k + 2), Bit(y, k + 2), Bit(x', k + 3), Bit(y', k + 3),
              Bit(x', k + 2), Bit(y', k + 2));
    Lower4Sum(Bit(x, k + 1), Bit(y, k + 1), Bit(x, k), Bit(y, k), Bit(x', k + 1), Bit(y', k + 1), Bit(x', k),
              Bit(y', k));
    HalvesSum(Upper4(Bit(x, k + 3), Bit(y, k + 3), Bit(x, k + 2), Bit(y, k + 2)),
              Lower4(Bit(x, k + 1), Bit(y, k + 1), Bit(x, k), Bit(y, k)),
              Upper4(Bit(x', k + 3), Bit(y', k + 3), Bit(x', k + 2), Bit(y', k + 2)),
                Lower4(Bit(x', k + 1), Bit(y', k + 1), Bit(x', k), Bit(y', k)));
  }

  /** In each pair of bits exactly one is set; for the column parities, in the upper three pairs. */
  predicate AllDiffer(d: Byte) { (d ^ (d >> 1)) & 0x55 == 0x55 }

  predicate UpperDiffer(d: Byte) { (d ^ (d >> 1)) & 0x54 == 0x54 }

  function Half(d: Byte): (n: nat)
    ensures n < 16
  {
    (if d & 0x80 != 0 then 8 else 0) + (if d & 0x20 != 0 then 4 else 0) + (if d & 0x08 != 0 then 2 else 0)
    + (if d & 0x02 != 0 then 1 else 0)
  }

  function UpperIndex(d: Byte): (k: nat)
    ensures k < 8
  {
    (if d & 0x80 != 0 then 4 else 0) + (if d & 0x20 != 0 then 2 else 0) + (if d & 0x08 != 0 then 1 else 0)
  }

  /** What becomes of the data and of the code read with them, and the verdict. */
  function Fix(data: seq<Byte>, read: seq<Byte>, test: seq<Byte>): (int, seq<Byte>, seq<Byte>)
    requires |data| == 256 && |read| == |test| == 3
  {
    var d0, d1, d2 := Xor(read[0], test[0]), Xor(read[1], test[1]), Xor(read[2], test[2]);
    if d0 == 0 && d1 == 0 && d2 == 0 then (0, data, read)
    else if AllDiffer(d0) && AllDiffer(d1) && UpperDiffer(d2)
      then (1, Flip(data, 16 * Half(d1) + Half(d0), UpperIndex(d2)), read)
    else if Weight8(d0) + Weight8(d1) + Weight8(d2) == 1 then (1, data, test)
    else (-1, data, read)
  }

  /** Checks a block of data against the code read with it, and corrects it in place. */
  method Correct(data: array<Byte>, read: array<Byte>, test: seq<Byte>) returns (result: int)
    requires data.Length == 256 && read.Length == |test| == 3 && data != read
    modifies data, read
    ensures (result, data[..], read[..]) == Fix(old(data[..]), old(read[..]), test)
  {
    hide Xor, AllDiffer, UpperDiffer, Half, UpperIndex, Weight8, Mask;
    var d0, d1, d2 := Xor(read[0], test[0]), Xor(read[1], test[1]), Xor(read[2], test[2]);
    if d0 == 0 && d1 == 0 && d2 == 0 { return 0; }
    if AllDiffer(d0) && AllDiffer(d1) && UpperDiffer(d2) {
      var byte, bit := 16 * Half(d1) + Half(d0), UpperIndex(d2);
      data[byte] := Xor(data[byte], Mask(bit));
      return 1;
    }
    if Weight8(d0) + Weight8(d1) + Weight8(d2) == 1 {
      read[0] := test[0];
      read[1] := test[1];
      read[2] := test[2];
      assert read[..] == test;
      return 1;
    }
    return -1;
  }

  /** The column parities without the two lowest bits. */
  function And(a: Byte, b: Byte): Byte { a & b }

  lemma ColDelta(c: Byte, c': Byte)
    ensures Xor(Or(Not(c), 0x03), Or(Not(c'), 0x03)) == And(Xor(c, c'), 0xfc)
  {
  }

  /** How the codes of two blocks differ. */
  lemma CodeDelta(data: seq<Byte>, data': seq<Byte>)
    ensures var x := XorN(Line(8, false, data), Line(8, false, data'));
            var y := XorN(Line(8, true, data), Line(8, true, data'));
            && Xor(Code(data)[0], Code(data')[0]) == Woven(x, y, 0)
            && Xor(Code(data)[1], Code(data')[1]) == Woven(x, y, 4)
            && Xor(Code(data)[2], Code(data')[2]) == And(Xor(Col(data), Col(data')), 0xfc)
  {
    hide Line, Col, Xor, XorN, Woven, Or, Not, And;
    WovenSum(Line(8, false, data), Line(8, true, data), Line(8, false, data'), Line(8, true, data'), 0);
    WovenSum(Line(8, false, data), Line(8, true, data), Line(8, false, data'), Line(8, true, data'), 4);
    ColDelta(Col(data), Col(data'));
  }

  function Digit(b: bool, v: nat): nat { if b then v else 0 }

  /** The bits of `x` can be read off the woven byte. */
  lemma WovenBits(a: bool, a': bool, b: bool, b': bool, c: bool, c': bool, d: bool, d': bool)
    ensures var w := Or(Upper4(a, a', b, b'), Lower4(c, c', d, d'));
            && Half(w) == Digit(a, 8) + Digit(b, 4) + Digit(c, 2) + Digit(d, 1)
            && (AllDiffer(w) <==> a != a' && b != b' && c != c' && d != d')
            && (a == a' && b == b' && c == c' && d == d' ==>
                Weight8(w) == Digit(a, 2) + Digit(b, 2) + Digit(c, 2) + Digit(d, 2))
  {
  }

  /** The number made of `n` bits of `x` from bit `k` on. */
  function BitSum(x: nat, k: nat, n: nat): nat
    decreases n
  {
    if n == 0 then 0 else Digit(Bit(x, k), 1) + 2 * BitSum(x, k + 1, n - 1)
  }

  lemma {:induction false} BitSumShift(x: nat, k: nat, n: nat)
    ensures BitSum(x, k + 1, n) == BitSum(x / 2, k, n)
    decreases n
  {
    if n > 0 { BitSumShift(x, k + 1, n - 1); }
  }

  lemma {:induction false} BitSumIs(x: nat, n: nat)
    requires x < Pow2(n)
    ensures x == BitSum(x, 0, n)
  {
    if n > 0 {
      BitSumIs(x / 2, n - 1);
      BitSumShift(x, 0, n - 1);
    }
  }

  lemma FourBits(x: nat, k: nat)
    ensures BitSum(x, k, 4) == Digit(Bit(x, k + 3), 8) + Digit(Bit(x, k + 2), 4) + Digit(Bit(x, k + 1), 2)
            + Digit(Bit(x, k), 1)
  {
    hide Bit;
    assert BitSum(x, k + 3, 1) == Digit(Bit(x, k + 3), 1);
    assert BitSum(x, k + 2, 2) == Digit(Bit(x, k + 2), 1) + 2 * BitSum(x, k + 3, 1);
    assert BitSum(x, k + 1, 3) == Digit(Bit(x, k + 1), 1) + 2 * BitSum(x, k + 2, 2);
  }

  lemma EightBits(x: nat)
    requires x < 256
    ensures x == 16 * BitSum(x, 4, 4) + BitSum(x, 0, 4)
  {
    assert Pow2(8) == 256;
    BitSumIs(x, 8);
    hide Bit, Digit;
    assert BitSum(x, 0, 8) == Digit(Bit(x, 0), 1) + 2 * BitSum(x, 1, 7);
    assert BitSum(x, 1, 7) == Digit(Bit(x, 1), 1) + 2 * BitSum(x, 2, 6);
    assert BitSum(x, 2, 6) == Digit(Bit(x, 2), 1) + 2 * BitSum(x, 3, 5);
    assert BitSum(x, 3, 5) == Digit(Bit(x, 3), 1) + 2 * BitSum(x, 4, 4);
    assert BitSum(x, 0, 4) == Digit(Bit(x, 0), 1) + 2 * BitSum(x, 1, 3);
    assert BitSum(x, 1, 3) == Digit(Bit(x, 1), 1) + 2 * BitSum(x, 2, 2);
    assert BitSum(x, 2, 2) == Digit(Bit(x, 2), 1) + 2 * BitSum(x, 3, 1);
    assert BitSum(x, 3, 1) == Digit(Bit(x, 3), 1);
  }

  /** A position and its complement woven together: every pair differs, and the position can be read off. */
  lemma WovenApart(p: nat, k: nat)
    requires k + 4 <= 8
    ensures AllDiffer(Woven(p, NotN(8, p), k)) && Half(Woven(p, NotN(8, p), k)) == BitSum(p, k, 4)
  {
    hide NotN, Bit, Or, Upper4, Lower4, AllDiffer, Half, Weight8;
    BitNot(8, p, k); BitNot(8, p, k + 1); BitNot(8, p, k + 2); BitNot(8, p, k + 3);
    var y := NotN(8, p);
    WovenBits(Bit(p, k + 3), Bit(y, k + 3), Bit(p, k + 2), Bit(y, k + 2), Bit(p, k + 1), Bit(y, k + 1), Bit(p, k),
              Bit(y, k));
    FourBits(p, k);
  }

  /** A number woven with itself: no pair differs, and every bit counts twice. */
  lemma WovenTwice(x: nat, k: nat)
    ensures !AllDiffer(Woven(x, x, k)) && (Weight8(Woven(x, x, k)) == 0 <==> BitSum(x, k, 4) == 0)
            && Weight8(Woven(x, x, k)) != 1
    ensures BitSum(x, k, 4) == 0 ==> Woven(x, x, k) == 0
  {
    hide Bit, Or, Upper4, Lower4, AllDiffer, Half, Weight8;
    WovenBits(Bit(x, k + 3), Bit(x, k + 3), Bit(x, k + 2), Bit(x, k + 2), Bit(x, k + 1), Bit(x, k + 1), Bit(x, k),
              Bit(x, k));
    FourBits(x, k);
    NothingWoven();
  }

  lemma NothingWoven()
    ensures Or(Upper4(false, false, false, false), Lower4(false, false, false, false)) == 0
  {
  }

  lemma UpperOfBit(k: nat)
    requires k < 8
    ensures var d := And(Linear(Mask(k)), 0xfc); d != 0 && UpperDiffer(d) && UpperIndex(d) == k
  {
  }

  lemma UpperOfTwoBits(k: nat, m: nat)
    requires k < 8 && m < 8 && k != m
    ensures Weight8(And(Xor(Linear(Mask(k)), Linear(Mask(m))), 0xfc)) >= 2
  {
    LinearTable(k);
    LinearTable(m);
  }

  function PatternOf(k: nat): Byte
    requires k < 8
  {
    if k == 0 then 0x55 else if k == 1 then 0x59 else if k == 2 then 0x65 else if k == 3 then 0x69
    else if k == 4 then 0x95 else if k == 5 then 0x99 else if k == 6 then 0xa5 else 0xa9
  }

  lemma LinearTable(k: nat)
    requires k < 8
    ensures Linear(Mask(k)) == PatternOf(k)
  {
  }

  /** Sound data are found to be sound. */
  lemma NoErrorInBlock(data: seq<Byte>)
    requires |data| == 256
    ensures Fix(data, Code(data), Code(data)) == (0, data, Code(data))
  {
    hide Line, Col, Xor, Woven, Or, Not;
    XorLaws(Code(data)[0], 0, 0);
    XorLaws(Code(data)[1], 0, 0);
    XorLaws(Code(data)[2], 0, 0);
  }

  /** One wrong data bit is put right. */
  lemma SingleErrorInBlock(data: seq<Byte>, p: nat, k: nat)
    requires p < |data| == 256 && k < 8
    ensures var bad := Flip(data, p, k); Fix(bad, Code(data), Code(bad)) == (1, data, Code(data))
  {
    hide Flip, Line, Col, Code, Xor, XorN, NotN, Woven, And, Linear, Mask, AllDiffer, UpperDiffer, Half, UpperIndex,
      Weight8, BitSum;
    var bad := Flip(data, p, k);
    CodeDelta(data, bad);
    FlipCol(data, p, k);
    FlipLine(8, false, data, p, k);
    FlipLine(8, true, data, p, k);
    XorCancels(Col(data), Linear(Mask(k)));
    XorNLaws(Line(8, false, data), p, 0);
    XorNLaws(Line(8, true, data), NotN(8, p), 0);
    WovenApart(p, 0);
    WovenApart(p, 4);
    EightBits(p);
    UpperOfBit(k);
    FlipTwice(data, p, k);
  }

  /** One wrong bit of the code leaves the data as they are, and is put right. */
  lemma CodeErrorInBlock(data: seq<Byte>, i: nat, j: nat)
    requires |data| == 256 && i < 3 && j < 8
    ensures Fix(data, Code(data)[i := Xor(Code(data)[i], Mask(j))], Code(data)) == (1, data, Code(data))
  {
    hide Line, Col, Code, Xor, Mask, AllDiffer, UpperDiffer, Weight8;
    var c := Code(data);
    assert |c| == 3 by { CodeLength(data); }
    XorLaws(c[0], 0, 0);
    XorLaws(c[1], 0, 0);
    XorLaws(c[2], 0, 0);
    XorLaws(c[i], Mask(j), c[i]);
    XorLaws(Mask(j), c[i], c[i]);
    MaskWeight(j);
    ZeroByte();
  }

  lemma CodeLength(data: seq<Byte>)
    ensures |Code(data)| == 3
  {
  }

  lemma ZeroByte()
    ensures Weight8(0) == 0 && !AllDiffer(0)
  {
  }

  /** Two wrong data bits are noticed. */
  lemma DoubleErrorInBlock(data: seq<Byte>, p: nat, k: nat, q: nat, m: nat)
    requires p < |data| == 256 && q < |data| && k < 8 && m < 8 && (p, k) != (q, m)
    ensures var bad := Flip(Flip(data, p, k), q, m); Fix(bad, Code(data), Code(bad)) == (-1, bad, Code(data))
  {
    hide Flip, Line, Col, Code, Xor, XorN, NotN, Woven, And, Linear, Mask, AllDiffer, UpperDiffer, Half, UpperIndex,
      Weight8, BitSum;
    var mid := Flip(data, p, k);
    var bad := Flip(mid, q, m);
    CodeDelta(data, bad);
    FlipCol(data, p, k);
    FlipCol(mid, q, m);
    FlipLine(8, false, data, p, k);
    FlipLine(8, true, data, p, k);
    FlipLine(8, false, mid, q, m);
    FlipLine(8, true, mid, q, m);
    XorTwo(Col(data), Linear(Mask(k)), Linear(Mask(m)));
    assert Pow2(8) == 256;
    TwoPlaces(8, Line(8, false, data), Line(8, true, data), p, q);
    var x := XorN(p, q);
    WovenTwice(x, 0);
    WovenTwice(x, 4);
    ZeroByte();
    if p == q {
      UpperOfTwoBits(k, m);
    } else {
      XorNBelow(8, p, q);
      EightBits(x);
    }
  }

  lemma {:induction false} XorNBelow(n: nat, a: nat, b: nat)
    requires a < Pow2(n) && b < Pow2(n)
    ensures XorN(a, b) < Pow2(n)
  {
    if n > 0 { XorNBelow(n - 1, a / 2, b / 2); }
  }
}
