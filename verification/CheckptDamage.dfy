/**
 What the checksum of a checkpoint is good for: which changes it shows, and which it does not.
 */
module CheckptDamage {
  import opened CheckptObjs
  import opened CheckptSave
  import opened CheckptStream
  import opened Common
  import opened Octets

  /** The plain sum of the bytes. */
  function Total(s: Bytes): nat { if s == [] then 0 else Total(s[..|s| - 1]) + s[|s| - 1] }

  lemma {:induction false} SumIsTotal(s: Bytes)
    ensures SumOf(s) == Total(s) % 0x1_0000_0000
  {
    if s != [] { SumIsTotal(s[..|s| - 1]); }
  }

  /** Two byte sequences have the same checksum exactly if their sums agree in the lowest 24 bits, and their exclusive
      ors agree. */
  lemma SameSumIff(a: Bytes, b: Bytes)
    ensures SumBytes(a) == SumBytes(b) <==> Total(a) % 0x100_0000 == Total(b) % 0x100_0000 && XorOf(a) == XorOf(b)
  {
    hide Total, SumOf, XorOf, Le4, Unsigned4;
    SumIsTotal(a);
    SumIsTotal(b);
    Le4Octets(Composite(SumOf(a), XorOf(a)));
    Le4Octets(Composite(SumOf(b), XorOf(b)));
    Composed(Total(a), XorOf(a));
    Composed(Total(b), XorOf(b));
  }

  lemma Composed(n: nat, xor: Byte)
    ensures Composite(n % 0x1_0000_0000, xor) == n % 0x100_0000 * 256 + xor < 0x1_0000_0000
  {
    var m := n % 0x1_0000_0000;
    assert n % 0x100_0000 == m % 0x100_0000;
    assert m * 256 == m / 0x100_0000 * 0x1_0000_0000 + m % 0x100_0000 * 256;
  }

  function Bits(p: Byte): bv8 { p as bv8 }

  lemma OctetBack(u: bv8)
    ensures Bits(u as int) == u
  {
  }

  lemma {:induction false} SomeBits(p: Byte) returns (u: bv8)
    ensures u as int == p
  {
    if p == 0 { u := 0; } else { u := SomeBits(p - 1); u := u + 1; }
  }

  lemma BitsBack(p: Byte)
    ensures Bits(p) as int == p
  {
    var u := SomeBits(p);
    OctetBack(u);
    hide Bits;
  }

  lemma XorBits(p: Byte, x: Byte)
    ensures Bits(Xor(p, x)) == Bits(p) ^ Bits(x)
  {
    OctetBack(Bits(p) ^ Bits(x));
  }

  lemma BitsCancel(p: bv8, q: bv8, x: bv8, y: bv8)
    ensures p ^ x == p ^ y ==> x == y
    ensures p ^ x == q ^ x ==> p == q
    ensures p ^ x ^ y == p ^ y ^ x
  {
  }

  /** The other operand makes no difference to whether exclusive ors are the same. */
  lemma XorCancels(p: Byte, q: Byte, x: Byte, y: Byte)
    ensures Xor(p, x) == Xor(p, y) ==> x == y
    ensures Xor(p, x) == Xor(q, x) ==> p == q
  {
    hide Bits, Xor;
    XorBits(p, x); XorBits(p, y); XorBits(q, x);
    BitsCancel(Bits(p), Bits(q), Bits(x), Bits(y));
    BitsBack(p); BitsBack(q); BitsBack(x); BitsBack(y);
  }

  lemma {:induction false} XorShows(s: Bytes, i: nat, x: Byte)
    requires i < |s| && x != s[i]
    ensures XorOf(s[i := x]) != XorOf(s)
  {
    hide Xor;
    var n, t := |s| - 1, s[i := x];
    if i < n {
      XorShows(s[..n], i, x);
      assert t[..n] == s[..n][i := x];
      XorCancels(XorOf(t[..n]), XorOf(s[..n]), s[n], s[n]);
    } else {
      assert t[..n] == s[..n];
      XorCancels(XorOf(s[..n]), XorOf(s[..n]), x, s[n]);
    }
  }

  /** A change of one byte always shows. */
  lemma OneByteShows(s: Bytes, i: nat, x: Byte)
    requires i < |s| && x != s[i]
    ensures SumBytes(s[i := x]) != SumBytes(s)
  {
    hide SumBytes, XorOf;
    XorShows(s, i, x);
    SameSumIff(s[i := x], s);
  }

  /** Two bytes that change places never show. */
  lemma {:induction false} SwapHides(s: Bytes, x: Byte, y: Byte, t: Bytes)
    ensures SumBytes(s + [x, y] + t) == SumBytes(s + [y, x] + t)
  {
    hide SumBytes;
    SwapSame(s, x, y, t);
    SameSumIff(s + [x, y] + t, s + [y, x] + t);
  }

  lemma {:induction false} SwapSame(s: Bytes, x: Byte, y: Byte, t: Bytes)
    ensures Total(s + [x, y] + t) == Total(s + [y, x] + t) && XorOf(s + [x, y] + t) == XorOf(s + [y, x] + t)
  {
    hide Xor;
    var a, b := s + [x, y] + t, s + [y, x] + t;
    var n := |a| - 1;
    if t == [] {
      assert a[..n] == s + [x] && b[..n] == s + [y] && (s + [x])[..|s|] == s && (s + [y])[..|s|] == s;
      XorTwice(XorOf(s), x, y);
    } else {
      SwapSame(s, x, y, t[..|t| - 1]);
      assert a[..n] == s + [x, y] + t[..|t| - 1] && b[..n] == s + [y, x] + t[..|t| - 1];
    }
  }

  lemma XorTwice(p: Byte, x: Byte, y: Byte)
    ensures Xor(Xor(p, x), y) == Xor(Xor(p, y), x)
  {
    hide Bits, Xor;
    var a, b := Xor(Xor(p, x), y), Xor(Xor(p, y), x);
    XorBits(p, x); XorBits(p, y); XorBits(Xor(p, x), y); XorBits(Xor(p, y), x);
    BitsCancel(Bits(p), Bits(p), Bits(x), Bits(y));
    BitsBack(a); BitsBack(b);
  }

  /** A checkpoint in which one byte is wrong says nothing, wherever that byte is outside of the object records; and
      wherever it is, nothing that ends where the checkpoint ended. */
  lemma DamageShows(v: Bytes, dev: Bytes, infos: Bytes, bits: Bytes, objs: seq<ObjRead>, i: nat, x: Byte, n: nat,
                    width: nat, types: Types)
    requires width % 2 == 0 && ReadsOk(objs, width) && |dev| == 36 && WordAt(dev, 0) == Le4(36)
    requires |infos| == INFO_BYTES * n
    requires var w := Checkpt(dev, infos, bits, ObjsBytes(objs)); i < |w| && x != w[i] && w[i := x] <= v
    ensures var w, p := Checkpt(dev, infos, bits, ObjsBytes(objs)), 52 + |infos| + |bits|;
            var r := ParseCheckpt(v, n, |bits|, width, types);
            && (i < p || i >= p + |ObjsBytes(objs)| ==> r.Failed?)
            && (r.Got? ==> r.at != |w|)
  {
    hide WordAt, Le4, Marker, SumOf, XorOf, ParseObjs, ObjsBytes, ReadsOk, Enters, Compatible, SumBytes, Checkpt;
    var b := ObjsBytes(objs);
    var w, p := Checkpt(dev, infos, bits, b), 52 + |infos| + |bits|;
    Layers(w, dev, infos, bits, b);
    var q := p + |b|;
    assert v[..|w|] == w[i := x];
    EndShows(v, w, q, i, x);
    if i < p || i >= q {
      assert v[p..q] == w[p..q];
      StandsAt(v, p, b);
      ObjsParse(v, p, objs, width, types);
    }
  }

  /** What ends where the checkpoint ended has a wrong checksum. */
  lemma EndShows(v: Bytes, w: Bytes, q: nat, i: nat, x: Byte)
    requires q + 20 == |w| <= |v| && ParseEnd(w, q) && i < |w| && x != w[i] && v[..|w|] == w[i := x]
    ensures !ParseEnd(v, q)
  {
    hide SumBytes, Marker;
    var body := w[..q + 16];
    if i < q + 16 {
      assert v[..q + 16] == body[i := x] && v[q + 16..q + 20] == w[q + 16..q + 20];
      OneByteShows(body, i, x);
    } else {
      assert v[..q + 16] == body;
      assert v[q + 16..q + 20][i - q - 16] != w[q + 16..q + 20][i - q - 16];
    }
  }
}
