/** Bytes as numbers, and numbers as bytes. */
module Octets {
  import opened Common

  type Byte = b: int | 0 <= b < 256

  type Bytes = seq<Byte>

  function Zeros(n: nat): (s: Bytes)
    ensures |s| == n && forall i :: 0 <= i < n ==> s[i] == 0
  {
    Fill<Byte>(n, 0)
  }

  /** The four bytes of a 32-bit number, lowest first; negative numbers in two's complement. */
  function Le4(x: int): (s: Bytes)
    ensures |s| == 4
  {
    var u := x % 0x1_0000_0000;
    [Octet(u, 0), Octet(u, 1), Octet(u, 2), Octet(u, 3)]
  }

  /** Byte `k` of a 32-bit number. */
  function Octet(u: int, k: nat): Byte
    requires 0 <= u < 0x1_0000_0000
  {
    if k == 0 then u % 256 else Octet(u / 256, k - 1)
  }

  function Unsigned4(s: Bytes): (x: int)
    requires |s| == 4
    ensures 0 <= x < 0x1_0000_0000
  {
    var b0: int, b1: int, b2: int, b3: int := s[0], s[1], s[2], s[3];
    b0 + 256 * b1 + 65536 * b2 + 16777216 * b3
  }

  function Signed4(s: Bytes): int
    requires |s| == 4
  {
    var u := Unsigned4(s);
    if u >= 0x8000_0000 then u - 0x1_0000_0000 else u
  }

  lemma Le4Octets(x: int)
    ensures Unsigned4(Le4(x)) == x % 0x1_0000_0000
  {
    hide Octet;
    AllOctets(x % 0x1_0000_0000);
  }

  lemma Le4Back(x: int)
    ensures -0x8000_0000 <= x < 0x8000_0000 ==> Signed4(Le4(x)) == x
    ensures 0 <= x < 0x1_0000_0000 ==> Unsigned4(Le4(x)) == x
  {
    hide Le4, Unsigned4;
    Le4Octets(x);
  }

  lemma AllOctets(u: int)
    requires 0 <= u < 0x1_0000_0000
    ensures u == Octet(u, 0) + 256 * Octet(u, 1) + 65536 * Octet(u, 2) + 16777216 * Octet(u, 3)
  {
    hide Octet;
    var v := u / 256;
    var w := v / 256;
    OctetStep(u, 0); OctetStep(u, 1); OctetStep(u, 2);
    OctetStep(v, 0); OctetStep(v, 1);
    OctetStep(w, 0); OctetStep(w / 256, 0);
  }

  lemma OctetStep(u: int, k: nat)
    requires 0 <= u < 0x1_0000_0000
    ensures u == Octet(u, 0) + 256 * (u / 256) && Octet(u, k + 1) == Octet(u / 256, k)
  {
  }

  function Words(xs: seq<int>): (s: Bytes)
    ensures |s| == 4 * |xs|
  {
    if xs == [] then [] else Words(xs[..|xs| - 1]) + Le4(xs[|xs| - 1])
  }

  function WordAt(s: Bytes, k: nat): (w: Bytes)
    requires 4 * k + 4 <= |s|
    ensures |w| == 4
  {
    s[4 * k..4 * k + 4]
  }

  lemma {:induction false} WordsAt(xs: seq<int>, k: nat)
    requires k < |xs|
    ensures WordAt(Words(xs), k) == Le4(xs[k])
  {
    if k < |xs| - 1 {
      WordsAt(xs[..|xs| - 1], k);
      assert WordAt(Words(xs), k) == WordAt(Words(xs[..|xs| - 1]), k);
    }
  }
}
