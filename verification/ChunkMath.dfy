/** Quotients, remainders and multiples of the chunk size. */
module ChunkMath {

  /** The multiple of `c` at or below `x`, counted in `c`s, and what remains. */
  function Quo(c: nat, x: nat): nat
    requires c > 0
  {
    x / c
  }

  function Rem(c: nat, x: nat): nat
    requires c > 0
  {
    x % c
  }

  lemma Split(c: nat, x: nat)
    requires c > 0
    ensures x == Quo(c, x) * c + Rem(c, x) && 0 <= Rem(c, x) < c && Quo(c, x) * c <= x
  {
  }

  lemma MultipleSign(c: nat, d: int)
    requires c > 0
    ensures d >= 0 <==> d * c >= 0
    ensures d >= 1 ==> d * c >= c
    ensures d <= -1 ==> d * c + c <= 0
  {
    if d <= -1 { assert (-d - 1) * c >= 0; }
  }

  /** A number within `c` above a multiple of `c` has that multiple for its quotient. */
  lemma QuotientIs(c: nat, q: nat, x: nat)
    requires c > 0 && q * c <= x < q * c + c
    ensures Quo(c, x) == q && Rem(c, x) == x - q * c
  {
    Split(c, x);
    var d := Quo(c, x) - q;
    assert d * c == Quo(c, x) * c - q * c;
    MultipleSign(c, d);
  }

  /** How many portions of `c` it takes for `x`. */
  function Ceil(x: nat, c: nat): nat
    requires c > 0
  {
    Quo(c, x + c - 1)
  }

  lemma CeilIs(x: nat, c: nat, q: nat)
    requires c > 0 && x <= q * c < x + c
    ensures Ceil(x, c) == q
  {
    QuotientIs(c, q, x + c - 1);
  }

  /** Numbers are ordered as their quotients are, and as their remainders are where those agree. */
  lemma Order(c: nat, x: nat, y: nat)
    requires c > 0
    ensures x <= y ==> Quo(c, x) <= Quo(c, y)
    ensures y <= x ==> Quo(c, y) <= Quo(c, x)
    ensures Quo(c, x) == Quo(c, y) ==> Rem(c, x) - Rem(c, y) == x - y
  {
    Split(c, x);
    Split(c, y);
    assert (Quo(c, x) - Quo(c, y)) * c == Quo(c, x) * c - Quo(c, y) * c;
    MultipleSign(c, Quo(c, x) - Quo(c, y));
  }

  /** Position `pos` lies in the `n` bytes from `off` on, which are in one chunk, exactly if it lies in that chunk
      at the corresponding offsets. */
  lemma InPart(c: nat, off: nat, n: nat, pos: nat)
    requires c > 0 && Rem(c, off) + n <= c
    ensures off <= pos < off + n <==> Quo(c, pos) == Quo(c, off) && Rem(c, off) <= Rem(c, pos) < Rem(c, off) + n
    ensures off <= pos < off + n ==> Rem(c, pos) - Rem(c, off) == pos - off
  {
    Split(c, off);
    Split(c, pos);
    if off <= pos < off + n { QuotientIs(c, Quo(c, off), pos); }
  }
}
