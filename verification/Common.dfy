/** What several parts of the model share. */
module Common {

  datatype Option<+T> = None | Some(value: T)

  /** The largest chunk id a file can have. */
  const MAX_CHUNK_ID := 0x0fff_ffff

  /** A hole of fewer chunks than this is filled with zeros. */
  const SMALL_HOLE_THRESHOLD := 4

  /** Sequence numbers of blocks are above this one. */
  const LOWEST_SEQUENCE_NUMBER := 0x0000_1000

  /** How many values the type of positions and sizes has. */
  type Width = w: nat | w > 0 witness 1

  function Max(a: int, b: int): int { if a <= b then b else a }

  function Min(a: int, b: int): int { if a <= b then a else b }

  function Fill<T>(n: nat, x: T): (s: seq<T>)
    ensures |s| == n && forall i :: 0 <= i < n ==> s[i] == x
  {
    seq(n, _ => x)
  }

  /** `d` written into `s` at position `at`. */
  function Splice<T>(s: seq<T>, at: nat, d: seq<T>): (r: seq<T>)
    requires at + |d| <= |s|
    ensures |r| == |s| && forall i :: 0 <= i < |s| ==> r[i] == if at <= i < at + |d| then d[i - at] else s[i]
  {
    s[..at] + d + s[at + |d|..]
  }

  function Pow2(n: nat): (p: nat)
    ensures p > 0
  {
    if n == 0 then 1 else 2 * Pow2(n - 1)
  }
}
