/** Bytes, optional values and the little-endian reads shared by the archive, PE and hook models. */
module Bytes {

  type byte = x: int | 0 <= x < 256

  datatype Option<+T> = None | Some(value: T)

  function Pow256(w: nat): (p: nat)
    ensures p >= 1
  {
    if w == 0 then 1 else 256 * Pow256(w - 1)
  }

  /** The value of a little-endian byte string. */
  function LeValue(s: seq<byte>): (n: nat)
    ensures n < Pow256(|s|)
  {
    if s == [] then 0 else s[0] + 256 * LeValue(s[1..])
  }

  /** The `w` little-endian bytes of `n`. */
  function LeBytes(n: nat, w: nat): (s: seq<byte>)
    ensures |s| == w
  {
    if w == 0 then [] else [n % 256] + LeBytes(n / 256, w - 1)
  }

  lemma {:induction false} LeRoundTrip(n: nat, w: nat)
    requires n < Pow256(w)
    ensures LeValue(LeBytes(n, w)) == n
  {
    if w > 0 {
      LeRoundTrip(n / 256, w - 1);
      assert LeBytes(n, w)[1..] == LeBytes(n / 256, w - 1);
    }
  }

  /** A checked little-endian read of `w` bytes at `at`: None when it would leave the buffer. */
  function Rd(b: seq<byte>, at: nat, w: nat): (r: Option<nat>)
    ensures r.Some? <==> at + w <= |b|
    ensures r.Some? ==> r.value < Pow256(w)
  {
    if at + w <= |b| then Some(LeValue(b[at..at + w])) else None
  }

  lemma RdEncoded(b: seq<byte>, at: nat, n: nat, w: nat)
    requires at + w <= |b| && b[at..at + w] == LeBytes(n, w)
    requires n < Pow256(w)
    ensures Rd(b, at, w) == Some(n)
  {
    LeRoundTrip(n, w);
  }

  lemma Pow256Values()
    ensures Pow256(1) == 0x100 && Pow256(2) == 0x1_0000 && Pow256(4) == 0x1_0000_0000
    ensures Pow256(8) == 0x1_0000_0000_0000_0000
  {
    assert Pow256(4) == 256 * (256 * (256 * (256 * Pow256(0))));
    assert Pow256(8) == 256 * (256 * (256 * (256 * Pow256(4))));
  }
}
