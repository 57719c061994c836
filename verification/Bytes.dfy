/** Numbers as bytes in memory, least significant first. */
module Bytes {
  import opened Bits
  import Limbs

  type Byte = x: int | 0 <= x < 256

  /** The low n bytes of v, least significant first. */
  function Le(v: int, n: nat): (s: seq<Byte>)
    ensures |s| == n
    decreases n
  {
    if n == 0 then [] else [v % 256] + Le(v / 256, n - 1)
  }

  function LeValue(s: seq<Byte>): nat {
    if s == [] then 0 else s[0] + 256 * LeValue(s[1..])
  }

  lemma {:induction false} LeRead(v: int, n: nat)
    ensures LeValue(Le(v, n)) == v % Pow2(8 * n)
    decreases n
  {
    if n > 0 {
      LeRead(v / 256, n - 1);
      Limbs.Pow8();
      PowAdd(8, 8 * (n - 1));
      assert 8 + 8 * (n - 1) == 8 * n;
      ModStep(v, Pow2(8 * (n - 1)));
      assert Le(v, n)[1..] == Le(v / 256, n - 1);
    }
  }

  lemma ModStep(v: int, p: nat)
    requires p > 0
    ensures v % (256 * p) == v % 256 + 256 * (v / 256 % p)
  {
    var u := v / 256;
    var q, r := u / p, u % p;
    assert u == p * q + r;
    Limbs.Assoc(256, p, q);
    assert 256 * u == (256 * p) * q + 256 * r;
    DivUnique(v, 256 * p, q, 256 * r + v % 256);
  }

  lemma Pow32()
    ensures Pow2(32) == 0x1_0000_0000
  {
    hide Pow2;
    Limbs.Pow8();
    PowAdd(8, 8);
    PowAdd(16, 16);
  }

  function Put(data: seq<Byte>, at: nat, bytes: seq<Byte>): (r: seq<Byte>)
    requires at + |bytes| <= |data|
    ensures |r| == |data|
  {
    data[..at] + bytes + data[at + |bytes|..]
  }

  /** The machine's store of n bytes. */
  method StoreBytes(data: array<Byte>, at: nat, v: int, n: nat)
    requires at + n <= data.Length
    modifies data
    ensures data[..] == Put(old(data[..]), at, Le(v, n))
  {
    ghost var was := data[..];
    ghost var bytes := Le(v, n);
    var i, rest := 0, v;
    while i < n
      invariant 0 <= i <= n && bytes[i..] == Le(rest, n - i)
      invariant forall k {:trigger data[k]} :: 0 <= k < at || at + i <= k < data.Length ==> data[k] == was[k]
      invariant forall k {:trigger data[k]} :: at <= k < at + i ==> data[k] == bytes[k - at]
    {
      assert bytes[i] == bytes[i..][0];
      assert bytes[i + 1..] == bytes[i..][1..];
      data[at + i] := rest % 256;
      rest := rest / 256;
      i := i + 1;
    }
  }
}
