/** The numbers that texts and bytes stand for, as section 4 of RFC 4648 has it: a letter is a digit in base 64, by its
    rank in the alphabet, and a byte is one in base 256; the first one is the most significant. */
module Radix {

  /** Table 1 of the standard: the rank of a character in the alphabet, or -1. */
  function Rank(c: bv8): int {
    var x := Int(c);
    if 'A' as int <= x <= 'Z' as int then x - 'A' as int
    else if 'a' as int <= x <= 'z' as int then 26 + x - 'a' as int
    else if '0' as int <= x <= '9' as int then 52 + x - '0' as int
    else if x == '+' as int then 62
    else if x == '/' as int then 63
    else -1
  }

  function Int(x: bv8): int {
    x as int
  }

  /** The number whose digits in base 256 are those of before, and then s. */
  function Number256(before: int, s: seq<bv8>): int
    decreases |s|
  {
    if s == [] then before else Number256(256 * before + Int(s[0]), s[1..])
  }

  /** The number whose digits in base 64 are those of before, and then the ranks of t. */
  function Number64(before: int, t: seq<bv8>): int
    decreases |t|
  {
    if t == [] then before else Number64(64 * before + Rank(t[0]), t[1..])
  }

  lemma {:induction false} Append64(before: int, t: seq<bv8>, u: seq<bv8>)
    ensures Number64(before, t + u) == Number64(Number64(before, t), u)
    decreases |t|
  {
    if t == [] {
      assert t + u == u;
    } else {
      assert (t + u)[1..] == t[1..] + u;
      Append64(64 * before + Rank(t[0]), t[1..], u);
    }
  }

  lemma {:induction false} Append256(before: int, s: seq<bv8>, u: seq<bv8>)
    ensures Number256(before, s + u) == Number256(Number256(before, s), u)
    decreases |s|
  {
    if s == [] {
      assert s + u == u;
    } else {
      assert (s + u)[1..] == s[1..] + u;
      Append256(256 * before + Int(s[0]), s[1..], u);
    }
  }

  // ---------- Bits of bytes ----------

  function BitOf(x: bv8, i: nat): int
    requires i < 8
  {
    if (x >> i) & 1 == 1 then 1 else 0
  }

  lemma ByteBits(x: bv8)
    ensures Int(x) == 128 * BitOf(x, 7) + 64 * BitOf(x, 6) + 32 * BitOf(x, 5) + 16 * BitOf(x, 4) + 8 * BitOf(x, 3) + 4 * BitOf(x, 2) + 2 * BitOf(x, 1) + BitOf(x, 0)
  {
  }

  /** Three bytes as four numbers of six bits. */
  lemma Sextets(a: bv8, b: bv8, c: bv8)
    ensures 65536 * Int(a) + 256 * Int(b) + Int(c) ==
            262144 * Int(63 & (a >> 2)) + 4096 * Int(63 & ((a << 4) | (b >> 4))) + 64 * Int(63 & ((b << 2) | (c >> 6))) + Int(63 & c)
  {
    hide Int, BitOf;
    ByteBits(a);
    ByteBits(b);
    ByteBits(c);
    ByteBits(63 & (a >> 2));
    ByteBits(63 & ((a << 4) | (b >> 4)));
    ByteBits(63 & ((b << 2) | (c >> 6)));
    ByteBits(63 & c);
    SextetBits(a, b, c);
  }

  lemma SextetBits(a: bv8, b: bv8, c: bv8)
    ensures var w := 63 & (a >> 2);
            && BitOf(w, 7) == 0 && BitOf(w, 6) == 0 && BitOf(w, 5) == BitOf(a, 7) && BitOf(w, 4) == BitOf(a, 6)
            && BitOf(w, 3) == BitOf(a, 5) && BitOf(w, 2) == BitOf(a, 4) && BitOf(w, 1) == BitOf(a, 3) && BitOf(w, 0) == BitOf(a, 2)
    ensures var x := 63 & ((a << 4) | (b >> 4));
            && BitOf(x, 7) == 0 && BitOf(x, 6) == 0 && BitOf(x, 5) == BitOf(a, 1) && BitOf(x, 4) == BitOf(a, 0)
            && BitOf(x, 3) == BitOf(b, 7) && BitOf(x, 2) == BitOf(b, 6) && BitOf(x, 1) == BitOf(b, 5) && BitOf(x, 0) == BitOf(b, 4)
    ensures var y := 63 & ((b << 2) | (c >> 6));
            && BitOf(y, 7) == 0 && BitOf(y, 6) == 0 && BitOf(y, 5) == BitOf(b, 3) && BitOf(y, 4) == BitOf(b, 2)
            && BitOf(y, 3) == BitOf(b, 1) && BitOf(y, 2) == BitOf(b, 0) && BitOf(y, 1) == BitOf(c, 7) && BitOf(y, 0) == BitOf(c, 6)
    ensures var z := 63 & c;
            && BitOf(z, 7) == 0 && BitOf(z, 6) == 0 && BitOf(z, 5) == BitOf(c, 5) && BitOf(z, 4) == BitOf(c, 4)
            && BitOf(z, 3) == BitOf(c, 3) && BitOf(z, 2) == BitOf(c, 2) && BitOf(z, 1) == BitOf(c, 1) && BitOf(z, 0) == BitOf(c, 0)
  {
  }

  /** Four numbers of six bits as three bytes. */
  lemma Octets(a: bv8, b: bv8, c: bv8, d: bv8)
    requires a < 64 && b < 64 && c < 64 && d < 64
    ensures 65536 * Int((a << 2) | (b >> 4)) + 256 * Int((b << 4) | (c >> 2)) + Int((c << 6) | d) ==
            262144 * Int(a) + 4096 * Int(b) + 64 * Int(c) + Int(d)
  {
    hide Int;
    OctetParts(a, b, c, d);
    Sextets((a << 2) | (b >> 4), (b << 4) | (c >> 2), (c << 6) | d);
  }

  lemma OctetParts(a: bv8, b: bv8, c: bv8, d: bv8)
    requires a < 64 && b < 64 && c < 64 && d < 64
    ensures var x, y, z := (a << 2) | (b >> 4), (b << 4) | (c >> 2), (c << 6) | d;
            63 & (x >> 2) == a && 63 & ((x << 4) | (y >> 4)) == b && 63 & ((y << 2) | (z >> 6)) == c && 63 & z == d
  {
  }
}
