/** The limb loops that the numeric code calls in a library: addition, subtraction and multiplication by the
    schoolbook, and what makes each of them exact. */
module Mpn {
  import opened Bits
  import opened Limbs

  lemma Split(s: seq<Limb>, i: nat, top: int)
    requires i < |s|
    ensures IntOf(s[i..], top) == s[i] + B * IntOf(s[i + 1..], top)
  {
    assert s[i..][1..] == s[i + 1..];
  }

  /** A row written limb by limb: the first i limbs are done, rest is what is to be written above them. */
  lemma WriteLimb(low: seq<Limb>, d: Limb, rest: int)
    ensures IntOf(low, d + B * rest) == IntOf(low + [d], rest)
  {
    IntOfSnoc(low, d, rest);
  }

  /** mpn_add: the longer row first. */
  method Add(dst: array<Limb>, s: seq<Limb>, t: seq<Limb>) returns (carry: Limb)
    requires |t| <= |s| <= dst.Length
    modifies dst
    ensures carry <= 1 && dst[|s|..] == old(dst[|s|..])
    ensures IntOf(dst[..|s|], carry) == IntOf(s, 0) + IntOf(t, 0)
  {
    carry := 0;
    var i := 0;
    assert s[0..] == s && t[0..] == t;
    while i < |s|
      invariant i <= |s| && carry <= 1
      invariant forall k :: |s| <= k < dst.Length ==> dst[k] == old(dst[k])
      invariant IntOf(dst[..i], carry + IntOf(s[i..], 0) + (if i <= |t| then IntOf(t[i..], 0) else 0)) == IntOf(s, 0) + IntOf(t, 0)
    {
      var y := if i < |t| then t[i] else 0;
      var sum := s[i] + y + carry;
      Split(s, i, 0);
      if i < |t| { Split(t, i, 0); } else if i == |t| { assert t[i..] == []; }
      ghost var low := dst[..i];
      var d, c := sum % B, sum / B;
      ghost var rest := c + IntOf(s[i + 1..], 0) + if i < |t| then IntOf(t[i + 1..], 0) else 0;
      WriteLimb(low, d, rest);
      dst[i] := d;
      assert dst[..i + 1] == low + [d];
      carry := c;
      i := i + 1;
    }
    assert s[|s|..] == [] && (|t| == |s| ==> t[|s|..] == []);
  }

  /** mpn_sub: |s| limbs, less the |t| limbs of the shorter row. */
  method Sub(dst: array<Limb>, s: seq<Limb>, t: seq<Limb>) returns (borrow: int)
    requires |t| <= |s| <= dst.Length
    modifies dst
    ensures 0 <= borrow <= 1 && dst[|s|..] == old(dst[|s|..])
    ensures IntOf(dst[..|s|], -borrow) == IntOf(s, 0) - IntOf(t, 0)
  {
    borrow := 0;
    var i := 0;
    assert s[0..] == s && t[0..] == t;
    while i < |s|
      invariant i <= |s| && 0 <= borrow <= 1
      invariant forall k :: |s| <= k < dst.Length ==> dst[k] == old(dst[k])
      invariant IntOf(dst[..i], -borrow + IntOf(s[i..], 0) - (if i <= |t| then IntOf(t[i..], 0) else 0)) == IntOf(s, 0) - IntOf(t, 0)
    {
      var y := if i < |t| then t[i] else 0;
      var diff := s[i] - y - borrow;
      Split(s, i, 0);
      if i < |t| { Split(t, i, 0); } else if i == |t| { assert t[i..] == []; }
      ghost var low := dst[..i];
      var d, b := if diff < 0 then diff + B else diff, if diff < 0 then 1 else 0;
      ghost var rest := -b + IntOf(s[i + 1..], 0) - if i < |t| then IntOf(t[i + 1..], 0) else 0;
      WriteLimb(low, d, rest);
      dst[i] := d;
      assert dst[..i + 1] == low + [d];
      borrow := b;
      i := i + 1;
    }
    assert s[|s|..] == [] && (|t| == |s| ==> t[|s|..] == []);
  }

  lemma Distribute(m: int, a: int, b: int)
    ensures m * (a + B * b) == m * a + B * (m * b)
  {
  }

  lemma LimbProduct(a: Limb, b: Limb, c: Limb, d: Limb)
    ensures 0 <= a * b + c + d < B * B
  {
    assert a * b <= (B - 1) * (B - 1) by { MulUp(a, B - 1, b, B - 1); }
  }

  lemma MulUp(a: int, x: int, b: int, y: int)
    requires 0 <= a <= x && 0 <= b <= y
    ensures 0 <= a * b <= x * y
  {
    assert x * y - a * b == (x - a) * y + a * (y - b);
  }

  lemma Empty(top: int)
    ensures IntOf([], top) == top
  {
  }

  /** One limb of a product that is added to a row. */
  lemma ProductStep(low: seq<Limb>, d: Limb, c: Limb, carry: Limb, t: Limb, rest: int, m: Limb, a: Limb, more: int)
    requires a * m + carry + t == d + B * c
    ensures IntOf(low, carry + (t + B * rest) + m * (a + B * more)) == IntOf(low + [d], c + rest + m * more)
  {
    Distribute(m, a, more);
    WriteLimb(low, d, c + rest + m * more);
    assert carry + (t + B * rest) + m * (a + B * more) == d + B * (c + rest + m * more);
  }

  /** mpn_mul_1 */
  method Mul1(dst: array<Limb>, s: seq<Limb>, m: Limb) returns (carry: Limb)
    requires |s| <= dst.Length
    modifies dst
    ensures dst[|s|..] == old(dst[|s|..])
    ensures IntOf(dst[..|s|], carry) == m * IntOf(s, 0)
  {
    carry := 0;
    var i := 0;
    assert s[0..] == s;
    while i < |s|
      invariant i <= |s|
      invariant forall k :: |s| <= k < dst.Length ==> dst[k] == old(dst[k])
      invariant IntOf(dst[..i], carry + m * IntOf(s[i..], 0)) == m * IntOf(s, 0)
    {
      LimbProduct(s[i], m, carry, 0);
      var p := s[i] * m + carry;
      Split(s, i, 0);
      ghost var low := dst[..i];
      var d, c := p % B, p / B;
      ProductStep(low, d, c, carry, 0, 0, m, s[i], IntOf(s[i + 1..], 0));
      dst[i] := d;
      assert dst[..i + 1] == low + [d];
      carry := c;
      i := i + 1;
    }
    assert s[|s|..] == [];
  }

  /** mpn_addmul_1: the product is added to the limbs of dst from off on, and the carry goes into the limb after
      them, which has to be zero. */
  method AddMul1(dst: array<Limb>, off: nat, s: seq<Limb>, m: Limb)
    requires off + |s| + 1 <= dst.Length && dst[off + |s|] == 0
    modifies dst
    ensures dst[..off] == old(dst[..off]) && dst[off + |s| + 1..] == old(dst[off + |s| + 1..])
    ensures IntOf(dst[off..off + |s| + 1], 0) == old(IntOf(dst[off..off + |s|], 0)) + m * IntOf(s, 0)
  {
    hide IntOf;
    var carry: Limb := 0;
    var i := 0;
    ghost var t := dst[off..off + |s|];
    assert s[0..] == s && t[0..] == t && dst[off..off] == [];
    Empty(carry + IntOf(t, 0) + m * IntOf(s, 0));
    Empty(0);
    while i < |s|
      invariant i <= |s|
      invariant forall k :: 0 <= k < off || off + |s| <= k < dst.Length ==> dst[k] == old(dst[k])
      invariant forall k :: i <= k < |s| ==> dst[off + k] == t[k]
      invariant IntOf(dst[off..off + i], carry + IntOf(t[i..], 0) + m * IntOf(s[i..], 0)) == IntOf(t, 0) + m * IntOf(s, 0)
    {
      LimbProduct(s[i], m, carry, dst[off + i]);
      var p := s[i] * m + carry + dst[off + i];
      Split(s, i, 0);
      Split(t, i, 0);
      ghost var low := dst[off..off + i];
      var d, c := p % B, p / B;
      ProductStep(low, d, c, carry, t[i], IntOf(t[i + 1..], 0), m, s[i], IntOf(s[i + 1..], 0));
      dst[off + i] := d;
      assert dst[off..off + i + 1] == low + [d];
      carry := c;
      i := i + 1;
    }
    assert s[|s|..] == [] && t[|s|..] == [];
    assert m * IntOf(s[|s|..], 0) == 0;
    ghost var low := dst[off..off + |s|];
    assert IntOf(low, carry) == IntOf(t, 0) + m * IntOf(s, 0);
    IntOfSnoc(low, carry, 0);
    dst[off + |s|] := carry;
    assert dst[off..off + |s| + 1] == low + [carry];
  }

  lemma RowStep(low: seq<Limb>, row: seq<Limb>, v: int, x: int, m: Limb, rest: int)
    requires 0 < |row| && IntOf(row, 0) == v + m * x
    ensures IntOf(low, v + x * (m + B * rest)) == IntOf(low + [row[0]], IntOf(row[1..], 0) + x * rest)
  {
    Distribute(x, m, rest);
    assert IntOf(row, 0) == row[0] + B * IntOf(row[1..], 0);
    WriteLimb(low, row[0], IntOf(row[1..], 0) + x * rest);
  }

  /** mpn_mul: one row of products after the other. */
  method Mul(dst: array<Limb>, s: seq<Limb>, t: seq<Limb>)
    requires dst.Length == |s| + |t|
    modifies dst
    ensures IntOf(dst[..], 0) == IntOf(s, 0) * IntOf(t, 0)
  {
    hide IntOf;
    var n := |s| + |t|;
    var k := 0;
    while k < n
      invariant k <= n && forall x :: 0 <= x < k ==> dst[x] == 0
    {
      dst[k] := 0;
      k := k + 1;
    }
    ghost var product := IntOf(s, 0) * IntOf(t, 0);
    assert dst[0..|s|] == Zeros(|s|) && dst[..0] == [] && t[0..] == t;
    IntOfZeros(|s|);
    Empty(0 + product);
    Empty(0);
    var j := 0;
    while j < |t|
      invariant j <= |t|
      invariant forall x :: j + |s| <= x < n ==> dst[x] == 0
      invariant IntOf(dst[..j], IntOf(dst[j..j + |s|], 0) + IntOf(s, 0) * IntOf(t[j..], 0)) == product
    {
      ghost var low, v, rest := dst[..j], IntOf(dst[j..j + |s|], 0), IntOf(t[j + 1..], 0);
      AddMul1(dst, j, s, t[j]);
      Split(t, j, 0);
      ghost var row := dst[j..j + |s| + 1];
      assert row[1..] == dst[j + 1..j + 1 + |s|] && dst[..j + 1] == low + [row[0]];
      RowStep(low, row, v, IntOf(s, 0), t[j], rest);
      j := j + 1;
    }
    assert t[|t|..] == [] && dst[..] == dst[..j] + dst[j..j + |s|];
    IntOfAppend(dst[..j], dst[j..j + |s|], 0);
  }
}
