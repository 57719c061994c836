/** The shifts of exact integers: limb loops on magnitudes, multiplication and floor division by powers of two. */
module Shifts {
  import opened Bits
  import opened Limbs
  import opened LimbLoops
  import opened Numbers
  import LogicOps
  import Arithmetic
  import Mpn

  // ---------- One limb ----------

  /** The low bits of a limb that is shifted to the left, and the high bits that are carried. */
  lemma ShiftLimb(q: nat, p: nat, b: Limb)
    requires 0 < q && 0 < p && q * p == B
    ensures (q * b) % B == q * (b % p) && q * b == B * (b / p) + q * (b % p)
    ensures 0 <= q * (b % p) <= B - q && 0 <= b / p < q
  {
    var h, l := b / p, b % p;
    assert q * b == q * (p * h) + q * l;
    Assoc(q, p, h);
    assert q * l <= q * (p - 1) by { Order(q, l, p - 1); }
    DivUnique(q * b, B, h, q * l);
    if h >= q { Order(p, q, h); }
  }

  lemma Order(a: int, x: int, y: int)
    requires 0 <= a && x <= y
    ensures a * x <= a * y
  {
    assert a * y - a * x == a * (y - x);
  }

  lemma LimbBits(m: nat)
    requires m < 64
    ensures Pow2(m) * Pow2(64 - m) == B && Pow2(64 - m) * Pow2(m) == B
  {
    BIsPow2();
    PowAdd(m, 64 - m);
  }

  /** Bits that do not overlap. */
  lemma Disjoint(n: nat, h: nat, c: nat)
    requires c < Pow2(n) && Pow2(n) * h < B && c < B
    ensures Bor(Pow2(n) * h, c) == Pow2(n) * h + c
  {
    OrSplit(n, 0, h, c, 0);
    LogicOps.AndWithMinusOne(c);
    LogicOps.AndWithMinusOne(h);
  }

  lemma DivDiv(z: int, a: nat, b: nat)
    requires 0 < a && 0 < b
    ensures a * b > 0 && z / (a * b) == (z / a) / b
  {
    var u := z / a;
    var v, r, r' := u / b, z % a, u % b;
    Assoc(a, b, v);
    assert a * u == a * (b * v) + a * r';
    assert z == v * (a * b) + (a * r' + r);
    Order(a, r', b - 1);
    DivUnique(z, a * b, v, a * r' + r);
  }

  // ---------- Whole limbs ----------

  lemma {:induction false} PowerIsPow2(w: nat)
    ensures Power(w) == Pow2(64 * w)
  {
    if w > 0 {
      PowerIsPow2(w - 1);
      PowerStep(w - 1);
      BIsPow2();
      PowAdd(64, 64 * (w - 1));
    } else {
      PowerStep(0);
    }
  }

  lemma PowerOfShift(k: nat)
    ensures Pow2(k) == Power(k / 64) * Pow2(k % 64)
  {
    PowerIsPow2(k / 64);
    PowAdd(64 * (k / 64), k % 64);
  }

  /** Dropping limbs is floor division. */
  lemma DropLimbs(s: seq<Limb>, w: nat, top: int)
    requires w <= |s|
    ensures Power(w) > 0 && IntOf(s, top) / Power(w) == IntOf(s[w..], top)
  {
    LogicOps.IntOfParts(s, w, top);
    Shifted(s[..w], IntOf(s[w..], top));
    Bounds(s[..w]);
    DivUnique(IntOf(s, top), Power(w), IntOf(s[w..], top), IntOf(s[..w], 0));
  }

  // ---------- The loops ----------

  lemma RightStep(low: seq<Limb>, p: nat, q: nat, carry: Limb, b: Limb, rest: int)
    requires 0 < q && 0 < p && p * q == B && carry < p
    ensures 0 <= p * (b % q) + carry < B
    ensures IntOf(low, carry + p * (b + B * rest)) == IntOf(low + [p * (b % q) + carry], b / q + p * rest)
  {
    ShiftLimb(p, q, b);
    var d := p * (b % q) + carry;
    Distributed(p, b, rest);
    assert carry + p * (b + B * rest) == d + B * (b / q + p * rest);
    IntOfSnoc(low, d, b / q + p * rest);
  }

  lemma Distributed(p: int, b: int, rest: int)
    ensures p * (b + B * rest) == p * b + B * (p * rest)
  {
  }

  lemma FirstRight(d: Limb, rest: int, p: nat, q: nat)
    requires 0 < q && 0 < p && p * q == B
    ensures (d + B * rest) / q == d / q + p * rest && d / q < p
  {
    ShiftLimb(p, q, d);
    assert d == q * (d / q) + d % q;
    Assoc(q, p, rest);
    assert B * rest == q * (p * rest);
    assert q * (d / q) + q * (p * rest) == q * (d / q + p * rest);
    DivUnique(d + B * rest, q, d / q + p * rest, d % q);
  }

  /** copy_bits_shifting_right: n limbs of src from off on; they may be shifted in place. Whatever the limbs are
      continued with above, the result is continued with the same, moved down. */
  method CopyBitsShiftingRight(src: array<Limb>, off: nat, dst: array<Limb>, n: nat, m: nat, ghost top: int)
    requires 0 < n && off + n <= src.Length && n <= dst.Length && 0 < m < 64
    requires src != dst || off == 0
    modifies dst
    ensures dst[n - 1] < Pow2(64 - m)
    ensures IntOf(dst[..n - 1], dst[n - 1] + Pow2(64 - m) * top) == IntOf(old(src[off..off + n]), top) / Pow2(m)
  {
    hide IntOf, Pow2;
    ghost var s := src[off..off + n];
    var q, p := Pow2(m), Pow2(64 - m);
    LimbBits(m);
    var carry: Limb := src[off] / q;
    assert s[0..] == s && dst[..0] == [];
    Mpn.Split(s, 0, top);
    FirstRight(s[0], IntOf(s[1..], top), p, q);
    Mpn.Empty(carry + p * IntOf(s[1..], top));
    var i := 1;
    while i < n
      invariant 1 <= i <= n && carry < p
      invariant forall k :: i <= k < n ==> src[off + k] == s[k]
      invariant IntOf(dst[..i - 1], carry + p * IntOf(s[i..], top)) == IntOf(s, top) / q
    {
      var b := src[off + i];
      ghost var low := dst[..i - 1];
      Mpn.Split(s, i, top);
      RightStep(low, p, q, carry, b, IntOf(s[i + 1..], top));
      ShiftLimb(p, q, b);
      Disjoint(64 - m, b % q, carry);
      dst[i - 1] := Bor((p * b) % B, carry);
      assert dst[..i] == low + [p * (b % q) + carry];
      carry := b / q;
      i := i + 1;
    }
    assert s[n..] == [];
    Mpn.Empty(top);
    ghost var low := dst[..n - 1];
    dst[n - 1] := carry;
    assert dst[..n - 1] == low;
  }

  lemma LeftStep(low: seq<Limb>, q: nat, p: nat, carry: Limb, b: Limb, rest: int)
    requires 0 < q && 0 < p && q * p == B && carry < q
    ensures 0 <= q * (b % p) + carry < B
    ensures IntOf(low, carry + q * (b + B * rest)) == IntOf(low + [q * (b % p) + carry], b / p + q * rest)
  {
    RightStep(low, q, p, carry, b, rest);
  }

  /** copy_bits_shifting_left: the limbs of s into dst from off on, and one limb for what is carried. */
  method CopyBitsShiftingLeft(s: seq<Limb>, dst: array<Limb>, off: nat, m: nat)
    requires off + |s| < dst.Length && 0 < m < 64
    modifies dst
    ensures dst[..off] == old(dst[..off])
    ensures IntOf(dst[off..off + |s| + 1], 0) == Pow2(m) * IntOf(s, 0)
  {
    hide IntOf, Pow2;
    var n := |s|;
    var q, p := Pow2(m), Pow2(64 - m);
    LimbBits(m);
    var carry: Limb := 0;
    assert s[0..] == s && dst[off..off] == [];
    Mpn.Empty(carry + q * IntOf(s, 0));
    var i := 0;
    while i < n
      invariant 0 <= i <= n && carry < q && dst[..off] == old(dst[..off])
      invariant IntOf(dst[off..off + i], carry + q * IntOf(s[i..], 0)) == q * IntOf(s, 0)
    {
      var b := s[i];
      ghost var low := dst[off..off + i];
      Mpn.Split(s, i, 0);
      LeftStep(low, q, p, carry, b, IntOf(s[i + 1..], 0));
      ShiftLimb(q, p, b);
      Disjoint(m, b % p, carry);
      dst[off + i] := Bor((q * b) % B, carry);
      assert dst[off..off + i + 1] == low + [q * (b % p) + carry];
      carry := b / p;
      i := i + 1;
    }
    assert s[n..] == [];
    Mpn.Empty(0);
    ghost var low := dst[off..off + n];
    IntOfSnoc(low, carry, 0);
    dst[off + n] := carry;
    assert dst[off..off + n + 1] == low + [carry];
  }

  // ---------- Shift right ----------

  /** A whole number of limbs is shifted out of a negative number, one of them is not zero, and all that are kept are
      all ones: the complement of what is kept is zero, and its carry is lost. */
  predicate Lost(x: Num, offset: nat)
    requires x.Big?
  {
    var w := offset / 64;
    && x.neg && offset % 64 == 0 && w < |x.limbs|
    && (exists i :: 0 <= i < w && x.limbs[i] != 0)
    && forall i {:trigger x.limbs[i]} :: w <= i < |x.limbs| ==> x.limbs[i] == B - 1
  }

  /** Everything is shifted out. */
  lemma ShiftedOut(s: seq<Limb>, k: nat)
    requires |s| <= k / 64
    ensures IntOf(s, 0) / Pow2(k) == 0 && (IntOf(s, 0) > 0 ==> -IntOf(s, 0) / Pow2(k) == -1)
  {
    Bounds(s);
    PowerGrows(|s|, k / 64);
    PowerOfShift(k);
    Order(Power(k / 64), 1, Pow2(k % 64));
    DivUnique(IntOf(s, 0), Pow2(k), 0, IntOf(s, 0));
    if IntOf(s, 0) > 0 { DivUnique(-IntOf(s, 0), Pow2(k), -1, Pow2(k) - IntOf(s, 0)); }
  }

  /** ikrt_bignum_shift_right */
  method BignumShiftRight(x: Num, offset: nat) returns (r: Num)
    requires x.Big? && Canonical(x)
    ensures Canonical(r)
    ensures Value(r) == Value(x) / Pow2(offset) <==> !Lost(x, offset)
    ensures Lost(x, offset) ==> Value(r) == 0
  {
    hide Pow2, IntOf;
    var w, m := offset / 64, offset % 64;
    var n := |x.limbs| - w;
    LogicOps.BigPositive(x.neg, x.limbs);
    if n <= 0 {
      ShiftedOut(x.limbs, offset);
      r := Fix(if x.neg then -1 else 0);
    } else if x.neg {
      r := ShiftRightNegative(x.limbs, w, m);
      NegativeShift(x.limbs, w, m);
    } else {
      r := ShiftRightPositive(x.limbs, w, m);
    }
    PowerOfShift(offset);
    PowerPositive(w);
    DivDiv(Value(x), Power(w), Pow2(m));
    if n > 0 { DropLimbs(x.limbs, w, 0); }
  }

  lemma PowerPositive(w: nat)
    ensures Power(w) > 0
  {
    PowerGrows(w, w);
  }

  method ShiftRightPositive(s: seq<Limb>, w: nat, m: nat) returns (r: Num)
    requires w < |s| && m < 64
    ensures Canonical(r) && Value(r) == IntOf(s[w..], 0) / Pow2(m)
  {
    var n := |s| - w;
    var src := Data(s);
    var dst := new Limb[n];
    if m == 0 {
      var i := 0;
      while i < n
        invariant i <= n && src[..] == s && forall k :: 0 <= k < i ==> dst[k] == s[w + k]
      {
        dst[i] := src[w + i];
        i := i + 1;
      }
      assert dst[..n] == s[w..];
    } else {
      CopyBitsShiftingRight(src, w, dst, n, m, 0);
      assert src[w..w + n] == s[w..];
      LogicOps.IntOfParts(dst[..n], n - 1, 0);
      assert dst[..n][..n - 1] == dst[..n - 1] && dst[..n][n - 1..] == [dst[n - 1]];
      LogicOps.SingleLimb([dst[n - 1]]);
    }
    r := Normalize(n, false, dst);
  }

  /** The limbs that are kept of the two's complement. */
  function Kept(s: seq<Limb>, w: nat): (t: seq<Limb>)
    requires w <= |s|
    ensures |t| == |s| - w
  {
    Compl(s[w..], CarryOut(s[..w], 1))
  }

  predicate AllZero(t: seq<Limb>) {
    forall i {:trigger t[i]} :: 0 <= i < |t| ==> t[i] == 0
  }

  method ShiftRightNegative(s: seq<Limb>, w: nat, m: nat) returns (r: Num)
    requires w < |s| && m < 64
    ensures Canonical(r)
    ensures if m == 0 && AllZero(Kept(s, w)) then Value(r) == 0 else Value(r) == IntOf(Kept(s, w), -1) / Pow2(m)
  {
    hide Pow2, IntOf, Compl;
    var n := |s| - w;
    ghost var t := Kept(s, w);
    var src := Data(s);
    var dst := new Limb[n];
    assert src[..w] == s[..w] && src[w..w + n] == s[w..];
    var carry := BitsCarry(src, w);
    BitsComplementWithCarry(src, w, dst, n, carry);
    assert dst[..n] == t && dst[..] == t;
    if m == 0 {
      One();
      r := NegateRow(dst, n);
    } else {
      ShiftSigned(dst, n, m);
      r := NegateRow(dst, n);
    }
  }

  /** A negative row is shifted in place, and the bits that come in from above are set. */
  method ShiftSigned(dst: array<Limb>, n: nat, m: nat)
    requires 0 < n == dst.Length && 0 < m < 64
    modifies dst
    ensures IntOf(dst[..], -1) == IntOf(old(dst[..]), -1) / Pow2(m) && !AllZero(dst[..])
  {
    hide Pow2, IntOf;
    assert dst[0..0 + n] == dst[..];
    CopyBitsShiftingRight(dst, 0, dst, n, m, -1);
    var p := Pow2(64 - m);
    LimbBits(m);
    ghost var low := dst[..n - 1];
    var d := dst[n - 1];
    SignBits(m, d);
    dst[n - 1] := Bor(d, B - p);
    assert dst[..] == low + [B - p + d];
    IntOfSnoc(low, B - p + d, -1);
    assert dst[..][n - 1] != 0;
  }

  lemma One()
    ensures Pow2(0) == 1
  {
  }

  /** The bits that are set above a shifted negative number. */
  lemma SignBits(m: nat, d: Limb)
    requires 0 < m < 64 && d < Pow2(64 - m)
    ensures 0 < Pow2(64 - m) < B && Bor(d, B - Pow2(64 - m)) == B - Pow2(64 - m) + d < B
  {
    var p, q := Pow2(64 - m), Pow2(m);
    LimbBits(m);
    assert q >= 2;
    Order(p, 2, q);
    assert p * (q - 1) == B - p;
    Disjoint(64 - m, q - 1, d);
    LogicOps.OrCommutes(d, B - p);
  }

  /** bits_complement in place, and ik_normalize_bignum: the carry out of zeros is lost. */
  method NegateRow(dst: array<Limb>, n: nat) returns (r: Num)
    requires 0 < n == dst.Length
    modifies dst
    ensures Canonical(r)
    ensures if AllZero(old(dst[..])) then Value(r) == 0 else Value(r) == IntOf(old(dst[..]), -1)
  {
    ghost var t := dst[..];
    assert dst[..n] == t;
    BitsComplement(dst, dst, n);
    CarryOutIs(t, 1);
    ComplValue(t, 1, -1);
    if AllZero(t) {
      assert t == Zeros(n);
      IntOfZeros(n);
      Shifted(t, -1);
      Shifted(Compl(t, 1), 1);
      Bounds(Compl(t, 1));
    }
    r := Normalize(n, true, dst);
  }

  /** What the limbs that are kept stand for, and when they are all zero. */
  lemma NegativeShift(s: seq<Limb>, w: nat, m: nat)
    requires CanonicalBig(true, s) && w < |s| && m < 64
    ensures Power(w) > 0 && -IntOf(s, 0) / Power(w) == IntOf(Kept(s, w), -1)
    ensures m == 0 ==> (AllZero(Kept(s, w)) <==> Lost(Big(true, s), 64 * w + m))
    ensures IntOf(Kept(s, w), -1) < 0
  {
    hide Pow2, IntOf, Lost, AllZero, Power, Compl, CarryOut, Kept;
    LogicOps.BigPositive(true, s);
    LogicOps.NegatedSame(s);
    KeptIs(s, w);
    DropLimbs(Compl(s, 1), w, -1);
    Shifted(Kept(s, w), -1);
    Bounds(Kept(s, w));
    LostIs(s, w);
  }

  lemma KeptIs(s: seq<Limb>, w: nat)
    requires w <= |s|
    ensures Compl(s, 1)[w..] == Kept(s, w)
  {
    hide Compl, CarryOut;
    LogicOps.ComplPrefix(s, w);
    var low, high := Compl(s[..w], 1), Kept(s, w);
    assert |low| == w && (low + high)[w..] == high;
  }

  lemma LostIs(s: seq<Limb>, w: nat)
    requires w < |s| && s[|s| - 1] != 0
    ensures AllZero(Kept(s, w)) <==> Lost(Big(true, s), 64 * w)
  {
    hide Compl, CarryOut, AllZero;
    var low, high := s[..w], s[w..];
    CarryOutIs(low, 1);
    ComplZero(high, CarryOut(low, 1));
    assert 64 * w / 64 == w && 64 * w % 64 == 0;
    assert (exists i :: 0 <= i < w && s[i] != 0) <==> CarryOut(low, 1) == 0 by {
      assert forall i {:trigger low[i]} {:trigger s[i]} :: 0 <= i < w ==> low[i] == s[i];
    }
    assert (forall i {:trigger s[i]} :: w <= i < |s| ==> s[i] == B - 1) <==> (forall i {:trigger high[i]} :: 0 <= i < |high| ==> high[i] == B - 1) by {
      assert forall i {:trigger s[i]} :: w <= i < |s| ==> high[i - w] == s[i];
      assert forall i {:trigger high[i]} :: 0 <= i < |high| ==> high[i] == s[w + i];
    }
  }

  /** The complement of a row whose highest limb is not zero is all zeros exactly when the row is all ones and
      nothing is carried in. */
  lemma {:induction false} ComplZero(s: seq<Limb>, carry: int)
    requires 0 < |s| && s[|s| - 1] != 0 && (carry == 0 || carry == 1)
    ensures AllZero(Compl(s, carry)) <==> carry == 0 && forall i {:trigger s[i]} :: 0 <= i < |s| ==> s[i] == B - 1
  {
    var c := Compl(s, carry);
    assert c[0] == ComplLimb(s[0], carry);
    assert c[0] == 0 <==> (carry == 0 && s[0] == B - 1) || (carry == 1 && s[0] == 0);
    if |s| > 1 {
      ComplZero(s[1..], NextCarry(s[0], carry));
      assert c[1..] == Compl(s[1..], NextCarry(s[0], carry));
      assert forall i {:trigger c[i]} :: 1 <= i < |s| ==> c[i] == c[1..][i - 1];
      assert forall i {:trigger c[1..][i]} :: 0 <= i < |s| - 1 ==> c[1..][i] == c[i + 1];
      assert forall i {:trigger s[i]} :: 1 <= i < |s| ==> s[i] == s[1..][i - 1];
      assert forall i {:trigger s[1..][i]} :: 0 <= i < |s| - 1 ==> s[1..][i] == s[i + 1];
    }
  }

  /** Such a number exists: shifting it by one limb gives 0, and not the negative number it should be. */
  lemma LostHappens()
    ensures var x := Big(true, [1, B - 1]); Canonical(x) && Lost(x, 64) && Value(x) / Pow2(64) != 0
  {
    var x := Big(true, [1, B - 1]);
    assert x.limbs[0] != 0;
    BIsPow2();
    assert x.limbs[1..] == [B - 1];
    LogicOps.SingleLimb([B - 1]);
    assert Value(x) == -1 - B * (B - 1);
    DivUnique(Value(x), B, -B, B - 1);
  }

  /** A right shift moves every bit of the infinite two's complement down. */
  lemma ShiftMovesBits(x: Num, r: Num, offset: nat, i: nat)
    requires Value(r) == Value(x) / Pow2(offset)
    ensures Bit(Value(r), i) == Bit(Value(x), i + offset)
  {
    ShiftRightBit(Value(x), offset, i);
  }

  // ---------- Shift left ----------

  lemma Raised(w: nat, t: seq<Limb>)
    ensures IntOf(Zeros(w) + t, 0) == Power(w) * IntOf(t, 0)
  {
    IntOfAppend(Zeros(w), t, 0);
    Shifted(Zeros(w), IntOf(t, 0));
    IntOfZeros(w);
  }

  lemma ShiftProduct(neg: bool, v: int, offset: nat)
    ensures Arithmetic.Signed(neg, v) * Pow2(offset) == Arithmetic.Signed(neg, Power(offset / 64) * (Pow2(offset % 64) * v))
  {
    PowerOfShift(offset);
    Assoc(Power(offset / 64), Pow2(offset % 64), v);
  }

  /** ikrt_fixnum_shift_left */
  method FixnumShiftLeft(x: int, offset: nat) returns (r: Num)
    requires FitsFixnum(x)
    ensures Canonical(r) && Value(r) == x * Pow2(offset)
  {
    hide Pow2, IntOf;
    var count, m := offset / 64 + 2, offset % 64;
    var q, p := Pow2(m), Pow2(64 - m);
    LimbBits(m);
    var s := new Limb[count](_ => 0);
    var v: Limb := if x >= 0 then x else -x;
    ShiftLimb(q, p, v);
    One();
    if m != 0 {
      s[count - 1] := v / p;
    }
    s[count - 2] := (q * v) % B;
    ghost var low, high := s[count - 2], s[count - 1];
    assert m == 0 ==> q == 1 && p == B && v / p == 0;
    assert s[..count] == Zeros(count - 2) + [low, high];
    Raised(count - 2, [low, high]);
    Arithmetic.TwoLimbs(low, high);
    LogicOps.SingleLimb([low]);
    assert IntOf([low, high], 0) == q * v by {
      IntOfSnoc([low], high, 0);
      assert [low] + [high] == [low, high];
      Shifted([low], high);
      PowerStep(0);
      assert Power(1) == B;
    }
    ShiftProduct(x < 0, v, offset);
    r := Normalize(count, x < 0, s);
  }

  /** ikrt_bignum_shift_left */
  method BignumShiftLeft(x: Num, offset: nat) returns (r: Num)
    requires x.Big? && Canonical(x)
    ensures Canonical(r) && Value(r) == Value(x) * Pow2(offset)
  {
    hide Pow2, IntOf;
    var w, m := offset / 64, offset % 64;
    var n := |x.limbs|;
    var count := if m == 0 then n + w else n + w + 1;
    var dst := new Limb[count](_ => 0);
    if m == 0 {
      var i := 0;
      while i < n
        invariant i <= n && (forall k :: 0 <= k < w ==> dst[k] == 0) && forall k :: w <= k < w + i ==> dst[k] == x.limbs[k - w]
      {
        dst[w + i] := x.limbs[i];
        i := i + 1;
      }
      One();
      assert dst[w..] == x.limbs;
    } else {
      CopyBitsShiftingLeft(x.limbs, dst, w, m);
      assert dst[w..w + n + 1] == dst[w..];
    }
    assert dst[..count] == Zeros(w) + dst[w..];
    Raised(w, dst[w..]);
    ShiftProduct(x.neg, IntOf(x.limbs, 0), offset);
    r := Normalize(count, x.neg, dst);
  }
}
