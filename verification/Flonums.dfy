/** The conversion of a bignum to a double, against rounding to nearest, ties to even, as in section 4.3.1 of
    IEEE 754-2008. Doubles are the integers they denote, and the range of their exponents is not bounded. */
module Flonums {
  import opened Bits
  import opened Limbs
  import opened Numbers
  import opened Shifts
  import Arithmetic
  import LogicOps

  const PRECISION: nat := 53

  // ---------- Doubles ----------

  function BitLength(v: nat): nat {
    if v == 0 then 0 else 1 + BitLength(v / 2)
  }

  lemma {:induction false} BitLengthBounds(v: nat)
    requires v > 0
    ensures BitLength(v) > 0 && Pow2(BitLength(v) - 1) <= v < Pow2(BitLength(v))
    decreases v
  {
    if v > 1 { BitLengthBounds(v / 2); }
  }

  lemma {:induction false} PowGrows(m: nat, n: nat)
    requires m <= n
    ensures 1 <= Pow2(m) <= Pow2(n)
    decreases n
  {
    if m < n { PowGrows(m, n - 1); }
  }

  lemma BitLengthIs(v: nat, n: nat)
    requires n > 0 && Pow2(n - 1) <= v < Pow2(n)
    ensures BitLength(v) == n
  {
    PowGrows(0, n - 1);
    BitLengthBounds(v);
    var b := BitLength(v);
    if b < n { PowGrows(b, n - 1); }
    if n < b { PowGrows(n, b - 1); }
  }

  /** The integers that are doubles: a significand of at most 53 bits, and an exponent. */
  ghost predicate IsDouble(g: nat) {
    exists m: nat, e: nat {:trigger m * Pow2(e)} :: m < Pow2(PRECISION) && g == m * Pow2(e)
  }

  /** The distance between the doubles around v. */
  function Ulp(v: nat): (u: nat)
    requires BitLength(v) > PRECISION
    ensures u > 0
  {
    Pow2(BitLength(v) - PRECISION)
  }

  /** The q-th or the next multiple of u, whichever is nearer to q * u + r and a little more; the even one of two. */
  function Nearer(q: nat, u: nat, r: nat, more: bool): nat {
    if 2 * r > u || (2 * r == u && (more || q % 2 == 1)) then (q + 1) * u else q * u
  }

  /** v, and less than one more if more is set, to 53 bits. */
  function Round(v: nat, more: bool): nat
    requires BitLength(v) > PRECISION
  {
    Nearer(v / Ulp(v), Ulp(v), v % Ulp(v), more)
  }

  function Distance(x: real, g: nat): real {
    if x < g as real then g as real - x else x - g as real
  }

  lemma UlpParts(v: nat)
    requires BitLength(v) > PRECISION
    ensures v == v / Ulp(v) * Ulp(v) + v % Ulp(v) && 0 <= v % Ulp(v) < Ulp(v) && Pow2(52) <= v / Ulp(v) < Pow2(53)
  {
    hide Pow2;
    BitLengthBounds(v);
    PowAdd(52, BitLength(v) - 53);
    PowAdd(53, BitLength(v) - 53);
    Quotient(v, Ulp(v), Pow2(52), Pow2(53));
  }

  lemma Quotient(v: nat, u: nat, a: nat, b: nat)
    requires u > 0 && a * u <= v < b * u
    ensures v == v / u * u + v % u && a <= v / u < b
  {
    var q := v / u;
    assert v == u * q + v % u && u * (q + 1) == u * q + u;
    if q < a { Order(u, q + 1, a); }
    if q >= b { Order(u, b, q); }
  }

  /** There is no double between two neighbours. */
  lemma NoneBetween(v: nat, g: nat)
    requires BitLength(v) > PRECISION && IsDouble(g)
    ensures g <= v / Ulp(v) * Ulp(v) || v / Ulp(v) * Ulp(v) + Ulp(v) <= g
  {
    hide Pow2, BitLength;
    var u, n := Ulp(v), BitLength(v);
    var q := v / u;
    var m: nat, e: nat :| m < Pow2(PRECISION) && g == m * Pow2(e);
    UlpParts(v);
    Two();
    if e < n - 53 {
      PowGrows(e, n - 54);
      PowAdd(1, n - 54);
      PowAdd(1, 52);
      SmallDouble(Pow2(52), m, Pow2(e), q, Pow2(n - 54));
    } else {
      PowAdd(e - (n - 53), n - 53);
      Assoc(m, Pow2(e - (n - 53)), u);
      Multiples(u, q, m * Pow2(e - (n - 53)));
    }
  }

  lemma Multiples(u: nat, q: nat, k: nat)
    ensures k * u <= q * u || q * u + u <= k * u
  {
    if k <= q { Order(u, k, q); } else { Order(u, q + 1, k); }
  }

  lemma Two()
    ensures Pow2(1) == 2
  {
  }

  /** A double with a smaller exponent is not above the first of its neighbours. */
  lemma SmallDouble(p: nat, m: nat, t: nat, q: nat, h: nat)
    requires m < 2 * p && 1 <= t <= h && p <= q
    ensures m * t <= q * (2 * h)
  {
    Order(m, t, h);
    Order(h, m, 2 * q);
    Double2(q, h);
    assert 2 * q * h == q * (2 * h);
  }

  lemma EvenUlp(v: nat)
    requires BitLength(v) > PRECISION
    ensures Ulp(v) % 2 == 0
  {
    assert Ulp(v) == 2 * Pow2(BitLength(v) - PRECISION - 1);
  }

  lemma NextMultiple(q: nat, u: nat)
    requires u > 0
    ensures (q + 1) * u == q * u + u && (q * u) / u == q && (q * u + u) / u == q + 1
  {
    DivUnique(q * u, u, q, 0);
    DivUnique(q * u + u, u, q + 1, 0);
  }

  /** No double is nearer than the rounded number to any real number in that place, and of two that are equally near
      it is the one with the even significand. */
  lemma RoundIsNearest(v: nat, more: bool, x: real, g: nat)
    requires BitLength(v) > PRECISION && IsDouble(g)
    requires v as real <= x < v as real + 1.0 && (more <==> x != v as real)
    ensures Distance(x, Round(v, more)) <= Distance(x, g)
    ensures Distance(x, Round(v, more)) == Distance(x, g) && Round(v, more) != g ==> (Round(v, more) / Ulp(v)) % 2 == 0
  {
    hide Pow2, BitLength, IsDouble, Ulp;
    var u := Ulp(v);
    UlpParts(v);
    NoneBetween(v, g);
    EvenUlp(v);
    NextMultiple(v / u, u);
    NearestOfTwo(v / u, u, v % u, v / u * u, more, x, g);
  }

  lemma NearestOfTwo(q: nat, u: nat, r: nat, low: nat, more: bool, x: real, g: nat)
    requires u > 0 && u % 2 == 0 && r < u && low == q * u && low + u == (q + 1) * u
    requires low / u == q && (low + u) / u == q + 1 && (g <= low || low + u <= g)
    requires (low + r) as real <= x < (low + r) as real + 1.0 && (more <==> x != (low + r) as real)
    ensures var f := Nearer(q, u, r, more); Distance(x, f) <= Distance(x, g)
    ensures var f := Nearer(q, u, r, more); Distance(x, f) == Distance(x, g) && f != g ==> (f / u) % 2 == 0
  {
    var f := Nearer(q, u, r, more);
    if f == low {
      BelowHalf(u, r, low, more, x, g);
    } else {
      AboveHalf(u, r, low, more, x, g);
    }
  }

  lemma BelowHalf(u: nat, r: nat, low: nat, more: bool, x: real, g: nat)
    requires u % 2 == 0 && (2 * r < u || (2 * r == u && !more)) && (g <= low || low + u <= g)
    requires (low + r) as real <= x < (low + r) as real + 1.0 && (more <==> x != (low + r) as real)
    ensures Distance(x, low) <= Distance(x, g)
    ensures Distance(x, low) == Distance(x, g) && low != g ==> 2 * r == u && !more
  {
    assert 2 * r < u ==> 2 * r + 2 <= u;
  }

  lemma AboveHalf(u: nat, r: nat, low: nat, more: bool, x: real, g: nat)
    requires 2 * r >= u && r < u && (g <= low || low + u <= g)
    requires (low + r) as real <= x < (low + r) as real + 1.0
    ensures Distance(x, low + u) <= Distance(x, g)
    ensures Distance(x, low + u) == Distance(x, g) && low + u != g ==> 2 * r == u && x == (low + r) as real
  {
  }

  lemma RoundIsDouble(v: nat, more: bool)
    requires BitLength(v) > PRECISION
    ensures IsDouble(Round(v, more))
  {
    hide Pow2;
    UlpParts(v);
    var u, e := Ulp(v), BitLength(v) - PRECISION;
    var q := v / u;
    PowAdd(1, e);
    PowAdd(1, 52);
    Two();
    if q + 1 == Pow2(53) {
      Assoc(Pow2(52), 2, u);
      assert (q + 1) * u == Pow2(52) * Pow2(e + 1);
      PowGrows(0, 52);
    } else {
      assert (q + 1) * u == (q + 1) * Pow2(e);
    }
    assert q * u == q * Pow2(e);
  }

  // ---------- The conversion ----------

  /** limb_size */
  method LimbSize(limb: Limb) returns (i: nat)
    ensures i == BitLength(limb)
  {
    i := 0;
    var x := limb;
    while x != 0
      invariant x >= 0 && i + BitLength(x) == BitLength(limb)
      decreases x
    {
      i := i + 1;
      x := x / 2;
    }
  }

  /** all_zeros, for the limbs before end. */
  method AllZeros(s: seq<Limb>, end: nat) returns (zeros: bool)
    requires end <= |s|
    ensures zeros <==> IntOf(s[..end], 0) == 0
  {
    var i := end;
    while 0 < i
      invariant 0 <= i <= end && IntOf(s[..end], 0) == IntOf(s[..i], 0)
    {
      if s[i - 1] != 0 {
        TopLimb(s[..i]);
        PowerGrows(0, i - 1);
        PowerStep(0);
        return false;
      }
      DropZero(s, i);
      i := i - 1;
    }
    assert s[..0] == [];
    return true;
  }

  /** The cast of a machine word to a double rounds to nearest, ties to even. */
  function Cast(word: Limb): nat
    requires BitLength(word) > PRECISION
  {
    Round(word, false)
  }

  lemma Pow11()
    ensures Pow2(11) == 2048
  {
    PowAdd(8, 3);
    Pow8();
    assert Pow2(3) == 8;
  }

  /** The low 11 bits of a word: selected by a mask, and set by it. */
  lemma Masks(w: Limb)
    ensures Band(w, 2047) == w % 2048 && Bor(w, 2047) == w - w % 2048 + 2047
    ensures Band(w, 2048) != 0 <==> (w / 2048) % 2 == 1
  {
    hide And, Or, Pow2;
    Pow11();
    MaskAnd(w % 2048, w / 2048);
    MaskOr(w % 2048, w / 2048);
    MaskBit(w % 2048, w / 2048);
  }

  lemma MaskAnd(l: int, h: int)
    requires 0 <= l < 2048
    ensures And(l + 2048 * h, 2047) == l
  {
    hide And, Pow2;
    Pow11();
    AndSplit(11, l, h, 2047, -1);
    AndSplit(11, l, h, 2047, 0);
    LogicOps.AndWithMinusOne(l + 2048 * h);
    LogicOps.AndWithMinusOne(h);
  }

  lemma MaskOr(l: int, h: int)
    requires 0 <= l < 2048
    ensures Or(l + 2048 * h, 2047) == 2047 + 2048 * h
  {
    hide Or, And, Pow2;
    Pow11();
    OrSplit(11, l, h, 2047, -1);
    OrSplit(11, l, h, 2047, 0);
    LogicOps.AndWithMinusOne(l + 2048 * h);
    LogicOps.AndWithMinusOne(h);
  }

  lemma MaskBit(l: int, h: int)
    requires 0 <= l < 2048
    ensures And(l + 2048 * h, 2048) != 0 <==> h % 2 == 1
  {
    hide And, Pow2;
    Pow11();
    AndSplit(11, l, h, 0, 1);
    LogicOps.AndWithMinusOne(l);
    AndStep(h, 1);
    LogicOps.AndWithMinusOne(h / 2);
  }

  lemma CastWord(w: Limb)
    requires Pow2(63) <= w
    ensures BitLength(w) == 64 && Ulp(w) == 2048
  {
    BIsPow2();
    BitLengthIs(w, 64);
    Pow11();
  }

  /** The adjustment of the top word: after it the cast to a double rounds the way the whole number rounds. */
  method Adjust(hi: Limb, sticky: bool) returns (r: Limb)
    requires Pow2(63) <= hi
    ensures Pow2(63) <= r && BitLength(r) == 64
    ensures r == hi || r == hi - hi % 2048 + 2047
    ensures r / 2048 == hi / 2048
    ensures var up := hi % 2048 > 1024 || (hi % 2048 == 1024 && (sticky || (hi / 2048) % 2 == 1));
            Round(r, false) == if up then (hi / 2048 + 1) * 2048 else hi / 2048 * 2048
  {
    hide Pow2, Bit, And;
    r := hi;
    Masks(hi);
    if Band(hi, 2047) == 1024 {
      if !sticky {
        if Band(hi, 2048) != 0 {
          r := Bor(hi, 2047);
        }
      } else {
        r := Bor(hi, 2047);
      }
    } else if Band(hi, 2047) > 1024 {
      r := Bor(hi, 2047);
    }
    CastWord(hi);
    CastWord(r);
  }

  /** The top 64 bits of a number of at least two limbs, what they leave below, and the length. */
  lemma TopBits(s: seq<Limb>, bc: nat)
    requires 1 < |s| && s[|s| - 1] != 0 && bc == BitLength(s[|s| - 1])
    ensures 0 < bc <= 64
    ensures var n := |s|; var q, p := Pow2(bc), Pow2(64 - bc);
            && q * p == B && s[n - 1] < q
            && Pow2(63) <= p * s[n - 1] + s[n - 2] / q < B
            && BitLength(Magnitude(s)) == bc + 64 * (n - 1)
    ensures var n := |s|; var q, p := Pow2(bc), Pow2(64 - bc); var t := Power(n - 2) * q;
            && t == Pow2(bc + 64 * (n - 2))
            && IntOf(s, 0) / t == p * s[n - 1] + s[n - 2] / q
            && IntOf(s, 0) % t == IntOf(s[..n - 2], 0) + Power(n - 2) * (s[n - 2] % q)
  {
    hide Pow2, IntOf, BitLength, Power;
    var n := |s|;
    var top, mi := s[n - 1], s[n - 2];
    TopSize(top, bc);
    var q, p := Pow2(bc), Pow2(64 - bc);
    var low, w, hi := IntOf(s[..n - 2], 0), Power(n - 2), p * top + mi / q;
    PowerIsPow2(n - 2);
    PowAdd(64 * (n - 2), bc);
    TopTwo(s);
    Bounds(s[..n - 2]);
    Under(low, w, mi, top, q, p);
    HiBounds(top, mi, bc);
    TopLength(Magnitude(s), hi, w * q, bc + 64 * (n - 2));
  }

  lemma TopTwo(s: seq<Limb>)
    requires 1 < |s|
    ensures var n := |s|; IntOf(s, 0) == IntOf(s[..n - 2], 0) + Power(n - 2) * (s[n - 2] + B * s[n - 1])
  {
    var n := |s|;
    var mi, top := s[n - 2], s[n - 1];
    Arithmetic.HighPart(s, n - 2);
    assert s[n - 2..] == [mi, top];
    Shifted([mi], top);
    Arithmetic.TwoLimbs(mi, top);
    PowerStep(0);
    assert Power(1) == B;
  }

  /** The top bits and the rest of low + w * (mi + B * top). */
  lemma Under(low: nat, w: nat, mi: Limb, top: Limb, q: nat, p: nat)
    requires low < w && q > 0 && p > 0 && q * p == B
    ensures var v, hi := low + w * (mi + B * top), p * top + mi / q;
            w * q > 0 && v / (w * q) == hi && v % (w * q) == low + w * (mi % q)
  {
    var v, hi := low + w * (mi + B * top), p * top + mi / q;
    assert mi + B * top == q * hi + mi % q by { HighHalf(q, p, mi, top); }
    assert w * (q * hi + mi % q) == w * (q * hi) + w * (mi % q);
    Assoc(w, q, hi);
    Order(w, mi % q, q - 1);
    assert w * (q - 1) == w * q - w;
    DivUnique(v, w * q, hi, low + w * (mi % q));
  }

  lemma HighHalf(q: nat, p: nat, mi: Limb, top: int)
    requires q > 0 && q * p == B
    ensures mi + B * top == q * (p * top + mi / q) + mi % q
  {
    Assoc(q, p, top);
    assert q * (p * top + mi / q) == q * (p * top) + q * (mi / q);
  }

  lemma TopLength(v: nat, hi: nat, t: nat, k: nat)
    requires t == Pow2(k) && v / t == hi && Pow2(63) <= hi < B
    ensures BitLength(v) == k + 64
  {
    hide Pow2, BitLength;
    PowAdd(63, k);
    PowAdd(64, k);
    BIsPow2();
    Within(v, hi, t, Pow2(63), B);
    BitLengthIs(v, k + 64);
  }

  lemma Within(v: nat, hi: nat, t: nat, a: nat, b: nat)
    requires t > 0 && v / t == hi && a <= hi < b
    ensures a * t <= v < b * t
  {
    assert v == t * hi + v % t;
    Order(t, a, hi);
    Order(t, hi + 1, b);
    assert t * (hi + 1) == t * hi + t;
  }

  lemma TopSize(top: Limb, bc: nat)
    requires top > 0 && bc == BitLength(top)
    ensures 0 < bc <= 64 && Pow2(bc - 1) <= top < Pow2(bc) && Pow2(bc) * Pow2(64 - bc) == B && Pow2(64 - bc) * Pow2(bc) == B
  {
    hide Pow2, BitLength;
    BitLengthBounds(top);
    BIsPow2();
    if bc > 64 { PowGrows(64, bc - 1); }
    PowAdd(bc, 64 - bc);
  }

  lemma HiBounds(top: Limb, mi: Limb, bc: nat)
    requires 0 < bc <= 64 && Pow2(bc - 1) <= top < Pow2(bc) && Pow2(bc) * Pow2(64 - bc) == B
    ensures Pow2(63) <= Pow2(64 - bc) * top + mi / Pow2(bc) < B
  {
    hide Pow2;
    PowAdd(64 - bc, bc - 1);
    HiInRange(top, mi, Pow2(64 - bc), Pow2(bc), Pow2(bc - 1));
  }

  lemma HiInRange(top: Limb, mi: Limb, p: nat, q: nat, h: nat)
    requires h <= top < q && p > 0 && p * q == B
    ensures p * h <= p * top + mi / q < B
  {
    Order(p, h, top);
    Order(p, top, q - 1);
    assert p * (q - 1) == B - p;
    ShiftLimb(p, q, mi);
  }

  /** Rounding the whole number is rounding its top 64 bits, with what is below them made sticky. */
  lemma RoundByTop(v: nat, t: nat, hi: nat, more: bool)
    requires BitLength(v) >= 64 && t == Pow2(BitLength(v) - 64) && hi == v / t
    ensures var up := hi % 2048 > 1024 || (hi % 2048 == 1024 && (v % t != 0 || more || (hi / 2048) % 2 == 1));
            Round(v, more) == (if up then (hi / 2048 + 1) * 2048 else hi / 2048 * 2048) * t
  {
    hide Pow2, BitLength;
    Pow11();
    PowAdd(BitLength(v) - 64, 11);
    assert Ulp(v) == 2048 * t;
    TopParts(v, t, hi);
    Assoc(hi / 2048 + 1, 2048, t);
    Assoc(hi / 2048, 2048, t);
  }

  /** The quotient and the remainder by the last place, from the top bits. */
  lemma TopParts(v: nat, t: nat, hi: nat)
    requires t > 0 && hi == v / t
    ensures var u, l := 2048 * t, hi % 2048;
            && v / u == hi / 2048 && v % u == t * l + v % t
            && (l < 1024 ==> 2 * (v % u) < u) && (l > 1024 ==> 2 * (v % u) > u)
            && (l == 1024 ==> 2 * (v % u) == u + 2 * (v % t))
  {
    var u, q, l, rest := 2048 * t, hi / 2048, hi % 2048, v % t;
    assert v == t * hi + rest && hi == 2048 * q + l;
    assert t * hi == t * (2048 * q) + t * l;
    Assoc(t, 2048, q);
    assert v == q * u + (t * l + rest);
    Order(t, l, 2047);
    DivUnique(v, u, q, t * l + rest);
    if l < 1024 { Order(t, l, 1023); }
    if l > 1024 { Order(t, 1025, l); }
  }

  function Magnitude(s: seq<Limb>): nat {
    Bounds(s);
    IntOf(s, 0)
  }

  /** A tie that only the bits below could break. */
  predicate Tie(v: nat)
    requires BitLength(v) > PRECISION
  {
    2 * (v % Ulp(v)) == Ulp(v) && (v / Ulp(v)) % 2 == 0
  }

  /** Such a number exists: 2^60 + 128 is half way between the doubles 2^60 and 2^60 + 256, and the first is even. */
  lemma TieHappens()
    ensures var x := Big(false, [MOST_NEGATIVE + 128]);
            && Canonical(x) && BitLength(Magnitude(x.limbs)) > PRECISION && Tie(Magnitude(x.limbs))
            && Round(Magnitude(x.limbs), true) == Round(Magnitude(x.limbs), false) + 256
  {
    hide Pow2, BitLength;
    var v: nat := MOST_NEGATIVE + 128;
    LogicOps.SingleLimb([MOST_NEGATIVE + 128]);
    LogicOps.Pow60();
    Pow8();
    PowAdd(60, 1);
    Two();
    BitLengthIs(v, 61);
    DivUnique(v, 256, 0x10_0000_0000_0000, 128);
  }

  /** ikrt_bignum_to_flonum64; more says that the number is larger than the bignum, by less than one. With one limb
      this is not looked at. */
  method ToFlonum(x: Num, more: bool) returns (f: int)
    requires x.Big? && Canonical(x)
    ensures var v := Magnitude(x.limbs);
            && BitLength(v) > PRECISION
            && f == Arithmetic.Signed(x.neg, Round(v, more && |x.limbs| > 1))
            && (f == Arithmetic.Signed(x.neg, Round(v, more)) <==> !(|x.limbs| == 1 && more && Tie(v)))
  {
    hide Pow2, IntOf, BitLength, Round;
    var n := |x.limbs|;
    LogicOps.BigPositive(x.neg, x.limbs);
    Enough(Magnitude(x.limbs));
    var pos: int;
    if n == 1 {
      LogicOps.SingleLimb(x.limbs);
      pos := Cast(x.limbs[0]);
      TieMatters(x.limbs[0]);
    } else {
      pos := ConvertLimbs(x.limbs, more);
    }
    f := if x.neg then -pos else pos;
  }

  lemma Enough(v: nat)
    requires v > MOST_POSITIVE
    ensures BitLength(v) > PRECISION
  {
    LogicOps.Pow60();
    BitLengthBounds(v);
    if BitLength(v) <= 53 { PowGrows(BitLength(v), 53); PowGrows(53, 59); }
    assert Pow2(60) == 2 * Pow2(59);
  }

  lemma TieMatters(v: nat)
    requires BitLength(v) > PRECISION
    ensures Round(v, true) == Round(v, false) <==> !Tie(v)
    ensures Round(v, true) > 0
  {
    hide Pow2, BitLength, Ulp;
    UlpParts(v);
    PowGrows(0, 52);
    Order(Ulp(v), 1, v / Ulp(v));
    NextMultiple(v / Ulp(v), Ulp(v));
  }

  /** The branch for two limbs and more. */
  method ConvertLimbs(s: seq<Limb>, more: bool) returns (pos: nat)
    requires 1 < |s| && s[|s| - 1] != 0
    ensures BitLength(Magnitude(s)) > PRECISION && pos == Round(Magnitude(s), more)
  {
    hide Pow2, IntOf, BitLength, Round, Power;
    var n := |s|;
    var top, mi := s[n - 1], s[n - 2];
    var bc := LimbSize(top);
    TopBits(s, bc);
    var q, p := Pow2(bc), Pow2(64 - bc);
    ghost var v, t := Magnitude(s), Power(n - 2) * q;
    var hi: Limb := top;
    ShiftLimb(p, q, mi);
    ShiftLimb(p, q, top);
    SmallTop(top, q, p);
    if bc < 64 {
      Disjoint(64 - bc, top, mi / q);
      hi := Bor((p * top) % B, mi / q);
    } else {
      FullTop(bc, q, p, mi);
    }
    assert hi == v / t;
    var zeros := AllZeros(s, n - 2);
    var sticky := !((p * mi) % B == 0 && zeros && !more);
    Sticky(s, q, p);
    var adjusted := Adjust(hi, sticky);
    CastWord(adjusted);
    pos := Cast(adjusted);
    var exponent: int := bc + 64 * (n - 1) - 64;
    RoundByTop(v, t, hi, more);
    ghost var e0, pos0 := exponent, pos;
    assert pos0 * Pow2(0) == pos0 by { One(); }
    while exponent != 0
      invariant 0 <= exponent <= e0 && pos == pos0 * Pow2(e0 - exponent)
    {
      Doubling(pos0, e0 - exponent);
      pos := pos * 2;
      exponent := exponent - 1;
    }
  }

  lemma Doubling(x: nat, e: nat)
    ensures x * Pow2(e) * 2 == x * Pow2(e + 1)
  {
    Double2(x, Pow2(e));
  }

  lemma SmallTop(top: Limb, q: nat, p: nat)
    requires top < q && q * p == B && p > 0
    ensures (p * top) % B == p * top < B
  {
    Order(p, top, q - 1);
    DivUnique(p * top, B, 0, p * top);
  }

  lemma FullTop(bc: nat, q: nat, p: nat, mi: Limb)
    requires bc == 64 && q == Pow2(bc) && p == Pow2(64 - bc)
    ensures p == 1 && q == B && mi / q == 0
  {
    BIsPow2();
  }

  /** What is tested below the top 64 bits is that nothing is there. */
  lemma Sticky(s: seq<Limb>, q: nat, p: nat)
    requires 1 < |s| && q > 0 && p > 0 && p * q == B
    ensures var n := |s|; (p * s[n - 2]) % B == 0 && IntOf(s[..n - 2], 0) == 0 <==> IntOf(s[..n - 2], 0) + Power(n - 2) * (s[n - 2] % q) == 0
  {
    var n := |s|;
    var l := s[n - 2] % q;
    ShiftLimb(p, q, s[n - 2]);
    Bounds(s[..n - 2]);
    PowerPositive(n - 2);
    if l > 0 {
      Order(p, 1, l);
      Order(Power(n - 2), 1, l);
    }
  }
}
