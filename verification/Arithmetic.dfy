/** Addition, subtraction, negation, multiplication and comparison of exact integers. */
module Arithmetic {
  import opened Limbs
  import opened Numbers
  import LogicOps
  import Mpn

  /** The function returned, and its result is the canonical number of that value. */
  predicate Exactly(r: Outcome, v: int) {
    r.Ok? && Canonical(r.num) && Value(r.num) == v
  }

  function Signed(neg: bool, v: int): int {
    if neg then -v else v
  }

  /** The largest magnitude of a fixnum of that sign. */
  function Limit(neg: bool): int {
    if neg then MOST_NEGATIVE else MOST_POSITIVE
  }

  // ---------- Magnitudes ----------

  lemma BigIs(neg: bool, s: seq<Limb>)
    requires 0 < |s| && s[|s| - 1] != 0 && Limit(neg) < IntOf(s, 0)
    ensures CanonicalBig(neg, s)
  {
    LogicOps.SingleLimb(s);
  }

  lemma TopNotZero(s: seq<Limb>)
    requires 0 < |s| && Power(|s| - 1) <= IntOf(s, 0)
    ensures s[|s| - 1] != 0
  {
    var n := |s| - 1;
    if s[n] == 0 {
      assert s[..n + 1] == s;
      DropZero(s, n + 1);
      Bounds(s[..n]);
    }
  }

  /** A row split at n: the high part counts in units of B to the n. */
  lemma HighPart(s: seq<Limb>, n: nat)
    requires n <= |s|
    ensures IntOf(s, 0) == IntOf(s[..n], 0) + Power(n) * IntOf(s[n..], 0)
    ensures 0 <= IntOf(s[..n], 0) < Power(n) && 0 <= IntOf(s[n..], 0)
  {
    LogicOps.IntOfParts(s, n, 0);
    Shifted(s[..n], IntOf(s[n..], 0));
    Bounds(s[..n]);
    Bounds(s[n..]);
  }

  lemma Units(p: int, d: int, e: int)
    requires p >= 1 && d > e
    ensures p * d >= p * e + p
  {
    assert p * (d - e) >= p * 1 by { Mpn.MulUp(p, p, 1, d - e); }
  }

  /** The highest limb decides. */
  lemma TopDecides(s: seq<Limb>, t: seq<Limb>)
    requires 0 < |s| == |t| && s[|s| - 1] > t[|s| - 1]
    ensures IntOf(s, 0) > IntOf(t, 0)
  {
    var n := |s| - 1;
    HighPart(s, n);
    HighPart(t, n);
    assert s[n..] == [s[n]] && t[n..] == [t[n]];
    LogicOps.SingleLimb(s[n..]);
    LogicOps.SingleLimb(t[n..]);
    Units(Power(n), s[n], t[n]);
  }

  lemma LengthDecides(s: seq<Limb>, t: seq<Limb>)
    requires |s| < |t| && t[|t| - 1] != 0
    ensures IntOf(s, 0) < IntOf(t, 0)
  {
    Bounds(s);
    TopLimb(t);
    PowerGrows(|s|, |t| - 1);
  }

  /** Equal high limbs do not matter for the difference. */
  lemma DropSame(s: seq<Limb>, t: seq<Limb>, n: nat)
    requires 0 < n <= |s| && n <= |t| && s[n - 1] == t[n - 1]
    ensures IntOf(s[..n], 0) - IntOf(t[..n], 0) == IntOf(s[..n - 1], 0) - IntOf(t[..n - 1], 0)
  {
    var a, b, d := s[..n - 1], t[..n - 1], s[n - 1];
    assert s[..n] == a + [d] && t[..n] == b + [d];
    IntOfSnoc(a, d, 0);
    IntOfSnoc(b, d, 0);
    Shifted(a, d);
    Shifted(b, d);
  }

  // ---------- A fixnum and a bignum ----------

  /** The branches that make a magnitude larger: mpn_add_1, and one more limb for the carry. */
  method Grow(s: seq<Limb>, m: Limb, neg: bool) returns (r: Outcome)
    requires 0 < |s| && s[|s| - 1] != 0 && Limit(neg) < IntOf(s, 0) + m
    ensures Exactly(r, Signed(neg, IntOf(s, 0) + m))
  {
    hide IntOf;
    var n := |s|;
    var dst := new Limb[n + 1];
    LogicOps.SingleLimb([m]);
    var carry := Mpn.Add(dst, s, [m]);
    if carry != 0 {
      IntOfSnoc(dst[..n], 1, 0);
      dst[n] := 1;
      assert dst[..n + 1] == dst[..n] + [1];
      BigIs(neg, dst[..n + 1]);
      r := Verified(Big(neg, dst[..n + 1]));
    } else {
      TopLimb(s);
      TopNotZero(dst[..n]);
      BigIs(neg, dst[..n]);
      r := Verified(Big(neg, dst[..n]));
    }
  }

  lemma NoBorrow(s: seq<Limb>, borrow: int)
    requires 0 <= borrow <= 1 && 0 <= IntOf(s, -borrow)
    ensures borrow == 0
  {
    Shifted(s, -borrow);
    Bounds(s);
  }

  /** Taking a fixnum away takes away at most one limb. */
  lemma OneLimbLess(s: seq<Limb>, t: seq<Limb>, m: int)
    requires 1 < |s| == |t| && s[|s| - 1] != 0 && t[|t| - 1] == 0
    requires 0 <= m <= MOST_NEGATIVE && IntOf(t, 0) == IntOf(s, 0) - m
    ensures t[|t| - 2] != 0 && IntOf(t[..|t| - 1], 0) == IntOf(t, 0)
  {
    var n := |s|;
    assert t[..n] == t;
    DropZero(t, n);
    TopLimb(s);
    PowerStep(n - 2);
    PowerGrows(0, n - 2);
    TopNotZero(t[..n - 1]);
  }

  /** The branches that make a magnitude smaller: mpn_sub_1, at most one limb dropped, and a fixnum if it fits. */
  method Shrink(s: seq<Limb>, m: int, neg: bool) returns (r: Outcome)
    requires 0 < |s| && s[|s| - 1] != 0 && 0 <= m <= MOST_NEGATIVE && m <= IntOf(s, 0)
    ensures Exactly(r, Signed(neg, IntOf(s, 0) - m))
  {
    hide IntOf;
    var n := |s|;
    var dst := new Limb[n];
    LogicOps.SingleLimb([m]);
    var borrow := Mpn.Sub(dst, s, [m]);
    NoBorrow(dst[..n], borrow);
    if borrow != 0 {
      return Abort;
    }
    var size := if dst[n - 1] != 0 then n else n - 1;
    ghost var t := dst[..n];
    if size == 0 {
      LogicOps.SingleLimb(t);
      return Ok(Fix(0));
    }
    if size < n { OneLimbLess(s, t, m); }
    assert dst[..size] == t[..size] && t[..n] == t;
    LogicOps.SingleLimb(t[..size]);
    if size == 1 {
      var last := dst[size - 1];
      if last <= Limit(neg) {
        return Ok(Fix(Signed(neg, last)));
      }
    }
    r := Verified(Big(neg, dst[..size]));
  }

  /** ikrt_fxbnplus */
  method FxBnPlus(x: int, y: Num) returns (r: Outcome)
    requires FitsFixnum(x) && y.Big? && Canonical(y)
    ensures Exactly(r, x + Value(y))
  {
    LogicOps.BigPositive(y.neg, y.limbs);
    if x == 0 {
      r := Ok(y);
    } else if x > 0 {
      if !y.neg { r := Grow(y.limbs, x, false); } else { r := Shrink(y.limbs, x, true); }
    } else {
      if !y.neg { r := Shrink(y.limbs, -x, false); } else { r := Grow(y.limbs, -x, true); }
    }
  }

  /** ikrt_fxbnminus */
  method FxBnMinus(x: int, y: Num) returns (r: Outcome)
    requires FitsFixnum(x) && y.Big? && Canonical(y)
    ensures Exactly(r, x - Value(y))
  {
    LogicOps.BigPositive(y.neg, y.limbs);
    if x == 0 {
      r := BnNegate(y);
    } else if x > 0 {
      if y.neg { r := Grow(y.limbs, x, false); } else { r := Shrink(y.limbs, x, true); }
    } else {
      if y.neg { r := Shrink(y.limbs, -x, false); } else { r := Grow(y.limbs, -x, true); }
    }
  }

  /** ikrt_bnfxminus */
  method BnFxMinus(x: Num, y: int) returns (r: Outcome)
    requires x.Big? && Canonical(x) && FitsFixnum(y)
    ensures Exactly(r, Value(x) - y)
  {
    LogicOps.BigPositive(x.neg, x.limbs);
    if y == 0 {
      r := Ok(x);
    } else if y < 0 {
      if !x.neg { r := Grow(x.limbs, -y, false); } else { r := Shrink(x.limbs, -y, true); }
    } else {
      if !x.neg { r := Shrink(x.limbs, y, false); } else { r := Grow(x.limbs, y, true); }
    }
  }

  /** ikrt_bnnegate: the one positive bignum whose negation is a fixnum is the one after the greatest fixnum. */
  method BnNegate(x: Num) returns (r: Outcome)
    requires x.Big? && Canonical(x)
    ensures Exactly(r, -Value(x))
  {
    LogicOps.SingleLimb(x.limbs);
    if |x.limbs| == 1 && !x.neg && x.limbs[0] == MOST_POSITIVE + 1 {
      var limb: int := x.limbs[0];
      return Ok(Fix(-limb));
    }
    r := Verified(Big(!x.neg, x.limbs));
  }

  // ---------- Two fixnums ----------

  /** IK_UNFIX(IK_FIX(n)): three bits are shifted out and the sign is extended. */
  function Refixed(n: int): int {
    (n + MOST_NEGATIVE) % (2 * MOST_NEGATIVE) - MOST_NEGATIVE
  }

  /** ikrt_fxfxplus */
  method FxFxPlus(x: int, y: int) returns (r: Outcome)
    requires FitsFixnum(x) && FitsFixnum(y)
    ensures Exactly(r, x + y)
  {
    var sum := x + y;
    if sum == Refixed(sum) {
      r := Ok(Fix(sum));
    } else {
      var m: Limb := if sum > 0 then sum else -sum;
      LogicOps.SingleLimb([m]);
      r := Verified(Big(sum <= 0, [m]));
    }
  }

  /** ikrt_fxfxminus */
  method FxFxMinus(x: int, y: int) returns (r: Outcome)
    requires FitsFixnum(x) && FitsFixnum(y)
    ensures Exactly(r, x - y)
  {
    var diff := x - y;
    if diff >= 0 {
      if diff <= MOST_POSITIVE {
        return Ok(Fix(diff));
      }
      var limb: Limb := diff;
      LogicOps.SingleLimb([limb]);
      r := Verified(Big(false, [limb]));
    } else if Refixed(diff) == diff {
      r := Ok(Fix(diff));
    } else {
      var limb: Limb := -diff;
      LogicOps.SingleLimb([limb]);
      r := Verified(Big(true, [limb]));
    }
  }

  // ---------- Two bignums: the sum of the magnitudes ----------

  /** The carry goes out of the longer operand, and the longer operand is the second one: the code writes the carry
      at the length of the first. */
  predicate Misplaced(x: seq<Limb>, y: seq<Limb>) {
    |x| < |y| && Power(|y|) <= IntOf(x, 0) + IntOf(y, 0)
  }

  /** A number below B to the n has no limb at n. */
  lemma LimbIsZero(s: seq<Limb>, n: nat)
    requires n < |s| && IntOf(s, 0) < Power(n)
    ensures s[n] == 0
  {
    HighPart(s, n);
    if IntOf(s[n..], 0) > 0 { Units(Power(n), IntOf(s[n..], 0), 0); }
    Bounds(s[n..][1..]);
  }

  /** Where the carry is misplaced the limb it is written over was zero, so the sum is wrong whatever the unset
      limb above holds. */
  lemma MisplacedIsWrong(x: seq<Limb>, y: seq<Limb>, low: seq<Limb>, junk: Limb)
    requires Misplaced(x, y) && |low| == |y| && IntOf(low, 1) == IntOf(x, 0) + IntOf(y, 0)
    ensures IntOf(low[|x| := 1] + [junk], 0) != IntOf(x, 0) + IntOf(y, 0)
  {
    var wrong := low[|x| := 1] + [junk];
    Bounds(x);
    Bounds(y);
    Shifted(low, 1);
    LimbIsZero(low, |x|);
    IntOfSnoc(low, 1, 0);
    assert wrong[|x|] == 1 && (low + [1])[|x|] == 0;
    if IntOf(wrong, 0) == IntOf(low + [1], 0) { SameLimbs(wrong, low + [1], 0, 0); }
  }

  /** What there is in place of the sum of the magnitudes: the right low limbs, but for a 1 at the length of the first
      operand, and above them a limb that was not set. */
  ghost predicate Misplaces(r: Outcome, neg: bool, x: seq<Limb>, y: seq<Limb>) {
    exists low: seq<Limb>, junk: Limb {:trigger low + [junk]} ::
      && |low| == |y| && |x| < |y| && IntOf(low, 1) == IntOf(x, 0) + IntOf(y, 0)
      && r == Verified(Big(neg, low[|x| := 1] + [junk]))
  }

  lemma MisplacesSo(r: Outcome, neg: bool, x: seq<Limb>, y: seq<Limb>, low: seq<Limb>, junk: Limb)
    requires |low| == |y| && |x| < |y| && IntOf(low, 1) == IntOf(x, 0) + IntOf(y, 0) && r == Verified(Big(neg, low[|x| := 1] + [junk]))
    ensures Misplaces(r, neg, x, y)
  {
    hide IntOf;
    assert low + [junk] == low + [junk];
  }

  /** The branch of bnbnplus for equal signs and that of bnbnminus for different signs. The limb above the sum is not
      set when the carry is misplaced. */
  method Sum(x: seq<Limb>, y: seq<Limb>, neg: bool) returns (r: Outcome)
    requires 0 < |x| && 0 < |y| && x[|x| - 1] != 0 && y[|y| - 1] != 0
    requires Limit(neg) < IntOf(x, 0) + IntOf(y, 0)
    ensures Exactly(r, Signed(neg, IntOf(x, 0) + IntOf(y, 0))) <==> !Misplaced(x, y)
    ensures Misplaced(x, y) ==> Misplaces(r, neg, x, y)
  {
    hide IntOf, Misplaces;
    var s1, s2 := if |x| > |y| then x else y, if |x| > |y| then y else x;
    var n1 := |s1|;
    var dst := new Limb[n1 + 1];
    var carry := Mpn.Add(dst, s1, s2);
    ghost var low, junk := dst[..n1], dst[n1];
    Bounds(x);
    Bounds(y);
    Shifted(low, carry);
    Bounds(low);
    if carry != 0 {
      dst[|x|] := 1;
      if |x| < |y| {
        MisplacedIsWrong(x, y, low, junk);
        assert dst[..n1 + 1] == low[|x| := 1] + [junk];
      } else {
        IntOfSnoc(low, 1, 0);
        assert dst[..n1 + 1] == low + [1];
        BigIs(neg, dst[..n1 + 1]);
      }
      r := Verified(Big(neg, dst[..n1 + 1]));
      if |x| < |y| { MisplacesSo(r, neg, x, y, low, junk); }
    } else {
      TopLimb(s1);
      TopNotZero(low);
      BigIs(neg, low);
      r := Verified(Big(neg, dst[..n1]));
    }
  }

  /** Such numbers exist. */
  lemma MisplacedHappens()
    ensures var x, y := Big(false, [MOST_NEGATIVE]), Big(false, [B - 1, B - 1]);
            Canonical(x) && Canonical(y) && Misplaced(x.limbs, y.limbs)
  {
    var y: seq<Limb> := [B - 1, B - 1];
    LogicOps.SingleLimb([MOST_NEGATIVE]);
    assert y[1..] == [B - 1];
    LogicOps.SingleLimb(y[1..]);
    PowerStep(0);
    PowerStep(1);
  }

  // ---------- Two bignums: the difference of the magnitudes ----------

  /** The branch of bnbnplus for different signs, and that of bnbnminus for equal signs, which also trims the equal
      high limbs off the longer operand. The loop at the end is that of Normalize. */
  method Difference(x: seq<Limb>, y: seq<Limb>, neg: bool, trim: bool) returns (r: Outcome)
    requires 0 < |x| && 0 < |y| && x[|x| - 1] != 0 && y[|y| - 1] != 0
    ensures Exactly(r, Signed(neg, IntOf(x, 0) - IntOf(y, 0)))
  {
    hide IntOf;
    var xn, yn := |x|, |y|;
    assert x[..xn] == x && y[..yn] == y;
    while xn == yn && x[xn - 1] == y[xn - 1]
      invariant 0 < xn <= |x| && 0 < yn <= |y| && (|x| == |y| ==> xn == yn) && (|x| != |y| ==> xn == |x| && yn == |y|)
      invariant IntOf(x[..xn], 0) - IntOf(y[..yn], 0) == IntOf(x, 0) - IntOf(y, 0)
      decreases xn
    {
      DropSame(x, y, xn);
      xn, yn := xn - 1, yn - 1;
      if xn == 0 {
        assert x[..0] == [] && y[..0] == [];
        return Ok(Fix(0));
      }
    }
    var s1, s2 := if trim then x[..xn] else x, if trim then y[..yn] else y;
    var sign := neg;
    assert xn == yn ==> x[..xn][xn - 1] == x[xn - 1] && y[..xn][xn - 1] == y[xn - 1];
    if xn < yn || (xn == yn && y[xn - 1] > x[xn - 1]) {
      if xn < yn { LengthDecides(x[..xn], y[..yn]); } else { TopDecides(y[..yn], x[..xn]); }
      s1, s2, sign := y[..yn], x[..xn], !neg;
    } else {
      if yn < xn { LengthDecides(y[..yn], x[..xn]); } else { TopDecides(x[..xn], y[..yn]); }
    }
    var n1 := |s1|;
    var res := new Limb[n1];
    var borrow := Mpn.Sub(res, s1, s2);
    NoBorrow(res[..n1], borrow);
    if borrow != 0 {
      return Abort;
    }
    var num := Normalize(n1, sign, res);
    r := Ok(num);
  }

  /** ikrt_bnbnplus is exact, and canonical, unless the carry is misplaced. */
  method BnBnPlus(x: Num, y: Num) returns (r: Outcome)
    requires x.Big? && y.Big? && Canonical(x) && Canonical(y)
    ensures Exactly(r, Value(x) + Value(y)) <==> !(x.neg == y.neg && Misplaced(x.limbs, y.limbs))
    ensures x.neg == y.neg && Misplaced(x.limbs, y.limbs) ==> Misplaces(r, x.neg, x.limbs, y.limbs)
  {
    hide Misplaces;
    LogicOps.BigPositive(x.neg, x.limbs);
    LogicOps.BigPositive(y.neg, y.limbs);
    if x.neg == y.neg {
      r := Sum(x.limbs, y.limbs, x.neg);
    } else {
      r := Difference(x.limbs, y.limbs, x.neg, false);
    }
  }

  /** ikrt_bnbnminus; same says that the operands are one object. */
  method BnBnMinus(x: Num, y: Num, same: bool) returns (r: Outcome)
    requires x.Big? && y.Big? && Canonical(x) && Canonical(y) && (same ==> x == y)
    ensures Exactly(r, Value(x) - Value(y)) <==> !(x.neg != y.neg && Misplaced(x.limbs, y.limbs))
    ensures x.neg != y.neg && Misplaced(x.limbs, y.limbs) ==> Misplaces(r, x.neg, x.limbs, y.limbs)
  {
    hide Misplaces;
    LogicOps.BigPositive(x.neg, x.limbs);
    LogicOps.BigPositive(y.neg, y.limbs);
    if same {
      r := Ok(Fix(0));
    } else if x.neg != y.neg {
      r := Sum(x.limbs, y.limbs, x.neg);
    } else {
      r := Difference(x.limbs, y.limbs, x.neg, true);
    }
  }

  // ---------- Multiplication ----------

  lemma SignedProduct(a: bool, v: int, b: bool, w: int)
    ensures Signed(a, v) * Signed(b, w) == Signed(a != b, v * w)
  {
  }

  lemma TwoLimbs(lo: Limb, hi: Limb)
    ensures IntOf([lo], hi) == IntOf([lo, hi], 0) && IntOf([lo], 0) == lo
  {
    LogicOps.SingleLimb([lo]);
    IntOfSnoc([lo], hi, 0);
    assert [lo] + [hi] == [lo, hi];
  }

  /** ikrt_fxfxmult */
  method FxFxMult(x: int, y: int) returns (r: Outcome)
    requires FitsFixnum(x) && FitsFixnum(y)
    ensures Exactly(r, x * y)
  {
    hide IntOf;
    var neg := (x < 0) != (y < 0);
    var s1, s2 := if x < 0 then -x else x, if y < 0 then -y else y;
    SignedProduct(x < 0, s1, y < 0, s2);
    var lo := new Limb[1];
    var hi := Mpn.Mul1(lo, [s1], s2);
    LogicOps.SingleLimb([s1]);
    assert lo[..1] == [lo[0]];
    TwoLimbs(lo[0], hi);
    if hi == 0 {
      if lo[0] <= Limit(neg) {
        return Ok(Fix(Signed(neg, lo[0])));
      }
      r := Verified(Big(neg, [lo[0]]));
    } else {
      r := Verified(Big(neg, [lo[0], hi]));
    }
  }

  /** ikrt_fxbnmult */
  method FxBnMult(x: int, y: Num) returns (r: Num)
    requires FitsFixnum(x) && y.Big? && Canonical(y)
    ensures Canonical(r) && Value(r) == x * Value(y)
  {
    hide IntOf;
    if x == 0 {
      return Fix(0);
    }
    var s := if x > 0 then x else -x;
    SignedProduct(x < 0, s, y.neg, IntOf(y.limbs, 0));
    var n := |y.limbs|;
    var dst := new Limb[n + 1];
    var hi := Mpn.Mul1(dst, y.limbs, s);
    IntOfSnoc(dst[..n], hi, 0);
    ghost var low := dst[..n];
    dst[n] := hi;
    assert dst[..n + 1] == low + [hi];
    r := Normalize(n + 1, (x < 0) != y.neg, dst);
  }

  /** ikrt_bnbnmult */
  method BnBnMult(x: Num, y: Num) returns (r: Num)
    requires x.Big? && y.Big? && Canonical(x) && Canonical(y)
    ensures Canonical(r) && Value(r) == Value(x) * Value(y)
  {
    hide IntOf;
    var n1, n2 := |x.limbs|, |y.limbs|;
    SignedProduct(x.neg, IntOf(x.limbs, 0), y.neg, IntOf(y.limbs, 0));
    var dst := new Limb[n1 + n2];
    if n1 >= n2 {
      Mpn.Mul(dst, x.limbs, y.limbs);
    } else {
      Mpn.Mul(dst, y.limbs, x.limbs);
    }
    assert dst[..n1 + n2] == dst[..];
    r := Normalize(n1 + n2, x.neg != y.neg, dst);
  }

  // ---------- Comparison ----------

  /** The two loops of ikrt_bnbncomp: less, equal or greater by magnitude. */
  method CompareMagnitudes(x: seq<Limb>, y: seq<Limb>) returns (r: int)
    requires 0 < |x| && 0 < |y| && x[|x| - 1] != 0 && y[|y| - 1] != 0
    ensures r == if IntOf(x, 0) < IntOf(y, 0) then -1 else if IntOf(x, 0) > IntOf(y, 0) then 1 else 0
  {
    hide IntOf;
    if |x| < |y| {
      LengthDecides(x, y);
      return -1;
    } else if |x| > |y| {
      LengthDecides(y, x);
      return 1;
    }
    var i := |x| - 1;
    assert x[..|x|] == x && y[..|x|] == y;
    while i >= 0
      invariant -1 <= i < |x| && IntOf(x[..i + 1], 0) - IntOf(y[..i + 1], 0) == IntOf(x, 0) - IntOf(y, 0)
    {
      if x[i] < y[i] {
        TopDecides(y[..i + 1], x[..i + 1]);
        return -1;
      } else if x[i] > y[i] {
        TopDecides(x[..i + 1], y[..i + 1]);
        return 1;
      }
      DropSame(x, y, i + 1);
      i := i - 1;
    }
    assert x[..0] == [] && y[..0] == [];
    r := 0;
  }

  /** ikrt_bnbncomp */
  method BnBnComp(x: Num, y: Num) returns (r: int)
    requires x.Big? && y.Big? && Canonical(x) && Canonical(y)
    ensures r == if Value(x) < Value(y) then -1 else if Value(x) > Value(y) then 1 else 0
  {
    LogicOps.BigPositive(x.neg, x.limbs);
    LogicOps.BigPositive(y.neg, y.limbs);
    if x.neg != y.neg {
      r := if x.neg then -1 else 1;
    } else {
      r := CompareMagnitudes(x.limbs, y.limbs);
      if x.neg { r := -r; }
    }
  }
}
