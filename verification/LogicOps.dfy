/** The logical operations on exact integers: limb loops on sign and magnitude, bitwise operations on
    infinite two's complement. */
module LogicOps {
  import opened Bits
  import opened Limbs
  import opened LimbLoops
  import opened Numbers

  // ---------- Negative numbers in two's complement ----------

  /** The magnitude continued by zeros and complemented is the negative number, and nothing is carried out. */
  lemma Negated(s: seq<Limb>, n: nat)
    requires 0 < IntOf(s, 0)
    ensures IntOf(s + Zeros(n), 0) == IntOf(s, 0)
    ensures IntOf(Compl(s + Zeros(n), 1), -1) == -IntOf(s, 0) && CarryOut(s + Zeros(n), 1) == 0
  {
    IntOfAppend(s, Zeros(n), 0);
    IntOfZeros(n);
    CarryOutZero(s + Zeros(n), 1);
    ComplValue(s + Zeros(n), 1, 0);
  }

  lemma NegatedSame(s: seq<Limb>)
    requires 0 < IntOf(s, 0)
    ensures IntOf(Compl(s, 1), -1) == -IntOf(s, 0) && CarryOut(s, 1) == 0
  {
    Negated(s, 0);
    assert s + Zeros(0) == s;
  }

  /** Complementing a negative number gives its magnitude, if the limbs are not all zero. */
  lemma NegatedBack(s: seq<Limb>)
    requires exists i :: 0 <= i < |s| && s[i] != 0
    ensures IntOf(Compl(s, 1), 0) == -IntOf(s, -1)
  {
    CarryOutIs(s, 1);
    ComplValue(s, 1, -1);
  }

  lemma BigPositive(neg: bool, limbs: seq<Limb>)
    requires CanonicalBig(neg, limbs)
    ensures MOST_POSITIVE < IntOf(limbs, 0) && (neg ==> MOST_NEGATIVE < IntOf(limbs, 0))
  {
    BigDoesNotFit(Big(neg, limbs));
    Bounds(limbs);
  }

  /** A negative number that is not too negative for its limbs: some limb is not zero. */
  lemma {:induction false} NotAllZero(s: seq<Limb>)
    requires -Power(|s|) < IntOf(s, -1)
    ensures exists i :: 0 <= i < |s| && s[i] != 0
  {
    if forall i :: 0 <= i < |s| ==> s[i] == 0 {
      assert s == Zeros(|s|);
      Shifted(s, -1);
      IntOfZeros(|s|);
    }
  }

  // ---------- Not ----------

  function Fill(n: nat, d: Limb): (s: seq<Limb>)
    ensures |s| == n && forall k {:trigger s[k]} :: 0 <= k < n ==> s[k] == d
  {
    seq(n, _ => d)
  }

  /** The borrow stops at the first limb that is not zero. */
  lemma {:induction false} Decrement(s: seq<Limb>, i: nat)
    requires i < |s| && s[i] > 0 && forall k {:trigger s[k]} :: 0 <= k < i ==> s[k] == 0
    ensures IntOf(Fill(i, B - 1) + [s[i] - 1] + s[i + 1..], 0) == IntOf(s, 0) - 1
    decreases i
  {
    var r := Fill(i, B - 1) + [s[i] - 1] + s[i + 1..];
    if i == 0 {
      assert r[1..] == s[1..];
    } else {
      Decrement(s[1..], i - 1);
      assert r[1..] == Fill(i - 1, B - 1) + [s[1..][i - 1] - 1] + s[1..][i..];
    }
  }

  /** The carry stops at the first limb that is not all ones. */
  lemma {:induction false} Increment(s: seq<Limb>, i: nat)
    requires i < |s| && s[i] < B - 1 && forall k {:trigger s[k]} :: 0 <= k < i ==> s[k] == B - 1
    ensures IntOf(Zeros(i) + [s[i] + 1] + s[i + 1..], 0) == IntOf(s, 0) + 1
    decreases i
  {
    var r := Zeros(i) + [s[i] + 1] + s[i + 1..];
    if i == 0 {
      assert r[1..] == s[1..];
    } else {
      Increment(s[1..], i - 1);
      assert r[1..] == Zeros(i - 1) + [s[1..][i - 1] + 1] + s[1..][i..];
    }
  }

  lemma {:induction false} IncrementAll(s: seq<Limb>)
    requires forall k {:trigger s[k]} :: 0 <= k < |s| ==> s[k] == B - 1
    ensures IntOf(Zeros(|s|) + [1], 0) == IntOf(s, 0) + 1
    decreases |s|
  {
    var r := Zeros(|s|) + [1];
    if s == [] {
      assert r == [1] && r[1..] == [];
    } else {
      IncrementAll(s[1..]);
      assert r[1..] == Zeros(|s| - 1) + [1];
    }
  }

  /** ikrt_bnlognot */
  method BnLognot(x: Num) returns (r: Num)
    requires x.Big? && Canonical(x)
    ensures Canonical(r) && Value(r) == Not(Value(x))
  {
    var n := |x.limbs|;
    ghost var s := x.limbs;
    BigPositive(x.neg, x.limbs);
    if x.neg {
      r := LognotNegative(x.limbs);
    } else {
      r := LognotPositive(x.limbs);
    }
  }

  /** The magnitude less one. */
  method LognotNegative(s: seq<Limb>) returns (r: Num)
    requires CanonicalBig(true, s)
    ensures Canonical(r) && Value(r) == IntOf(s, 0) - 1
  {
    hide IntOf;
    var n := |s|;
    var rd := new Limb[n](_ => 0);
    var i := 0;
    while i < n && s[i] == 0
      invariant i <= n && forall k :: 0 <= k < i ==> rd[k] == B - 1 && s[k] == 0
    {
      rd[i] := B - 1;
      i := i + 1;
    }
    assert i < n;
    ghost var first := i;
    rd[i] := s[i] - 1;
    i := i + 1;
    while i < n
      invariant first < i <= n && (forall k :: 0 <= k < first ==> rd[k] == B - 1) && rd[first] == s[first] - 1
      invariant forall k :: first < k < i ==> rd[k] == s[k]
    {
      rd[i] := s[i];
      i := i + 1;
    }
    Decrement(s, first);
    assert rd[..n] == Fill(first, B - 1) + [s[first] - 1] + s[first + 1..];
    r := Normalize(n, false, rd);
  }

  /** The magnitude plus one, negative. */
  method LognotPositive(s: seq<Limb>) returns (r: Num)
    requires CanonicalBig(false, s)
    ensures Canonical(r) && Value(r) == -1 - IntOf(s, 0)
  {
    hide IntOf;
    var n := |s|;
    var i := 0;
    while i < n && s[i] == B - 1
      invariant i <= n && forall k {:trigger s[k]} :: 0 <= k < i ==> s[k] == B - 1
    {
      i := i + 1;
    }
    if i == n {
      var rd := new Limb[n + 1](k requires 0 <= k < n + 1 => if k == n then 1 else 0);
      IncrementAll(s);
      assert rd[..] == Zeros(n) + [1];
      r := Big(true, rd[..]);
    } else {
      var limbs := Incremented(s, i);
      Increment(s, i);
      r := Big(true, limbs);
    }
    BigPositive(false, s);
    SingleLimb(r.limbs);
  }

  /** The limbs of the result when limb i is the first that is not all ones. */
  method Incremented(s: seq<Limb>, i: nat) returns (r: seq<Limb>)
    requires i < |s| && s[i] < B - 1
    ensures r == Zeros(i) + [s[i] + 1] + s[i + 1..]
  {
    var n := |s|;
    var rd := new Limb[n](_ => 0);
    rd[i] := s[i] + 1;
    var j := i + 1;
    while j < n
      invariant i < j <= n && (forall k :: 0 <= k < i ==> rd[k] == 0) && rd[i] == s[i] + 1
      invariant forall k :: i < k < j ==> rd[k] == s[k]
    {
      rd[j] := s[j];
      j := j + 1;
    }
    r := rd[..];
  }

  lemma SingleLimb(s: seq<Limb>)
    ensures |s| == 1 ==> IntOf(s, 0) == s[0]
  {
    assert |s| == 1 ==> s[1..] == [];
  }

  // ---------- Machine words ----------

  /** A fixnum as a machine word. */
  function Word(n: int): Limb
    requires FitsFixnum(n)
  {
    if n < 0 then n + B else n
  }

  /** -limb, truncated: the low word of a negative bignum. */
  function LowWord(limb: Limb): Limb {
    (1 + (B - 1 - limb)) % B
  }

  lemma LowOfNegative(s: seq<Limb>)
    requires 0 < |s|
    ensures exists h {:trigger B * h} :: -IntOf(s, 0) == LowWord(s[0]) + B * h
  {
    var h := -IntOf(s[1..], 0) - (if s[0] > 0 then 1 else 0);
    assert -IntOf(s, 0) == LowWord(s[0]) + B * h;
  }

  lemma Pow60()
    ensures Pow2(60) == MOST_NEGATIVE
  {
    hide Pow2;
    Pow8();
    PowAdd(52, 8);
    PowAdd(44, 8);
    PowAdd(36, 8);
    PowAdd(28, 8);
    PowAdd(20, 8);
    PowAdd(12, 8);
    PowAdd(4, 8);
  }

  // ---------- Back from two's complement ----------

  /** The last steps of most branches: the row t, continued by ones, is complemented in place and normalized. */
  method FinishNegative(s: array<Limb>, n: nat) returns (r: Num)
    requires 0 < n == s.Length && exists i :: 0 <= i < n && s[i] != 0
    modifies s
    ensures Canonical(r) && Value(r) == old(IntOf(s[..], -1))
  {
    ghost var t := s[..];
    assert t + Zeros(0) == t && s[..n] == t;
    assert exists i :: 0 <= i < |t| && t[i] != 0;
    NegatedBack(t);
    BitsComplement2(s, s, n, n);
    assert s[..n] == s[..];
    r := Normalize(n, true, s);
  }

  /** The complement of a magnitude with one limb more ends with a limb of ones. */
  lemma TopOnes(x: seq<Limb>)
    requires 0 < IntOf(x, 0)
    ensures var c := Compl(x + Zeros(1), 1); |c| == |x| + 1 && c[|x|] == B - 1 && IntOf(c, -1) == -IntOf(x, 0)
  {
    Negated(x, 1);
    CarryOutZero(x, 1);
    var s := x + Zeros(1);
    ComplAt(s, |x|, 1);
    assert s[..|x|] == x;
  }

  // ---------- And ----------

  /** ikrt_fxbnlogand */
  method FxBnLogand(n: int, y: Num) returns (r: Num)
    requires FitsFixnum(n) && y.Big? && Canonical(y)
    ensures Canonical(r) && Value(r) == And(n, Value(y))
  {
    hide IntOf, And, Band;
    BigPositive(y.neg, y.limbs);
    if n >= 0 {
      var low := if y.neg then LowWord(y.limbs[0]) else y.limbs[0];
      FixAnd(n, y);
      r := Fix(Band(n, low));
    } else if n == -1 {
      AndWithMinusOne(Value(y));
      r := y;
    } else if y.neg {
      var len := |y.limbs|;
      var s2 := Data(y.limbs);
      var s := new Limb[len + 1](_ => 0);
      assert s2[..len] == y.limbs;
      BitsComplement2(s2, s, len, len + 1);
      TopOnes(y.limbs);
      ghost var c := s[..];
      assert s[..len + 1] == c && c[len] == B - 1;
      s[0] := Band(s[0], Word(n));
      assert s[..] == [Band(c[0], Word(n))] + c[1..] && s[len] != 0;
      LowAnd(c, s[..], n, -1);
      r := FinishNegative(s, len + 1);
    } else {
      var len := |y.limbs|;
      var rd := new Limb[len](_ => 0);
      rd[0] := Band(y.limbs[0], Word(n));
      var i := 1;
      while i < len
        invariant 1 <= i <= len && rd[0] == Band(y.limbs[0], Word(n)) && forall k :: 1 <= k < i ==> rd[k] == y.limbs[k]
      {
        rd[i] := y.limbs[i];
        i := i + 1;
      }
      r := Big(false, rd[..]);
      assert rd[..] == [Band(y.limbs[0], Word(n))] + y.limbs[1..];
      LowAnd(y.limbs, rd[..], n, 0);
      if len == 1 { HighAnd(y.limbs[0], n); }
    }
  }

  lemma AndWithMinusOne(h: int)
    ensures And(h, -1) == h && And(-1, h) == h && Or(h, -1) == -1 && Or(-1, h) == -1 && And(h, 0) == 0 && And(0, h) == 0 && Or(h, 0) == h && Or(0, h) == h
  {
  }

  lemma FixAnd(n: int, y: Num)
    requires 0 <= n <= MOST_POSITIVE && y.Big? && Canonical(y)
    ensures And(n, Value(y)) == Band(n, if y.neg then LowWord(y.limbs[0]) else y.limbs[0]) <= MOST_POSITIVE
  {
    var low: Limb := if y.neg then LowWord(y.limbs[0]) else y.limbs[0];
    LowOfNegative(y.limbs);
    var h :| Value(y) == low + B * h;
    AndLow(n, 0, low, h);
    AndWithMinusOne(h);
    AndBelow(n, low);
  }

  /** Only the low limb of the negative number is combined with the fixnum; the fixnum goes on with ones. */
  lemma LowAnd(c: seq<Limb>, t: seq<Limb>, n: int, top: int)
    requires 0 < |c| && FitsFixnum(n) && n < 0 && t == [Band(c[0], Word(n))] + c[1..]
    ensures IntOf(t, top) == And(n, IntOf(c, top))
  {
    hide And;
    assert t[1..] == c[1..];
    AndLow(c[0], IntOf(c[1..], top), Word(n), -1);
    AndWithMinusOne(IntOf(c[1..], top));
    AndCommutes(n, IntOf(c, top));
  }

  /** A negative fixnum leaves the bits above the fixnums alone. */
  lemma HighAnd(limb: Limb, n: int)
    requires FitsFixnum(n) && n < 0 && limb > MOST_POSITIVE
    ensures Band(limb, Word(n)) > MOST_POSITIVE
  {
    Pow60();
    var p := MOST_NEGATIVE;
    AndSplit(60, limb % p, limb / p, n + p, -1);
    AndWithMinusOne(limb / p);
    AndLow(limb, 0, Word(n), -1);
    AndWithMinusOne(0);
    assert limb == limb % p + p * (limb / p) && n == (n + p) + p * -1;
    assert And(limb, n) == Band(limb, Word(n));
    assert limb / p >= 1;
  }

  lemma ComplPrefix(y: seq<Limb>, n: nat)
    requires n <= |y|
    ensures Compl(y, 1) == Compl(y[..n], 1) + Compl(y[n..], CarryOut(y[..n], 1))
    ensures CarryOut(y, 1) == CarryOut(y[n..], CarryOut(y[..n], 1))
  {
    hide Compl, CarryOut;
    assert y[..n] + y[n..] == y;
    ComplAppend(y[..n], y[n..], 1);
  }

  lemma IntOfParts(s: seq<Limb>, n: nat, top: int)
    requires n <= |s|
    ensures IntOf(s, top) == IntOf(s[..n], IntOf(s[n..], top))
  {
    hide IntOf;
    assert s[..n] + s[n..] == s;
    IntOfAppend(s[..n], s[n..], top);
  }

  /** What the magnitudes have in common is the greatest fixnum: all its bits in the lowest limbs, and nothing in the
      other pairs of limbs. */
  predicate ShareGreatestFixnum(x: seq<Limb>, y: seq<Limb>) {
    && 0 < |x| && 0 < |y| && Band(x[0], y[0]) == MOST_POSITIVE
    && forall i {:trigger x[i]} {:trigger y[i]} :: 1 <= i < |x| && i < |y| ==> Band(x[i], y[i]) == 0
  }

  /** ikrt_bnbnlogand. One result is not canonical: when both operands are positive and what they have in common
      is the greatest fixnum, a bignum is returned, because the test is for less than the greatest fixnum. */
  method BnBnLogand(x: Num, y: Num) returns (r: Num)
    requires x.Big? && y.Big? && Canonical(x) && Canonical(y)
    ensures Value(r) == And(Value(x), Value(y))
    ensures Canonical(r) <==> x.neg || y.neg || !ShareGreatestFixnum(x.limbs, y.limbs)
    decreases x.neg && !y.neg, x.neg && y.neg && |x.limbs| < |y.limbs|
  {
    AndCommutes(Value(x), Value(y));
    if x.neg {
      if y.neg {
        if |x.limbs| >= |y.limbs| {
          r := LogandNegatives(x.limbs, y.limbs);
        } else {
          r := BnBnLogand(y, x);
        }
      } else {
        r := BnBnLogand(y, x);
      }
    } else if y.neg {
      r := LogandMixed(x.limbs, y.limbs);
    } else {
      r := LogandPositives(x.limbs, y.limbs);
    }
  }

  method LogandNegatives(x: seq<Limb>, y: seq<Limb>) returns (r: Num)
    requires CanonicalBig(true, x) && CanonicalBig(true, y) && |x| >= |y|
    ensures Canonical(r) && Value(r) == And(-IntOf(x, 0), -IntOf(y, 0))
  {
    var n1, n2 := |x|, |y|;
    var s1 := Data(x);
    var s2 := Data(y);
    var s := new Limb[n1 + 1](_ => 0);
    BigPositive(true, x);
    assert s1[..n1] == x && s2[..n2] == y;
    BitsComplement2(s1, s, n1, n1 + 1);
    TopOnes(x);
    ghost var c := s[..];
    assert s[..n1 + 1] == c && s[..n2] == c[..n2];
    BitsComplementLogand(s2, s, s, n2);
    ghost var t := s[..];
    assert t == AndLimbs(Compl(y, 1), c[..n2]) + c[n2..] && t[n1] == B - 1;
    LogandNegativesValue(x, y, c);
    r := FinishNegative(s, n1 + 1);
  }

  lemma LogandNegativesValue(x: seq<Limb>, y: seq<Limb>, c: seq<Limb>)
    requires CanonicalBig(true, x) && CanonicalBig(true, y) && |y| <= |c| && IntOf(c, -1) == -IntOf(x, 0)
    ensures IntOf(AndLimbs(Compl(y, 1), c[..|y|]) + c[|y|..], -1) == And(-IntOf(x, 0), -IntOf(y, 0))
  {
    hide And, Compl, AndLimbs, IntOf;
    var n, h := |y|, IntOf(c[|y|..], -1);
    var a, low, high := Compl(y, 1), c[..|y|], c[|y|..];
    BigPositive(true, y);
    NegatedSame(y);
    IntOfParts(c, n, -1);
    AndLimbsValue(a, low, -1, h);
    AndWithMinusOne(h);
    IntOfAppend(AndLimbs(a, low), high, -1);
    AndCommutes(-IntOf(x, 0), -IntOf(y, 0));
    assert IntOf(low, h) == -IntOf(x, 0) && IntOf(a, -1) == -IntOf(y, 0);
    var v, w := IntOf(a, -1), IntOf(low, h);
    assert IntOf(AndLimbs(a, low), h) == And(v, w) == And(-IntOf(y, 0), -IntOf(x, 0));
    assert AndLimbs(a, low) + high == AndLimbs(Compl(y, 1), c[..|y|]) + c[|y|..];
  }

  method LogandMixed(x: seq<Limb>, y: seq<Limb>) returns (r: Num)
    requires CanonicalBig(false, x) && CanonicalBig(true, y)
    ensures Canonical(r) && Value(r) == And(IntOf(x, 0), -IntOf(y, 0))
  {
    var n1, n2 := |x|, |y|;
    var s1 := Data(x);
    var s2 := Data(y);
    var s := new Limb[n1](_ => 0);
    if n1 <= n2 {
      assert s1[..n1] == x && s2[..n1] == y[..n1];
      BitsComplementLogand(s2, s1, s, n1);
      LogandShort(x, y);
    } else {
      assert s1[..n2] == x[..n2] && s2[..n2] == y;
      BitsComplementLogand(s2, s1, s, n2);
      CopyLimbs(s1, s, n2, n1);
      assert s[..n1] == s[..n2] + s[n2..n1] && s1[n2..n1] == x[n2..];
      LogandLong(x, y);
    }
    r := Normalize(n1, false, s);
  }

  lemma LogandShort(x: seq<Limb>, y: seq<Limb>)
    requires CanonicalBig(true, y) && |x| <= |y|
    ensures IntOf(AndLimbs(Compl(y[..|x|], 1), x), 0) == And(IntOf(x, 0), -IntOf(y, 0))
  {
    hide And, Compl, AndLimbs;
    var n := |x|;
    BigPositive(true, y);
    NegatedSame(y);
    ComplPrefix(y, n);
    var h := IntOf(Compl(y[n..], CarryOut(y[..n], 1)), -1);
    IntOfAppend(Compl(y[..n], 1), Compl(y[n..], CarryOut(y[..n], 1)), -1);
    AndLimbsValue(Compl(y[..n], 1), x, h, 0);
    AndWithMinusOne(h);
    AndCommutes(IntOf(x, 0), -IntOf(y, 0));
  }

  lemma LogandLong(x: seq<Limb>, y: seq<Limb>)
    requires CanonicalBig(true, y) && |y| <= |x|
    ensures IntOf(AndLimbs(Compl(y, 1), x[..|y|]) + x[|y|..], 0) == And(IntOf(x, 0), -IntOf(y, 0))
  {
    hide And, Compl, AndLimbs;
    var n, h := |y|, IntOf(x[|y|..], 0);
    BigPositive(true, y);
    NegatedSame(y);
    IntOfParts(x, n, 0);
    AndLimbsValue(Compl(y, 1), x[..n], -1, h);
    AndWithMinusOne(h);
    IntOfAppend(AndLimbs(Compl(y, 1), x[..n]), x[n..], 0);
    AndCommutes(IntOf(x, 0), -IntOf(y, 0));
  }

  method LogandPositives(x: seq<Limb>, y: seq<Limb>) returns (r: Num)
    requires CanonicalBig(false, x) && CanonicalBig(false, y)
    ensures Value(r) == And(IntOf(x, 0), IntOf(y, 0))
    ensures Canonical(r) <==> !ShareGreatestFixnum(x, y)
  {
    var n := if |x| < |y| then |x| else |y|;
    PositiveValue(x, y, n);
    SharedValue(x, y);
    hide ShareGreatestFixnum;
    ghost var z := AndLimbs(x[..n], y[..n]);
    ghost var v := IntOf(z, 0);
    assert z[..n] == z;
    var i := n - 1;
    while i >= 0
      invariant -1 <= i < n && IntOf(z[..i + 1], 0) == v
    {
      CombinedAt(x[..n], y[..n], i);
      var last := Band(x[i], y[i]);
      if last != 0 {
        if i == 0 && last < MOST_POSITIVE {
          assert z[..1] == [last];
          SingleLimb([last]);
          return Fix(last);
        }
        r := CommonLimbs(x, y, n, i, last);
        CommonCanonical(z[..i + 1]);
        return;
      }
      DropZero(z, i + 1);
      i := i - 1;
    }
    assert z[..0] == [];
    r := Fix(0);
  }

  /** The limbs up to i of what two positive numbers have in common. */
  method CommonLimbs(x: seq<Limb>, y: seq<Limb>, n: nat, i: nat, last: Limb) returns (r: Num)
    requires i < n <= |x| && n <= |y| && last == Band(x[i], y[i])
    ensures r == Big(false, AndLimbs(x[..n], y[..n])[..i + 1])
  {
    ghost var z := AndLimbs(x[..n], y[..n]);
    CombinedAt(x[..n], y[..n], i);
    var rd := new Limb[i + 1](_ => 0);
    rd[i] := last;
    var j := 0;
    while j < i
      invariant 0 <= j <= i && rd[i] == last && forall k :: 0 <= k < j ==> rd[k] == z[k]
    {
      CombinedAt(x[..n], y[..n], j);
      rd[j] := Band(x[j], y[j]);
      j := j + 1;
    }
    assert rd[..] == z[..i + 1];
    r := Big(false, rd[..]);
  }

  lemma CommonCanonical(s: seq<Limb>)
    requires 0 < |s| && s[|s| - 1] != 0 && (|s| == 1 ==> s[0] >= MOST_POSITIVE)
    ensures CanonicalBig(false, s) <==> IntOf(s, 0) != MOST_POSITIVE
  {
    SingleLimb(s);
    TopLimb(s);
    if |s| > 1 {
      PowerGrows(1, |s| - 1);
      PowerStep(0);
    }
  }

  /** In terms of the values: the conjunction is the greatest fixnum. */
  lemma SharedValue(x: seq<Limb>, y: seq<Limb>)
    requires 0 < |x| && 0 < |y|
    ensures ShareGreatestFixnum(x, y) <==> And(IntOf(x, 0), IntOf(y, 0)) == MOST_POSITIVE
  {
    hide And, IntOf;
    var n := if |x| < |y| then |x| else |y|;
    var z, one := AndLimbs(x[..n], y[..n]), [MOST_POSITIVE] + Zeros(n - 1);
    PositiveValue(x, y, n);
    forall i | 0 <= i < n ensures z[i] == Band(x[i], y[i]) { CombinedAt(x[..n], y[..n], i); }
    PaddedValue(MOST_POSITIVE, n - 1);
    if IntOf(z, 0) == MOST_POSITIVE { SameLimbs(z, one, 0, 0); }
    assert z == one <==> z[0] == MOST_POSITIVE && forall i {:trigger z[i]} :: 1 <= i < n ==> z[i] == 0;
    assert ShareGreatestFixnum(x, y) <==> z == one;
  }

  lemma PaddedValue(d: Limb, n: nat)
    ensures IntOf([d] + Zeros(n), 0) == d
  {
    IntOfZeros(n);
    assert ([d] + Zeros(n))[1..] == Zeros(n);
  }

  lemma {:induction false} AndSame(x: int)
    ensures And(x, x) == x
    decreases Abs(x)
  {
    if x != 0 && x != -1 { AndSame(x / 2); }
  }

  /** Such numbers exist: each has one limb, with the bits of the greatest fixnum and one more bit of its own. */
  lemma GreatestFixnumShared()
    ensures var x, y := Big(false, [MOST_NEGATIVE + MOST_POSITIVE]), Big(false, [2 * MOST_NEGATIVE + MOST_POSITIVE]);
            Canonical(x) && Canonical(y) && ShareGreatestFixnum(x.limbs, y.limbs)
  {
    hide Pow2;
    Pow60();
    AndSplit(60, MOST_POSITIVE, 1, MOST_POSITIVE, 2);
    AndSame(MOST_POSITIVE);
    assert And(1, 2) == 0;
  }

  lemma PositiveValue(x: seq<Limb>, y: seq<Limb>, n: nat)
    requires n <= |x| && n <= |y| && (n == |x| || n == |y|)
    ensures IntOf(AndLimbs(x[..n], y[..n]), 0) == And(IntOf(x, 0), IntOf(y, 0))
  {
    var h, h' := IntOf(x[n..], 0), IntOf(y[n..], 0);
    IntOfParts(x, n, 0);
    IntOfParts(y, n, 0);
    AndLimbsValue(x[..n], y[..n], h, h');
    assert n == |x| ==> x[n..] == [];
    assert n == |y| ==> y[n..] == [];
    AndWithMinusOne(h);
    AndWithMinusOne(h');
  }

  // ---------- Or ----------

  /** ikrt_fxbnlogor */
  method FxBnLogor(n: int, y: Num) returns (r: Num)
    requires FitsFixnum(n) && y.Big? && Canonical(y)
    ensures Canonical(r) && Value(r) == Or(n, Value(y))
  {
    BigPositive(y.neg, y.limbs);
    if n < 0 {
      var low := if y.neg then LowWord(y.limbs[0]) else y.limbs[0];
      FixOr(n, y);
      r := Fix(Bor(Word(n), low) - B);
    } else if n == 0 {
      AndWithMinusOne(Value(y));
      r := y;
    } else if y.neg {
      var len := |y.limbs|;
      var s2 := Data(y.limbs);
      var s := new Limb[len + 1](_ => 0);
      assert s2[..len] == y.limbs;
      BitsComplement2(s2, s, len, len + 1);
      TopOnes(y.limbs);
      ghost var c := s[..];
      assert s[..len + 1] == c;
      s[0] := Bor(s[0], n);
      LowOr(c, s[..], n, -1);
      r := FinishNegative(s, len + 1);
    } else {
      var len := |y.limbs|;
      var rd := new Limb[len](_ => 0);
      rd[0] := Bor(y.limbs[0], n);
      var i := 1;
      while i < len
        invariant 1 <= i <= len && rd[0] == Bor(y.limbs[0], n) && forall k :: 1 <= k < i ==> rd[k] == y.limbs[k]
      {
        rd[i] := y.limbs[i];
        i := i + 1;
      }
      r := Big(false, rd[..]);
      LowOr(y.limbs, rd[..], n, 0);
      OrGrows(y.limbs[0], n);
    }
  }

  lemma OrCommutes(x: int, y: int)
    ensures Or(x, y) == Or(y, x)
  {
    AndCommutes(Not(x), Not(y));
  }

  lemma OrGrows(x: int, y: int)
    requires x >= 0 && y >= 0
    ensures x <= Or(x, y)
  {
    OrIsSum(x, y);
    AndBelow(y, x);
    AndCommutes(x, y);
  }

  /** What is in either is what is in both, counted once less. */
  lemma {:induction false} OrIsSum(x: int, y: int)
    ensures Or(x, y) + And(x, y) == x + y
    decreases Abs(x) + Abs(y)
  {
    if x == 0 || y == 0 || x == -1 || y == -1 {
      AndWithMinusOne(x);
      AndWithMinusOne(y);
    } else {
      OrIsSum(x / 2, y / 2);
      assert Not(x) / 2 == Not(x / 2) && Not(y) / 2 == Not(y / 2);
    }
  }

  lemma FixOr(n: int, y: Num)
    requires FitsFixnum(n) && n < 0 && y.Big? && Canonical(y)
    ensures Or(n, Value(y)) == Bor(Word(n), if y.neg then LowWord(y.limbs[0]) else y.limbs[0]) - B
    ensures FitsFixnum(Or(n, Value(y)))
  {
    var low: Limb := if y.neg then LowWord(y.limbs[0]) else y.limbs[0];
    LowOfNegative(y.limbs);
    var h :| Value(y) == low + B * h;
    OrLow64(Word(n), -1, low, h);
    AndWithMinusOne(h);
    OrAbove(n, Value(y));
  }

  lemma LowOr(c: seq<Limb>, t: seq<Limb>, n: int, top: int)
    requires 0 < |c| && 0 <= n < B && t == [Bor(c[0], n)] + c[1..]
    ensures IntOf(t, top) == Or(n, IntOf(c, top))
  {
    hide Or, And;
    assert t[1..] == c[1..];
    OrLow64(c[0], IntOf(c[1..], top), n, 0);
    AndWithMinusOne(IntOf(c[1..], top));
    OrCommutes(n, IntOf(c, top));
  }

  /** ikrt_bnbnlogor */
  method BnBnLogor(x: Num, y: Num) returns (r: Num)
    requires x.Big? && y.Big? && Canonical(x) && Canonical(y)
    ensures Canonical(r) && Value(r) == Or(Value(x), Value(y))
    decreases x.neg && !y.neg, x.neg && y.neg && |x.limbs| < |y.limbs|
  {
    OrCommutes(Value(x), Value(y));
    if x.neg {
      if y.neg {
        if |x.limbs| >= |y.limbs| {
          r := LogorNegatives(x.limbs, y.limbs);
        } else {
          r := BnBnLogor(y, x);
        }
      } else {
        r := BnBnLogor(y, x);
      }
    } else if y.neg {
      r := LogorMixed(x.limbs, y.limbs);
    } else {
      r := LogorPositives(x.limbs, y.limbs);
    }
  }

  method LogorNegatives(x: seq<Limb>, y: seq<Limb>) returns (r: Num)
    requires CanonicalBig(true, x) && CanonicalBig(true, y) && |x| >= |y|
    ensures Canonical(r) && Value(r) == Or(-IntOf(x, 0), -IntOf(y, 0))
  {
    var n1, n2 := |x|, |y|;
    var s1 := Data(x);
    var s2 := Data(y);
    var s := new Limb[n1](_ => 0);
    assert s1[..n1] == x && s2[..n2] == y;
    BitsComplement2(s2, s, n2, n1);
    ghost var c := s[..];
    assert s[..n1] == c;
    var carry := BitsComplementLogor(s1, s, s, n1);
    carry := BitsComplementCarry(s, s, n1, n1, carry);
    assert s[..n1] == s[..];
    LogorNegativesValue(x, y);
    r := FinishNegative(s, n1);
  }

  lemma LogorNegativesValue(x: seq<Limb>, y: seq<Limb>)
    requires CanonicalBig(true, x) && CanonicalBig(true, y) && |x| >= |y|
    ensures var t := OrLimbs(Compl(x, 1), Compl(y + Zeros(|x| - |y|), 1));
            && IntOf(t, -1) == Or(-IntOf(x, 0), -IntOf(y, 0))
            && exists i :: 0 <= i < |t| && t[i] != 0
  {
    hide And, Or, Compl, OrLimbs;
    BigPositive(true, x);
    BigPositive(true, y);
    NegatedSame(x);
    Negated(y, |x| - |y|);
    var c := Compl(y + Zeros(|x| - |y|), 1);
    OrLimbsValue(Compl(x, 1), c, -1, -1);
    AndWithMinusOne(-1);
    Bounds(x);
    OrAbove(-IntOf(x, 0), -IntOf(y, 0));
    NotAllZero(OrLimbs(Compl(x, 1), c));
  }

  method LogorMixed(x: seq<Limb>, y: seq<Limb>) returns (r: Num)
    requires CanonicalBig(false, x) && CanonicalBig(true, y)
    ensures Canonical(r) && Value(r) == Or(IntOf(x, 0), -IntOf(y, 0))
  {
    var n1, n2 := |x|, |y|;
    var s1 := Data(x);
    var s2 := Data(y);
    var s := new Limb[n2](_ => 0);
    if n2 <= n1 {
      assert s1[..n2] == x[..n2] && s2[..n2] == y;
      var carry := BitsComplementLogor(s2, s1, s, n2);
      assert s[..n2] == s[..];
      LogorShort(x, y);
      r := FinishNegative(s, n2);
    } else {
      assert s1[..n1] == x && s2[..n1] == y[..n1] && s2[n1..n2] == y[n1..];
      var carry := BitsComplementLogor(s2, s1, s, n1);
      carry := BitsComplementCarry(s2, s, n1, n2, carry);
      assert s[..] == s[..n1] + s[n1..n2];
      LogorLong(x, y);
      ghost var t := s[..];
      assert s[0..n2] == t;
      NegatedBack(t);
      carry := BitsComplementCarry(s, s, 0, n2, 1);
      assert s[0..n2] == s[..n2];
      r := Normalize(n2, true, s);
    }
  }

  lemma LogorShort(x: seq<Limb>, y: seq<Limb>)
    requires CanonicalBig(true, y) && |y| <= |x|
    ensures var t := OrLimbs(Compl(y, 1), x[..|y|]);
            && IntOf(t, -1) == Or(IntOf(x, 0), -IntOf(y, 0))
            && exists i :: 0 <= i < |t| && t[i] != 0
  {
    hide And, Or, Compl, OrLimbs;
    var n, h := |y|, IntOf(x[|y|..], 0);
    BigPositive(true, y);
    NegatedSame(y);
    IntOfParts(x, n, 0);
    OrLimbsValue(Compl(y, 1), x[..n], -1, h);
    AndWithMinusOne(h);
    OrCommutes(IntOf(x, 0), -IntOf(y, 0));
    Bounds(y);
    OrAbove(-IntOf(y, 0), IntOf(x, 0));
    NotAllZero(OrLimbs(Compl(y, 1), x[..n]));
  }

  lemma LogorLong(x: seq<Limb>, y: seq<Limb>)
    requires CanonicalBig(true, y) && |x| <= |y|
    ensures var t := OrLimbs(Compl(y[..|x|], 1), x) + Compl(y[|x|..], CarryOut(y[..|x|], 1));
            && IntOf(t, -1) == Or(IntOf(x, 0), -IntOf(y, 0))
            && exists i :: 0 <= i < |t| && t[i] != 0
  {
    hide And, Or, Compl, OrLimbs;
    var n := |x|;
    var high := Compl(y[n..], CarryOut(y[..n], 1));
    var h := IntOf(high, -1);
    var t := OrLimbs(Compl(y[..n], 1), x) + high;
    BigPositive(true, y);
    NegatedSame(y);
    ComplPrefix(y, n);
    IntOfAppend(Compl(y[..n], 1), high, -1);
    OrLimbsValue(Compl(y[..n], 1), x, h, 0);
    AndWithMinusOne(h);
    IntOfAppend(OrLimbs(Compl(y[..n], 1), x), high, -1);
    OrCommutes(IntOf(x, 0), -IntOf(y, 0));
    Bounds(y);
    OrAbove(-IntOf(y, 0), IntOf(x, 0));
    NotAllZero(t);
  }

  method LogorPositives(x: seq<Limb>, y: seq<Limb>) returns (r: Num)
    requires CanonicalBig(false, x) && CanonicalBig(false, y)
    ensures Canonical(r) && Value(r) == Or(IntOf(x, 0), IntOf(y, 0))
  {
    var n1, n2 := |x|, |y|;
    var n := if n1 > n2 then n1 else n2;
    var s := new Limb[n](_ => 0);
    OrCommutes(IntOf(x, 0), IntOf(y, 0));
    if n == n1 {
      OrInto(s, x, y);
    } else {
      OrInto(s, y, x);
    }
    assert s[..n] == s[..];
    r := Normalize(n, false, s);
  }

  /** The two loops of the branch for two positive numbers, the longer one first. */
  method OrInto(s: array<Limb>, a: seq<Limb>, b: seq<Limb>)
    requires |b| <= |a| == s.Length
    modifies s
    ensures IntOf(s[..], 0) == Or(IntOf(a, 0), IntOf(b, 0))
  {
    var n := |b|;
    ghost var low := OrLimbs(a[..n], b);
    var i := 0;
    while i < n
      invariant i <= n && forall k :: 0 <= k < i ==> s[k] == low[k]
    {
      CombinedAt(a[..n], b, i);
      s[i] := Bor(a[i], b[i]);
      i := i + 1;
    }
    while i < |a|
      invariant n <= i <= |a| && (forall k :: 0 <= k < n ==> s[k] == low[k]) && forall k :: n <= k < i ==> s[k] == a[k]
    {
      s[i] := a[i];
      i := i + 1;
    }
    assert s[..] == low + a[n..];
    ghost var h := IntOf(a[n..], 0);
    IntOfParts(a, n, 0);
    OrLimbsValue(a[..n], b, h, 0);
    AndWithMinusOne(h);
    IntOfAppend(low, a[n..], 0);
  }
}
