/** Exact integers: fixnums, and bignums as sign and magnitude. */
module Numbers {
  import opened Bits
  import opened Limbs

  // most_positive_fixnum and most_negative_fixnum (a magnitude): fx_shift is 3.
  const MOST_POSITIVE: int := 0x0FFF_FFFF_FFFF_FFFF
  const MOST_NEGATIVE: int := 0x1000_0000_0000_0000

  datatype Num = Fix(n: int) | Big(neg: bool, limbs: seq<Limb>)

  function Value(x: Num): int {
    match x
    case Fix(n) => n
    case Big(neg, limbs) => if neg then -IntOf(limbs, 0) else IntOf(limbs, 0)
  }

  /** What DEBUG_VERIFY_BIGNUM demands of a bignum: no leading zero limb, and too large for a fixnum. */
  predicate CanonicalBig(neg: bool, limbs: seq<Limb>) {
    && 0 < |limbs|
    && limbs[|limbs| - 1] != 0
    && (|limbs| == 1 ==> limbs[0] > if neg then MOST_NEGATIVE else MOST_POSITIVE)
  }

  predicate FitsFixnum(v: int) {
    -MOST_NEGATIVE <= v <= MOST_POSITIVE
  }

  predicate Canonical(x: Num) {
    match x
    case Fix(n) => FitsFixnum(n)
    case Big(neg, limbs) => CanonicalBig(neg, limbs)
  }

  /** The result of a function that may stop the program. */
  datatype Outcome = Ok(num: Num) | Abort

  /** DEBUG_VERIFY_BIGNUM */
  function Verified(x: Num): Outcome
    requires x.Big?
  {
    if CanonicalBig(x.neg, x.limbs) then Ok(x) else Abort
  }

  // ---------- Canonical numbers ----------

  lemma {:induction false} TopLimb(s: seq<Limb>)
    requires 0 < |s| && s[|s| - 1] != 0
    ensures Power(|s| - 1) <= IntOf(s, 0)
    decreases |s|
  {
    if |s| == 1 {
      PowerStep(0);
    } else {
      TopLimb(s[1..]);
      PowerStep(|s| - 2);
    }
  }

  lemma {:induction false} PowerGrows(m: nat, n: nat)
    requires m <= n
    ensures 1 <= Power(m) <= Power(n)
    decreases n
  {
    if m < n {
      PowerGrows(m, n - 1);
      PowerStep(n - 1);
    } else if n > 0 {
      PowerGrows(m - 1, n - 1);
      PowerStep(n - 1);
    } else {
      PowerStep(0);
    }
  }

  /** A number is a fixnum exactly when it fits. */
  lemma BigDoesNotFit(x: Num)
    requires Canonical(x)
    ensures x.Fix? <==> FitsFixnum(Value(x))
    ensures x.Big? ==> (x.neg <==> Value(x) < 0)
  {
    if x.Big? {
      TopLimb(x.limbs);
      if |x.limbs| == 1 {
        assert x.limbs[1..] == [];
      } else {
        PowerGrows(1, |x.limbs| - 1);
        PowerStep(0);
      }
    }
  }

  /** Canonical numbers with the same value are the same number. */
  lemma CanonicalUnique(x: Num, y: Num)
    requires Canonical(x) && Canonical(y) && Value(x) == Value(y)
    ensures x == y
  {
    BigDoesNotFit(x);
    BigDoesNotFit(y);
    if x.Big? {
      SameLength(x.limbs, y.limbs);
      SameLimbs(x.limbs, y.limbs, 0, 0);
    }
  }

  lemma SameLength(s: seq<Limb>, t: seq<Limb>)
    requires 0 < |s| && s[|s| - 1] != 0 && 0 < |t| && t[|t| - 1] != 0 && IntOf(s, 0) == IntOf(t, 0)
    ensures |s| == |t|
  {
    Bounds(s);
    Bounds(t);
    TopLimb(s);
    TopLimb(t);
    if |s| < |t| { PowerGrows(|s|, |t| - 1); } else if |t| < |s| { PowerGrows(|t|, |s| - 1); }
  }

  // ---------- Normalization ----------

  /** The data area of a bignum. */
  method Data(limbs: seq<Limb>) returns (p: array<Limb>)
    ensures fresh(p) && p[..] == limbs
  {
    p := new Limb[|limbs|](i requires 0 <= i < |limbs| => limbs[i]);
  }

  lemma DropZero(s: seq<Limb>, n: nat)
    requires 0 < n <= |s| && s[n - 1] == 0
    ensures IntOf(s[..n], 0) == IntOf(s[..n - 1], 0)
  {
    assert s[..n] == s[..n - 1] + [0];
    IntOfSnoc(s[..n - 1], 0, 0);
  }

  /** ik_normalize_bignum: leading zero limbs are dropped, and a number that fits becomes a fixnum. */
  method Normalize(count: nat, neg: bool, r: array<Limb>) returns (x: Num)
    requires 0 < count <= r.Length
    ensures Canonical(x)
    ensures Value(x) == if neg then -IntOf(r[..count], 0) else IntOf(r[..count], 0)
  {
    var limbs := count;
    while r[limbs - 1] == 0
      invariant 0 < limbs <= count && IntOf(r[..limbs], 0) == IntOf(r[..count], 0)
      decreases limbs
    {
      DropZero(r[..], limbs);
      assert r[..][..limbs] == r[..limbs] && r[..][..limbs - 1] == r[..limbs - 1];
      limbs := limbs - 1;
      if limbs == 0 {
        return Fix(0);
      }
    }
    if limbs == 1 {
      var last := r[0];
      assert r[..1] == [last] && IntOf([last], 0) == last;
      if !neg {
        if last <= MOST_POSITIVE {
          return Fix(last);
        }
      } else if last <= MOST_NEGATIVE {
        return Fix(-last);
      }
    }
    x := Big(neg, r[..limbs]);
  }
}
