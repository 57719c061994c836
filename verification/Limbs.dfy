/** Rows of 64-bit limbs, least significant first, and the loops that complement, combine and shift them. */
module Limbs {
  import opened Bits

  const B: int := 0x1_0000_0000_0000_0000
  type Limb = x: int | 0 <= x < B

  /** The integer whose low limbs are s, and which continues as top above them: 0 for a magnitude,
      -1 for a negative number in two's complement. */
  function IntOf(s: seq<Limb>, top: int): int {
    if s == [] then top else s[0] + B * IntOf(s[1..], top)
  }

  lemma {:induction false} IntOfAppend(s: seq<Limb>, t: seq<Limb>, top: int)
    ensures IntOf(s + t, top) == IntOf(s, IntOf(t, top))
  {
    if s == [] {
      assert s + t == t;
    } else {
      assert (s + t)[1..] == s[1..] + t;
      IntOfAppend(s[1..], t, top);
    }
  }

  lemma IntOfSnoc(s: seq<Limb>, d: Limb, top: int)
    ensures IntOf(s + [d], top) == IntOf(s, d + B * top)
  {
    IntOfAppend(s, [d], top);
  }

  function Zeros(n: nat): (s: seq<Limb>)
    ensures |s| == n && forall i {:trigger s[i]} :: 0 <= i < n ==> s[i] == 0
  {
    seq(n, _ => 0)
  }

  lemma {:induction false} IntOfZeros(n: nat)
    ensures IntOf(Zeros(n), 0) == 0
  {
    if n > 0 {
      assert Zeros(n)[1..] == Zeros(n - 1);
      IntOfZeros(n - 1);
    }
  }

  /** B to the power n. */
  function Power(n: nat): int {
    IntOf(Zeros(n), 1)
  }

  lemma PowerStep(n: nat)
    ensures Power(0) == 1 && Power(n + 1) == B * Power(n)
  {
    assert Zeros(n + 1)[1..] == Zeros(n);
  }

  lemma {:induction false} Bounds(s: seq<Limb>)
    ensures 0 <= IntOf(s, 0) < Power(|s|)
    decreases |s|
  {
    if s == [] {
      PowerStep(0);
    } else {
      Bounds(s[1..]);
      PowerStep(|s| - 1);
    }
  }

  /** A row of limbs with another continuation. */
  lemma {:induction false} Shifted(s: seq<Limb>, top: int)
    ensures IntOf(s, top) == IntOf(s, 0) + Power(|s|) * top
    decreases |s|
  {
    if s == [] {
      PowerStep(0);
    } else {
      Shifted(s[1..], top);
      PowerStep(|s| - 1);
      Assoc(B, Power(|s| - 1), top);
    }
  }

  lemma Assoc(a: int, b: int, c: int)
    ensures a * (b * c) == (a * b) * c
  {
  }

  /** Rows of the same length denote the same integer only if they are the same. */
  lemma {:induction false} SameLimbs(s: seq<Limb>, t: seq<Limb>, top: int, top': int)
    requires |s| == |t| && IntOf(s, top) == IntOf(t, top')
    ensures s == t && top == top'
    decreases |s|
  {
    if s != [] {
      assert s[0] == t[0] && IntOf(s[1..], top) == IntOf(t[1..], top');
      SameLimbs(s[1..], t[1..], top, top');
      assert s == [s[0]] + s[1..] && t == [t[0]] + t[1..];
    }
  }

  // ---------- Complement with carry ----------

  /** One step of the complement loops: carry + ~d, truncated to a limb. */
  function ComplLimb(d: Limb, carry: int): Limb
    requires carry == 0 || carry == 1
  {
    (carry + (B - 1 - d)) % B
  }

  function NextCarry(d: Limb, carry: int): (c: int)
    requires carry == 0 || carry == 1
    ensures c == 0 || c == 1
  {
    if carry == 1 && d == 0 then 1 else 0
  }

  function Compl(s: seq<Limb>, carry: int): (r: seq<Limb>)
    requires carry == 0 || carry == 1
    ensures |r| == |s|
  {
    if s == [] then [] else [ComplLimb(s[0], carry)] + Compl(s[1..], NextCarry(s[0], carry))
  }

  function CarryOut(s: seq<Limb>, carry: int): (c: int)
    requires carry == 0 || carry == 1
    ensures c == 0 || c == 1
  {
    if s == [] then carry else CarryOut(s[1..], NextCarry(s[0], carry))
  }

  /** Complementing with carry 1 negates; with carry 0 it inverts the bits. What is carried out belongs to the
      limbs above. */
  lemma {:induction false} ComplValue(s: seq<Limb>, carry: int, top: int)
    requires carry == 0 || carry == 1
    ensures IntOf(Compl(s, carry), -1 - top + CarryOut(s, carry)) == -1 - IntOf(s, top) + carry
  {
    if s != [] {
      ComplValue(s[1..], NextCarry(s[0], carry), top);
      assert ComplLimb(s[0], carry) + B * NextCarry(s[0], carry) == carry + (B - 1 - s[0]);
    }
  }

  /** A carry goes all the way through only zeros. */
  lemma {:induction false} CarryOutIs(s: seq<Limb>, carry: int)
    requires carry == 0 || carry == 1
    ensures CarryOut(s, carry) == 1 <==> carry == 1 && forall i {:trigger s[i]} :: 0 <= i < |s| ==> s[i] == 0
  {
    if s != [] {
      CarryOutIs(s[1..], NextCarry(s[0], carry));
      assert forall i {:trigger s[i]} :: 1 <= i < |s| ==> s[i] == s[1..][i - 1];
    }
  }

  lemma {:induction false} CarryOutZero(s: seq<Limb>, carry: int)
    requires carry == 0 || carry == 1
    ensures CarryOut(s, carry) == 1 <==> carry == 1 && IntOf(s, 0) == 0
  {
    if s != [] {
      CarryOutZero(s[1..], NextCarry(s[0], carry));
      Bounds(s[1..]);
    }
  }

  lemma {:induction false} ComplAppend(s: seq<Limb>, t: seq<Limb>, carry: int)
    requires carry == 0 || carry == 1
    ensures Compl(s + t, carry) == Compl(s, carry) + Compl(t, CarryOut(s, carry))
    ensures CarryOut(s + t, carry) == CarryOut(t, CarryOut(s, carry))
    decreases |s|
  {
    if s == [] {
      assert s + t == t;
    } else {
      assert (s + t)[1..] == s[1..] + t;
      ComplAppend(s[1..], t, NextCarry(s[0], carry));
    }
  }

  // ---------- Combining limb by limb ----------

  lemma Pow8()
    ensures Pow2(4) == 16 && Pow2(8) == 256
  {
  }

  lemma BIsPow2()
    ensures B == Pow2(64)
  {
    hide Pow2;
    Pow8();
    PowAdd(8, 8);
    PowAdd(16, 16);
    PowAdd(32, 32);
  }

  lemma LimbAnd(x: Limb, y: Limb)
    ensures 0 <= And(x, y) < B && 0 <= Or(x, y) < B
  {
    BIsPow2();
    AndSplit(64, x, 0, y, 0);
    OrSplit(64, x, 0, y, 0);
  }

  /** The machine's & and | on limbs. */
  function Band(x: Limb, y: Limb): Limb {
    LimbAnd(x, y);
    And(x, y)
  }

  function Bor(x: Limb, y: Limb): Limb {
    LimbAnd(x, y);
    Or(x, y)
  }

  lemma AndLow(l: Limb, h: int, l': Limb, h': int)
    ensures And(l + B * h, l' + B * h') == Band(l, l') + B * And(h, h')
  {
    BIsPow2();
    AndSplit(64, l, h, l', h');
  }

  lemma OrLow64(l: Limb, h: int, l': Limb, h': int)
    ensures Or(l + B * h, l' + B * h') == Bor(l, l') + B * Or(h, h')
  {
    BIsPow2();
    OrSplit(64, l, h, l', h');
  }

  function AndLimbs(s: seq<Limb>, t: seq<Limb>): (r: seq<Limb>)
    requires |s| == |t|
    ensures |r| == |s|
  {
    if s == [] then [] else [Band(s[0], t[0])] + AndLimbs(s[1..], t[1..])
  }

  function OrLimbs(s: seq<Limb>, t: seq<Limb>): (r: seq<Limb>)
    requires |s| == |t|
    ensures |r| == |s|
  {
    if s == [] then [] else [Bor(s[0], t[0])] + OrLimbs(s[1..], t[1..])
  }

  /** Combining rows limb by limb combines the integers they denote. */
  lemma {:induction false} AndLimbsValue(s: seq<Limb>, t: seq<Limb>, top: int, top': int)
    requires |s| == |t|
    ensures IntOf(AndLimbs(s, t), And(top, top')) == And(IntOf(s, top), IntOf(t, top'))
    decreases |s|
  {
    if s != [] {
      AndLimbsValue(s[1..], t[1..], top, top');
      AndLow(s[0], IntOf(s[1..], top), t[0], IntOf(t[1..], top'));
    }
  }

  lemma {:induction false} OrLimbsValue(s: seq<Limb>, t: seq<Limb>, top: int, top': int)
    requires |s| == |t|
    ensures IntOf(OrLimbs(s, t), Or(top, top')) == Or(IntOf(s, top), IntOf(t, top'))
    decreases |s|
  {
    if s != [] {
      OrLimbsValue(s[1..], t[1..], top, top');
      OrLow64(s[0], IntOf(s[1..], top), t[0], IntOf(t[1..], top'));
    }
  }
}
