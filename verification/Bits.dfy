/** Integers as infinite rows of bits in two's complement, and the logical operations on them. */
module Bits {

  /** Bit i of z: the specification of the logical operations and of the shifts. */
  predicate Bit(z: int, i: nat)
    decreases i
  {
    if i == 0 then z % 2 == 1 else Bit(z / 2, i - 1)
  }

  function Abs(z: int): nat {
    if z < 0 then -z else z
  }

  function And(x: int, y: int): int
    decreases Abs(x) + Abs(y)
  {
    if x == 0 || y == 0 then 0
    else if x == -1 then y
    else if y == -1 then x
    else 2 * And(x / 2, y / 2) + (if x % 2 == 1 && y % 2 == 1 then 1 else 0)
  }

  function Not(x: int): int {
    -1 - x
  }

  function Or(x: int, y: int): int {
    Not(And(Not(x), Not(y)))
  }

  // ---------- The operations are the bitwise ones ----------

  /** One step down the row of bits. */
  lemma AndStep(x: int, y: int)
    ensures And(x, y) / 2 == And(x / 2, y / 2)
    ensures And(x, y) % 2 == if x % 2 == 1 && y % 2 == 1 then 1 else 0
  {
  }

  lemma {:induction false} AndBit(x: int, y: int, i: nat)
    ensures Bit(And(x, y), i) <==> Bit(x, i) && Bit(y, i)
    decreases i
  {
    AndStep(x, y);
    if i > 0 { AndBit(x / 2, y / 2, i - 1); }
  }

  lemma {:induction false} NotBit(x: int, i: nat)
    ensures Bit(Not(x), i) <==> !Bit(x, i)
    decreases i
  {
    assert Not(x) / 2 == Not(x / 2) && Not(x) % 2 == 1 - x % 2;
    if i > 0 { NotBit(x / 2, i - 1); }
  }

  lemma OrBit(x: int, y: int, i: nat)
    ensures Bit(Or(x, y), i) <==> Bit(x, i) || Bit(y, i)
  {
    NotBit(x, i);
    NotBit(y, i);
    AndBit(Not(x), Not(y), i);
    NotBit(And(Not(x), Not(y)), i);
  }

  /** An integer is determined by its bits. */
  lemma {:induction false} SameBits(x: int, y: int)
    requires forall i: nat {:trigger Bit(x, i)} {:trigger Bit(y, i)} :: Bit(x, i) == Bit(y, i)
    ensures x == y
    decreases Abs(x) + Abs(y)
  {
    assert Bit(x, 0) == Bit(y, 0);
    if x == y {
    } else if Abs(x / 2) + Abs(y / 2) < Abs(x) + Abs(y) {
      forall i: nat ensures Bit(x / 2, i) == Bit(y / 2, i) { assert Bit(x, i + 1) == Bit(y, i + 1); }
      SameBits(x / 2, y / 2);
    }
  }

  /** A number that is not negative keeps at most its own bits. */
  lemma {:induction false} AndBelow(x: int, y: int)
    requires x >= 0
    ensures 0 <= And(x, y) <= x
    decreases Abs(x) + Abs(y)
  {
    if x != 0 && y != 0 && x != -1 && y != -1 {
      AndBelow(x / 2, y / 2);
    }
  }

  lemma OrAbove(x: int, y: int)
    requires x < 0
    ensures x <= Or(x, y) < 0
  {
    AndBelow(Not(x), Not(y));
  }

  lemma {:induction false} AndCommutes(x: int, y: int)
    ensures And(x, y) == And(y, x)
    decreases Abs(x) + Abs(y)
  {
    if x != 0 && y != 0 && x != -1 && y != -1 {
      AndCommutes(x / 2, y / 2);
    }
  }

  // ---------- Low and high parts ----------

  function Pow2(n: nat): (p: nat)
    ensures p > 0
  {
    if n == 0 then 1 else 2 * Pow2(n - 1)
  }

  /** The low n bits and the bits above them are combined separately. */
  lemma {:induction false} AndSplit(n: nat, l: int, h: int, l': int, h': int)
    requires 0 <= l < Pow2(n) && 0 <= l' < Pow2(n)
    ensures And(l + Pow2(n) * h, l' + Pow2(n) * h') == And(l, l') + Pow2(n) * And(h, h')
    ensures 0 <= And(l, l') < Pow2(n)
    decreases n
  {
    AndBelow(l, l');
    if n == 0 {
      assert Pow2(0) * h == h && Pow2(0) * h' == h' && Pow2(0) * And(h, h') == And(h, h');
    } else {
      hide And;
      Halve(n, l, h);
      Halve(n, l', h');
      AndSplit(n - 1, l / 2, h, l' / 2, h');
      AndStep(l + Pow2(n) * h, l' + Pow2(n) * h');
      AndStep(l, l');
      FromHalves(And(l + Pow2(n) * h, l' + Pow2(n) * h'), And(l, l'), Pow2(n - 1) * And(h, h'));
      Double(Pow2(n - 1), And(h, h'));
    }
  }

  lemma FromHalves(r: int, a: int, t: int)
    requires r / 2 == a / 2 + t && r % 2 == a % 2
    ensures r == a + 2 * t
  {
  }

  lemma Double(p: int, q: int)
    ensures 2 * (p * q) == (2 * p) * q
  {
  }

  lemma Halve(n: nat, l: int, h: int)
    requires n > 0 && 0 <= l < Pow2(n)
    ensures 0 <= l / 2 < Pow2(n - 1)
    ensures (l + Pow2(n) * h) / 2 == l / 2 + Pow2(n - 1) * h && (l + Pow2(n) * h) % 2 == l % 2
  {
    Double(Pow2(n - 1), h);
    assert Pow2(n) * h == 2 * (Pow2(n - 1) * h);
  }

  lemma OrSplit(n: nat, l: int, h: int, l': int, h': int)
    requires 0 <= l < Pow2(n) && 0 <= l' < Pow2(n)
    ensures Or(l + Pow2(n) * h, l' + Pow2(n) * h') == Or(l, l') + Pow2(n) * Or(h, h')
    ensures 0 <= Or(l, l') < Pow2(n)
  {
    var p := Pow2(n);
    var m, m' := p - 1 - l, p - 1 - l';
    AndSplit(n, m, Not(h), m', Not(h'));
    NotSplit(p, l, h);
    NotSplit(p, l', h');
    OrLow(n, l, l');
    NotSplit(p, Or(l, l'), Or(h, h'));
  }

  lemma NotSplit(p: int, l: int, h: int)
    ensures Not(l + p * h) == (p - 1 - l) + p * Not(h)
  {
    assert p * Not(h) == -p - p * h;
  }

  lemma OrLow(n: nat, l: int, l': int)
    requires 0 <= l < Pow2(n) && 0 <= l' < Pow2(n)
    ensures And(Pow2(n) - 1 - l, Pow2(n) - 1 - l') == Pow2(n) - 1 - Or(l, l')
    ensures 0 <= Or(l, l') < Pow2(n)
  {
    var p := Pow2(n);
    AndSplit(n, p - 1 - l, -1, p - 1 - l', -1);
    assert And(-1, -1) == -1;
    assert (p - 1 - l) + p * -1 == Not(l) && (p - 1 - l') + p * -1 == Not(l');
  }

  // ---------- Shifts ----------

  lemma {:induction false} PowAdd(m: nat, n: nat)
    ensures Pow2(m + n) == Pow2(m) * Pow2(n)
    decreases n
  {
    if n > 0 {
      PowAdd(m, n - 1);
      Double2(Pow2(m), Pow2(n - 1));
    }
  }

  lemma Double2(p: int, q: int)
    ensures 2 * (p * q) == p * (2 * q)
  {
  }

  /** Shifting to the right is floor division, and moves every bit down. */
  lemma {:induction false} ShiftRightBit(z: int, k: nat, i: nat)
    ensures Bit(z / Pow2(k), i) == Bit(z, i + k)
    decreases k
  {
    if k > 0 {
      ShiftRightBit(z / 2, k - 1, i);
      DivTwice(z, Pow2(k - 1));
    }
  }

  lemma DivTwice(z: int, p: nat)
    requires p > 0
    ensures z / (2 * p) == (z / 2) / p
  {
    var q, r := (z / 2) / p, (z / 2) % p;
    assert z / 2 == q * p + r;
    assert z == 2 * (q * p) + 2 * r + z % 2;
    Double2(q, p);
    DivUnique(z, 2 * p, q, 2 * r + z % 2);
  }

  lemma DivUnique(z: int, p: int, q: int, r: int)
    requires p > 0 && z == q * p + r && 0 <= r < p
    ensures z / p == q && z % p == r
  {
    var d := z / p - q;
    assert z == (z / p) * p + z % p;
    assert d * p == r - z % p by { assert d * p == (z / p) * p - q * p; }
    assert d >= 1 ==> d * p >= p;
    assert d <= -1 ==> d * p <= -p;
  }
}
