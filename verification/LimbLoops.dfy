/** The loops over limb arrays. Most of them may be run in place, with the source as the destination. */
module LimbLoops {
  import opened Bits
  import opened Limbs

  lemma {:induction false} ComplAt(s: seq<Limb>, i: nat, carry: int)
    requires i < |s| && (carry == 0 || carry == 1)
    ensures Compl(s, carry)[i] == ComplLimb(s[i], CarryOut(s[..i], carry))
    ensures CarryOut(s[..i + 1], carry) == NextCarry(s[i], CarryOut(s[..i], carry))
  {
    if i > 0 {
      ComplAt(s[1..], i - 1, NextCarry(s[0], carry));
      assert s[..i][1..] == s[1..][..i - 1] && s[..i + 1][1..] == s[1..][..i];
    }
  }

  /** bits_complement_carry: limbs n1 to n2. */
  method BitsComplementCarry(src: array<Limb>, dst: array<Limb>, n1: nat, n2: nat, carry0: int) returns (carry: int)
    requires n1 <= n2 <= src.Length && n2 <= dst.Length && (carry0 == 0 || carry0 == 1)
    modifies dst
    ensures dst[n1..n2] == Compl(old(src[n1..n2]), carry0) && carry == CarryOut(old(src[n1..n2]), carry0)
    ensures dst[..n1] == old(dst[..n1]) && dst[n2..] == old(dst[n2..])
  {
    ghost var s := src[n1..n2];
    ghost var c := Compl(s, carry0);
    carry := carry0;
    var i := n1;
    assert s[..0] == [] && s[..n2 - n1] == s;
    while i < n2
      invariant n1 <= i <= n2 && (carry == 0 || carry == 1) && carry == CarryOut(s[..i - n1], carry0)
      invariant forall k :: i <= k < n2 ==> src[k] == s[k - n1]
      invariant forall k :: n1 <= k < i ==> dst[k] == c[k - n1]
      invariant forall k :: 0 <= k < n1 || n2 <= k < dst.Length ==> dst[k] == old(dst[k])
    {
      var d := src[i];
      ComplAt(s, i - n1, carry0);
      dst[i] := ComplLimb(d, carry);
      carry := NextCarry(d, carry);
      i := i + 1;
    }
  }

  /** bits_complement */
  method BitsComplement(src: array<Limb>, dst: array<Limb>, n: nat)
    requires n <= src.Length && n <= dst.Length
    modifies dst
    ensures dst[..n] == Compl(old(src[..n]), 1) && dst[n..] == old(dst[n..])
  {
    BitsComplementWithCarry(src, 0, dst, n, 1);
  }

  /** bits_complement_with_carry: n limbs from off on. */
  method BitsComplementWithCarry(src: array<Limb>, off: nat, dst: array<Limb>, n: nat, carry0: int)
    requires off + n <= src.Length && n <= dst.Length && (carry0 == 0 || carry0 == 1)
    requires src != dst || off == 0
    modifies dst
    ensures dst[..n] == Compl(old(src[off..off + n]), carry0) && dst[n..] == old(dst[n..])
  {
    ghost var s := src[off..off + n];
    ghost var c := Compl(s, carry0);
    var carry := carry0;
    var i := 0;
    assert s[..0] == [];
    while i < n
      invariant i <= n && (carry == 0 || carry == 1) && carry == CarryOut(s[..i], carry0)
      invariant forall k :: i <= k < n ==> src[off + k] == s[k]
      invariant forall k :: 0 <= k < i ==> dst[k] == c[k]
      invariant forall k :: n <= k < dst.Length ==> dst[k] == old(dst[k])
    {
      var d := src[off + i];
      ComplAt(s, i, carry0);
      dst[i] := ComplLimb(d, carry);
      carry := NextCarry(d, carry);
      i := i + 1;
    }
  }

  /** bits_complement2: the n1 limbs of src, continued by zeros up to n2. */
  method BitsComplement2(src: array<Limb>, dst: array<Limb>, n1: nat, n2: nat)
    requires n1 <= n2 <= dst.Length && n1 <= src.Length
    modifies dst
    ensures dst[..n2] == Compl(old(src[..n1]) + Zeros(n2 - n1), 1) && dst[n2..] == old(dst[n2..])
  {
    ghost var s := src[..n1] + Zeros(n2 - n1);
    ghost var c := Compl(s, 1);
    var carry := 1;
    var i := 0;
    assert s[..0] == [];
    while i < n1
      invariant i <= n1 && (carry == 0 || carry == 1) && carry == CarryOut(s[..i], 1)
      invariant forall k :: i <= k < n1 ==> src[k] == s[k]
      invariant forall k :: 0 <= k < i ==> dst[k] == c[k]
      invariant forall k :: n2 <= k < dst.Length ==> dst[k] == old(dst[k])
    {
      var d := src[i];
      ComplAt(s, i, 1);
      dst[i] := ComplLimb(d, carry);
      carry := NextCarry(d, carry);
      i := i + 1;
    }
    while i < n2
      invariant n1 <= i <= n2 && (carry == 0 || carry == 1) && carry == CarryOut(s[..i], 1)
      invariant forall k :: 0 <= k < i ==> dst[k] == c[k]
      invariant forall k :: n2 <= k < dst.Length ==> dst[k] == old(dst[k])
    {
      ComplAt(s, i, 1);
      dst[i] := ComplLimb(0, carry);
      carry := NextCarry(0, carry);
      i := i + 1;
    }
  }

  lemma {:induction false} CombinedAt(s: seq<Limb>, t: seq<Limb>, i: nat)
    requires |s| == |t| && i < |s|
    ensures AndLimbs(s, t)[i] == Band(s[i], t[i]) && OrLimbs(s, t)[i] == Bor(s[i], t[i])
  {
    if i > 0 { CombinedAt(s[1..], t[1..], i - 1); }
  }

  /** bits_complement_logand: the complement of s1, and s2; s2 may be the destination. */
  method BitsComplementLogand(s1: array<Limb>, s2: array<Limb>, dst: array<Limb>, n: nat)
    requires n <= s1.Length && n <= s2.Length && n <= dst.Length
    modifies dst
    ensures dst[..n] == AndLimbs(Compl(old(s1[..n]), 1), old(s2[..n])) && dst[n..] == old(dst[n..])
  {
    ghost var s, t := s1[..n], s2[..n];
    ghost var c := Compl(s, 1);
    var carry := 1;
    var i := 0;
    assert s[..0] == [];
    while i < n
      invariant i <= n && (carry == 0 || carry == 1) && carry == CarryOut(s[..i], 1)
      invariant forall k :: i <= k < n ==> s1[k] == s[k] && s2[k] == t[k]
      invariant forall k :: 0 <= k < i ==> dst[k] == AndLimbs(c, t)[k]
      invariant forall k :: n <= k < dst.Length ==> dst[k] == old(dst[k])
    {
      var d := s1[i];
      ComplAt(s, i, 1);
      CombinedAt(c, t, i);
      dst[i] := Band(ComplLimb(d, carry), s2[i]);
      carry := NextCarry(d, carry);
      i := i + 1;
    }
  }

  /** bits_complement_logor */
  method BitsComplementLogor(s1: array<Limb>, s2: array<Limb>, dst: array<Limb>, n: nat) returns (carry: int)
    requires n <= s1.Length && n <= s2.Length && n <= dst.Length
    modifies dst
    ensures dst[..n] == OrLimbs(Compl(old(s1[..n]), 1), old(s2[..n])) && dst[n..] == old(dst[n..])
    ensures carry == CarryOut(old(s1[..n]), 1)
  {
    ghost var s, t := s1[..n], s2[..n];
    ghost var c := Compl(s, 1);
    carry := 1;
    var i := 0;
    assert s[..0] == [] && s[..n] == s;
    while i < n
      invariant i <= n && (carry == 0 || carry == 1) && carry == CarryOut(s[..i], 1)
      invariant forall k :: i <= k < n ==> s1[k] == s[k] && s2[k] == t[k]
      invariant forall k :: 0 <= k < i ==> dst[k] == OrLimbs(c, t)[k]
      invariant forall k :: n <= k < dst.Length ==> dst[k] == old(dst[k])
    {
      var d := s1[i];
      ComplAt(s, i, 1);
      CombinedAt(c, t, i);
      dst[i] := Bor(ComplLimb(d, carry), s2[i]);
      carry := NextCarry(d, carry);
      i := i + 1;
    }
  }

  /** copy_limbs */
  method CopyLimbs(src: array<Limb>, dst: array<Limb>, n1: nat, n2: nat)
    requires n1 <= n2 <= src.Length && n2 <= dst.Length && src != dst
    modifies dst
    ensures dst[n1..n2] == src[n1..n2] && dst[..n1] == old(dst[..n1]) && dst[n2..] == old(dst[n2..])
  {
    var i := n1;
    while i < n2
      invariant n1 <= i <= n2 && dst[n1..i] == src[n1..i]
      invariant dst[..n1] == old(dst[..n1]) && dst[n2..] == old(dst[n2..])
    {
      dst[i] := src[i];
      i := i + 1;
    }
  }

  /** bits_carry: whether all of the n limbs are zero. */
  method BitsCarry(s: array<Limb>, n: nat) returns (carry: int)
    requires n <= s.Length
    ensures carry == CarryOut(s[..n], 1)
  {
    CarryOutIs(s[..n], 1);
    var i := 0;
    while i < n
      invariant i <= n && forall k :: 0 <= k < i ==> s[k] == 0
    {
      if s[i] != 0 {
        assert s[..n][i] != 0;
        return 0;
      }
      i := i + 1;
    }
    return 1;
  }
}
