/** Base64, section 4 of RFC 4648. */
module Base64 {
  import opened Wrappers
  import opened Radix

  const PAD: bv8 := 61
  const GREATEST_FIXNUM: int := 0x0FFF_FFFF_FFFF_FFFF

  // ---------- The alphabet and the tables ----------

  /** The table of the encoder. */
  function Letter(x: bv8): bv8
    requires x < 64
  {
    if x < 26 then x + 65 else if x < 52 then x + 71 else if x < 62 then x - 4 else if x == 62 then 43 else 47
  }

  predicate IsLetter(c: bv8) {
    65 <= c <= 90 || 97 <= c <= 122 || 48 <= c <= 57 || c == 43 || c == 47
  }

  const BAD: bv8 := 0xFF

  /** The table of the decoder, and its test for characters from 128 on. The last slots of the first four rows of the
      table hold 0, so these characters are taken for an A. */
  function Digit(c: bv8): bv8 {
    if 65 <= c <= 90 then c - 65
    else if 97 <= c <= 122 then c - 71
    else if 48 <= c <= 57 then c + 4
    else if c == 43 then 62
    else if c == 47 then 63
    else if c == 9 || c == 19 || c == 29 || c == 39 then 0
    else BAD
  }

  lemma LetterDigit(x: bv8)
    requires x < 64
    ensures IsLetter(Letter(x)) && Digit(Letter(x)) == x && Letter(x) != PAD
  {
  }

  /** What the decoder accepts: the alphabet and four bytes more. */
  lemma DigitLetter(c: bv8)
    ensures Digit(c) != BAD <==> IsLetter(c) || c == 9 || c == 19 || c == 29 || c == 39
    ensures Digit(c) != BAD ==> Digit(c) < 64 && (Letter(Digit(c)) == c <==> IsLetter(c))
    ensures Digit(PAD) == BAD
  {
  }

  // ---------- The standard's groups ----------

  /** Three bytes as a group of 24 bits. */
  function Group(a: bv8, b: bv8, c: bv8): bv24 {
    ((a as bv24) << 16) | ((b as bv24) << 8) | (c as bv24)
  }

  /** The four sextets of a group, the most significant one first. */
  function Sextet(g: bv24, k: nat): (x: bv8)
    requires k < 4
    ensures x < 64
  {
    var s := if k == 0 then g >> 18 else if k == 1 then g >> 12 else if k == 2 then g >> 6 else g;
    (s & 63) as bv8
  }

  /** Up to three bytes become four letters, or fewer and padding. */
  function GroupEncoded(s: seq<bv8>): (r: seq<bv8>)
    requires s != []
    ensures |r| == 4
  {
    var g := Group(s[0], if |s| > 1 then s[1] else 0, if |s| > 2 then s[2] else 0);
    [Letter(Sextet(g, 0)), Letter(Sextet(g, 1)), if |s| > 1 then Letter(Sextet(g, 2)) else PAD, if |s| > 2 then Letter(Sextet(g, 3)) else PAD]
  }

  function First(s: seq<bv8>): seq<bv8> {
    if |s| <= 3 then s else s[..3]
  }

  function Rest(s: seq<bv8>): seq<bv8> {
    if |s| <= 3 then [] else s[3..]
  }

  /** The encoding of the standard, group by group. */
  function Encoded(s: seq<bv8>): (r: seq<bv8>)
    ensures |r| == (|s| + 2) / 3 * 4
    decreases |s|
  {
    if s == [] then [] else GroupEncoded(First(s)) + Encoded(Rest(s))
  }

  lemma EncoderBits(a: bv8, b: bv8, c: bv8)
    ensures var g := Group(a, b, c);
            && 63 & (a >> 2) == Sextet(g, 0) && 63 & ((a << 4) | (b >> 4)) == Sextet(g, 1)
            && 63 & ((b << 2) | (c >> 6)) == Sextet(g, 2) && 63 & ((b << 6) | c) == Sextet(g, 3)
  {
  }

  lemma PaddedBits(a: bv8, b: bv8)
    ensures 63 & (a << 4) == Sextet(Group(a, 0, 0), 1) && 63 & (b << 2) == Sextet(Group(a, b, 0), 2)
  {
  }

  /** The bytes that are encoded next. */
  lemma FirstAt(s: seq<bv8>, i: nat)
    requires i < |s|
    ensures First(s[i..]) == if |s| - i >= 3 then [s[i], s[i + 1], s[i + 2]] else if |s| - i == 2 then [s[i], s[i + 1]] else [s[i]]
  {
  }

  /** The body of the encoder's loop. */
  method EncodeGroup(input: seq<bv8>, i: nat, ou: array<bv8>, j: nat)
    requires i < |input| && j + 4 <= ou.Length
    modifies ou
    ensures ou[..j] == old(ou[..j]) && ou[j..j + 4] == GroupEncoded(First(input[i..]))
  {
    hide Group, Sextet, Letter, First;
    FirstAt(input, i);
    var left := |input| - i;
    var a := input[i];
    ou[j] := Letter(63 & (a >> 2));
    ou[j + 2] := PAD;
    ou[j + 3] := PAD;
    if left >= 3 {
      var b, c := input[i + 1], input[i + 2];
      EncoderBits(a, b, c);
      ou[j + 1] := Letter(63 & ((a << 4) | (b >> 4)));
      ou[j + 2] := Letter(63 & ((b << 2) | (c >> 6)));
      ou[j + 3] := Letter(63 & ((b << 6) | c));
    } else if left == 2 {
      var b := input[i + 1];
      EncoderBits(a, b, 0);
      PaddedBits(a, b);
      ou[j + 1] := Letter(63 & ((a << 4) | (b >> 4)));
      ou[j + 2] := Letter(63 & (b << 2));
    } else {
      EncoderBits(a, 0, 0);
      PaddedBits(a, 0);
      ou[j + 1] := Letter(63 & (a << 4));
    }
    assert ou[j..j + 4] == [ou[j], ou[j + 1], ou[j + 2], ou[j + 3]];
  }

  /** ikrt_bytevector_to_base64 */
  method Encode(input: seq<bv8>) returns (r: Option<seq<bv8>>)
    ensures r == if (|input| + 2) / 3 > (GREATEST_FIXNUM - 16) / 4 then None else Some(Encoded(input))
    ensures r.Some? ==> StandsFor(0, r.value, input)
  {
    hide GroupEncoded, Encoded, First, StandsFor;
    EncodedStandsFor(0, input);
    var n := |input|;
    var groups := n / 3 + if n % 3 != 0 then 1 else 0;
    assert groups == (n + 2) / 3;
    if (GREATEST_FIXNUM - 16) / 4 < groups {
      return None;
    }
    var length := (n / 3) * 4 + if n % 3 != 0 then 4 else 0;
    var ou := new bv8[length](_ => 0);
    var i, j := 0, 0;
    ghost var rest := input;
    assert input[0..] == input && ou[..0] + Encoded(input) == Encoded(input);
    while i < n
      invariant 0 <= i && 0 <= j && j + |Encoded(rest)| == length && rest == if i <= n then input[i..] else []
      invariant ou[..j] + Encoded(rest) == Encoded(input)
      decreases n - i
    {
      ghost var low := ou[..j];
      EncodedStep(low, rest);
      EncodeGroup(input, i, ou, j);
      assert ou[..j + 4] == low + ou[j..j + 4];
      assert Rest(rest) == if i + 3 <= n then input[i + 3..] else [];
      rest := Rest(rest);
      i, j := i + 3, j + 4;
    }
    EncodedNothing();
    assert rest == [] && ou[..j] + [] == ou[..];
    r := Some(ou[..]);
  }

  lemma EncodedStep(low: seq<bv8>, s: seq<bv8>)
    requires s != []
    ensures low + Encoded(s) == (low + GroupEncoded(First(s))) + Encoded(Rest(s))
    ensures |Encoded(s)| == 4 + |Encoded(Rest(s))|
  {
    hide GroupEncoded;
  }

  // ---------- The decoder ----------

  function Byte0(a: bv8, b: bv8): bv8 {
    (a << 2) | (b >> 4)
  }

  function Byte1(b: bv8, c: bv8): bv8 {
    (b << 4) | (c >> 2)
  }

  function Byte2(c: bv8, d: bv8): bv8 {
    (c << 6) | d
  }

  /** How many of the four characters the decoder looks at. */
  function Left(c: bv8, d: bv8): int {
    4 - (if d == PAD then 1 else 0) - (if c == PAD then 1 else 0)
  }

  /** What is written for four characters, or nothing if one of those looked at is not accepted. */
  function GroupDecoded(a: bv8, b: bv8, c: bv8, d: bv8): (r: Option<seq<bv8>>)
    ensures r.Some? ==> |r.value| == Left(c, d) - 1
  {
    var (A, B, C, D) := (Digit(a), Digit(b), Digit(c), Digit(d));
    if Left(c, d) == 4 then
      if A == BAD || B == BAD || C == BAD || D == BAD then None else Some([Byte0(A, B), Byte1(B, C), Byte2(C, D)])
    else if Left(c, d) == 3 then
      if A == BAD || B == BAD || C == BAD then None else Some([Byte0(A, B), Byte1(B, C)])
    else
      if A == BAD || B == BAD then None else Some([Byte0(A, B)])
  }

  /** What the decoder writes for the whole input, in its order. */
  function Written(s: seq<bv8>): (r: Option<seq<bv8>>)
    requires |s| % 4 == 0
  {
    if s == [] then Some([]) else
      var g := GroupDecoded(s[0], s[1], s[2], s[3]);
      var more := Written(s[4..]);
      if g.None? || more.None? then None else Some(g.value + more.value)
  }

  /** The length of the output as the decoder computes it from the end of the input. */
  function OutLength(s: seq<bv8>): nat
    requires |s| % 4 == 0
  {
    var n := |s|;
    if n == 0 then 0
    else if s[n - 1] == PAD then 3 * (n / 4) - (if s[n - 2] == PAD then 2 else 1)
    else 3 * (n / 4)
  }

  /** No group but the last is padded. */
  predicate PaddedAtEnd(s: seq<bv8>)
    requires |s| % 4 == 0
  {
    |s| <= 4 || (Left(s[2], s[3]) == 4 && PaddedAtEnd(s[4..]))
  }

  /** What is written fits into the output on any input, and fills it exactly when padding is at the end only. */
  lemma {:induction false} WrittenFits(s: seq<bv8>)
    requires |s| % 4 == 0 && Written(s).Some?
    ensures |Written(s).value| <= OutLength(s)
    ensures |Written(s).value| == OutLength(s) <==> PaddedAtEnd(s)
    decreases |s|
  {
    hide GroupDecoded;
    if s != [] {
      PadAlone(s[..4]);
      if |s| > 4 {
        WrittenFits(s[4..]);
        OutLengthNext(s[..4], s[4..]);
        assert s == s[..4] + s[4..];
      } else {
        NothingWritten(s[4..]);
      }
    }
  }

  /** A group with padding in the third place has it in the fourth, or is refused. */
  lemma PadAlone(t: seq<bv8>)
    requires |t| == 4
    ensures GroupDecoded(t[0], t[1], t[2], t[3]).Some? && t[2] == PAD ==> t[3] == PAD
  {
    DigitLetter(PAD);
  }

  /** The text AA==AAAA: its first group is padded, so four bytes are written into an output of six. */
  lemma PaddingBefore()
    ensures var s: seq<bv8> := [65, 65, PAD, PAD, 65, 65, 65, 65];
            !PaddedAtEnd(s) && Written(s) == Some([0, 0, 0, 0]) && OutLength(s) == 6
  {
    var s: seq<bv8> := [65, 65, PAD, PAD, 65, 65, 65, 65];
    assert s[4..] == [65, 65, 65, 65] && s[4..][4..] == [];
    assert GroupDecoded(65, 65, PAD, PAD) == Some([0]) && GroupDecoded(65, 65, 65, 65) == Some([0, 0, 0]);
    NothingWritten([]);
    assert Written(s[4..]).value == [0, 0, 0] + [] == [0, 0, 0];
    assert Written(s).value == [0] + [0, 0, 0] == [0, 0, 0, 0];
  }

  /** False, a bytevector, or a length that has wrapped around below zero. */
  datatype Decoding = False | Bytes(bytes: seq<bv8>) | Wrapped

  /** The body of the decoder's loop: how many bytes have been written at j, if the characters are accepted. */
  method DecodeGroup(input: seq<bv8>, i: nat, ou: array<bv8>, j: nat) returns (ok: bool, count: nat)
    requires i + 4 <= |input|
    requires var g := GroupDecoded(input[i], input[i + 1], input[i + 2], input[i + 3]); g.Some? ==> j + |g.value| <= ou.Length
    modifies ou
    ensures ok <==> GroupDecoded(input[i], input[i + 1], input[i + 2], input[i + 3]).Some?
    ensures ok ==> j + count <= ou.Length && ou[..j] == old(ou[..j])
                   && ou[j..j + count] == GroupDecoded(input[i], input[i + 1], input[i + 2], input[i + 3]).value
  {
    hide Digit, Byte0, Byte1, Byte2;
    var a, b, c, d := input[i], input[i + 1], input[i + 2], input[i + 3];
    var left := 4;
    if d == PAD { left := left - 1; }
    if c == PAD { left := left - 1; }
    count := left - 1;
    var A, B, C, D := Digit(a), Digit(b), Digit(c), Digit(d);
    if A == BAD || B == BAD || (left >= 3 && C == BAD) || (left == 4 && D == BAD) {
      return false, count;
    }
    ou[j] := Byte0(A, B);
    if left >= 3 {
      ou[j + 1] := Byte1(B, C);
    }
    if left == 4 {
      ou[j + 2] := Byte2(C, D);
    }
    ok := true;
  }

  /** ikrt_bytevector_from_base64. For an empty input the two bytes in front of the data are looked at: the end of the
      length word. What is not written keeps what was in memory. */
  method Decode(input: seq<bv8>, before1: bv8, before2: bv8) returns (r: Decoding)
    ensures r.Wrapped? <==> input == [] && before1 == PAD
    ensures !r.Wrapped? ==> (r.False? <==> |input| % 4 != 0 || !Readable(input))
    ensures r.Bytes? ==> |r.bytes| == OutLength(input) && Written(input).Some?
    ensures r.Bytes? ==> var s := Written(input).value; |s| <= |r.bytes| && r.bytes[..|s|] == s && Holds(input, s)
  {
    hide GroupDecoded, Written, Readable, Holds;
    var n := |input|;
    if n % 4 != 0 {
      return False;
    }
    WrittenHolds(input);
    var length := 3 * (n / 4);
    var last := if n == 0 then before1 else input[n - 1];
    if last == PAD {
      var secondLast := if n == 0 then before2 else input[n - 2];
      length := length - if secondLast == PAD then 2 else 1;
    }
    if length < 0 {
      return Wrapped;
    }
    assert length == OutLength(input);
    var ou := new bv8[length];
    var ok := DecodeGroups(input, ou);
    if !ok {
      return False;
    }
    r := Bytes(ou[..]);
  }

  /** The loop of the decoder. */
  method DecodeGroups(input: seq<bv8>, ou: array<bv8>) returns (ok: bool)
    requires |input| % 4 == 0 && ou.Length == OutLength(input)
    modifies ou
    ensures ok <==> Written(input).Some?
    ensures ok ==> var s := Written(input).value; |s| <= ou.Length && ou[..|s|] == s
  {
    hide GroupDecoded, Written, OutLength, Ahead;
    var n := |input|;
    RoomAtStart(n);
    var i, j := 0, 0;
    ghost var rest := input;
    assert input == [] ==> Written(input) == Some([]) by { NothingWritten(input); }
    PrefixNone(ou[..0], Written(input));
    while i < n
      invariant 0 <= i <= n && 0 <= j <= ou.Length && rest == input[i..] && |rest| % 4 == 0 && Ahead(n, i, j)
      invariant Written(input).None? <==> Written(rest).None?
      invariant Written(input).Some? ==> ou[..j] + Written(rest).value == Written(input).value
      decreases n - i
    {
      ghost var low := ou[..j];
      WrittenNext(low, rest);
      Room(input, i, j);
      var good, count := DecodeGroup(input, i, ou, j);
      assert rest[4..] == input[i + 4..];
      if !good {
        return false;
      }
      assert ou[..j + count] == low + ou[j..j + count];
      rest := rest[4..];
      i, j := i + 4, j + count;
    }
    NothingWritten(rest);
    assert ou[..j] + [] == ou[..j];
    ok := true;
  }

  lemma NothingWritten(s: seq<bv8>)
    ensures s == [] ==> Written(s) == Some([])
  {
  }

  lemma PrefixNone(low: seq<bv8>, w: Option<seq<bv8>>)
    ensures low == [] && w.Some? ==> low + w.value == w.value
  {
  }

  /** The group in front of the rest of the input. */
  lemma WrittenNext(low: seq<bv8>, rest: seq<bv8>)
    requires |rest| % 4 == 0 && rest != []
    ensures var g, more := GroupDecoded(rest[0], rest[1], rest[2], rest[3]), Written(rest[4..]);
            && (Written(rest).None? <==> g.None? || more.None?)
            && (Written(rest).Some? ==> low + Written(rest).value == (low + g.value) + more.value)
  {
    hide GroupDecoded;
  }

  /** Between the groups at i, with j bytes written: at most three for each group, while there are more groups. */
  predicate Ahead(n: nat, i: nat, j: nat) {
    i % 4 == 0 && (i < n ==> j <= 3 * (i / 4))
  }

  lemma RoomAtStart(n: nat)
    ensures Ahead(n, 0, 0)
  {
  }

  /** There is room for what is written for the group at i, on any input. */
  lemma Room(s: seq<bv8>, i: nat, j: nat)
    requires |s| % 4 == 0 && i < |s| && Ahead(|s|, i, j)
    ensures i + 4 <= |s|
    ensures var g := GroupDecoded(s[i], s[i + 1], s[i + 2], s[i + 3]); g.Some? ==>
              j + |g.value| <= OutLength(s) && Ahead(|s|, i + 4, j + |g.value|)
  {
    DigitLetter(PAD);
    assert (i + 4) / 4 == i / 4 + 1;
    if i + 4 < |s| {
      assert i / 4 + 2 <= |s| / 4;
    } else {
      assert i / 4 + 1 == |s| / 4;
    }
  }

  // ---------- Round trips ----------

  lemma DecoderBits(a: bv8, b: bv8, c: bv8)
    ensures var g := Group(a, b, c);
            && Byte0(Sextet(g, 0), Sextet(g, 1)) == a && Byte1(Sextet(g, 1), Sextet(g, 2)) == b && Byte2(Sextet(g, 2), Sextet(g, 3)) == c
  {
  }

  lemma GroupRoundTrip(s: seq<bv8>)
    requires 0 < |s| <= 3
    ensures var t := GroupEncoded(s); GroupDecoded(t[0], t[1], t[2], t[3]) == Some(s) && (t[3] == PAD <==> |s| < 3) && (t[2] == PAD <==> |s| < 2)
  {
    hide Group, Sextet, Letter, Digit, Byte0, Byte1, Byte2;
    var b, c := if |s| > 1 then s[1] else 0, if |s| > 2 then s[2] else 0;
    DecoderBits(s[0], b, c);
    GroupDigits(Group(s[0], b, c));
    assert s == if |s| == 1 then [s[0]] else if |s| == 2 then [s[0], s[1]] else [s[0], s[1], s[2]];
  }

  lemma GroupDigits(g: bv24)
    ensures forall k {:trigger Sextet(g, k)} :: 0 <= k < 4 ==> Letter(Sextet(g, k)) != PAD && Digit(Letter(Sextet(g, k))) == Sextet(g, k) != BAD
  {
    hide Letter, Digit;
    forall k | 0 <= k < 4 ensures Letter(Sextet(g, k)) != PAD && Digit(Letter(Sextet(g, k))) == Sextet(g, k) != BAD {
      LetterDigit(Sextet(g, k));
    }
  }

  lemma WrittenStep(t: seq<bv8>, rest: seq<bv8>)
    requires |t| == 4 && |rest| % 4 == 0
    ensures var g, more := GroupDecoded(t[0], t[1], t[2], t[3]), Written(rest);
            Written(t + rest) == if g.None? || more.None? then None else Some(g.value + more.value)
  {
    assert (t + rest)[4..] == rest;
  }

  lemma OutLengthNext(t: seq<bv8>, more: seq<bv8>)
    requires |t| == 4 && |more| % 4 == 0 && more != []
    ensures OutLength(t + more) == 3 + OutLength(more)
  {
    var e := t + more;
    assert e[|e| - 1] == more[|more| - 1] && e[|e| - 2] == more[|more| - 2];
    assert |e| / 4 == 1 + |more| / 4;
  }

  lemma FirstThenRest(s: seq<bv8>)
    requires s != []
    ensures First(s) + Rest(s) == s && 0 < |First(s)| <= 3 && |Rest(s)| < |s| && (Rest(s) != [] ==> |First(s)| == 3)
  {
  }

  /** Decoding what was encoded gives it back, and fills the output. */
  lemma {:induction false} RoundTrip(s: seq<bv8>)
    ensures Written(Encoded(s)) == Some(s) && OutLength(Encoded(s)) == |s|
    decreases |s|
  {
    hide GroupEncoded, GroupDecoded, Written, First, Rest;
    if s == [] {
      NothingWritten([]);
    } else {
      FirstThenRest(s);
      var t, more := GroupEncoded(First(s)), Encoded(Rest(s));
      GroupRoundTrip(First(s));
      RoundTrip(Rest(s));
      WrittenStep(t, more);
      hide OutLength;
      if Rest(s) == [] {
        assert t + more == t;
      } else {
        OutLengthNext(t, more);
      }
    }
  }

  /** The texts that the encoder writes: letters, padding in the last group only, and no bits that are not used. */
  predicate Strict(s: seq<bv8>)
    requires |s| % 4 == 0
  {
    s == [] ||
    (IsLetter(s[0]) && IsLetter(s[1]) &&
     ((IsLetter(s[2]) && IsLetter(s[3]) && Strict(s[4..]))
      || (|s| == 4 && IsLetter(s[2]) && s[3] == PAD && Digit(s[2]) & 3 == 0)
      || (|s| == 4 && s[2] == PAD && s[3] == PAD && Digit(s[1]) & 15 == 0)))
  }

  lemma RecodedBits(a: bv8, b: bv8, c: bv8, d: bv8)
    requires a < 64 && b < 64 && c < 64 && d < 64
    ensures var g := Group(Byte0(a, b), Byte1(b, c), Byte2(c, d));
            Sextet(g, 0) == a && Sextet(g, 1) == b && Sextet(g, 2) == c && Sextet(g, 3) == d
  {
  }

  lemma RecodedPadded(a: bv8, b: bv8, c: bv8)
    requires a < 64 && b < 64 && c < 64
    ensures c & 3 == 0 ==> var g := Group(Byte0(a, b), Byte1(b, c), 0); Sextet(g, 0) == a && Sextet(g, 1) == b && Sextet(g, 2) == c
    ensures b & 15 == 0 ==> var g := Group(Byte0(a, b), 0, 0); Sextet(g, 0) == a && Sextet(g, 1) == b
  {
  }

  lemma UnusedBits(a: bv8, b: bv8)
    ensures Sextet(Group(a, b, 0), 2) & 3 == 0 && Sextet(Group(a, 0, 0), 1) & 15 == 0
  {
  }

  lemma {:induction false} EncodedIsStrict(s: seq<bv8>)
    ensures Strict(Encoded(s))
    decreases |s|
  {
    hide Group, Sextet, Letter, Digit, IsLetter;
    if s != [] {
      var f := First(s);
      var g := Group(f[0], if |f| > 1 then f[1] else 0, if |f| > 2 then f[2] else 0);
      var t, more := GroupEncoded(f), Encoded(Rest(s));
      LetterDigit(Sextet(g, 0));
      LetterDigit(Sextet(g, 1));
      LetterDigit(Sextet(g, 2));
      LetterDigit(Sextet(g, 3));
      UnusedBits(f[0], if |f| > 1 then f[1] else 0);
      EncodedIsStrict(Rest(s));
      assert (t + more)[4..] == more;
    }
  }

  /** A group of a strict text is the encoding of what it decodes to. */
  lemma StrictGroup(a: bv8, b: bv8, c: bv8, d: bv8)
    requires IsLetter(a) && IsLetter(b)
    requires (IsLetter(c) && IsLetter(d)) || (IsLetter(c) && d == PAD && Digit(c) & 3 == 0) || (c == PAD && d == PAD && Digit(b) & 15 == 0)
    ensures var g := GroupDecoded(a, b, c, d); g.Some? && GroupEncoded(g.value) == [a, b, c, d]
  {
    hide Group, Sextet, Letter, Digit, IsLetter, Byte0, Byte1, Byte2;
    DigitLetter(a);
    DigitLetter(b);
    DigitLetter(c);
    DigitLetter(d);
    NotPad(c);
    NotPad(d);
    var x := if c == PAD then 0 else Digit(c);
    RecodedBits(Digit(a), Digit(b), x, if d == PAD then 0 else Digit(d));
    RecodedPadded(Digit(a), Digit(b), x);
  }

  lemma EncodedNext(g: seq<bv8>, rest: seq<bv8>)
    requires 0 < |g| <= 3 && (|g| < 3 ==> rest == [])
    ensures Encoded(g + rest) == GroupEncoded(g) + Encoded(rest)
  {
    hide GroupEncoded;
    assert First(g + rest) == g && Rest(g + rest) == rest;
  }

  lemma {:induction false} StrictRecoded(s: seq<bv8>)
    requires |s| % 4 == 0 && Strict(s)
    ensures Written(s).Some? && Encoded(Written(s).value) == s
    decreases |s|
  {
    hide Encoded, GroupDecoded, GroupEncoded, Digit, IsLetter;
    if s == [] {
      EncodedNothing();
    } else {
      StrictGroup(s[0], s[1], s[2], s[3]);
      NotPad(s[2]);
      NotPad(s[3]);
      var g := GroupDecoded(s[0], s[1], s[2], s[3]).value;
      StrictRecoded(s[4..]);
      EncodedNext(g, Written(s[4..]).value);
      assert s == [s[0], s[1], s[2], s[3]] + s[4..];
    }
  }

  lemma EncodedNothing()
    ensures Encoded([]) == []
  {
  }

  lemma NotPad(c: bv8)
    ensures IsLetter(c) ==> c != PAD
  {
  }

  /** Encoding what was decoded gives the text back exactly when the text is one the encoder writes. */
  lemma RecodedIsStrict(s: seq<bv8>)
    requires |s| % 4 == 0
    ensures Written(s).Some? && Encoded(Written(s).value) == s <==> Strict(s)
  {
    if Strict(s) {
      StrictRecoded(s);
    } else if Written(s).Some? {
      EncodedIsStrict(Written(s).value);
    }
  }

  // ---------- The numbers that texts stand for ----------

  lemma LetterRank(x: bv8)
    requires x < 64
    ensures Rank(Letter(x)) == Int(x) >= 0
  {
  }

  /** How many letters stand for n bytes: one for every six bits, the last ones filled up. */
  function Letters(n: nat): nat {
    (8 * n + 5) / 6
  }

  /** By how much the bits that fill up the last letter make the number greater. */
  function Filling(n: nat): nat {
    if n % 3 == 0 then 1 else if n % 3 == 1 then 16 else 4
  }

  /** The text is padded to a multiple of four, and its letters are, as digits in base 64, the number that the bytes are in
      base 256, filled up; before stands for the digits in front. */
  ghost predicate StandsFor(before: int, t: seq<bv8>, s: seq<bv8>) {
    && |t| == 4 * ((|s| + 2) / 3) && Letters(|s|) <= |t|
    && (forall i {:trigger t[i]} :: 0 <= i < Letters(|s|) ==> Rank(t[i]) >= 0)
    && (forall i {:trigger t[i]} :: Letters(|s|) <= i < |t| ==> t[i] == '=' as bv8)
    && Number64(before, t[..Letters(|s|)]) == Number256(before, s) * Filling(|s|)
  }

  lemma FourDigits(before: int, t: seq<bv8>)
    requires |t| == 4
    ensures Number64(before, t[..2]) == 4096 * before + 64 * Rank(t[0]) + Rank(t[1])
    ensures Number64(before, t[..3]) == 262144 * before + 4096 * Rank(t[0]) + 64 * Rank(t[1]) + Rank(t[2])
    ensures Number64(before, t) == 16777216 * before + 262144 * Rank(t[0]) + 4096 * Rank(t[1]) + 64 * Rank(t[2]) + Rank(t[3])
  {
    hide Rank;
    var x := 64 * before + Rank(t[0]);
    var y := 64 * x + Rank(t[1]);
    var z := 64 * y + Rank(t[2]);
    TwoDigits(before, t[..2]);
    assert Number64(before, t[..3]) == Number64(x, t[..3][1..]) && t[..3][1..] == t[1..3];
    TwoDigits(x, t[1..3]);
    assert Number64(before, t) == Number64(x, t[1..]) == Number64(y, t[1..][1..]) && t[1..][1..] == t[2..];
    TwoDigits(y, t[2..]);
  }

  lemma TwoDigits(before: int, t: seq<bv8>)
    requires |t| == 2
    ensures Number64(before, t) == 4096 * before + 64 * Rank(t[0]) + Rank(t[1])
  {
    hide Rank;
    assert Number64(64 * before + Rank(t[0]), t[1..]) == Number64(64 * (64 * before + Rank(t[0])) + Rank(t[1]), t[1..][1..]);
  }

  lemma ThreeBytes(before: int, s: seq<bv8>)
    requires 0 < |s| <= 3
    ensures |s| == 1 ==> Number256(before, s) == 256 * before + Int(s[0])
    ensures |s| == 2 ==> Number256(before, s) == 65536 * before + 256 * Int(s[0]) + Int(s[1])
    ensures |s| == 3 ==> Number256(before, s) == 16777216 * before + 65536 * Int(s[0]) + 256 * Int(s[1]) + Int(s[2])
  {
    hide Int;
    var x := 256 * before + Int(s[0]);
    if |s| > 1 {
      var y := 256 * x + Int(s[1]);
      assert Number256(before, s) == Number256(x, s[1..]) == Number256(y, s[1..][1..]);
      assert s[1..][1..] == s[2..];
      if |s| > 2 { assert Number256(y, s[2..]) == Number256(256 * y + Int(s[2]), s[2..][1..]); }
    }
  }

  /** One group. */
  lemma GroupStandsFor(before: int, s: seq<bv8>)
    requires 0 < |s| <= 3
    ensures StandsFor(before, GroupEncoded(s), s)
  {
    hide Letter, Rank, Int, Sextet, Group, Number64, Number256;
    var a, b, c := s[0], if |s| > 1 then s[1] else 0, if |s| > 2 then s[2] else 0;
    var t, g := GroupEncoded(s), Group(a, b, c);
    EncoderBits(a, b, c);
    LetterRank(Sextet(g, 0));
    LetterRank(Sextet(g, 1));
    LetterRank(Sextet(g, 2));
    LetterRank(Sextet(g, 3));
    FourDigits(before, t);
    ThreeBytes(before, s);
    GroupSum(a, b, c);
    assert t[..4] == t;
  }

  lemma GroupSum(a: bv8, b: bv8, c: bv8)
    ensures var g := Group(a, b, c);
            262144 * Int(Sextet(g, 0)) + 4096 * Int(Sextet(g, 1)) + 64 * Int(Sextet(g, 2)) + Int(Sextet(g, 3)) == 65536 * Int(a) + 256 * Int(b) + Int(c)
    ensures c == 0 ==> Int(Sextet(Group(a, b, c), 3)) == 0 && Int(c) == 0
    ensures b == 0 && c == 0 ==> Int(Sextet(Group(a, b, c), 2)) == 0 && Int(b) == 0
  {
    EncoderBits(a, b, c);
    LastBits(a, b, c);
    Sextets(a, b, c);
  }

  lemma LastBits(a: bv8, b: bv8, c: bv8)
    ensures 63 & ((b << 6) | c) == 63 & c
    ensures c == 0 ==> Sextet(Group(a, b, c), 3) == 0
    ensures b == 0 && c == 0 ==> Sextet(Group(a, b, c), 2) == 0
  {
  }

  lemma ThreeMore(n: nat)
    ensures Letters(3) == 4 && Letters(n + 3) == 4 + Letters(n) && Filling(3) == 1 && Filling(n + 3) == Filling(n)
    ensures (n + 3 + 2) / 3 == 1 + (n + 2) / 3
  {
  }

  lemma StandsForMore(before: int, t: seq<bv8>, s: seq<bv8>, more: seq<bv8>, rest: seq<bv8>)
    requires |s| == 3 && StandsFor(before, t, s) && StandsFor(Number256(before, s), more, rest)
    ensures StandsFor(before, t + more, s + rest)
  {
    hide Rank, Number64, Number256, Letters, Filling;
    ThreeMore(|rest|);
    var n := Letters(|rest|);
    assert t[..4] == t;
    assert (t + more)[..4 + n] == t + more[..n];
    Append256(before, s, rest);
    Append64(before, t, more[..n]);
    forall i {:trigger (t + more)[i]} | 0 <= i < |t + more|
      ensures i < 4 + n ==> Rank((t + more)[i]) >= 0
      ensures 4 + n <= i ==> (t + more)[i] == '=' as bv8
    {
      if i >= 4 { assert (t + more)[i] == more[i - 4]; }
    }
  }

  /** The encoder's text stands for its input. */
  lemma {:induction false} EncodedStandsFor(before: int, s: seq<bv8>)
    ensures StandsFor(before, Encoded(s), s)
    decreases |s|
  {
    hide GroupEncoded, StandsFor;
    if s == [] {
      EncodedNothing();
      NothingStandsFor(before);
    } else if |s| <= 3 {
      EncodedNothing();
      assert GroupEncoded(First(s)) + Encoded(Rest(s)) == GroupEncoded(s);
      GroupStandsFor(before, s);
    } else {
      GroupStandsFor(before, s[..3]);
      EncodedStandsFor(Number256(before, s[..3]), s[3..]);
      assert s == s[..3] + s[3..];
      StandsForMore(before, GroupEncoded(s[..3]), s[..3], Encoded(s[3..]), s[3..]);
    }
  }

  lemma NothingStandsFor(before: int)
    ensures StandsFor(before, [], [])
  {
  }

  /** Four characters that the decoder takes for the letter A, because of the gaps in its table. */
  predicate Stray(c: bv8) {
    c == 9 || c == 19 || c == 29 || c == 39
  }

  function WithoutStrays(t: seq<bv8>): (r: seq<bv8>)
    ensures |r| == |t| && forall i {:trigger r[i]} :: 0 <= i < |r| ==> r[i] == if Stray(t[i]) then 'A' as bv8 else t[i]
  {
    seq(|t|, i requires 0 <= i < |t| => if Stray(t[i]) then 'A' as bv8 else t[i])
  }

  /** How many characters there are before the padding of a group. */
  function Unpadded(t: seq<bv8>): nat
    requires |t| == 4
  {
    4 - (if t[3] == '=' as bv8 then 1 else 0) - (if t[2] == '=' as bv8 then 1 else 0)
  }

  predicate GroupReadable(t: seq<bv8>)
    requires |t| == 4
  {
    forall i {:trigger t[i]} :: 0 <= i < Unpadded(t) ==> Rank(t[i]) >= 0 || Stray(t[i])
  }

  /** The bytes are the number that the characters are, without the bits that fill up the last one. */
  predicate GroupHolds(t: seq<bv8>, s: seq<bv8>)
    requires |t| == 4
  {
    var n := Unpadded(t);
    |s| == n - 1 && Number256(0, s) == Number64(0, WithoutStrays(t[..n])) / Filling(n - 1)
  }

  predicate Readable(t: seq<bv8>)
    requires |t| % 4 == 0
  {
    t == [] || (GroupReadable(t[..4]) && Readable(t[4..]))
  }

  /** The bytes are those of the groups, one group after the other. */
  ghost predicate Holds(t: seq<bv8>, s: seq<bv8>)
    requires |t| % 4 == 0
    decreases |t|
  {
    if t == [] then s == [] else
      var n := Unpadded(t[..4]);
      n - 1 <= |s| && GroupHolds(t[..4], s[..n - 1]) && Holds(t[4..], s[n - 1..])
  }

  lemma DigitRank(c: bv8)
    ensures Digit(c) != BAD <==> Rank(c) >= 0 || Stray(c)
    ensures Digit(c) != BAD ==> Digit(c) < 64 && Int(Digit(c)) == Rank(if Stray(c) then 'A' as bv8 else c)
  {
  }

  lemma GroupAccepted(t: seq<bv8>)
    requires |t| == 4
    ensures GroupDecoded(t[0], t[1], t[2], t[3]).Some? <==> GroupReadable(t)
  {
    hide Rank, Digit, Int, Stray, Byte0, Byte1, Byte2;
    DigitRank(t[0]);
    DigitRank(t[1]);
    DigitRank(t[2]);
    DigitRank(t[3]);
    assert Digit(PAD) == BAD by { DigitLetter(PAD); }
  }

  /** What the characters of a group are as numbers. */
  lemma GroupRanks(t: seq<bv8>)
    requires |t| == 4 && GroupReadable(t)
    ensures var n := Unpadded(t); var u := WithoutStrays(t[..n]);
            && 2 <= n && (n == 3 ==> t[2] != PAD)
            && (forall i {:trigger t[i]} {:trigger u[i]} :: 0 <= i < n ==> Digit(t[i]) < 64 && Digit(t[i]) != BAD && Rank(u[i]) == Int(Digit(t[i])))
  {
    hide Rank, Digit, Int, Stray;
    var n := Unpadded(t);
    DigitRank(PAD);
    DigitLetter(PAD);
    forall i {:trigger t[i]} | 0 <= i < n ensures Digit(t[i]) < 64 && Digit(t[i]) != BAD && Rank(WithoutStrays(t[..n])[i]) == Int(Digit(t[i])) {
      DigitRank(t[i]);
    }
  }

  lemma OneByte(t: seq<bv8>)
    requires |t| == 4 && GroupReadable(t) && Unpadded(t) == 2
    ensures GroupHolds(t, [Byte0(Digit(t[0]), Digit(t[1]))])
  {
    GroupRanks(t);
    hide GroupReadable, Rank, Digit, Int, Stray, Byte0, Number64, Number256;
    TwoDigits(0, WithoutStrays(t[..2]));
    ThreeBytes(0, [Byte0(Digit(t[0]), Digit(t[1]))]);
    GroupOctets(Digit(t[0]), Digit(t[1]), 0, 0);
  }

  lemma TwoBytes(t: seq<bv8>)
    requires |t| == 4 && GroupReadable(t) && Unpadded(t) == 3
    ensures GroupHolds(t, [Byte0(Digit(t[0]), Digit(t[1])), Byte1(Digit(t[1]), Digit(t[2]))])
  {
    GroupRanks(t);
    hide GroupReadable, Rank, Digit, Int, Stray, Byte0, Byte1, Number64, Number256;
    var u := WithoutStrays(t[..3]);
    FourDigits(0, u + [0]);
    assert (u + [0])[..3] == u;
    ThreeBytes(0, [Byte0(Digit(t[0]), Digit(t[1])), Byte1(Digit(t[1]), Digit(t[2]))]);
    GroupOctets(Digit(t[0]), Digit(t[1]), Digit(t[2]), 0);
  }

  lemma AllBytes(t: seq<bv8>)
    requires |t| == 4 && GroupReadable(t) && Unpadded(t) == 4
    ensures GroupHolds(t, [Byte0(Digit(t[0]), Digit(t[1])), Byte1(Digit(t[1]), Digit(t[2])), Byte2(Digit(t[2]), Digit(t[3]))])
  {
    GroupRanks(t);
    hide GroupReadable, Rank, Digit, Int, Stray, Byte0, Byte1, Byte2, Number64, Number256;
    FourDigits(0, WithoutStrays(t[..4]));
    ThreeBytes(0, [Byte0(Digit(t[0]), Digit(t[1])), Byte1(Digit(t[1]), Digit(t[2])), Byte2(Digit(t[2]), Digit(t[3]))]);
    GroupOctets(Digit(t[0]), Digit(t[1]), Digit(t[2]), Digit(t[3]));
  }

  /** One group, whatever its characters are. */
  lemma GroupDenotes(t: seq<bv8>)
    requires |t| == 4
    ensures var g := GroupDecoded(t[0], t[1], t[2], t[3]);
            && (g.Some? <==> GroupReadable(t))
            && (g.Some? ==> GroupHolds(t, g.value))
  {
    GroupAccepted(t);
    if GroupReadable(t) {
      DecodedAs(t);
      hide GroupReadable, GroupHolds, GroupDecoded;
      match Unpadded(t)
      case 2 => OneByte(t);
      case 3 => TwoBytes(t);
      case _ => AllBytes(t);
    }
  }

  lemma DecodedAs(t: seq<bv8>)
    requires |t| == 4 && GroupDecoded(t[0], t[1], t[2], t[3]).Some?
    ensures GroupDecoded(t[0], t[1], t[2], t[3]).value ==
              match Unpadded(t)
              case 2 => [Byte0(Digit(t[0]), Digit(t[1]))]
              case 3 => [Byte0(Digit(t[0]), Digit(t[1])), Byte1(Digit(t[1]), Digit(t[2]))]
              case _ => [Byte0(Digit(t[0]), Digit(t[1])), Byte1(Digit(t[1]), Digit(t[2])), Byte2(Digit(t[2]), Digit(t[3]))]
  {
    hide Digit, Byte0, Byte1, Byte2;
  }

  lemma GroupOctets(a: bv8, b: bv8, c: bv8, d: bv8)
    requires a < 64 && b < 64 && c < 64 && d < 64
    ensures 65536 * Int(Byte0(a, b)) + 256 * Int(Byte1(b, c)) + Int(Byte2(c, d)) == 262144 * Int(a) + 4096 * Int(b) + 64 * Int(c) + Int(d)
    ensures Int(Byte0(a, b)) == (64 * Int(a) + Int(b)) / 16
    ensures 256 * Int(Byte0(a, b)) + Int(Byte1(b, c)) == (4096 * Int(a) + 64 * Int(b) + Int(c)) / 4
  {
    IntRange(Byte1(b, c));
    IntRange(Byte2(c, d));
    IntRange(c);
    IntRange(d);
    hide Int;
    Octets(a, b, c, d);
  }

  lemma IntRange(x: bv8)
    ensures 0 <= Int(x) < 256 && (x < 64 ==> Int(x) < 64)
  {
  }

  /** The decoder accepts exactly the readable texts, and writes what they hold. */
  lemma {:induction false} WrittenHolds(t: seq<bv8>)
    requires |t| % 4 == 0
    ensures Written(t).Some? <==> Readable(t)
    ensures Written(t).Some? ==> Holds(t, Written(t).value)
    decreases |t|
  {
    hide GroupDecoded, GroupReadable, GroupHolds;
    if t != [] {
      var n := Unpadded(t[..4]);
      GroupDenotes(t[..4]);
      WrittenHolds(t[4..]);
      if Written(t).Some? {
        var g, more := GroupDecoded(t[0], t[1], t[2], t[3]).value, Written(t[4..]).value;
        assert (g + more)[..|g|] == g && (g + more)[|g|..] == more;
        assert |g| == n - 1;
      }
    }
  }

  lemma DigitsBefore(before: int, u: seq<bv8>)
    requires 2 <= |u| <= 4
    ensures Number64(before, u) == (if |u| == 4 then 16777216 else if |u| == 3 then 262144 else 4096) * before + Number64(0, u)
  {
    hide Number64, Rank;
    var v := if |u| == 4 then u else if |u| == 3 then u + [0] else u + [0, 0];
    assert v[..|u|] == u;
    FourDigits(before, v);
    FourDigits(0, v);
  }

  lemma BytesBefore(before: int, s: seq<bv8>)
    requires 1 <= |s| <= 3
    ensures Number256(before, s) == (if |s| == 3 then 16777216 else if |s| == 2 then 65536 else 256) * before + Number256(0, s)
  {
    hide Number256, Int;
    ThreeBytes(before, s);
    ThreeBytes(0, s);
  }

  lemma GroupHoldsBefore(before: int, t: seq<bv8>, s: seq<bv8>)
    requires |t| == 4 && GroupHolds(t, s)
    ensures |s| == Unpadded(t) - 1
    ensures Number256(before, s) == Number64(before, WithoutStrays(t[..Unpadded(t)])) / Filling(|s|)
  {
    hide Number64, Number256;
    var u := WithoutStrays(t[..Unpadded(t)]);
    DigitsBefore(before, u);
    BytesBefore(before, s);
    Floors(before, Number64(0, u));
  }

  lemma HoldsFirst(t: seq<bv8>, s: seq<bv8>)
    requires |t| % 4 == 0 && |t| > 4 && PaddedAtEnd(t) && Holds(t, s)
    ensures Unpadded(t[..4]) == 4 && 3 <= |s| && GroupHolds(t[..4], s[..3]) && Holds(t[4..], s[3..]) && PaddedAtEnd(t[4..])
  {
    hide GroupHolds;
  }

  /** Where only the last group is padded, the bytes are one number, and it is the one that the text stands for, without
      the bits that fill up the last letter. */
  lemma {:induction false} HoldsNumber(before: int, t: seq<bv8>, s: seq<bv8>)
    requires |t| % 4 == 0 && PaddedAtEnd(t) && Holds(t, s)
    ensures Letters(|s|) <= |t| && Number256(before, s) == Number64(before, WithoutStrays(t[..Letters(|s|)])) / Filling(|s|)
    decreases |t|
  {
    hide GroupHolds, Number64, Number256, Stray;
    if t == [] {
      NothingStandsFor(before);
      assert WithoutStrays(t[..0]) == [];
    } else if |t| == 4 {
      assert t[4..] == [] && t[..4] == t && s[..Unpadded(t) - 1] == s;
      GroupHoldsBefore(before, t, s);
    } else {
      HoldsFirst(t, s);
      GroupHoldsBefore(before, t[..4], s[..3]);
      assert t[..4][..4] == t[..4];
      HoldsNumber(Number256(before, s[..3]), t[4..], s[3..]);
      NumberMore(before, t, s);
    }
  }

  lemma NumberMore(before: int, t: seq<bv8>, s: seq<bv8>)
    requires 4 <= |t| && 3 <= |s| && Number256(before, s[..3]) == Number64(before, WithoutStrays(t[..4]))
    requires Letters(|s| - 3) <= |t| - 4
    requires Number256(Number256(before, s[..3]), s[3..]) == Number64(Number256(before, s[..3]), WithoutStrays(t[4..][..Letters(|s| - 3)])) / Filling(|s| - 3)
    ensures Letters(|s|) <= |t| && Number256(before, s) == Number64(before, WithoutStrays(t[..Letters(|s|)])) / Filling(|s|)
  {
    hide Number64, Number256, Stray, Filling, Letters;
    ThreeMore(|s| - 3);
    var n := Letters(|s| - 3);
    assert s == s[..3] + s[3..];
    Append256(before, s[..3], s[3..]);
    assert WithoutStrays(t[..4 + n]) == WithoutStrays(t[..4]) + WithoutStrays(t[4..][..n]);
    Append64(before, WithoutStrays(t[..4]), WithoutStrays(t[4..][..n]));
  }

  lemma Floors(b: int, x: int)
    ensures (262144 * b + x) / 4 == 65536 * b + x / 4 && (4096 * b + x) / 16 == 256 * b + x / 16
  {
  }
}
