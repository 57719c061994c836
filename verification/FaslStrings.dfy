/** ASCII strings of the FASL reader: the octets are read into the first quarter of the string's own data area, and
    widened there to characters of four bytes. */
module FaslStrings {
  import opened Bits
  import opened Bytes

  /** IK_CHAR32_FROM_INTEGER: the code point above a tag of eight bits. */
  function Char32(x: Byte): nat {
    256 * x + 0x0F
  }

  /** The bytes of character i. */
  function CharBytes(data: seq<Byte>, i: nat): seq<Byte>
    requires 4 * i + 4 <= |data|
  {
    data[4 * i..4 * i + 4]
  }

  lemma PutAt(data: seq<Byte>, at: nat, bytes: seq<Byte>, k: nat)
    requires at + |bytes| <= |data| && k < |data|
    ensures Put(data, at, bytes)[k] == if at <= k < at + |bytes| then bytes[k - at] else data[k]
  {
  }

  /** The loop runs from the end to the beginning: character i is written over octets that have been read already, and
      over none that has not. */
  method WidenAscii(data: array<Byte>, n: nat)
    requires 4 * n <= data.Length
    modifies data
    ensures forall i {:trigger CharBytes(data[..], i)} :: 0 <= i < n ==> CharBytes(data[..], i) == Le(Char32(old(data[i])), 4)
    ensures data[4 * n..] == old(data[4 * n..])
  {
    hide Le;
    ghost var was := data[..];
    var i: int := n - 1;
    while 0 <= i
      invariant -1 <= i < n
      invariant forall k {:trigger data[k]} :: 0 <= k <= i ==> data[k] == was[k]
      invariant forall j {:trigger CharBytes(data[..], j)} :: i < j < n ==> CharBytes(data[..], j) == Le(Char32(was[j]), 4)
      invariant forall k {:trigger data[k]} :: 4 * n <= k < data.Length ==> data[k] == was[k]
    {
      ghost var before := data[..];
      StoreBytes(data, 4 * i, Char32(data[i]), 4);
      forall k | 0 <= k < data.Length ensures data[k] == if 4 * i <= k < 4 * i + 4 then Le(Char32(was[i]), 4)[k - 4 * i] else before[k] {
        PutAt(before, 4 * i, Le(Char32(was[i]), 4), k);
      }
      forall j | i <= j < n ensures CharBytes(data[..], j) == Le(Char32(was[j]), 4) {
        if j > i { assert CharBytes(data[..], j) == CharBytes(before, j); }
      }
      i := i - 1;
    }
  }

  /** Each character denotes its octet. */
  lemma CharRead(x: Byte)
    ensures LeValue(Le(Char32(x), 4)) / 256 == x && LeValue(Le(Char32(x), 4)) % 256 == 0x0F
  {
    hide Le, LeValue, Pow2;
    LeRead(Char32(x), 4);
    Pow32();
  }

  /** The branch of do_read for ASCII strings, from the octets in the port to the characters of the string. */
  method ReadAscii(port: seq<Byte>, data: array<Byte>)
    requires 4 * |port| <= data.Length
    modifies data
    ensures forall i {:trigger port[i]} :: 0 <= i < |port| ==>
              LeValue(CharBytes(data[..], i)) / 256 == port[i] && LeValue(CharBytes(data[..], i)) % 256 == 0x0F
    ensures data[4 * |port|..] == old(data[4 * |port|..])
  {
    hide Le, LeValue;
    var n := |port|;
    var k := 0;
    while k < n
      invariant 0 <= k <= n && forall j :: 0 <= j < k ==> data[j] == port[j]
      invariant forall j {:trigger data[j]} :: n <= j < data.Length ==> data[j] == old(data[j])
    {
      data[k] := port[k];
      k := k + 1;
    }
    WidenAscii(data, n);
    forall i {:trigger port[i]} | 0 <= i < n ensures LeValue(CharBytes(data[..], i)) / 256 == port[i] && LeValue(CharBytes(data[..], i)) % 256 == 0x0F {
      CharRead(port[i]);
    }
  }
}
