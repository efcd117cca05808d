// Bit lists and their packing into octets, as the two BIT STRING codings
// use them: A-XDR keeps the bit count in a length prefix, BER keeps the
// number of unused trailing bits in an initial octet (X.690 section 8.6.2).
// Both pack the bits most significant first, padding the last octet with
// zeros.

module Bits {
  import opened Octets

  type bit = x: int | 0 <= x < 2

  /** The integer whose binary digits, most significant first, are bs. */
  function FromBits(bs: seq<bit>): (r: nat)
    ensures r < Pow2(|bs|)
  {
    if bs == [] then 0 else FromBits(bs[..|bs| - 1]) * 2 + bs[|bs| - 1]
  }

  /** n zero bits, the padding of a last partial octet. */
  function ZeroBits(n: nat): seq<bit>
  {
    seq(n, _ => 0)
  }

  /** One octet from up to eight bits, padded on the right with zeros. */
  function OctetOf(c: seq<bit>): byte
    requires |c| <= 8
  {
    var r := FromBits(c + ZeroBits(8 - |c|));
    assert Pow2(8) == 256;
    r
  }

  /** The bits packed eight to an octet, the last octet padded with zeros. */
  function Pack(l: seq<bit>): (r: seq<byte>)
    ensures |r| == (|l| + 7) / 8
    decreases |l|
  {
    if l == [] then []
    else if |l| <= 8 then [OctetOf(l)]
    else [OctetOf(l[..8])] + Pack(l[8..])
  }

  /** The n low-order bits of x, most significant first: (x >> i) & 1 for i from n-1 down to 0. */
  function LowBits(x: nat, n: nat): (r: seq<bit>)
    ensures |r| == n
  {
    if n == 0 then [] else LowBits(x / 2, n - 1) + [x % 2]
  }

  /** The eight bits of an octet, most significant first. */
  function BitsOf(x: byte): (r: seq<bit>)
    ensures |r| == 8
  {
    LowBits(x, 8)
  }

  /** Every octet unpacked to eight bits, in order. */
  function Unpack(b: seq<byte>): (r: seq<bit>)
    ensures |r| == 8 * |b|
  {
    if b == [] then [] else BitsOf(b[0]) + Unpack(b[1..])
  }

  lemma {:induction false} LowBitsFromBits(c: seq<bit>)
    ensures LowBits(FromBits(c), |c|) == c
  {
    if c != [] {
      var init := c[..|c| - 1];
      LowBitsFromBits(init);
      assert c == init + [c[|c| - 1]];
    }
  }

  lemma BitsOfOctet(c: seq<bit>)
    requires |c| == 8
    ensures BitsOf(FromBits(c) as byte) == c
  {
    assert Pow2(8) == 256;
    LowBitsFromBits(c);
  }

  /** The bits unpacked from an octet built of up to eight bits start with those bits. */
  lemma UnpackOctet(c: seq<bit>)
    requires |c| <= 8
    ensures BitsOf(OctetOf(c))[..|c|] == c
    ensures forall i :: |c| <= i < 8 ==> BitsOf(OctetOf(c))[i] == 0
  {
    var padded := c + ZeroBits(8 - |c|);
    BitsOfOctet(padded);
    assert padded[..|c|] == c;
  }

  /** Unpacking the packed bits gives the bits back, followed by zero padding. */
  lemma {:induction false} UnpackPack(l: seq<bit>)
    ensures Unpack(Pack(l))[..|l|] == l
    ensures forall i :: |l| <= i < |Unpack(Pack(l))| ==> Unpack(Pack(l))[i] == 0
    decreases |l|
  {
    if l == [] {
    } else if |l| <= 8 {
      UnpackOctet(l);
      assert Unpack(Pack(l)) == BitsOf(OctetOf(l)) by {
        assert Pack(l)[1..] == [];
      }
    } else {
      var head := l[..8];
      UnpackOctet(head);
      UnpackPack(l[8..]);
      var p := Pack(l);
      assert p[0] == OctetOf(head) && p[1..] == Pack(l[8..]);
      var u := Unpack(p);
      assert u == BitsOf(OctetOf(head)) + Unpack(Pack(l[8..]));
      assert u[..|l|] == l by {
        assert l == head + l[8..];
        forall i | 0 <= i < |l| ensures u[i] == l[i] {
          if i >= 8 {
            assert u[i] == Unpack(Pack(l[8..]))[..|l| - 8][i - 8];
          }
        }
      }
      forall i | |l| <= i < |u| ensures u[i] == 0 {
        assert u[i] == Unpack(Pack(l[8..]))[i - 8];
      }
    }
  }

  /** The last bit of a prefix is the low-order digit of its value. */
  lemma FromBitsStep(c: seq<bit>, k: nat)
    requires 1 <= k <= |c|
    ensures FromBits(c[..k]) == FromBits(c[..k - 1]) * 2 + c[k - 1]
  {
    assert c[..k][..k - 1] == c[..k - 1];
  }

  /** The octet eight bits stand for, most significant first. */
  lemma FromBitsOctet(c: seq<bit>)
    requires |c| == 8
    ensures FromBits(c) as int == 128 * (c[0] as int) + 64 * (c[1] as int) + 32 * (c[2] as int) + 16 * (c[3] as int) + 8 * (c[4] as int) + 4 * (c[5] as int) + 2 * (c[6] as int) + (c[7] as int)
  {
    assert c[..8] == c;
    FromBitsStep(c, 8); FromBitsStep(c, 7); FromBitsStep(c, 6); FromBitsStep(c, 5);
    FromBitsStep(c, 4); FromBitsStep(c, 3); FromBitsStep(c, 2); FromBitsStep(c, 1);
    assert c[..0] == [];
  }

  /** Eight bits ahead of more bits pack into their octet ahead of the rest. */
  lemma PackCons(a: seq<bit>, rest: seq<bit>)
    requires |a| == 8 && rest != []
    ensures Pack(a + rest) == [OctetOf(a)] + Pack(rest)
  {
    assert (a + rest)[..8] == a && (a + rest)[8..] == rest;
  }

  lemma PackOne(a: seq<bit>)
    requires |a| == 8
    ensures Pack(a) == [OctetOf(a)]
  {
  }

  // ------------------------------------------------------------ A-XDR form

  /** Python's slice ret[:n] of a list of length len: negative n counts from the end. */
  function SliceEnd(len: nat, n: int): (r: nat)
    ensures r <= len
  {
    if n >= 0 then (if n < len then n else len)
    else if len + n > 0 then len + n else 0
  }

  /** The A-XDR bit string's to_list: the content bits cut to the bit count. */
  function XdrToList(count: int, content: seq<byte>): (r: seq<bit>)
    ensures count >= 0 && count <= 8 * |content| ==> |r| == count
  {
    var all := Unpack(content);
    all[..SliceEnd(|all|, count)]
  }

  /** The A-XDR bit string's from_str over a bit list: the bit count and the packed bits. */
  function XdrFromList(l: seq<bit>): (r: (int, seq<byte>))
    ensures r.0 == |l| && |r.1| == (|l| + 7) / 8
  {
    (|l|, Pack(l))
  }

  /** to_list(from_str(s)) == s for the A-XDR form. */
  lemma XdrListRoundTrip(l: seq<bit>)
    ensures XdrToList(XdrFromList(l).0, XdrFromList(l).1) == l
  {
    UnpackPack(l);
  }

  // -------------------------------------------------------------- BER form

  /** The number of unused bits in the last octet of an l-bit string. */
  function UnusedBits(l: nat): (r: nat)
    ensures r < 8 && (l + r) % 8 == 0
  {
    (8 - l % 8) % 8
  }

  /** The BER bit string's from_str over a bit list: the unused-bit count, then the packed bits. */
  function BerFromList(l: seq<bit>): (r: seq<byte>)
    ensures |r| == 1 + (|l| + 7) / 8
    ensures r[0] == UnusedBits(|l|)
  {
    [UnusedBits(|l|)] + Pack(l)
  }

  /** The BER bit string's to_list: the content bits less the unused ones; an empty value has no unused-bit octet. */
  function BerToList(v: seq<byte>): (r: Result<seq<bit>>)
    ensures r.Ok? <==> |v| >= 1
    ensures r.Ok? && v[0] <= 8 * (|v| - 1) ==> |r.value| == 8 * (|v| - 1) - v[0]
  {
    if v == [] then Err(IndexOutOfRange)
    else
      var all := Unpack(v[1..]);
      if v[0] == 0 then Ok(all) else Ok(all[..SliceEnd(|all|, -(v[0] as int))])
  }

  /** n bits packed into whole octets: n plus the unused bits of the last one. */
  lemma PaddedLength(n: nat)
    ensures 8 * ((n + 7) / 8) == n + UnusedBits(n)
  {
    var q, r := n / 8, n % 8;
    assert n == 8 * q + r;
    if r == 0 {
      assert (n + 7) / 8 == q;
    } else {
      assert n + 7 == 8 * (q + 1) + (r - 1);
      assert (n + 7) / 8 == q + 1;
      assert UnusedBits(n) == 8 - r;
    }
  }

  /** to_list(from_str(s)) == s for the BER form. */
  lemma BerListRoundTrip(l: seq<bit>)
    ensures BerToList(BerFromList(l)) == Ok(l)
  {
    var v := BerFromList(l);
    assert v[1..] == Pack(l);
    UnpackPack(l);
    var all := Unpack(Pack(l));
    PaddedLength(|l|);
    assert |all| == |l| + v[0];
    if v[0] == 0 {
      assert all == all[..|l|];
    } else {
      assert SliceEnd(|all|, -(v[0] as int)) == |l|;
    }
  }

  // ------------------------------------------------------------ bit access

  /** A Python list index: negative indices count from the end; out of range is an IndexError. */
  function PyIndex(k: int, len: nat): (r: Result<nat>)
    ensures r.Ok? <==> -(len as int) <= k < len
    ensures r.Ok? ==> r.value < len && (r.value == k || r.value == len + k)
  {
    if 0 <= k < len then Ok(k) else if -(len as int) <= k < 0 then Ok(len + k) else Err(IndexOutOfRange)
  }

  /** __getitem__: the bit at index k of the list. */
  function GetBit(l: seq<bit>, k: int): (r: Result<bit>)
    ensures r.Ok? <==> -(|l| as int) <= k < |l|
    ensures r.Ok? ==> r.value == l[PyIndex(k, |l|).value]
  {
    var i :- PyIndex(k, |l|);
    Ok(l[i])
  }
}
