// ITU-T X.690 length octets (section 8.1.3) and identifier octets
// (section 8.1.2), as the COSEM codec reads and writes them.
//
// Bit operations of the source on octets are written arithmetically:
// b & 0x80 is b >= 128, b & 0x7F is b % 128, b & 0x1F is b % 32 and
// b & 0xC0 is (b / 64) * 64.

module X690 {
  import opened Octets
  import opened Buffer

  // ---------------------------------------------------------------- length

  /** The number of octets the length n occupies (Length.__len__). */
  function LengthSize(n: int): (r: nat)
    ensures r >= 1
  {
    if n < 0x80 then 1
    else if n < 0x100 then 2
    else if n < 0x1_0000 then 3
    else if n < 0x1_0000_0000 then 5
    else 1 + DigitCount256(n)
  }

  /** One octet exactly for a short length; otherwise enough octets after the first to hold it. */
  lemma LengthSizeFits(n: int)
    ensures LengthSize(n) == 1 <==> n < 0x80
    ensures 0x80 <= n ==> n < Pow256(LengthSize(n) - 1)
  {
    if 0x80 <= n < 0x1_0000_0000 {
      assert Pow256(1) == 0x100 && Pow256(2) == 0x1_0000;
      assert Pow256(4) == 0x1_0000_0000 by {
        assert Pow256(3) == 0x100_0000;
      }
    }
  }

  /** The number of octets after the first in the long form of n. */
  function LongCount(n: nat): nat
  {
    if n < 0x100 then 1
    else if n < 0x1_0000 then 2
    else if n < 0x1_0000_0000 then 4
    else DigitCount256(n)
  }

  /**
   * The length octets of n: one octet below 0x80, otherwise 0x80 plus the
   * count of the big-endian octets that follow (1, 2 or 4 below 2^32).
   */
  function LengthOctets(n: nat): (r: seq<byte>)
    requires LongCount(n) <= 0x7F
    ensures n >= 0x80 ==> |r| == 1 + LongCount(n)
  {
    if n < 0x80 then [n]
    else [0x80 + LongCount(n)] + ToBigEndian(n, LongCount(n))
  }

  /**
   * What Length.put does to the buffer. Short lengths are written at the
   * current position. Long lengths below 2^32 are packed at offset 0 of the
   * buffer and leave the position where it was. Larger lengths are written
   * at the position. A negative value, or a count octet above 0xFF, is an
   * octet the buffer refuses.
   */
  function LengthChunks(n: int): seq<Chunk>
  {
    if n < 0 then [Fail]
    else if n < 0x80 then [Here([n])]
    else if n < 0x1_0000_0000 then [AtZero(LengthOctets(n))]
    else if LongCount(n) <= 0x7F then [Here([0x80 + LongCount(n)]), Here(ToBigEndian(n, LongCount(n)))]
    else [Fail]
  }

  /**
   * put raises exactly for a negative length or one needing more than 127
   * octets, and writes at the cursor exactly below 0x80 and from 2^32 on.
   */
  lemma LengthChunksShape(n: int)
    ensures Fail in LengthChunks(n) <==> n < 0 || LongCount(n) > 0x7F
    ensures InPlace(LengthChunks(n)) <==> 0 <= n < 0x80 || (0x1_0000_0000 <= n && LongCount(n) <= 0x7F)
  {
    var cs := LengthChunks(n);
    if !(0 <= n < 0x80 || (0x1_0000_0000 <= n && LongCount(n) <= 0x7F)) {
      assert !cs[0].Here?;
    }
  }


  /**
   * Length.get: the length at pos and the position after it. A first octet
   * 0xFF gives -1 (indefinite); 0x80 + k with k < 127 is followed by k
   * big-endian octets; an octet below 0x80 is the length itself.
   */
  function DecodeLength(b: seq<byte>, pos: nat): (r: Result<(int, nat)>)
    ensures r.Ok? ==> pos < r.value.1 <= |b| && r.value.0 >= -1
  {
    if pos >= |b| then Err(Exhausted(pos, 1))
    else if b[pos] >= 0x80 then
      var k := b[pos] % 0x80;
      if k == 0x7F then Ok((-1, pos + 1))
      else if pos + 1 + k <= |b| then Ok((FromBigEndian(b[pos + 1..pos + 1 + k]), pos + 1 + k))
      else Err(Exhausted(pos + 1, k))
    else Ok((b[pos], pos + 1))
  }

  /** Length.__len__ agrees with the number of octets Length.put reports. */
  lemma LengthSizeIsWritten(n: nat)
    requires LongCount(n) <= 0x7F
    ensures Written(LengthChunks(n)) == LengthOctets(n)
    ensures |LengthOctets(n)| == LengthSize(n)
  {
    var cs := LengthChunks(n);
    if n < 0x80 {
      assert Written(cs) == [n] + Written([]);
    } else if n < 0x1_0000_0000 {
      assert Written(cs) == LengthOctets(n) + Written([]);
    } else {
      var k := LongCount(n);
      assert cs[1..] == [Here(ToBigEndian(n, k))];
      assert Written(cs[1..]) == ToBigEndian(n, k) + Written([]);
      assert Written(cs) == [0x80 + k] + ToBigEndian(n, k);
    }
  }

  /** Whenever the length octets could be written, Length.put returns as many as it wrote. */
  lemma LengthReturned(b: seq<byte>, pos: nat, n: int)
    requires Apply(b, pos, LengthChunks(n)).Wrote?
    ensures |Written(LengthChunks(n))| == LengthSize(n)
  {
    if 0 <= n < 0x80 {
      ShortLengthInPlace(n);
    } else if 0x80 <= n && LongCount(n) <= 0x7F {
      LengthSizeIsWritten(n);
    }
  }

  /** Below 0x80 the length is one octet written in place. */
  lemma ShortLengthInPlace(n: int)
    requires 0 <= n < 0x80
    ensures LengthChunks(n) == [Here([n])] && InPlace(LengthChunks(n))
    ensures LengthSize(n) == 1
  {
  }

  /**
   * From 0x80 to 2^32 - 1, Length.put writes its octets at offset 0 of the
   * buffer whatever the current position, and the position does not move.
   */
  lemma {:induction false} LongLengthAtOffsetZero(buf: seq<byte>, pos: nat, n: int)
    requires 0x80 <= n < 0x1_0000_0000
    ensures |LengthOctets(n)| == LengthSize(n)
    ensures |LengthOctets(n)| <= |buf| ==>
      Apply(buf, pos, LengthChunks(n)) == Wrote(Splice(buf, 0, LengthOctets(n)), pos)
    ensures |LengthOctets(n)| > |buf| ==> Apply(buf, pos, LengthChunks(n)) == Raised
  {
    assert LengthChunks(n) == [AtZero(LengthOctets(n))];
    assert LengthChunks(n)[1..] == [];
  }

  /** Lengths from 0x10000 up use four length octets, not the minimum three. */
  lemma ThreeOctetLengthUsesFour()
    ensures LengthOctets(0x1_0000) == [0x84, 0x00, 0x01, 0x00, 0x00]
  {
    assert ToBigEndian(0x1_0000, 4) == [0x00, 0x01, 0x00, 0x00] by {
      assert ToBigEndian(1, 2) == [0x00, 0x01];
      assert ToBigEndian(0x100, 3) == [0x00, 0x01, 0x00];
    }
  }

  /** The long-form octet count of n is enough octets to hold n. */
  lemma LongCountFits(n: nat)
    ensures n < Pow256(LongCount(n))
  {
    if n < 0x1_0000_0000 {
      assert Pow256(1) == 0x100;
      assert Pow256(2) == 0x1_0000;
      assert Pow256(4) == 0x1_0000_0000;
    }
  }

  /** Length.get reads back what the X.690 length octets of n say, wherever they sit. */
  lemma {:induction false} DecodeLengthOctets(b: seq<byte>, pos: nat, n: nat)
    requires LongCount(n) < 0x7F
    requires pos + |LengthOctets(n)| <= |b|
    requires b[pos..pos + |LengthOctets(n)|] == LengthOctets(n)
    ensures DecodeLength(b, pos) == Ok((n, pos + |LengthOctets(n)|))
  {
    var o := LengthOctets(n);
    assert b[pos] == o[0];
    if n >= 0x80 {
      var k := LongCount(n);
      assert b[pos] % 0x80 == k;
      assert b[pos + 1..pos + 1 + k] == o[1..] == ToBigEndian(n, k);
      LongCountFits(n);
      FromToBigEndian(n, k);
      assert DecodeLength(b, pos) == Ok((FromBigEndian(b[pos + 1..pos + 1 + k]), pos + 1 + k));
    }
  }

  /**
   * Length.put followed by Length.get at position 0 gives the length back,
   * for every length below 2^32: at offset 0 the long form lands where the
   * reader looks for it.
   */
  lemma {:induction false} LengthRoundTripAtZero(buf: seq<byte>, n: int)
    requires 0 <= n < 0x1_0000_0000
    requires LengthSize(n) <= |buf|
    ensures Apply(buf, 0, LengthChunks(n)).Wrote?
    ensures DecodeLength(Apply(buf, 0, LengthChunks(n)).buf, 0) == Ok((n, LengthSize(n)))
  {
    var o := LengthOctets(n);
    var out := Splice(buf, 0, o);
    if n < 0x80 {
      assert LengthChunks(n)[1..] == [];
      assert Apply(buf, 0, LengthChunks(n)) == Wrote(out, 1);
    } else {
      LongLengthAtOffsetZero(buf, 0, n);
    }
    assert out[0..|o|] == o;
    DecodeLengthOctets(out, 0, n);
  }

  /** A first octet 0xFF is the indefinite form: -1, one octet consumed. */
  lemma IndefiniteLength(b: seq<byte>, pos: nat)
    requires pos < |b| && b[pos] == 0xFF
    ensures DecodeLength(b, pos).Ok? && DecodeLength(b, pos).value == (-1, pos + 1)
  {
  }

  /** A first octet 0x80 reads as length 0 followed by no octets. */
  lemma EmptyLongForm(b: seq<byte>, pos: nat)
    requires pos < |b| && b[pos] == 0x80
    ensures DecodeLength(b, pos).Ok? && DecodeLength(b, pos).value == (0, pos + 1)
  {
    assert b[pos + 1..pos + 1] == [];
  }

  method GetLength(buf: ByteBuffer) returns (r: Result<int>)
    modifies buf`pos
    ensures match DecodeLength(old(buf.data[..]), old(buf.pos))
      case Ok((n, p)) => r == Ok(n) && buf.pos == p
      case Err(e) => r == Err(e)
  {
    var first := buf.GetUint8();
    if first.Err? {
      return Err(first.error);
    }
    var b := first.value;
    if b >= 0x80 {
      var k := b % 0x80;
      if k == 0x7F {
        return Ok(-1);
      }
      var v := buf.GetUint(k);
      if v.Err? {
        return Err(v.error);
      }
      return Ok(v.value);
    }
    return Ok(b);
  }

  /** Length.put: the return value is the octet count it reports. */
  method PutLength(buf: ByteBuffer, n: int) returns (ok: bool, ret: nat)
    modifies buf`pos, buf.data
    ensures buf.Reached(Apply(old(buf.data[..]), old(buf.pos), LengthChunks(n)), ok)
    ensures ok ==> ret == LengthSize(n)
  {
    ok := buf.PerformAll(LengthChunks(n));
    ret := LengthSize(n);
  }

  // ---------------------------------------------------------------- tag

  /** The class bits of an identifier octet. */
  datatype TagClass = Universal | Application | ContextSpecific | Private
  {
    function Bits(): (r: byte)
      ensures r % 64 == 0
    {
      match this
      case Universal => 0x00
      case Application => 0x40
      case ContextSpecific => 0x80
      case Private => 0xC0
    }
  }

  /** The class named by the top two bits of an identifier octet. */
  function ClassOf(b: byte): (c: TagClass)
    ensures c.Bits() == (b / 64) * 64
  {
    if b < 0x40 then Universal
    else if b < 0x80 then Application
    else if b < 0xC0 then ContextSpecific
    else Private
  }

  /** An identifier: tag number and class (the constructed bit is not kept). */
  datatype Tag = Tag(number: nat, cls: TagClass)

  /** Prefix octets of a base-128 number: every one has bit 8 set. */
  function Leading(m: nat): (r: seq<byte>)
    ensures forall i :: 0 <= i < |r| ==> r[i] >= 0x80
  {
    if m == 0 then [] else Leading(m / 128) + [0x80 + m % 128]
  }

  /** n in base 128, most significant digit first, bit 8 set on all but the last octet. */
  function Subsequent(n: nat): (r: seq<byte>)
    ensures |r| >= 1 && r[|r| - 1] == n % 128
  {
    Leading(n / 128) + [n % 128]
  }

  /** The identifier octets of t (section 8.1.2 of X.690, high-tag-number form from 31). */
  function TagOctets(t: Tag): seq<byte>
  {
    if t.number < 31 then [t.cls.Bits() + t.number]
    else [t.cls.Bits() + 31] + Subsequent(t.number)
  }

  /** The first identifier octet carries the class; it is the only one exactly when the number is below 31. */
  lemma TagOctetsShape(t: Tag)
    ensures |TagOctets(t)| >= 1 && ClassOf(TagOctets(t)[0]) == t.cls
    ensures |TagOctets(t)| == 1 <==> t.number < 31
  {
  }

  /** Tag.put writes its octets one put_uint8 at a time. */
  function Singles(o: seq<byte>): (r: seq<Chunk>)
    ensures |r| == |o| && InPlace(r)
    ensures forall i :: 0 <= i < |o| ==> r[i] == Here([o[i]])
  {
    seq(|o|, i requires 0 <= i < |o| => Here([o[i]]))
  }

  lemma SinglesFirst(o: seq<byte>)
    requires |o| >= 1
    ensures Singles(o) == [Here([o[0]])] + Singles(o[1..])
  {
  }

  function TagChunks(t: Tag): seq<Chunk>
  {
    Singles(TagOctets(t))
  }

  /** Tag.put writes the identifier octets, all of them at the cursor. */
  lemma TagChunksWritten(t: Tag)
    ensures InPlace(TagChunks(t)) && Written(TagChunks(t)) == TagOctets(t)
  {
    WrittenSingles(TagOctets(t));
  }

  lemma {:induction false} WrittenSingles(o: seq<byte>)
    ensures Written(Singles(o)) == o
    decreases |o|
  {
    if o != [] {
      assert Singles(o)[1..] == Singles(o[1..]);
      WrittenSingles(o[1..]);
    }
  }

  /** The rest of a high-tag-number identifier, from pos, with the number read so far. */
  function DecodeSubsequent(b: seq<byte>, pos: nat, acc: nat): (r: Result<(nat, nat)>)
    ensures r.Ok? ==> pos < r.value.1 <= |b|
    decreases |b| - pos
  {
    if pos >= |b| then Err(Exhausted(pos, 1))
    else
      var acc' := acc * 128 + b[pos] % 128;
      if b[pos] < 0x80 then Ok((acc', pos + 1)) else DecodeSubsequent(b, pos + 1, acc')
  }

  /** Tag.get: the identifier at pos and the position after it. */
  function DecodeTag(b: seq<byte>, pos: nat): (r: Result<(Tag, nat)>)
    ensures r.Ok? ==> pos < r.value.1 <= |b|
  {
    if pos >= |b| then Err(Exhausted(pos, 1))
    else if b[pos] % 32 == 31 then
      var (n, p) :- DecodeSubsequent(b, pos + 1, 0);
      Ok((Tag(n, ClassOf(b[pos])), p))
    else Ok((Tag(b[pos] % 32, ClassOf(b[pos])), pos + 1))
  }

  lemma {:induction false} ReadLeading(b: seq<byte>, pos: nat, m: nat)
    requires pos + |Leading(m)| <= |b|
    requires b[pos..pos + |Leading(m)|] == Leading(m)
    ensures DecodeSubsequent(b, pos, 0) == DecodeSubsequent(b, pos + |Leading(m)|, m)
    decreases m
  {
    if m > 0 {
      var l := Leading(m / 128);
      assert b[pos..pos + |l|] == b[pos..pos + |Leading(m)|][..|l|];
      ReadLeading(b, pos, m / 128);
      var q := pos + |l|;
      assert b[q] == 0x80 + m % 128;
      assert (m / 128) * 128 + b[q] % 128 == m;
    }
  }

  /** Tag.get reads back the identifier octets of any tag, wherever they sit. */
  lemma {:induction false} DecodeTagOctets(b: seq<byte>, pos: nat, t: Tag)
    requires pos + |TagOctets(t)| <= |b|
    requires b[pos..pos + |TagOctets(t)|] == TagOctets(t)
    ensures DecodeTag(b, pos) == Ok((t, pos + |TagOctets(t)|))
  {
    var o := TagOctets(t);
    assert b[pos] == o[0];
    FirstIdentifierOctet(t);
    if t.number >= 31 {
      DecodeLongTagOctets(b, pos, t);
    }
  }

  /** The first identifier octet carries the class and the number, or 31 for a high number. */
  lemma FirstIdentifierOctet(t: Tag)
    ensures ClassOf(TagOctets(t)[0]) == t.cls
    ensures TagOctets(t)[0] % 32 == if t.number < 31 then t.number else 31
  {
    var o := TagOctets(t)[0];
    var n := if t.number < 31 then t.number else 31;
    assert o == t.cls.Bits() + n;
    match t.cls
    case Universal =>
    case Application =>
    case ContextSpecific =>
    case Private =>
  }

  lemma {:induction false} DecodeLongTagOctets(b: seq<byte>, pos: nat, t: Tag)
    requires t.number >= 31
    requires pos + |TagOctets(t)| <= |b|
    requires b[pos..pos + |TagOctets(t)|] == TagOctets(t)
    ensures DecodeSubsequent(b, pos + 1, 0) == Ok((t.number, pos + |TagOctets(t)|))
  {
    var o := TagOctets(t);
    var n := t.number;
    var l := Leading(n / 128);
    assert o == [o[0]] + l + [n % 128];
    forall i | 0 <= i < |l|
      ensures b[pos + 1 + i] == l[i]
    {
      assert b[pos + 1 + i] == o[1 + i];
    }
    assert b[pos + 1..pos + 1 + |l|] == l;
    ReadLeading(b, pos + 1, n / 128);
    var q := pos + 1 + |l|;
    assert b[q] == n % 128;
    assert (n / 128) * 128 + b[q] % 128 == n;
    assert DecodeSubsequent(b, q, n / 128) == Ok((n, q + 1));
    assert q + 1 == pos + |o|;
  }

  /** The constructed bit (0x20) of a one-octet identifier makes no difference to Tag.get. */
  lemma ConstructedBitIgnored(b: seq<byte>, pos: nat)
    requires pos < |b| && b[pos] % 32 != 31 && b[pos] % 64 >= 32
    ensures DecodeTag(b, pos) == DecodeTag(b[pos := b[pos] - 32], pos)
  {
  }

  /** One-octet identifiers: class bits plus the number (APPLICATION 10 is 0x4A). */
  lemma LowTagVectors()
    ensures TagOctets(Tag(1, Universal)) == [0x01]
    ensures TagOctets(Tag(10, Application)) == [0x4A]
  {
  }

  /** One base-128 digit more: m is q * 128 + d. */
  lemma LeadingDigit(m: nat, q: nat, d: nat)
    requires m > 0 && d < 128 && m == q * 128 + d
    ensures Leading(m) == Leading(q) + [0x80 + d]
  {
    assert m / 128 == q && m % 128 == d;
  }

  /**
   * High-number identifiers: 0x5F, then base-128 digits with bit 8 set on
   * all but the last (APPLICATION 31 and 3999).
   */
  lemma HighTagVectors()
    ensures TagOctets(Tag(31, Application)) == [0x5F, 0x1F]
    ensures TagOctets(Tag(3999, Application)) == [0x5F, 0x9F, 0x1F]
  {
    LeadingDigit(31, 0, 31);
  }

  /** APPLICATION 7777777 takes four subsequent octets, and Tag.get reads it back. */
  lemma LongTagVector(n: nat, b: seq<byte>)
    requires n == 7777777 && b == [0x5F, 0x83, 0xDA, 0xDB, 0x71]
    ensures TagOctets(Tag(n, Application)) == b
    ensures DecodeTag(b, 0) == Ok((Tag(n, Application), 5))
  {
    LeadingDigit(3, 0, 3);
    LeadingDigit(474, 3, 90);
    LeadingDigit(60763, 474, 91);
    assert n / 128 == 60763 && n % 128 == 0x71;
    assert Subsequent(n) == [0x83, 0xDA, 0xDB, 0x71];
    assert b[0..|TagOctets(Tag(n, Application))|] == TagOctets(Tag(n, Application));
    DecodeTagOctets(b, 0, Tag(n, Application));
  }

  /** Length 0x83 is 0x81 0x83 in the long form, and Length.get reads it back. */
  lemma LengthVector(b: seq<byte>)
    requires b == [0x81, 0x83]
    ensures LengthOctets(0x83) == b
    ensures DecodeLength(b, 0) == Ok((0x83, 2))
  {
    LengthOctets83();
    LengthReads83(b);
  }

  lemma LengthOctets83()
    ensures LengthOctets(0x83) == [0x81, 0x83]
  {
    assert ToBigEndian(0x83, 1) == ToBigEndian(0, 0) + [0x83] == [0x83];
    assert LengthOctets(0x83) == [0x81] + [0x83];
  }

  lemma LengthReads83(b: seq<byte>)
    requires b == [0x81, 0x83]
    ensures DecodeLength(b, 0) == Ok((0x83, 2))
  {
    assert b[1..2] == [0x83];
    assert [0x83][..0] == [];
    assert FromBigEndian([0x83]) == FromBigEndian([]) * 256 + 0x83 == 0x83;
  }

  /** The number of base-128 digits of n. */
  function Digits128Count(n: nat): nat
  {
    if n == 0 then 0 else 1 + Digits128Count(n / 128)
  }

  lemma {:induction false} LeadingSize(m: nat)
    ensures |Leading(m)| == Digits128Count(m)
  {
    if m > 0 {
      LeadingSize(m / 128);
    }
  }

  /** Tag.__len__: one octet below 31, else one plus a count of the base-128 digits. */
  method TagLen(t: Tag) returns (ret: nat)
    ensures ret == |TagOctets(t)|
  {
    if t.number < 31 {
      return 1;
    }
    ret := 1;
    var value := t.number;
    while value != 0
      invariant ret + Digits128Count(value) == 1 + Digits128Count(t.number)
      decreases value
    {
      value := value / 128;
      ret := ret + 1;
    }
    LeadingSize(t.number / 128);
  }

  /** The base-128 digits of n, least significant first. */
  function Digits128(n: nat): (r: seq<byte>)
    ensures forall i :: 0 <= i < |r| ==> r[i] < 128
  {
    if n == 0 then [] else [n % 128] + Digits128(n / 128)
  }

  /** d with 0x80 added to every digit. */
  function Flagged(d: seq<byte>): (r: seq<byte>)
    requires forall i :: 0 <= i < |d| ==> d[i] < 128
    ensures |r| == |d|
    ensures forall i :: 0 <= i < |d| ==> r[i] == d[i] + 128
  {
    seq(|d|, i requires 0 <= i < |d| => d[i] + 128)
  }

  /** s read from its last element to its first. */
  function Reverse<T>(s: seq<T>): (r: seq<T>)
    ensures |r| == |s|
  {
    if s == [] then [] else [s[|s| - 1]] + Reverse(s[..|s| - 1])
  }

  lemma {:induction false} LeadingDigits(m: nat)
    ensures Leading(m) == Reverse(Flagged(Digits128(m)))
    decreases m
  {
    if m > 0 {
      var c: byte := m % 128 + 128;
      var rest := Flagged(Digits128(m / 128));
      assert Flagged(Digits128(m)) == [c] + rest;
      LeadingDigits(m / 128);
      ReverseConcat([c], rest);
      assert Reverse([c]) == [c];
      assert Reverse(Flagged(Digits128(m))) == Leading(m / 128) + [c];
    }
  }

  lemma {:induction false} ReverseConcat<T>(a: seq<T>, b: seq<T>)
    ensures Reverse(a + b) == Reverse(b) + Reverse(a)
    decreases |b|
  {
    if b == [] {
      assert a + b == a;
    } else {
      assert (a + b)[..|a + b| - 1] == a + b[..|b| - 1];
      ReverseConcat(a, b[..|b| - 1]);
    }
  }

  /** The digits of Subsequent(n), least significant first, before the flags are set. */
  lemma {:induction false} SubsequentDigits(n: nat)
    requires n > 0
    ensures |Digits128(n)| >= 1
    ensures Subsequent(n) == Reverse([Digits128(n)[0]] + Flagged(Digits128(n)[1..]))
  {
    var d := Digits128(n);
    assert d[1..] == Digits128(n / 128);
    LeadingDigits(n / 128);
    ReverseConcat([d[0]], Flagged(d[1..]));
    assert Reverse([d[0]]) == [d[0]];
  }

  /** The first loop of Tag.put: the digits, least significant first. */
  method CollectDigits(n: nat) returns (tmp: seq<byte>)
    ensures tmp == Digits128(n)
  {
    var value := n;
    tmp := [];
    while value != 0
      invariant tmp + Digits128(value) == Digits128(n)
      decreases value
    {
      var digit: byte := value % 128;
      assert Digits128(value) == [digit] + Digits128(value / 128);
      assert (tmp + [digit]) + Digits128(value / 128) == tmp + Digits128(value);
      tmp := tmp + [digit];
      value := value / 128;
    }
  }

  /** The second loop of Tag.put: bit 8 on every digit but the first (least significant). */
  method FlagDigits(d: seq<byte>) returns (tmp: seq<byte>)
    requires |d| >= 1
    requires forall i :: 0 <= i < |d| ==> d[i] < 128
    ensures tmp == [d[0]] + Flagged(d[1..])
  {
    tmp := d;
    var i := |tmp| - 1;
    while i > 0
      invariant 0 <= i < |tmp| && |tmp| == |d|
      invariant tmp == d[..i + 1] + Flagged(d[i + 1..])
    {
      assert Flagged(d[i..]) == [d[i] + 128] + Flagged(d[i + 1..]);
      tmp := tmp[i := tmp[i] + 128];
      i := i - 1;
    }
  }

  /** The last loop of Tag.put: pop the octets off the end and put each one. */
  method PutPopped(buf: ByteBuffer, tmp0: seq<byte>) returns (ok: bool, count: nat)
    modifies buf`pos, buf.data
    ensures buf.Reached(Apply(old(buf.data[..]), old(buf.pos), Singles(Reverse(tmp0))), ok)
    ensures ok ==> count == |tmp0|
  {
    var tmp := tmp0;
    count := 0;
    ok := true;
    while tmp != []
      invariant Apply(old(buf.data[..]), old(buf.pos), Singles(Reverse(tmp0))) ==
        Apply(buf.data[..], buf.pos, Singles(Reverse(tmp)))
      invariant count + |tmp| == |tmp0|
      decreases |tmp|
    {
      var x := tmp[|tmp| - 1];
      ghost var before := tmp;
      tmp := tmp[..|tmp| - 1];
      assert Reverse(before) == [x] + Reverse(tmp);
      assert Singles(Reverse(before)) == [Here([x])] + Singles(Reverse(tmp));
      ok := buf.Perform(Here([x]));
      if !ok {
        return;
      }
      count := count + 1;
    }
  }

  /** Tag.put: one octet below 31, else the class octet with 0x1F and the base-128 digits. */
  method PutTag(buf: ByteBuffer, t: Tag) returns (ok: bool, ret: nat)
    modifies buf`pos, buf.data
    ensures buf.Reached(Apply(old(buf.data[..]), old(buf.pos), TagChunks(t)), ok)
    ensures ok ==> ret == |TagOctets(t)|
  {
    var o := TagOctets(t);
    TagOctetsShape(t);
    ghost var start := buf.data[..];
    ghost var at := buf.pos;
    SinglesFirst(o);
    ApplyFirst(start, at, Here([o[0]]), Singles(o[1..]));
    if t.number < 31 {
      assert TagChunks(t) == [Here([o[0]])];
      ok := buf.Perform(Here([t.cls.Bits() + t.number]));
      return ok, 1;
    }
    ok := buf.Perform(Here([t.cls.Bits() + 31]));
    if !ok {
      return ok, 0;
    }
    assert o[1..] == Subsequent(t.number);
    var count;
    ok, count := PutSubsequent(buf, t.number);
    ret := 1 + count;
  }

  /** The loops of Tag.put for a number from 31 on: its base-128 digits, most significant first. */
  method PutSubsequent(buf: ByteBuffer, n: nat) returns (ok: bool, count: nat)
    requires n > 0
    modifies buf`pos, buf.data
    ensures buf.Reached(Apply(old(buf.data[..]), old(buf.pos), Singles(Subsequent(n))), ok)
    ensures ok ==> count == |Subsequent(n)|
  {
    var digits := CollectDigits(n);
    var flagged := FlagDigits(digits);
    SubsequentDigits(n);
    ok, count := PutPopped(buf, flagged);
  }

  /** Tag.get: the class from the top two bits, the number from the low five or the octets after. */
  method GetTag(buf: ByteBuffer) returns (r: Result<Tag>)
    modifies buf`pos
    ensures match DecodeTag(old(buf.data[..]), old(buf.pos))
      case Ok((t, p)) => r == Ok(t) && buf.pos == p
      case Err(e) => r == Err(e)
  {
    var first := buf.GetUint8();
    if first.Err? {
      return Err(first.error);
    }
    var cls := ClassOf(first.value);
    var number: nat := first.value % 32;
    if number == 31 {
      number := 0;
      while true
        invariant buf.pos > old(buf.pos)
        invariant DecodeTag(old(buf.data[..]), old(buf.pos)) ==
          (match DecodeSubsequent(buf.data[..], buf.pos, number)
           case Ok((n, p)) => Ok((Tag(n, cls), p))
           case Err(e) => Err(e))
        decreases buf.data.Length - buf.pos
      {
        var next := buf.GetUint8();
        if next.Err? {
          return Err(next.error);
        }
        number := number * 128 + next.value % 128;
        if next.value < 0x80 {
          break;
        }
      }
    }
    return Ok(Tag(number, cls));
  }
}
