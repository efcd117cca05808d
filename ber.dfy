// The BER BIT STRING coder used for the Conformance field of the COSEM
// messages: X.690 identifier octets, X.690 length octets, then the value,
// whose first octet counts the unused bits of the last one (X.690 section
// 8.6.2).

module Ber {
  import opened Octets
  import opened Buffer
  import opened X690
  import opened Bits

  /** BitStringType.__len__: one identifier octet, the length octets and the value. */
  function BerLen(v: seq<byte>): nat
  {
    1 + LengthSize(|v|) + |v|
  }

  /** What BitStringType.put does: the identifier, the length of the value, the value. */
  function BerChunks(tag: Tag, v: seq<byte>): seq<Chunk>
  {
    TagChunks(tag) + LengthChunks(|v|) + [Here(v)]
  }

  /**
   * put writes the identifier octets, the length octets and the value, in
   * that order; it writes them all at the cursor exactly when the length
   * does (the long form from 0x80 to 2^32 - 1 goes to offset 0).
   */
  lemma BerChunksLayout(tag: Tag, v: seq<byte>)
    ensures Written(BerChunks(tag, v)) == TagOctets(tag) + Written(LengthChunks(|v|)) + v
    ensures InPlace(BerChunks(tag, v)) <==> InPlace(LengthChunks(|v|))
  {
    var a := TagChunks(tag);
    var l := LengthChunks(|v|);
    TagChunksWritten(tag);
    WrittenConcat(a, l);
    WrittenConcat(a + l, [Here(v)]);
    WrittenHere(v, []);
    assert [Here(v)] + [] == [Here(v)];
    assert InPlace(l) ==> InPlace(a + l + [Here(v)]);
    assert InPlace(a + l + [Here(v)]) ==> InPlace(l) by {
      forall i | 0 <= i < |l| ensures InPlace(a + l + [Here(v)]) ==> l[i].Here? {
        assert (a + l + [Here(v)])[|a| + i] == l[i];
      }
    }
  }

  /**
   * __len__ counts one identifier octet whatever the tag: it is what put
   * writes for a low tag number, and short by the subsequent identifier
   * octets for a high one.
   */
  lemma BerLenMeasures(tag: Tag, v: seq<byte>)
    requires LongCount(|v|) <= 0x7F
    ensures BerLen(v) + |TagOctets(tag)| == |Written(BerChunks(tag, v))| + 1
    ensures tag.number < 31 <==> BerLen(v) == |Written(BerChunks(tag, v))|
  {
    BerChunksLayout(tag, v);
    LengthSizeIsWritten(|v|);
  }

  /**
   * BitStringType.get: an identifier that differs from tag in class or
   * number is an error; otherwise the length and that many octets, the
   * unused-bit octet included.
   */
  function BerDecode(tag: Tag, b: seq<byte>, pos: nat): (r: Result<(seq<byte>, nat)>)
    ensures r.Ok? ==> pos < r.value.1 <= |b|
  {
    var (t, p1) :- DecodeTag(b, pos);
    if t != tag then Err(BerTagMismatch(tag.cls.Bits(), tag.number, t.cls.Bits(), t.number))
    else
      var (n, p2) :- DecodeLength(b, p1);
      if n < 0 then Err(IndefiniteLength) else ReadBytes(b, p2, n)
  }

  /** The octets put reports for a value with a short length: identifier, one length octet, value. */
  lemma BerWritten(tag: Tag, v: seq<byte>)
    requires |v| < 0x80
    ensures InPlace(BerChunks(tag, v))
    ensures Written(BerChunks(tag, v)) == TagOctets(tag) + [|v|] + v
  {
    ShortLengthInPlace(|v|);
    WrittenSingles(TagOctets(tag));
    WrittenConcat(TagChunks(tag), LengthChunks(|v|));
    WrittenConcat(TagChunks(tag) + LengthChunks(|v|), [Here(v)]);
    assert Written([Here([|v|])]) == [|v|];
    assert Written([Here(v)]) == v;
  }

  /** get reads back what put wrote: the same tag, the same value, and nothing more. */
  lemma {:induction false} BerRoundTrip(tag: Tag, v: seq<byte>, b: seq<byte>, pos: nat)
    requires |v| < 0x80
    requires pos + |Written(BerChunks(tag, v))| <= |b|
    requires b[pos..pos + |Written(BerChunks(tag, v))|] == Written(BerChunks(tag, v))
    ensures BerDecode(tag, b, pos) == Ok((v, pos + |Written(BerChunks(tag, v))|))
  {
    BerWritten(tag, v);
    BerReadsOctets(tag, v, b, pos);
  }

  /** get over the identifier, the one length octet and the value. */
  lemma BerReadsOctets(tag: Tag, v: seq<byte>, b: seq<byte>, pos: nat)
    requires |v| < 0x80
    requires pos + |TagOctets(tag) + [|v|] + v| <= |b|
    requires b[pos..pos + |TagOctets(tag) + [|v|] + v|] == TagOctets(tag) + [|v|] + v
    ensures BerDecode(tag, b, pos) == Ok((v, pos + |TagOctets(tag)| + 1 + |v|))
  {
    var to := TagOctets(tag);
    var p1 := pos + |to|;
    AtConcat(b, pos, to + [|v|], v);
    AtConcat(b, pos, to, [|v|]);
    DecodeTagOctets(b, pos, tag);
    assert b[p1..p1 + 1][0] == b[p1];
    assert DecodeLength(b, p1) == Ok((|v|, p1 + 1));
    assert ReadBytes(b, p1 + 1, |v|) == Ok((v, p1 + 1 + |v|));
  }

  /** An identifier of another class or number is refused before anything else is read. */
  lemma BerWrongTag(tag: Tag, b: seq<byte>, pos: nat)
    requires DecodeTag(b, pos).Ok? && DecodeTag(b, pos).value.0 != tag
    ensures BerDecode(tag, b, pos).Err? && BerDecode(tag, b, pos).error.BerTagMismatch?
  {
  }

  /**
   * __len__ counts one identifier octet, so it falls short of what put
   * reports by the identifier octets beyond the first: one for tag
   * numbers 31 to 127, such as [APPLICATION 31].
   */
  lemma BerLenUndercount(tag: Tag, v: seq<byte>)
    requires |v| < 0x80
    ensures |Written(BerChunks(tag, v))| == BerLen(v) + |TagOctets(tag)| - 1
    ensures 31 <= tag.number < 128 ==> |Written(BerChunks(tag, v))| == BerLen(v) + 1
    ensures tag.number < 31 ==> |Written(BerChunks(tag, v))| == BerLen(v)
  {
    BerWritten(tag, v);
    ShortLengthInPlace(|v|);
    if tag.number >= 31 {
      assert Subsequent(tag.number) == Leading(tag.number / 128) + [tag.number % 128];
    }
  }

  /** A bit list made a BER bit string and put reads back as the same bit list. */
  lemma BerBitsRoundTrip(tag: Tag, l: seq<bit>, b: seq<byte>, pos: nat)
    requires |l| <= 8 * 126
    requires pos + |Written(BerChunks(tag, BerFromList(l)))| <= |b|
    requires b[pos..pos + |Written(BerChunks(tag, BerFromList(l)))|] == Written(BerChunks(tag, BerFromList(l)))
    ensures BerDecode(tag, b, pos).Ok?
    ensures BerToList(BerDecode(tag, b, pos).value.0) == Ok(l)
  {
    BerRoundTrip(tag, BerFromList(l), b, pos);
    BerListRoundTrip(l);
  }

  /** BitStringType.get over the buffer. */
  method Get(buf: ByteBuffer, tag: Tag) returns (r: Result<seq<byte>>)
    modifies buf`pos
    ensures match BerDecode(tag, old(buf.data[..]), old(buf.pos))
      case Ok((v, p)) => r == Ok(v) && buf.pos == p
      case Err(e) => r == Err(e)
  {
    var t := GetTag(buf);
    if t.Err? {
      return Err(t.error);
    }
    if t.value != tag {
      return Err(BerTagMismatch(tag.cls.Bits(), tag.number, t.value.cls.Bits(), t.value.number));
    }
    var n := GetLength(buf);
    if n.Err? {
      return Err(n.error);
    }
    if n.value < 0 {
      return Err(IndefiniteLength);
    }
    r := buf.Read(n.value);
  }

  /** put performs the identifier writes, then the length writes, then the value. */
  lemma BerChunksSplit(b: seq<byte>, pos: nat, tag: Tag, v: seq<byte>)
    ensures Apply(b, pos, BerChunks(tag, v)) == Then(Then(Apply(b, pos, TagChunks(tag)), LengthChunks(|v|)), [Here(v)])
  {
    ApplyConcat(b, pos, TagChunks(tag), LengthChunks(|v|));
    ApplyConcat(b, pos, TagChunks(tag) + LengthChunks(|v|), [Here(v)]);
  }

  /** BitStringType.put over the buffer; ret is the sum put returns. */
  method Put(buf: ByteBuffer, tag: Tag, v: seq<byte>) returns (ok: bool, ret: nat)
    modifies buf`pos, buf.data
    ensures buf.Reached(Apply(old(buf.data[..]), old(buf.pos), BerChunks(tag, v)), ok)
    ensures ok ==> ret == |Written(BerChunks(tag, v))|
  {
    BerChunksSplit(buf.data[..], buf.pos, tag, v);
    ret := 0;
    var n1, n2;
    ok, n1 := PutTag(buf, tag);
    if !ok {
      return;
    }
    ghost var b1 := buf.data[..];
    ghost var p1 := buf.pos;
    ok, n2 := PutLength(buf, |v|);
    if !ok {
      return;
    }
    LengthReturned(b1, p1, |v|);
    ApplyFirst(buf.data[..], buf.pos, Here(v), []);
    ok := buf.Perform(Here(v));
    BerChunksLayout(tag, v);
    ret := n1 + n2 + |v|;
  }
}
