// __len__ of the A-XDR classes against what put writes. create_buf sizes its
// buffer by __len__, so wherever the two differ the buffer is too long (the
// unwritten octets stay zero) or too short (put raises).

module AXdrLen {
  import opened Octets
  import opened Buffer
  import opened X690
  import opened Ber
  import opened AXdr

  /**
   * v's __len__ counts exactly what put writes: no CHOICE under a class
   * with a nonzero tag, no absent OPTIONAL whose base coder reports a
   * nonzero length for b'', fixed-size octets of their size, and BER
   * identifiers of one octet.
   */
  ghost predicate MeasuredAt(cls: Schema, layer: Schema, p: Payload)
    decreases p, Size(layer)
  {
    match layer
    case Implicit(_, inner) => MeasuredAt(cls, inner, p)
    case Optional(inner) => if p == Absent then LenAt(cls, inner, p) == 0 else MeasuredAt(cls, inner, p)
    case Sized(n, _) => p.Raw? && |p.bytes| == n
    case Bool => p.Raw? && |p.bytes| == 1
    case Str(_) => p.Raw? && LongCount(|p.bytes|) <= 0x7F
    case Null => true
    case BitStr => p.Bits? && p.count >= 0 && LongCount(p.count) <= 0x7F
    case Choice(_) => p.Chosen? && ClassTag(cls) == 0 && (assert p.alt.p < p.alt; MeasuredAt(p.alt.cls, p.alt.cls, p.alt.p))
    case DataRef => p.Chosen? && ClassTag(cls) == 0 && (assert p.alt.p < p.alt; MeasuredAt(p.alt.cls, p.alt.cls, p.alt.p))
    case Seq(_) => p.Items? && MeasuredList(p.vs)
    case SeqOf(_) => p.Items? && LongCount(|p.vs|) <= 0x7F && MeasuredList(p.vs)
    case Annotated(_) => p.Items? && LongCount(|p.vs|) <= 0x7F && MeasuredList(p.vs)
    case BerBitStr(tag) => p.Raw? && tag.number < 31 && LongCount(|p.bytes|) <= 0x7F
  }

  ghost predicate MeasuredList(vs: seq<Value>)
    decreases vs, 0
  {
    if vs == [] then true
    else
      var v := vs[0];
      assert v in vs && v.p < v;
      MeasuredAt(v.cls, v.cls, v.p) && MeasuredList(vs[1..])
  }

  ghost predicate Measured(v: Value)
  {
    MeasuredAt(v.cls, v.cls, v.p)
  }

  /** __len__ of v: the octets create_buf allocates for it, exactly what put writes when v is measured. */
  function Len(v: Value): (r: nat)
    ensures Measured(v) ==> r == |Encode(v)|
  {
    LenIsWritten(v);
    LenAt(v.cls, v.cls, v.p)
  }

  /** For a measured value, __len__ is the number of octets put reports. */
  lemma {:induction false} LenIsWritten(v: Value)
    ensures Measured(v) ==> LenAt(v.cls, v.cls, v.p) == |Encode(v)|
  {
    if Measured(v) {
      LayerLenIsWritten(v.cls, v.cls, v.p);
    }
  }

  lemma {:induction false} LayerLenIsWritten(cls: Schema, layer: Schema, p: Payload)
    requires MeasuredAt(cls, layer, p)
    ensures LenAt(cls, layer, p) == |Written(EmitAt(cls, layer, p))|
    decreases p, Size(layer), 1
  {
    if layer.Implicit? || layer.Optional? {
      WrapperLen(cls, layer, p);
    } else if layer.Choice? || layer.DataRef? {
      ChoiceLen(cls, layer, p);
    } else if layer.Seq? || layer.SeqOf? || layer.Annotated? {
      ItemsLen(cls, layer, p);
    } else {
      ScalarLen(cls, layer, p);
    }
  }

  /** One tag or flag octet, then the inner coder (nothing more for an absent OPTIONAL). */
  lemma {:induction false} WrapperLen(cls: Schema, layer: Schema, p: Payload)
    requires (layer.Implicit? || layer.Optional?) && MeasuredAt(cls, layer, p)
    ensures LenAt(cls, layer, p) == |Written(EmitAt(cls, layer, p))|
    decreases p, Size(layer), 0
  {
    WrapperParts(cls, layer, p);
    if !(layer.Optional? && p == Absent) {
      LayerLenIsWritten(cls, layer.inner, p);
    }
  }

  /** The wrapper's own octet, counted once by __len__ and written once by put. */
  lemma WrapperParts(cls: Schema, layer: Schema, p: Payload)
    requires (layer.Implicit? || layer.Optional?) && MeasuredAt(cls, layer, p)
    ensures layer.Optional? && p == Absent ==> LenAt(cls, layer, p) == 1 == |Written(EmitAt(cls, layer, p))|
    ensures !(layer.Optional? && p == Absent) ==>
      MeasuredAt(cls, layer.inner, p) &&
      LenAt(cls, layer, p) == 1 + LenAt(cls, layer.inner, p) &&
      |Written(EmitAt(cls, layer, p))| == 1 + |Written(EmitAt(cls, layer.inner, p))|
  {
    if layer.Implicit? {
      WrittenHere([layer.tag], EmitAt(cls, layer.inner, p));
    } else if p == Absent {
      WrittenHere([0], []);
    } else {
      WrittenHere([1], EmitAt(cls, layer.inner, p));
    }
  }

  /** A CHOICE of a class without a tag: exactly its alternative. */
  lemma {:induction false} ChoiceLen(cls: Schema, layer: Schema, p: Payload)
    requires (layer.Choice? || layer.DataRef?) && MeasuredAt(cls, layer, p)
    ensures LenAt(cls, layer, p) == |Written(EmitAt(cls, layer, p))|
    decreases p, Size(layer), 0
  {
    var a := p.alt;
    assert LenAt(cls, layer, p) == LenAt(a.cls, a.cls, a.p);
    assert EmitAt(cls, layer, p) == EmitAt(a.cls, a.cls, a.p);
    LayerLenIsWritten(a.cls, a.cls, a.p);
  }

  /** SEQUENCE, SEQUENCE OF and a Data structure: an optional count, then the elements. */
  lemma {:induction false} ItemsLen(cls: Schema, layer: Schema, p: Payload)
    requires (layer.Seq? || layer.SeqOf? || layer.Annotated?) && MeasuredAt(cls, layer, p)
    ensures LenAt(cls, layer, p) == |Written(EmitAt(cls, layer, p))|
    decreases p, Size(layer), 0
  {
    ListLen(p.vs);
    if !layer.Seq? {
      LengthSizeIsWritten(|p.vs|);
      WrittenConcat(LengthChunks(|p.vs|), EmitList(p.vs));
    }
  }

  lemma {:induction false} ListLen(vs: seq<Value>)
    requires MeasuredList(vs)
    ensures LenList(vs) == |Written(EmitList(vs))|
    decreases vs, 0
  {
    if vs != [] {
      var v := vs[0];
      assert v in vs && v.p < v && MeasuredAt(v.cls, v.cls, v.p) && MeasuredList(vs[1..]);
      EmitListCons(vs);
      WrittenConcat(Emit(v), EmitList(vs[1..]));
      LayerLenIsWritten(v.cls, v.cls, v.p);
      ListLen(vs[1..]);
    }
  }

  lemma {:induction false} ScalarLen(cls: Schema, layer: Schema, p: Payload)
    requires !(layer.Implicit? || layer.Optional? || layer.Choice? || layer.DataRef?)
    requires !(layer.Seq? || layer.SeqOf? || layer.Annotated?)
    requires MeasuredAt(cls, layer, p)
    ensures LenAt(cls, layer, p) == |Written(EmitAt(cls, layer, p))|
  {
    match layer
    case Sized(_, _) => WrittenHere(p.bytes, []);
    case Bool => WrittenHere(p.bytes, []);
    case Str(_) => PrefixedSize(|p.bytes|, p.bytes);
    case Null =>
    case BitStr => PrefixedSize(p.count, p.content);
    case BerBitStr(tag) => BerWrittenSize(tag, p.bytes);
  }

  /** A length n and then the octets c: Length.__len__ plus len(c) octets. */
  lemma PrefixedSize(n: nat, c: seq<byte>)
    requires LongCount(n) <= 0x7F
    ensures |Written(LengthChunks(n) + [Here(c)])| == LengthSize(n) + |c|
  {
    LengthSizeIsWritten(n);
    WrittenConcat(LengthChunks(n), [Here(c)]);
    WrittenHere(c, []);
  }

  /** The octets BitStringType.put reports: the whole identifier, the length octets, the value. */
  lemma BerWrittenSize(tag: Tag, v: seq<byte>)
    requires LongCount(|v|) <= 0x7F
    ensures |Written(BerChunks(tag, v))| == |TagOctets(tag)| + LengthSize(|v|) + |v|
  {
    WrittenSingles(TagOctets(tag));
    LengthSizeIsWritten(|v|);
    WrittenConcat(TagChunks(tag), LengthChunks(|v|));
    WrittenConcat(TagChunks(tag) + LengthChunks(|v|), [Here(v)]);
    WrittenHere(v, []);
  }

  // ------------------------------------------------------------ over-counts

  /**
   * An implicitly tagged CHOICE (getRequest [192] and its kin) counts its
   * own tag twice: once in Implicit.__len__ and once more in
   * Choice.__len__, because the class's tag is nonzero. put writes it once.
   */
  lemma {:induction false} TaggedChoiceOverCount(t: byte, alts: seq<Schema>, a: Value)
    requires t != 0 && Measured(a)
    ensures Len(V(Implicit(t, Choice(alts)), Chosen(a))) == |Encode(V(Implicit(t, Choice(alts)), Chosen(a)))| + 1
  {
    var cls := Implicit(t, Choice(alts));
    var p := Chosen(a);
    WrittenHere([t], EmitAt(cls, Choice(alts), p));
    assert EmitAt(cls, Choice(alts), p) == Emit(a);
    assert LenAt(cls, Choice(alts), p) == 1 + Len(a);
    LenIsWritten(a);
  }

  /**
   * An absent OPTIONAL writes its one 00 flag octet, but __len__ adds the
   * inner coder's length of b'': one more for a length-prefixed string,
   * size more for a fixed-size coder.
   */
  lemma AbsentOptionalOverCount(inner: Schema)
    ensures |Encode(V(Optional(inner), Absent))| == 1
    ensures Len(V(Optional(inner), Absent)) == 1 + LenAt(Optional(inner), inner, Absent)
    ensures inner.Str? ==> Len(V(Optional(inner), Absent)) == |Encode(V(Optional(inner), Absent))| + 1
    ensures inner.Sized? ==> Len(V(Optional(inner), Absent)) == |Encode(V(Optional(inner), Absent))| + inner.size
  {
    WrittenHere([0], []);
  }

  /** An absent OPTIONAL over a SEQUENCE is counted right: the sum over b'' is 0. */
  lemma AbsentOptionalSeqExact(fields: seq<Schema>)
    ensures Len(V(Optional(Seq(fields)), Absent)) == |Encode(V(Optional(Seq(fields)), Absent))|
  {
    WrittenHere([0], []);
    assert LenAt(Optional(Seq(fields)), Seq(fields), Absent) == 0;
  }
}
