// The compact A-XDR coding of IEC 61334-6 (clause 6.7 tagged types, clause
// 5.1 identifier) that COSEM messages use, as a schema-driven codec.
//
// A class of the codec is a stack of layers, outermost first, as Python's
// method resolution order applies them: an implicit one-octet tag and an
// OPTIONAL flag wrap a base coder. A value carries the class it was built
// or decoded as, and put and __len__ dispatch on that class, as they do on
// the Python object. The recursive Data choice is the layer DataRef,
// resolved against an environment schema; decoding it spends one unit of
// fuel.

module AXdr {
  import opened Octets
  import opened Buffer
  import opened X690
  import opened Asn1
  import opened Bits
  import opened Ber

  /** Fixed-size coders: integers, octet strings and enumerations with no length prefix. */
  datatype ScalarKind = SignedInt | UnsignedInt | OctetStr | Enumerated

  /** Length-prefixed coders (_StringCoder). */
  datatype StringKind = Utf8 | Visible | OctetString | IntegerString

  datatype Schema =
    | Implicit(tag: byte, inner: Schema)  // a one-octet context tag in front of inner
    | Optional(inner: Schema)             // a 00/01 presence flag in front of inner
    | Sized(size: nat, kind: ScalarKind)  // exactly size octets
    | Bool                                // one octet
    | Str(skind: StringKind)              // length, then the octets
    | Null                                // nothing
    | BitStr                              // bit count, then the packed bits
    | Choice(alts: seq<Schema>)           // the alternative picked by its first octet
    | Seq(fields: seq<Schema>)            // the fields in order
    | SeqOf(elem: Schema)                 // element count, then the elements
    | Annotated(fields: seq<Schema>)      // a Data structure: count, then the declared fields
    | BerBitStr(id: X690.Tag)             // a BER bit string with an X.690 identifier
    | DataRef                             // the Data choice of the environment

  datatype Payload =
    | Raw(bytes: seq<byte>)               // the octets of a scalar or string; b'' for an absent OPTIONAL
    | NoValue                             // NULL
    | Bits(count: int, content: seq<byte>)
    | Items(vs: seq<Value>)               // SEQUENCE and SEQUENCE OF
    | Chosen(alt: Value)                  // a CHOICE holding one alternative

  datatype Value = V(cls: Schema, p: Payload)

  /** The absent value of an OPTIONAL. */
  const Absent: Payload := Raw([])

  /** The tag number a class reports: its implicit tag, else its universal tag (Reserved 0 for CHOICE). */
  function ClassTag(s: Schema): (r: int)
    ensures s.Implicit? ==> r == s.tag
  {
    match s
    case Implicit(t, _) => t
    case Optional(inner) => ClassTag(inner)
    case Sized(_, kind) =>
      (match kind case SignedInt => 2 case UnsignedInt => 2 case OctetStr => 4 case Enumerated => 10)
    case Bool => 1
    case Str(kind) =>
      (match kind case Utf8 => 12 case Visible => 26 case OctetString => 4 case IntegerString => 2)
    case Null => 5
    case BitStr => 3
    case Choice(_) => 0
    case Seq(_) => 16
    case SeqOf(_) => 16
    case Annotated(_) => 16
    case BerBitStr(tag) => tag.number
    case DataRef => 0
  }

  /** The tag numbers of the alternatives, in declaration order. */
  function Tags(alts: seq<Schema>): (r: seq<int>)
    ensures |r| == |alts| && forall i :: 0 <= i < |alts| ==> r[i] == ClassTag(alts[i])
  {
    seq(|alts|, i requires 0 <= i < |alts| => ClassTag(alts[i]))
  }

  function Size(s: Schema): (r: nat)
    ensures r >= 1
    decreases s, 1
  {
    match s
    case Implicit(_, inner) => 1 + Size(inner)
    case Optional(inner) => 1 + Size(inner)
    case Choice(alts) => 1 + SizeList(alts)
    case Seq(fields) => 1 + SizeList(fields)
    case SeqOf(elem) => 1 + Size(elem)
    case Annotated(fields) => 2 + SizeList(fields)
    case _ => 1
  }

  function SizeList(ss: seq<Schema>): (r: nat)
    ensures forall i :: 0 <= i < |ss| ==> Size(ss[i]) <= r
    decreases ss, 0
  {
    if ss == [] then 0
    else
      var r := Size(ss[0]) + SizeList(ss[1..]);
      assert forall i :: 1 <= i < |ss| ==> ss[i] == ss[1..][i - 1];
      r
  }

  // ------------------------------------------------------------------ put

  /** The chunks put writes for a payload p of class cls, from the layer on. */
  function EmitAt(cls: Schema, layer: Schema, p: Payload): seq<Chunk>
    decreases p, Size(layer)
  {
    match layer
    case Implicit(t, inner) => [Here([t])] + EmitAt(cls, inner, p)
    case Optional(inner) => if p == Absent then [Here([0])] else [Here([1])] + EmitAt(cls, inner, p)
    case Sized(_, _) => (match p case Raw(bs) => [Here(bs)] case _ => [Fail])
    case Bool => (match p case Raw(bs) => [Here(bs)] case _ => [Fail])
    case Str(_) => (match p case Raw(bs) => LengthChunks(|bs|) + [Here(bs)] case _ => [Fail])
    case Null => []
    case BitStr => (match p case Bits(n, c) => LengthChunks(n) + [Here(c)] case _ => [Fail])
    case Choice(_) => (match p case Chosen(a) => assert a.p < a; EmitAt(a.cls, a.cls, a.p) case _ => [Fail])
    case DataRef => (match p case Chosen(a) => assert a.p < a; EmitAt(a.cls, a.cls, a.p) case _ => [Fail])
    case Seq(_) => (match p case Items(vs) => EmitList(vs) case _ => [Fail])
    case SeqOf(_) => (match p case Items(vs) => LengthChunks(|vs|) + EmitList(vs) case _ => [Fail])
    case Annotated(_) => (match p case Items(vs) => LengthChunks(|vs|) + EmitList(vs) case _ => [Fail])
    case BerBitStr(tag) => (match p case Raw(bs) => BerChunks(tag, bs) case _ => [Fail])
  }

  /** The chunks of the values, one after the other. */
  function EmitList(vs: seq<Value>): seq<Chunk>
    decreases vs, 0
  {
    if vs == [] then []
    else
      var v := vs[0];
      assert v in vs && v.p < v;
      EmitAt(v.cls, v.cls, v.p) + EmitList(vs[1..])
  }

  /** What put does for the value v; a CHOICE puts the value it holds. */
  function Emit(v: Value): seq<Chunk>
  {
    EmitAt(v.cls, v.cls, v.p)
  }

  /**
   * The first chunk put writes: an Implicit layer its tag, an Optional its
   * presence flag, and an absent Optional nothing more; a NULL writes nothing.
   */
  lemma EmitAtHead(cls: Schema, layer: Schema, p: Payload)
    ensures layer.Implicit? ==> |EmitAt(cls, layer, p)| >= 1 && EmitAt(cls, layer, p)[0] == Here([layer.tag])
    ensures layer.Optional? ==> |EmitAt(cls, layer, p)| >= 1 && EmitAt(cls, layer, p)[0] == Here([if p == Absent then 0 else 1])
    ensures layer.Optional? && p == Absent ==> EmitAt(cls, layer, p) == [Here([0])]
    ensures layer.Null? ==> EmitAt(cls, layer, p) == []
  {
  }

  /** An untagged CHOICE, or a Data reference, puts exactly what its alternative puts. */
  lemma ChoiceEmitsAlternative(v: Value)
    requires (v.cls.Choice? || v.cls.DataRef?) && v.p.Chosen?
    ensures Emit(v) == Emit(v.p.alt)
  {
  }

  /** The octets of v, as the sum of put's returns counts them. */
  function Encode(v: Value): seq<byte>
  {
    Written(Emit(v))
  }

  /**
   * A tagged class writes its tag first, the octet Choice.get dispatches
   * on; an OPTIONAL writes its presence flag first, and nothing else when
   * absent.
   */
  lemma FirstOctet(v: Value)
    ensures v.cls.Implicit? ==> |Encode(v)| >= 1 && Encode(v)[0] == v.cls.tag
    ensures v.cls.Optional? ==> |Encode(v)| >= 1 && Encode(v)[0] == (if v.p == Absent then 0 else 1)
    ensures v.cls.Optional? && v.p == Absent ==> Encode(v) == [0]
  {
    var cs := Emit(v);
    EmitAtHead(v.cls, v.cls, v.p);
    if v.cls.Implicit? || v.cls.Optional? {
      assert cs == [cs[0]] + cs[1..];
      WrittenHere(cs[0].bytes, cs[1..]);
      WrittenHere([0], []);
    }
  }

  // -------------------------------------------------------------- __len__

  /** __len__ of a payload p of class cls, from the layer on. */
  function LenAt(cls: Schema, layer: Schema, p: Payload): nat
    decreases p, Size(layer)
  {
    match layer
    case Implicit(_, inner) => 1 + LenAt(cls, inner, p)
    case Optional(inner) => 1 + LenAt(cls, inner, p)
    case Sized(n, _) => n
    case Bool => 1
    case Str(_) => (match p case Raw(bs) => LengthSize(|bs|) + |bs| case _ => 0)
    case Null => 0
    case BitStr => (match p case Bits(n, c) => LengthSize(n) + |c| case _ => 0)
    case Choice(_) => (if ClassTag(cls) != 0 then 1 else 0) + ChosenLen(p)
    case DataRef => (if ClassTag(cls) != 0 then 1 else 0) + ChosenLen(p)
    case Seq(_) => (match p case Items(vs) => LenList(vs) case _ => 0)
    case SeqOf(_) => SeqOfLen(p)
    case Annotated(_) => SeqOfLen(p)
    case BerBitStr(_) => (match p case Raw(bs) => BerLen(bs) case _ => 0)
  }

  /** len(self.value) of a CHOICE: the alternative's length, or 0 for an absent b''. */
  function ChosenLen(p: Payload): nat
    decreases p, 0
  {
    match p
    case Chosen(a) => assert a.p < a; LenAt(a.cls, a.cls, a.p)
    case Raw(bs) => |bs|
    case _ => 0
  }

  /** len(Length(count)) plus the elements' lengths. */
  function SeqOfLen(p: Payload): nat
    decreases p, 0
  {
    match p
    case Items(vs) => LengthSize(|vs|) + LenList(vs)
    case Raw(bs) => LengthSize(|bs|)
    case _ => 0
  }

  function LenList(vs: seq<Value>): nat
    decreases vs, 0
  {
    if vs == [] then 0
    else
      var v := vs[0];
      assert v in vs && v.p < v;
      LenAt(v.cls, v.cls, v.p) + LenList(vs[1..])
  }

  // ------------------------------------------------------------------ get

  /** The octet at pos without consuming it (get_uint8 then set_pos back). */
  function Peek(b: seq<byte>, pos: nat): (r: Result<byte>)
    ensures r.Ok? <==> pos < |b|
    ensures r.Ok? ==> r.value == b[pos]
  {
    if pos < |b| then Ok(b[pos]) else Err(Exhausted(pos, 1))
  }

  /** The classmethod get of class s at pos: the value and the position after it. */
  function Decode(env: Schema, s: Schema, b: seq<byte>, pos: nat, fuel: nat): (r: Result<(Value, nat)>)
    ensures r.Ok? ==> pos <= r.value.1
    decreases fuel, Size(s), 2, 0
  {
    DecodeLayer(env, s, s, b, pos, fuel)
  }

  /** get of class cls from the layer on: the get of the first class in the resolution order that defines one. */
  function DecodeLayer(env: Schema, cls: Schema, layer: Schema, b: seq<byte>, pos: nat, fuel: nat): (r: Result<(Value, nat)>)
    ensures r.Ok? ==> pos <= r.value.1
    decreases fuel, Size(layer), 1, 0
  {
    match layer
    case Implicit(t, inner) => DecodeImplicit(env, cls, t, inner, b, pos, fuel)
    case Optional(inner) => DecodeOptional(env, cls, inner, b, pos, fuel)
    case Sized(n, _) => DecodeSized(cls, n, b, pos)
    case Bool => DecodeSized(cls, 1, b, pos)
    case Str(_) => DecodeStr(cls, b, pos)
    case Null => Ok((V(cls, NoValue), pos))
    case BitStr => DecodeBitStr(cls, b, pos)
    case Choice(alts) => DecodeChoice(env, alts, b, pos, fuel)
    case DataRef => if fuel == 0 then Err(DepthExceeded) else Decode(env, env, b, pos, fuel - 1)
    case Seq(fields) => DecodeSeq(env, cls, fields, b, pos, fuel)
    case SeqOf(elem) => DecodeSeqOf(env, cls, elem, b, pos, fuel)
    case Annotated(fields) => DecodeAnnotated(env, cls, fields, b, pos, fuel)
    case BerBitStr(tag) => DecodeBer(cls, tag, b, pos)
  }

  /** Implicit.get: the tag octet must be t, then the inner get. */
  function DecodeImplicit(env: Schema, cls: Schema, t: byte, inner: Schema, b: seq<byte>, pos: nat, fuel: nat): (r: Result<(Value, nat)>)
    ensures r.Ok? ==> pos < r.value.1
    decreases fuel, 1 + Size(inner), 0, 0
  {
    var g :- Peek(b, pos);
    if g != t then Err(TagMismatch(t, g)) else DecodeLayer(env, cls, inner, b, pos + 1, fuel)
  }

  /** Optional.get: a flag octet 00 is the absent value, any other is followed by the inner get. */
  function DecodeOptional(env: Schema, cls: Schema, inner: Schema, b: seq<byte>, pos: nat, fuel: nat): (r: Result<(Value, nat)>)
    ensures r.Ok? ==> pos < r.value.1
    decreases fuel, 1 + Size(inner), 0, 0
  {
    var (flag, p) :- ReadBytes(b, pos, 1);
    if flag == [0] then Ok((V(cls, Absent), p)) else DecodeLayer(env, cls, inner, b, p, fuel)
  }

  /** SizedCoder.get and BooleanType.get: exactly n octets. */
  function DecodeSized(cls: Schema, n: nat, b: seq<byte>, pos: nat): (r: Result<(Value, nat)>)
    ensures r.Ok? <==> pos + n <= |b|
    ensures r.Ok? ==> r.value == (V(cls, Raw(b[pos..pos + n])), pos + n)
  {
    var (bs, p) :- ReadBytes(b, pos, n);
    Ok((V(cls, Raw(bs)), p))
  }

  /** _StringCoder.get: a length, then that many octets. */
  function DecodeStr(cls: Schema, b: seq<byte>, pos: nat): (r: Result<(Value, nat)>)
    ensures r.Ok? ==> pos < r.value.1
  {
    var (n, p) :- DecodeLength(b, pos);
    if n < 0 then Err(IndefiniteLength)
    else
      var (bs, p2) :- ReadBytes(b, p, n);
      Ok((V(cls, Raw(bs)), p2))
  }

  /** BitStringType.get: a bit count, then ceil(count / 8) octets. */
  function DecodeBitStr(cls: Schema, b: seq<byte>, pos: nat): (r: Result<(Value, nat)>)
    ensures r.Ok? ==> pos < r.value.1
  {
    var (n, p) :- DecodeLength(b, pos);
    var (c, p2) :- ReadBytes(b, p, if n < 0 then 0 else (n + 7) / 8);
    Ok((V(cls, Bits(n, c)), p2))
  }

  /**
   * Choice.get: the alternative whose tag is the next octet decodes from
   * that octet on, and its own value is the result, not a CHOICE holding it.
   */
  function DecodeChoice(env: Schema, alts: seq<Schema>, b: seq<byte>, pos: nat, fuel: nat): (r: Result<(Value, nat)>)
    ensures r.Ok? ==> pos <= r.value.1
    decreases fuel, 1 + SizeList(alts), 0, 0
  {
    var g :- Peek(b, pos);
    var i :- FirstWithTag(Tags(alts), g);
    Decode(env, alts[i], b, pos, fuel)
  }

  /** SequenceType.get: the fields in declaration order. */
  function DecodeSeq(env: Schema, cls: Schema, fields: seq<Schema>, b: seq<byte>, pos: nat, fuel: nat): (r: Result<(Value, nat)>)
    ensures r.Ok? ==> pos <= r.value.1
    ensures r.Ok? ==> r.value.0.cls == cls && r.value.0.p.Items? && |r.value.0.p.vs| == |fields|
    ensures r.Ok? <==> DecodeFields(env, fields, b, pos, fuel).Ok?
    decreases fuel, 1 + SizeList(fields), 0, 0
  {
    var (vs, p) :- DecodeFields(env, fields, b, pos, fuel);
    Ok((V(cls, Items(vs)), p))
  }

  /** SequenceOfType.get: a count, then that many elements; range() of -1 is empty. */
  function DecodeSeqOf(env: Schema, cls: Schema, elem: Schema, b: seq<byte>, pos: nat, fuel: nat): (r: Result<(Value, nat)>)
    ensures r.Ok? ==> pos < r.value.1
    decreases fuel, 1 + Size(elem), 0, 0
  {
    var (n, p) :- DecodeLength(b, pos);
    var (vs, p2) :- DecodeCount(env, elem, if n < 0 then 0 else n, b, p, fuel);
    Ok((V(cls, Items(vs)), p2))
  }

  /**
   * AnnotationSequenceOfData.get: a count, then the declared fields in
   * order, which must be as many as the count; a structure that declares
   * none reads count Data elements instead.
   */
  function DecodeAnnotated(env: Schema, cls: Schema, fields: seq<Schema>, b: seq<byte>, pos: nat, fuel: nat): (r: Result<(Value, nat)>)
    ensures r.Ok? ==> pos < r.value.1
    decreases fuel, 2 + SizeList(fields), 0, 0
  {
    var (n, p) :- DecodeLength(b, pos);
    if fields == [] then
      var (vs, p2) :- DecodeCount(env, DataRef, if n < 0 then 0 else n, b, p, fuel);
      Ok((V(cls, Items(vs)), p2))
    else if n != |fields| then Err(CountMismatch(n, |fields|))
    else
      var (vs, p2) :- DecodeFields(env, fields, b, p, fuel);
      Ok((V(cls, Items(vs)), p2))
  }

  /** ber.BitStringType.get. */
  function DecodeBer(cls: Schema, tag: X690.Tag, b: seq<byte>, pos: nat): (r: Result<(Value, nat)>)
    ensures r.Ok? ==> pos < r.value.1
  {
    var (bs, p) :- BerDecode(tag, b, pos);
    Ok((V(cls, Raw(bs)), p))
  }

  /** The fields decoded one after the other. */
  function DecodeFields(env: Schema, fields: seq<Schema>, b: seq<byte>, pos: nat, fuel: nat): (r: Result<(seq<Value>, nat)>)
    ensures r.Ok? ==> |r.value.0| == |fields| && pos <= r.value.1
    decreases fuel, SizeList(fields), 3, 0
  {
    if fields == [] then Ok(([], pos))
    else
      var (v, p) :- Decode(env, fields[0], b, pos, fuel);
      var (vs, p2) :- DecodeFields(env, fields[1..], b, p, fuel);
      Ok(([v] + vs, p2))
  }

  /** n elements of class elem decoded one after the other. */
  function DecodeCount(env: Schema, elem: Schema, n: nat, b: seq<byte>, pos: nat, fuel: nat): (r: Result<(seq<Value>, nat)>)
    ensures r.Ok? ==> |r.value.0| == n && pos <= r.value.1
    decreases fuel, Size(elem), 3, n
  {
    if n == 0 then Ok(([], pos))
    else
      var (v, p) :- Decode(env, elem, b, pos, fuel);
      var (vs, p2) :- DecodeCount(env, elem, n - 1, b, p, fuel);
      Ok(([v] + vs, p2))
  }

  // ------------------------------------------------------------ round trip

  /**
   * v is a value get of class s gives back unchanged from what put wrote:
   * every count and string is shorter than 0x80 (a one-octet length written
   * in place), fixed-size octets have their size, and no CHOICE sits under
   * a tag or OPTIONAL layer (get would return its alternative unwrapped).
   * A CHOICE is satisfied by the first alternative carrying the value's
   * implicit tag; the Data reference spends one unit of fuel.
   */
  ghost predicate Conforms(env: Schema, v: Value, s: Schema, fuel: nat)
    decreases fuel, v, Size(s)
  {
    match s
    case Choice(alts) =>
      && v.cls.Implicit?
      && var r := FirstWithTag(Tags(alts), v.cls.tag);
      && r.Ok?
      && alts[r.value] == v.cls
      && Size(alts[r.value]) <= SizeList(alts)
      && Conforms(env, v, v.cls, fuel)
    case DataRef => fuel > 0 && Conforms(env, v, env, fuel - 1)
    case _ => v.cls == s && LayerConforms(env, s, s, v.p, fuel)
  }

  ghost predicate LayerConforms(env: Schema, cls: Schema, layer: Schema, p: Payload, fuel: nat)
    decreases fuel, p, Size(layer)
  {
    match layer
    case Implicit(_, inner) => LayerConforms(env, cls, inner, p, fuel)
    case Optional(inner) => p == Absent || LayerConforms(env, cls, inner, p, fuel)
    case Sized(n, _) => p.Raw? && |p.bytes| == n
    case Bool => p.Raw? && |p.bytes| == 1
    case Str(_) => p.Raw? && |p.bytes| < 0x80
    case Null => p == NoValue
    case BitStr => p.Bits? && 0 <= p.count < 0x80 && |p.content| == (p.count + 7) / 8
    case Choice(_) => false
    case DataRef => false
    case Seq(fields) => p.Items? && FieldsConform(env, p.vs, fields, fuel)
    case SeqOf(elem) => p.Items? && |p.vs| < 0x80 && ElemsConform(env, p.vs, elem, fuel)
    case Annotated(fields) =>
      p.Items? && |p.vs| < 0x80 &&
      if fields == [] then ElemsConform(env, p.vs, DataRef, fuel) else FieldsConform(env, p.vs, fields, fuel)
    case BerBitStr(_) => p.Raw? && |p.bytes| < 0x80
  }

  /** Each value conforms to the field in the same place. */
  ghost predicate FieldsConform(env: Schema, vs: seq<Value>, fields: seq<Schema>, fuel: nat)
    decreases fuel, vs, 0
  {
    if vs == [] then fields == []
    else
      var v := vs[0];
      assert v in vs;
      fields != [] && Conforms(env, v, fields[0], fuel) && FieldsConform(env, vs[1..], fields[1..], fuel)
  }

  /** Every value conforms to elem. */
  ghost predicate ElemsConform(env: Schema, vs: seq<Value>, elem: Schema, fuel: nat)
    decreases fuel, vs, 0
  {
    if vs == [] then true
    else
      var v := vs[0];
      assert v in vs;
      Conforms(env, v, elem, fuel) && ElemsConform(env, vs[1..], elem, fuel)
  }

  /** Choice.get succeeds only on an octet that is the tag of one of its alternatives. */
  lemma ChoiceDispatchesOnTag(env: Schema, alts: seq<Schema>, b: seq<byte>, pos: nat, fuel: nat)
    ensures DecodeChoice(env, alts, b, pos, fuel).Ok? ==> pos < |b| && b[pos] in Tags(alts)
  {
  }

  /**
   * No conforming value has an untagged CHOICE or Data class: get of a
   * CHOICE returns the alternative it holds, never the wrapper.
   */
  lemma {:induction false} ConformingNotChoice(env: Schema, v: Value, s: Schema, fuel: nat)
    requires Conforms(env, v, s, fuel)
    ensures !v.cls.Choice? && !v.cls.DataRef?
    decreases fuel
  {
    if s.DataRef? {
      ConformingNotChoice(env, v, env, fuel - 1);
    }
  }

  /** get of class s reads back the value put wrote, and stops right after it. */
  lemma {:induction false} RoundTrip(env: Schema, v: Value, s: Schema, fuel: nat, b: seq<byte>, pos: nat)
    requires Conforms(env, v, s, fuel)
    requires At(b, pos, Encode(v))
    ensures Decode(env, s, b, pos, fuel) == Ok((v, pos + |Encode(v)|))
    decreases fuel, v, Size(s), 1
  {
    if s.Choice? {
      ChoiceRoundTrip(env, v, s, fuel, b, pos);
    } else if s.DataRef? {
      assert fuel > 0 && Conforms(env, v, env, fuel - 1);
      RoundTrip(env, v, env, fuel - 1, b, pos);
      DataRefReads(env, b, pos, fuel, (v, pos + |Encode(v)|));
    } else {
      PlainParts(env, v, s, fuel);
      LayerRoundTrip(env, s, s, v.p, fuel, b, pos);
    }
  }

  /** The Data reference reads as the environment's class, one unit of fuel deeper. */
  lemma DataRefReads(env: Schema, b: seq<byte>, pos: nat, fuel: nat, d: (Value, nat))
    requires fuel > 0 && Decode(env, env, b, pos, fuel - 1) == Ok(d)
    ensures Decode(env, DataRef, b, pos, fuel) == Ok(d)
  {
  }

  /** A value of a class that is neither CHOICE nor Data is its own class's payload, laid out by its layers. */
  lemma PlainParts(env: Schema, v: Value, s: Schema, fuel: nat)
    requires !s.Choice? && !s.DataRef? && Conforms(env, v, s, fuel)
    ensures v.cls == s && v == V(s, v.p) && LayerConforms(env, s, s, v.p, fuel)
    ensures Encode(v) == Written(EmitAt(s, s, v.p))
  {
  }

  lemma {:induction false} ChoiceRoundTrip(env: Schema, v: Value, s: Schema, fuel: nat, b: seq<byte>, pos: nat)
    requires s.Choice? && Conforms(env, v, s, fuel)
    requires At(b, pos, Encode(v))
    ensures Decode(env, s, b, pos, fuel) == Ok((v, pos + |Encode(v)|))
    decreases fuel, v, Size(s), 0
  {
    var t := v.cls.tag;
    var i := FirstWithTag(Tags(s.alts), t).value;
    WrittenHere([t], EmitAt(v.cls, v.cls.inner, v.p));
    assert Encode(v)[0] == t;
    assert Peek(b, pos) == Ok(t);
    assert Decode(env, s, b, pos, fuel) == DecodeChoice(env, s.alts, b, pos, fuel);
    assert DecodeChoice(env, s.alts, b, pos, fuel) == Decode(env, s.alts[i], b, pos, fuel);
    RoundTrip(env, v, s.alts[i], fuel, b, pos);
  }

  lemma {:induction false} LayerRoundTrip(env: Schema, cls: Schema, layer: Schema, p: Payload, fuel: nat, b: seq<byte>, pos: nat)
    requires LayerConforms(env, cls, layer, p, fuel)
    requires At(b, pos, Written(EmitAt(cls, layer, p)))
    ensures DecodeLayer(env, cls, layer, b, pos, fuel) == Ok((V(cls, p), pos + |Written(EmitAt(cls, layer, p))|))
    decreases fuel, p, Size(layer), 1
  {
    if layer.Implicit? {
      ImplicitRoundTrip(env, cls, layer, p, fuel, b, pos);
    } else if layer.Optional? {
      OptionalRoundTrip(env, cls, layer, p, fuel, b, pos);
    } else if layer.Seq? {
      SeqRoundTrip(env, cls, layer, p, fuel, b, pos);
    } else if layer.SeqOf? {
      SeqOfRoundTrip(env, cls, layer, p, fuel, b, pos);
    } else if layer.Annotated? {
      AnnotatedRoundTrip(env, cls, layer, p, fuel, b, pos);
    } else {
      ScalarRoundTrip(env, cls, layer, p, fuel, b, pos);
    }
  }

  lemma {:induction false} ImplicitRoundTrip(env: Schema, cls: Schema, layer: Schema, p: Payload, fuel: nat, b: seq<byte>, pos: nat)
    requires layer.Implicit? && LayerConforms(env, cls, layer, p, fuel)
    requires At(b, pos, Written(EmitAt(cls, layer, p)))
    ensures DecodeLayer(env, cls, layer, b, pos, fuel) == Ok((V(cls, p), pos + |Written(EmitAt(cls, layer, p))|))
    decreases fuel, p, Size(layer), 0
  {
    ImplicitLaid(env, cls, layer, p, fuel, b, pos);
    LayerRoundTrip(env, cls, layer.inner, p, fuel, b, pos + 1);
    ImplicitReads(env, cls, layer, b, pos, fuel, V(cls, p), pos + 1 + |Written(EmitAt(cls, layer.inner, p))|);
  }

  /** An implicit layer lays out its tag octet, then the inner layer's octets. */
  lemma ImplicitLaid(env: Schema, cls: Schema, layer: Schema, p: Payload, fuel: nat, b: seq<byte>, pos: nat)
    requires layer.Implicit? && LayerConforms(env, cls, layer, p, fuel)
    requires At(b, pos, Written(EmitAt(cls, layer, p)))
    ensures LayerConforms(env, cls, layer.inner, p, fuel)
    ensures |Written(EmitAt(cls, layer, p))| == 1 + |Written(EmitAt(cls, layer.inner, p))|
    ensures pos < |b| && b[pos] == layer.tag
    ensures At(b, pos + 1, Written(EmitAt(cls, layer.inner, p)))
  {
    var rest := EmitAt(cls, layer.inner, p);
    WrittenHere([layer.tag], rest);
    AtConcat(b, pos, [layer.tag], Written(rest));
    assert b[pos..pos + 1][0] == b[pos];
  }

  /** Implicit.get: the expected tag octet, then whatever the inner get returns. */
  lemma ImplicitReads(env: Schema, cls: Schema, layer: Schema, b: seq<byte>, pos: nat, fuel: nat, v: Value, q: nat)
    requires layer.Implicit? && pos < |b| && b[pos] == layer.tag
    requires DecodeLayer(env, cls, layer.inner, b, pos + 1, fuel) == Ok((v, q))
    ensures DecodeLayer(env, cls, layer, b, pos, fuel) == Ok((v, q))
  {
  }

  lemma {:induction false} OptionalRoundTrip(env: Schema, cls: Schema, layer: Schema, p: Payload, fuel: nat, b: seq<byte>, pos: nat)
    requires layer.Optional? && LayerConforms(env, cls, layer, p, fuel)
    requires At(b, pos, Written(EmitAt(cls, layer, p)))
    ensures DecodeLayer(env, cls, layer, b, pos, fuel) == Ok((V(cls, p), pos + |Written(EmitAt(cls, layer, p))|))
    decreases fuel, p, Size(layer), 0
  {
    if p == Absent {
      OptionalAbsentReads(env, cls, layer, fuel, b, pos);
    } else {
      OptionalLaid(env, cls, layer, p, fuel, b, pos);
      LayerRoundTrip(env, cls, layer.inner, p, fuel, b, pos + 1);
      OptionalReads(env, cls, layer, b, pos, fuel, V(cls, p), pos + 1 + |Written(EmitAt(cls, layer.inner, p))|);
    }
  }

  /** An absent OPTIONAL is the single flag octet 00, read back as absent. */
  lemma OptionalAbsentReads(env: Schema, cls: Schema, layer: Schema, fuel: nat, b: seq<byte>, pos: nat)
    requires layer.Optional? && At(b, pos, Written(EmitAt(cls, layer, Absent)))
    ensures DecodeLayer(env, cls, layer, b, pos, fuel) == Ok((V(cls, Absent), pos + |Written(EmitAt(cls, layer, Absent))|))
  {
    WrittenHere([0], []);
    assert b[pos..pos + 1] == [0];
  }

  /** A present OPTIONAL lays out the flag octet 01, then the inner layer's octets. */
  lemma OptionalLaid(env: Schema, cls: Schema, layer: Schema, p: Payload, fuel: nat, b: seq<byte>, pos: nat)
    requires layer.Optional? && p != Absent && LayerConforms(env, cls, layer, p, fuel)
    requires At(b, pos, Written(EmitAt(cls, layer, p)))
    ensures LayerConforms(env, cls, layer.inner, p, fuel)
    ensures |Written(EmitAt(cls, layer, p))| == 1 + |Written(EmitAt(cls, layer.inner, p))|
    ensures ReadBytes(b, pos, 1) == Ok(([1], (pos + 1) as nat))
    ensures At(b, pos + 1, Written(EmitAt(cls, layer.inner, p)))
  {
    var rest := EmitAt(cls, layer.inner, p);
    WrittenHere([1], rest);
    AtConcat(b, pos, [1], Written(rest));
    assert b[pos..pos + 1] == [1];
  }

  /** Optional.get past a nonzero flag octet: whatever the inner get returns. */
  lemma OptionalReads(env: Schema, cls: Schema, layer: Schema, b: seq<byte>, pos: nat, fuel: nat, v: Value, q: nat)
    requires layer.Optional? && ReadBytes(b, pos, 1) == Ok(([1], (pos + 1) as nat))
    requires DecodeLayer(env, cls, layer.inner, b, pos + 1, fuel) == Ok((v, q))
    ensures DecodeLayer(env, cls, layer, b, pos, fuel) == Ok((v, q))
  {
  }

  lemma {:induction false} ScalarRoundTrip(env: Schema, cls: Schema, layer: Schema, p: Payload, fuel: nat, b: seq<byte>, pos: nat)
    requires !(layer.Implicit? || layer.Optional? || layer.Seq? || layer.SeqOf? || layer.Annotated?)
    requires LayerConforms(env, cls, layer, p, fuel)
    requires At(b, pos, Written(EmitAt(cls, layer, p)))
    ensures DecodeLayer(env, cls, layer, b, pos, fuel) == Ok((V(cls, p), pos + |Written(EmitAt(cls, layer, p))|))
  {
    if layer.Sized? || layer.Bool? {
      SizedRoundTrip(env, cls, layer, p, fuel, b, pos);
    } else if layer.Str? {
      StrRoundTrip(env, cls, layer, p, fuel, b, pos);
    } else if layer.BitStr? {
      BitStrRoundTrip(env, cls, layer, p, fuel, b, pos);
    } else if layer.BerBitStr? {
      BerLayerRoundTrip(env, cls, layer, p, fuel, b, pos);
    } else {
      assert layer.Null?;
    }
  }

  lemma {:induction false} SizedRoundTrip(env: Schema, cls: Schema, layer: Schema, p: Payload, fuel: nat, b: seq<byte>, pos: nat)
    requires (layer.Sized? || layer.Bool?) && LayerConforms(env, cls, layer, p, fuel)
    requires At(b, pos, Written(EmitAt(cls, layer, p)))
    ensures DecodeLayer(env, cls, layer, b, pos, fuel) == Ok((V(cls, p), pos + |Written(EmitAt(cls, layer, p))|))
  {
    WrittenHere(p.bytes, []);
  }

  lemma {:induction false} BerLayerRoundTrip(env: Schema, cls: Schema, layer: Schema, p: Payload, fuel: nat, b: seq<byte>, pos: nat)
    requires layer.BerBitStr? && LayerConforms(env, cls, layer, p, fuel)
    requires At(b, pos, Written(EmitAt(cls, layer, p)))
    ensures DecodeLayer(env, cls, layer, b, pos, fuel) == Ok((V(cls, p), pos + |Written(EmitAt(cls, layer, p))|))
  {
    BerLayerParts(env, cls, layer, p, fuel);
    BerRoundTrip(layer.id, p.bytes, b, pos);
    BerLayerReads(env, cls, layer, b, pos, fuel, p.bytes, pos + |Written(BerChunks(layer.id, p.bytes))|);
  }

  lemma BerLayerParts(env: Schema, cls: Schema, layer: Schema, p: Payload, fuel: nat)
    requires layer.BerBitStr? && LayerConforms(env, cls, layer, p, fuel)
    ensures p.Raw? && p == Raw(p.bytes) && |p.bytes| < 0x80
    ensures Written(EmitAt(cls, layer, p)) == Written(BerChunks(layer.id, p.bytes))
  {
  }

  /** ber.BitStringType.get: the octets BerDecode returns, as a value of the class. */
  lemma BerLayerReads(env: Schema, cls: Schema, layer: Schema, b: seq<byte>, pos: nat, fuel: nat, bs: seq<byte>, q: nat)
    requires layer.BerBitStr? && BerDecode(layer.id, b, pos) == Ok((bs, q))
    ensures DecodeLayer(env, cls, layer, b, pos, fuel) == Ok((V(cls, Raw(bs)), q))
  {
  }

  lemma {:induction false} StrRoundTrip(env: Schema, cls: Schema, layer: Schema, p: Payload, fuel: nat, b: seq<byte>, pos: nat)
    requires layer.Str? && LayerConforms(env, cls, layer, p, fuel)
    requires At(b, pos, Written(EmitAt(cls, layer, p)))
    ensures DecodeLayer(env, cls, layer, b, pos, fuel) == Ok((V(cls, p), pos + |Written(EmitAt(cls, layer, p))|))
  {
    LengthThen(|p.bytes|, p.bytes, b, pos);
  }

  lemma {:induction false} BitStrRoundTrip(env: Schema, cls: Schema, layer: Schema, p: Payload, fuel: nat, b: seq<byte>, pos: nat)
    requires layer.BitStr? && LayerConforms(env, cls, layer, p, fuel)
    requires At(b, pos, Written(EmitAt(cls, layer, p)))
    ensures DecodeLayer(env, cls, layer, b, pos, fuel) == Ok((V(cls, p), pos + |Written(EmitAt(cls, layer, p))|))
  {
    LengthThen(p.count, p.content, b, pos);
  }

  lemma {:induction false} SeqRoundTrip(env: Schema, cls: Schema, layer: Schema, p: Payload, fuel: nat, b: seq<byte>, pos: nat)
    requires layer.Seq? && LayerConforms(env, cls, layer, p, fuel)
    requires At(b, pos, Written(EmitAt(cls, layer, p)))
    ensures DecodeLayer(env, cls, layer, b, pos, fuel) == Ok((V(cls, p), pos + |Written(EmitAt(cls, layer, p))|))
    decreases fuel, p, Size(layer), 0
  {
    FieldsRead(env, layer.fields, p.vs, fuel, b);
    FieldsRoundTrip(env, layer.fields, p.vs, fuel, b, pos);
  }

  lemma {:induction false} SeqOfRoundTrip(env: Schema, cls: Schema, layer: Schema, p: Payload, fuel: nat, b: seq<byte>, pos: nat)
    requires layer.SeqOf? && LayerConforms(env, cls, layer, p, fuel)
    requires At(b, pos, Written(EmitAt(cls, layer, p)))
    ensures DecodeLayer(env, cls, layer, b, pos, fuel) == Ok((V(cls, p), pos + |Written(EmitAt(cls, layer, p))|))
    decreases fuel, p, Size(layer), 0
  {
    CountPrefixed(p.vs, b, pos);
    ElemsRead(env, layer.elem, p.vs, fuel, b);
    CountRoundTrip(env, layer.elem, p.vs, fuel, b, pos + 1);
  }

  lemma {:induction false} AnnotatedRoundTrip(env: Schema, cls: Schema, layer: Schema, p: Payload, fuel: nat, b: seq<byte>, pos: nat)
    requires layer.Annotated? && LayerConforms(env, cls, layer, p, fuel)
    requires At(b, pos, Written(EmitAt(cls, layer, p)))
    ensures DecodeLayer(env, cls, layer, b, pos, fuel) == Ok((V(cls, p), pos + |Written(EmitAt(cls, layer, p))|))
    decreases fuel, p, Size(layer), 0
  {
    AnnotatedConforms(env, cls, layer, p, fuel);
    CountPrefixed(p.vs, b, pos);
    assert DecodeLayer(env, cls, layer, b, pos, fuel) == DecodeAnnotated(env, cls, layer.fields, b, pos, fuel);
    if layer.fields == [] {
      DataItemsRoundTrip(env, cls, p.vs, fuel, b, pos);
    } else {
      FieldItemsRoundTrip(env, cls, layer.fields, p.vs, fuel, b, pos);
    }
  }

  /** A structure that declares no fields: its count, then that many Data elements. */
  lemma {:induction false} DataItemsRoundTrip(env: Schema, cls: Schema, vs: seq<Value>, fuel: nat, b: seq<byte>, pos: nat)
    requires |vs| < 0x80 && ElemsConform(env, vs, DataRef, fuel)
    requires DecodeLength(b, pos) == Ok((|vs|, pos + 1))
    requires At(b, pos + 1, Written(EmitList(vs)))
    ensures DecodeAnnotated(env, cls, [], b, pos, fuel) == Ok((V(cls, Items(vs)), pos + 1 + |Written(EmitList(vs))|))
    decreases fuel, vs, 1, 0
  {
    ElemsRead(env, DataRef, vs, fuel, b);
    CountRoundTrip(env, DataRef, vs, fuel, b, pos + 1);
  }

  /** A structure with declared fields: its count, then each field in order. */
  lemma {:induction false} FieldItemsRoundTrip(env: Schema, cls: Schema, fields: seq<Schema>, vs: seq<Value>, fuel: nat, b: seq<byte>, pos: nat)
    requires fields != [] && FieldsConform(env, vs, fields, fuel)
    requires DecodeLength(b, pos) == Ok((|vs|, pos + 1))
    requires At(b, pos + 1, Written(EmitList(vs)))
    ensures DecodeAnnotated(env, cls, fields, b, pos, fuel) == Ok((V(cls, Items(vs)), pos + 1 + |Written(EmitList(vs))|))
    decreases fuel, vs, 1, 0
  {
    FieldsLength(env, vs, fields, fuel);
    FieldsRead(env, fields, vs, fuel, b);
    FieldsRoundTrip(env, fields, vs, fuel, b, pos + 1);
    AnnotatedFieldsStep(env, cls, fields, vs, b, pos, pos + 1 + |Written(EmitList(vs))|, fuel);
  }

  /** A field list whose count matches decodes as its fields. */
  lemma AnnotatedFieldsStep(env: Schema, cls: Schema, fields: seq<Schema>, vs: seq<Value>, b: seq<byte>, pos: nat, p2: nat, fuel: nat)
    requires fields != [] && DecodeLength(b, pos) == Ok((|fields|, pos + 1))
    requires DecodeFields(env, fields, b, pos + 1, fuel) == Ok((vs, p2))
    ensures DecodeAnnotated(env, cls, fields, b, pos, fuel) == Ok((V(cls, Items(vs)), p2))
  {
  }

  lemma {:induction false} AnnotatedConforms(env: Schema, cls: Schema, layer: Schema, p: Payload, fuel: nat)
    requires layer.Annotated? && LayerConforms(env, cls, layer, p, fuel)
    ensures p.Items? && |p.vs| < 0x80
    ensures layer.fields == [] ==> ElemsConform(env, p.vs, DataRef, fuel)
    ensures layer.fields != [] ==> FieldsConform(env, p.vs, layer.fields, fuel)
    ensures EmitAt(cls, layer, p) == LengthChunks(|p.vs|) + EmitList(p.vs)
  {
  }

  /** The octets of a count-prefixed list: the count in one octet, then the elements. */
  lemma {:induction false} CountPrefixed(vs: seq<Value>, b: seq<byte>, pos: nat)
    requires |vs| < 0x80
    requires At(b, pos, Written(LengthChunks(|vs|) + EmitList(vs)))
    ensures Written(LengthChunks(|vs|) + EmitList(vs)) == [|vs|] + Written(EmitList(vs))
    ensures DecodeLength(b, pos) == Ok((|vs|, pos + 1))
    ensures At(b, pos + 1, Written(EmitList(vs)))
  {
    ShortLengthInPlace(|vs|);
    WrittenHere([|vs|], EmitList(vs));
    AtConcat(b, pos, [|vs|], Written(EmitList(vs)));
  }

  lemma {:induction false} FieldsLength(env: Schema, vs: seq<Value>, fields: seq<Schema>, fuel: nat)
    requires FieldsConform(env, vs, fields, fuel)
    ensures |vs| == |fields|
    decreases |vs|
  {
    if vs != [] {
      FieldsLength(env, vs[1..], fields[1..], fuel);
    }
  }

  /** A one-octet length n followed by the octets c reads back as n, then c. */
  lemma {:induction false} LengthThen(n: nat, c: seq<byte>, b: seq<byte>, pos: nat)
    requires n < 0x80
    requires At(b, pos, Written(LengthChunks(n) + [Here(c)]))
    ensures Written(LengthChunks(n) + [Here(c)]) == [n] + c
    ensures DecodeLength(b, pos) == Ok((n, pos + 1))
    ensures ReadBytes(b, pos + 1, |c|) == Ok((c, pos + 1 + |c|))
  {
    ShortLengthInPlace(n);
    WrittenHere([n], [Here(c)]);
    WrittenHere(c, []);
    AtConcat(b, pos, [n], c);
    assert b[pos..pos + 1][0] == b[pos] == n;
  }

  lemma {:induction false} EmitListCons(vs: seq<Value>)
    requires vs != []
    ensures EmitList(vs) == Emit(vs[0]) + EmitList(vs[1..])
  {
  }

  /** get of class s at p gives v back and stops right after its octets. */
  ghost predicate ReadsBack(env: Schema, s: Schema, v: Value, b: seq<byte>, p: nat, fuel: nat)
  {
    Decode(env, s, b, p, fuel) == Ok((v, p + |Encode(v)|))
  }

  /** Every element of vs reads back as itself through elem, wherever its octets sit in b. */
  ghost predicate EachReads(env: Schema, elem: Schema, vs: seq<Value>, b: seq<byte>, fuel: nat)
  {
    forall i, p: nat :: 0 <= i < |vs| && At(b, p, Encode(vs[i])) ==>
      ReadsBack(env, elem, vs[i], b, p, fuel)
  }

  /** Every field value reads back as itself through its field, wherever its octets sit in b. */
  ghost predicate EachFieldReads(env: Schema, fields: seq<Schema>, vs: seq<Value>, b: seq<byte>, fuel: nat)
  {
    && |vs| == |fields|
    && forall i, p: nat :: 0 <= i < |vs| && At(b, p, Encode(vs[i])) ==>
      ReadsBack(env, fields[i], vs[i], b, p, fuel)
  }

  lemma {:induction false} ElemsRead(env: Schema, elem: Schema, vs: seq<Value>, fuel: nat, b: seq<byte>)
    requires ElemsConform(env, vs, elem, fuel)
    ensures EachReads(env, elem, vs, b, fuel)
    decreases fuel, vs, 0, 0
  {
    forall i, p: nat | 0 <= i < |vs| && At(b, p, Encode(vs[i]))
      ensures ReadsBack(env, elem, vs[i], b, p, fuel)
    {
      ElemsConformAt(env, vs, elem, fuel, i);
      RoundTrip(env, vs[i], elem, fuel, b, p);
    }
  }

  lemma {:induction false} FieldsRead(env: Schema, fields: seq<Schema>, vs: seq<Value>, fuel: nat, b: seq<byte>)
    requires FieldsConform(env, vs, fields, fuel)
    ensures EachFieldReads(env, fields, vs, b, fuel)
    decreases fuel, vs, 0, 0
  {
    FieldsLength(env, vs, fields, fuel);
    forall i, p: nat | 0 <= i < |vs| && At(b, p, Encode(vs[i]))
      ensures ReadsBack(env, fields[i], vs[i], b, p, fuel)
    {
      var v, f := vs[i], fields[i];
      FieldsConformAt(env, vs, fields, fuel, i);
      assert v in vs;
      RoundTrip(env, v, f, fuel, b, p);
    }
  }

  lemma {:induction false} ElemsConformAt(env: Schema, vs: seq<Value>, elem: Schema, fuel: nat, i: nat)
    requires ElemsConform(env, vs, elem, fuel) && i < |vs|
    ensures Conforms(env, vs[i], elem, fuel)
    decreases i
  {
    ElemsConformCons(env, vs, elem, fuel);
    if i > 0 {
      ElemsConformAt(env, vs[1..], elem, fuel, i - 1);
    }
  }

  lemma {:induction false} FieldsConformAt(env: Schema, vs: seq<Value>, fields: seq<Schema>, fuel: nat, i: nat)
    requires FieldsConform(env, vs, fields, fuel) && i < |vs|
    ensures i < |fields| && Conforms(env, vs[i], fields[i], fuel)
    decreases i
  {
    FieldsConformCons(env, vs, fields, fuel);
    if i > 0 {
      FieldsConformAt(env, vs[1..], fields[1..], fuel, i - 1);
    }
  }

  /** The first value's octets come first in what the list writes; the others follow. */
  lemma {:induction false} ListSplit(vs: seq<Value>, b: seq<byte>, pos: nat)
    requires vs != [] && At(b, pos, Written(EmitList(vs)))
    ensures At(b, pos, Encode(vs[0])) && At(b, pos + |Encode(vs[0])|, Written(EmitList(vs[1..])))
    ensures |Written(EmitList(vs))| == |Encode(vs[0])| + |Written(EmitList(vs[1..]))|
  {
    EmitListCons(vs);
    WrittenConcat(Emit(vs[0]), EmitList(vs[1..]));
    AtConcat(b, pos, Encode(vs[0]), Written(EmitList(vs[1..])));
  }

  /** The fields read back one after the other, each from where the one before ends. */
  lemma {:induction false} FieldsRoundTrip(env: Schema, fields: seq<Schema>, vs: seq<Value>, fuel: nat, b: seq<byte>, pos: nat)
    requires EachFieldReads(env, fields, vs, b, fuel)
    requires At(b, pos, Written(EmitList(vs)))
    ensures DecodeFields(env, fields, b, pos, fuel) == Ok((vs, pos + |Written(EmitList(vs))|))
    decreases |vs|
  {
    if vs != [] {
      ListSplit(vs, b, pos);
      var p1: nat := pos + |Encode(vs[0])|;
      var p2: nat := p1 + |Written(EmitList(vs[1..]))|;
      EachFieldReadsCons(env, fields, vs, b, pos, fuel);
      assert Decode(env, fields[0], b, pos, fuel) == Ok((vs[0], p1));
      FieldsRoundTrip(env, fields[1..], vs[1..], fuel, b, p1);
      assert DecodeFields(env, fields[1..], b, p1, fuel) == Ok((vs[1..], p2));
      DecodeFieldsCons(env, fields, vs, b, pos, p1, p2, fuel);
      assert p2 == pos + |Written(EmitList(vs))|;
    }
  }

  /** The first field's value reads back from where its octets sit, and so does each of the others. */
  lemma EachFieldReadsCons(env: Schema, fields: seq<Schema>, vs: seq<Value>, b: seq<byte>, pos: nat, fuel: nat)
    requires vs != [] && EachFieldReads(env, fields, vs, b, fuel) && At(b, pos, Encode(vs[0]))
    ensures fields != [] && ReadsBack(env, fields[0], vs[0], b, pos, fuel)
    ensures EachFieldReads(env, fields[1..], vs[1..], b, fuel)
  {
    forall i, p: nat | 0 <= i < |vs[1..]| && At(b, p, Encode(vs[1..][i]))
      ensures ReadsBack(env, fields[1..][i], vs[1..][i], b, p, fuel)
    {
      assert vs[1..][i] == vs[i + 1] && fields[1..][i] == fields[i + 1];
    }
  }

  /** Reading the fields is reading the first, then the others from where it ends. */
  lemma {:induction false} DecodeFieldsCons(env: Schema, fields: seq<Schema>, vs: seq<Value>, b: seq<byte>, pos: nat, p1: nat, p2: nat, fuel: nat)
    requires vs != [] && fields != []
    requires Decode(env, fields[0], b, pos, fuel) == Ok((vs[0], p1))
    requires DecodeFields(env, fields[1..], b, p1, fuel) == Ok((vs[1..], p2))
    ensures DecodeFields(env, fields, b, pos, fuel) == Ok((vs, p2))
  {
    assert [vs[0]] + vs[1..] == vs;
  }

  /** n elements read back one after the other, each from where the one before ends. */
  lemma {:induction false} CountRoundTrip(env: Schema, elem: Schema, vs: seq<Value>, fuel: nat, b: seq<byte>, pos: nat)
    requires EachReads(env, elem, vs, b, fuel)
    requires At(b, pos, Written(EmitList(vs)))
    ensures DecodeCount(env, elem, |vs|, b, pos, fuel) == Ok((vs, pos + |Written(EmitList(vs))|))
    decreases |vs|
  {
    if vs != [] {
      ListSplit(vs, b, pos);
      EachReadsCons(env, elem, vs, b, pos, fuel);
      CountRoundTrip(env, elem, vs[1..], fuel, b, pos + |Encode(vs[0])|);
      var p1 := pos + |Encode(vs[0])|;
      CountStep(env, elem, vs, b, pos, p1, p1 + |Written(EmitList(vs[1..]))|, fuel);
    }
  }

  /** The step of CountRoundTrip: the first element read back, then the others from right after it. */
  lemma CountStep(env: Schema, elem: Schema, vs: seq<Value>, b: seq<byte>, pos: nat, p1: nat, p2: nat, fuel: nat)
    requires vs != [] && Decode(env, elem, b, pos, fuel) == Ok((vs[0], p1))
    requires DecodeCount(env, elem, |vs[1..]|, b, p1, fuel) == Ok((vs[1..], p2))
    ensures DecodeCount(env, elem, |vs|, b, pos, fuel) == Ok((vs, p2))
  {
    assert |vs[1..]| == |vs| - 1;
    DecodeCountCons(env, elem, vs, b, pos, p1, p2, fuel);
  }

  /** The first element reads back from where its octets sit, and so does each of the others. */
  lemma EachReadsCons(env: Schema, elem: Schema, vs: seq<Value>, b: seq<byte>, pos: nat, fuel: nat)
    requires vs != [] && EachReads(env, elem, vs, b, fuel) && At(b, pos, Encode(vs[0]))
    ensures ReadsBack(env, elem, vs[0], b, pos, fuel)
    ensures EachReads(env, elem, vs[1..], b, fuel)
  {
    forall i, p: nat | 0 <= i < |vs[1..]| && At(b, p, Encode(vs[1..][i]))
      ensures ReadsBack(env, elem, vs[1..][i], b, p, fuel)
    {
      assert vs[1..][i] == vs[i + 1];
    }
  }

  lemma {:induction false} FieldsConformCons(env: Schema, vs: seq<Value>, fields: seq<Schema>, fuel: nat)
    requires vs != [] && FieldsConform(env, vs, fields, fuel)
    ensures fields != [] && Conforms(env, vs[0], fields[0], fuel) && FieldsConform(env, vs[1..], fields[1..], fuel)
  {
  }

  lemma {:induction false} ElemsConformCons(env: Schema, vs: seq<Value>, elem: Schema, fuel: nat)
    requires vs != [] && ElemsConform(env, vs, elem, fuel)
    ensures Conforms(env, vs[0], elem, fuel) && ElemsConform(env, vs[1..], elem, fuel)
  {
  }

  /** Reading n values is reading the first, then the other n - 1 from where it ends. */
  lemma {:induction false} DecodeCountCons(env: Schema, elem: Schema, vs: seq<Value>, b: seq<byte>, pos: nat, p1: nat, p2: nat, fuel: nat)
    requires vs != []
    requires Decode(env, elem, b, pos, fuel) == Ok((vs[0], p1))
    requires DecodeCount(env, elem, |vs| - 1, b, p1, fuel) == Ok((vs[1..], p2))
    ensures DecodeCount(env, elem, |vs|, b, pos, fuel) == Ok((vs, p2))
  {
    assert [vs[0]] + vs[1..] == vs;
  }
}
