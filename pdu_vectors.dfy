// The octet strings the xDLMS PDUs are known to produce through create_buf:
// a GET, a SET and an ACTION request and a WRITE response, each sized by
// __len__ (one octet too many wherever an implicitly tagged CHOICE is
// involved), and the conformance block written into a buffer and read back.

module PduVectors {
  import opened Octets
  import opened Buffer
  import opened X690
  import opened Ber
  import opened Bits
  import opened AXdr
  import opened AXdrLen
  import opened AXdrGet
  import opened AXdrCodec
  import opened Cosem
  import opened CosemVectors

  /** vs are counted right and written in place, and put writes w. */
  ghost predicate Laid(vs: seq<Value>, w: seq<byte>)
  {
    MeasuredList(vs) && InPlace(EmitList(vs)) && Written(EmitList(vs)) == w
  }

  lemma LaidNil()
    ensures Laid([], [])
  {
  }

  /** Putting v ahead of values laid out in place puts v's octets ahead of theirs. */
  lemma LaidCons(v: Value, vs: seq<Value>, w: seq<byte>)
    requires Plain(v) && Laid(vs, w)
    ensures Laid([v] + vs, Encode(v) + w)
  {
    Cons(v, vs);
  }

  /** Octets o put ahead of chunks laid out in place. */
  lemma Prefixed(o: seq<byte>, cs: seq<Chunk>)
    requires InPlace(cs)
    ensures InPlace([Here(o)] + cs) && Written([Here(o)] + cs) == o + Written(cs)
  {
    WrittenHere(o, cs);
    forall i | 1 <= i < |[Here(o)] + cs| ensures ([Here(o)] + cs)[i].Here? {
      assert ([Here(o)] + cs)[i] == cs[i - 1];
    }
  }

  // ------------------------------------------------------ building blocks

  /** A SEQUENCE writes its fields one after the other. */
  lemma Fields(fs: seq<Schema>, vs: seq<Value>, w: seq<byte>)
    requires Laid(vs, w)
    ensures Plain(V(Seq(fs), Items(vs))) && Encode(V(Seq(fs), Items(vs))) == w
  {
    assert Emit(V(Seq(fs), Items(vs))) == EmitList(vs);
  }

  /** An implicitly tagged SEQUENCE writes its tag, then its fields. */
  lemma TaggedFields(t: byte, fs: seq<Schema>, vs: seq<Value>, w: seq<byte>)
    requires Laid(vs, w)
    ensures var v := V(Implicit(t, Seq(fs)), Items(vs));
      Plain(v) && Encode(v) == [t] + w
  {
    var v := V(Implicit(t, Seq(fs)), Items(vs));
    assert EmitAt(v.cls, Seq(fs), v.p) == EmitList(vs);
    assert Emit(v) == [Here([t])] + EmitList(vs);
    Prefixed([t], EmitList(vs));
    assert MeasuredAt(v.cls, Seq(fs), v.p);
  }

  /** A present OPTIONAL SEQUENCE writes the flag 01, then its fields. */
  lemma PresentFields(fs: seq<Schema>, vs: seq<Value>, w: seq<byte>)
    requires Laid(vs, w)
    ensures var v := V(Optional(Seq(fs)), Items(vs));
      Plain(v) && Encode(v) == [1] + w
  {
    var v := V(Optional(Seq(fs)), Items(vs));
    assert EmitAt(v.cls, Seq(fs), v.p) == EmitList(vs);
    assert Emit(v) == [Here([1])] + EmitList(vs);
    Prefixed([1], EmitList(vs));
    assert MeasuredAt(v.cls, Seq(fs), v.p);
  }

  /** An absent OPTIONAL SEQUENCE writes the flag 00 and is counted as one octet. */
  lemma AbsentFields(fs: seq<Schema>)
    ensures var v := V(Optional(Seq(fs)), Absent);
      Plain(v) && Encode(v) == [0]
  {
    var v := V(Optional(Seq(fs)), Absent);
    assert Emit(v) == [Here([0])];
    WrittenHere([0], []);
    assert LenAt(v.cls, Seq(fs), Absent) == 0;
  }

  /** An implicitly tagged SEQUENCE OF writes its tag, the element count, then the elements. */
  lemma TaggedElements(t: byte, e: Schema, vs: seq<Value>, w: seq<byte>)
    requires |vs| < 0x80 && Laid(vs, w)
    ensures var v := V(Implicit(t, SeqOf(e)), Items(vs));
      Plain(v) && Encode(v) == [t, |vs|] + w
  {
    var v := V(Implicit(t, SeqOf(e)), Items(vs));
    ShortLengthInPlace(|vs|);
    assert EmitAt(v.cls, SeqOf(e), v.p) == [Here([|vs|])] + EmitList(vs);
    assert Emit(v) == [Here([t])] + ([Here([|vs|])] + EmitList(vs));
    Prefixed([|vs|], EmitList(vs));
    Prefixed([t], [Here([|vs|])] + EmitList(vs));
    assert [t] + ([|vs|] + w) == [t, |vs|] + w;
    assert MeasuredAt(v.cls, SeqOf(e), v.p);
  }

  /** A CHOICE without a tag of its own holding a writes what a writes, and counts it. */
  lemma Held(alts: seq<Schema>, a: Value)
    requires Plain(a)
    ensures Plain(V(Choice(alts), Chosen(a))) && Encode(V(Choice(alts), Chosen(a))) == Encode(a)
  {
    assert Emit(V(Choice(alts), Chosen(a))) == Emit(a);
  }

  /** A tagged NULL writes its tag only. */
  lemma TaggedNull(t: byte)
    ensures Plain(V(Implicit(t, Null), NoValue)) && Encode(V(Implicit(t, Null), NoValue)) == [t]
  {
    var v := V(Implicit(t, Null), NoValue);
    assert EmitAt(v.cls, Null, NoValue) == [];
    assert Emit(v) == [Here([t])] + [];
    WrittenHere([t], []);
    assert MeasuredAt(v.cls, Null, NoValue);
  }

  /**
   * create_buf of an xDLMS-APDU holding a value of an implicitly tagged
   * CHOICE cls that holds a: the tag, a's octets w, then the 00 octet
   * __len__ counted twice.
   */
  lemma TaggedChoiceApdu(cls: Schema, a: Value, w: seq<byte>)
    requires cls.Implicit? && cls.inner.Choice? && cls.tag != 0
    requires Plain(a) && Encode(a) == w
    ensures var v := V(XdlmsApdu, Chosen(V(cls, Chosen(a))));
      Len(v) == |w| + 2 &&
      Apply(Zeros(Len(v)), 0, Emit(v)) == Wrote([cls.tag] + w + [0], 1 + |w|)
  {
    var c := V(cls, Chosen(a));
    var v := V(XdlmsApdu, Chosen(c));
    assert Emit(v) == Emit(c);
    ChoicePutDelegates(XdlmsApdu.alts, c);
    TaggedChoicePut(cls.tag, cls.inner.alts, a);
    TaggedChoiceOverCount(cls.tag, cls.inner.alts, a);
    CreateBufTaggedChoice(cls.tag, cls.inner.alts, a);
  }

  // ---------------------------------------------------------------- PDUs

  /** A COSEM attribute descriptor: class id, instance id, attribute id. */
  function Descriptor(classId: seq<byte>, instance: seq<byte>, attr: byte): Value
  {
    V(CosemAttributeDescriptor, Items([
      V(CosemClassId, Raw(classId)), V(CosemObjectInstanceId, Raw(instance)), V(CosemObjectAttributeId, Raw([attr]))]))
  }

  /** The descriptor writes the class id, the instance id and the attribute id, nothing between. */
  lemma DescriptorOctets(classId: seq<byte>, instance: seq<byte>, attr: byte)
    requires |classId| == 2 && |instance| == 6
    ensures Plain(Descriptor(classId, instance, attr))
    ensures Encode(Descriptor(classId, instance, attr)) == classId + instance + [attr]
  {
    var a, b, c := V(CosemClassId, Raw(classId)), V(CosemObjectInstanceId, Raw(instance)), V(CosemObjectAttributeId, Raw([attr]));
    Scalar(CosemClassId, classId);
    Scalar(CosemObjectInstanceId, instance);
    Scalar(CosemObjectAttributeId, [attr]);
    LaidNil();
    LaidCons(c, [], []);
    LaidCons(b, [c], [attr] + []);
    LaidCons(a, [b, c], instance + ([attr] + []));
    assert [a] + [b, c] == [a, b, c] && [b] + [c] == [b, c] && [c] + [] == [c];
    assert classId + (instance + ([attr] + [])) == classId + instance + [attr];
    Fields(CosemAttributeDescriptor.fields, [a, b, c], classId + instance + [attr]);
  }

  /** A present selective access: the flag 01, the selector, then the Data's octets. */
  function Selection(sel: byte, d: Value): Value
  {
    V(SelectiveAccessDescriptorOptional, Items([V(Unsigned8, Raw([sel])), V(Data, Chosen(d))]))
  }

  lemma SelectionOctets(sel: byte, d: Value)
    requires Plain(d)
    ensures Plain(Selection(sel, d)) && Encode(Selection(sel, d)) == [1, sel] + Encode(d)
  {
    var s, dd := V(Unsigned8, Raw([sel])), V(Data, Chosen(d));
    Scalar(Unsigned8, [sel]);
    Held(DataAlts, d);
    LaidNil();
    LaidCons(dd, [], []);
    LaidCons(s, [dd], Encode(d) + []);
    assert [s] + [dd] == [s, dd] && [dd] + [] == [dd];
    PresentFields(SelectiveAccessDescriptor.fields, [s, dd], [sel] + (Encode(d) + []));
    assert [1] + ([sel] + (Encode(d) + [])) == [1, sel] + Encode(d);
  }

  /** Values of three fields laid out one after the other. */
  lemma Laid3(a: Value, b: Value, c: Value)
    requires Plain(a) && Plain(b) && Plain(c)
    ensures Laid([a, b, c], Encode(a) + Encode(b) + Encode(c))
  {
    LaidNil();
    LaidCons(c, [], []);
    LaidCons(b, [c], Encode(c) + []);
    LaidCons(a, [b, c], Encode(b) + (Encode(c) + []));
    assert [a] + [b, c] == [a, b, c] && [b] + [c] == [b, c] && [c] + [] == [c];
    assert Encode(a) + (Encode(b) + (Encode(c) + [])) == Encode(a) + Encode(b) + Encode(c);
  }

  /** Values of four fields laid out one after the other. */
  lemma Laid4(a: Value, b: Value, c: Value, d: Value)
    requires Plain(a) && Plain(b) && Plain(c) && Plain(d)
    ensures Laid([a, b, c, d], Encode(a) + Encode(b) + Encode(c) + Encode(d))
  {
    Laid3(b, c, d);
    LaidCons(a, [b, c, d], Encode(b) + Encode(c) + Encode(d));
    assert [a] + [b, c, d] == [a, b, c, d];
    assert Encode(a) + (Encode(b) + Encode(c) + Encode(d)) == Encode(a) + Encode(b) + Encode(c) + Encode(d);
  }

  /**
   * get-request-normal with invoke-id inv, an attribute descriptor and an
   * access selection: its tag 01, inv, then the two fields' octets.
   */
  lemma GetRequestNormalOctets(inv: byte, desc: Value, sel: Value)
    requires Plain(desc) && Plain(sel)
    ensures var v := V(getRequestNormal, Items([V(InvokeIdAndPriority, Raw([inv])), desc, sel]));
      Plain(v) && Encode(v) == [1, inv] + Encode(desc) + Encode(sel)
  {
    var i := V(InvokeIdAndPriority, Raw([inv]));
    Scalar(InvokeIdAndPriority, [inv]);
    Laid3(i, desc, sel);
    TaggedFields(1, GetRequestNormal.fields, [i, desc, sel], Encode(i) + Encode(desc) + Encode(sel));
    assert [1] + ([inv] + Encode(desc) + Encode(sel)) == [1, inv] + Encode(desc) + Encode(sel);
  }

  /** get-request-normal selecting attribute attr of the object with a selector and a double-long parameter x. */
  function GetNormal(inv: byte, classId: seq<byte>, instance: seq<byte>, attr: byte, sel: byte, x: seq<byte>): Value
  {
    V(getRequestNormal, Items([
      V(InvokeIdAndPriority, Raw([inv])), Descriptor(classId, instance, attr), Selection(sel, V(DoubleLong, Raw(x)))]))
  }

  lemma GetNormalOctets(inv: byte, classId: seq<byte>, instance: seq<byte>, attr: byte, sel: byte, x: seq<byte>)
    requires |classId| == 2 && |instance| == 6 && |x| == 4
    ensures var g := GetNormal(inv, classId, instance, attr, sel, x);
      Plain(g) && Encode(g) == [0x01, inv] + classId + instance + [attr, 0x01, sel, 0x05] + x
  {
    var desc := Descriptor(classId, instance, attr);
    var d := V(DoubleLong, Raw(x));
    DescriptorOctets(classId, instance, attr);
    TaggedScalar(5, Integer32, x);
    SelectionOctets(sel, d);
    GetRequestNormalOctets(inv, desc, Selection(sel, d));
  }

  /** An xDLMS-APDU holding getRequest that holds g. */
  lemma GetRequestApdu(g: Value, w: seq<byte>)
    requires Plain(g) && Encode(g) == w
    ensures var v := V(XdlmsApdu, Chosen(V(getRequest, Chosen(g))));
      Len(v) == |w| + 2 && Apply(Zeros(Len(v)), 0, Emit(v)) == Wrote([0xC0] + w + [0], 1 + |w|)
  {
    TaggedChoiceApdu(getRequest, g, w);
  }

  /**
   * 'c0 01 03 00 07 00 00 60 61 01 ff 02 01 01 05 00 00 00 00 00' is the
   * buffer create_buf makes for get-request-normal of attribute 2 of class
   * 7 at 0.0.96.97.1.255, invoke-id 3, selector 1 with double-long 0, in
   * an xDLMS-APDU: __len__ is 20, put writes 19 octets, and the last
   * octet stays 00 because the getRequest tag is counted twice.
   */
  lemma GetRequestNormalVector(b: seq<byte>, classId: seq<byte>, instance: seq<byte>, x: seq<byte>)
    requires classId == [0x00, 0x07] && instance == [0x00, 0x00, 0x60, 0x61, 0x01, 0xFF] && x == [0, 0, 0, 0]
    requires b == [0xC0, 0x01, 0x03, 0x00, 0x07, 0x00, 0x00, 0x60, 0x61, 0x01,
                   0xFF, 0x02, 0x01, 0x01, 0x05, 0x00, 0x00, 0x00, 0x00, 0x00]
    ensures var v := V(XdlmsApdu, Chosen(V(getRequest, Chosen(GetNormal(3, classId, instance, 2, 1, x)))));
      Len(v) == 20 && Apply(Zeros(Len(v)), 0, Emit(v)) == Wrote(b, 19)
  {
    var g := GetNormal(3, classId, instance, 2, 1, x);
    GetNormalOctets(3, classId, instance, 2, 1, x);
    var w := Encode(g);
    GetRequestApdu(g, w);
    GetRequestNormalLayout(b, classId, instance, x, w);
  }

  lemma GetRequestNormalLayout(b: seq<byte>, classId: seq<byte>, instance: seq<byte>, x: seq<byte>, w: seq<byte>)
    requires classId == [0x00, 0x07] && instance == [0x00, 0x00, 0x60, 0x61, 0x01, 0xFF] && x == [0, 0, 0, 0]
    requires b == [0xC0, 0x01, 0x03, 0x00, 0x07, 0x00, 0x00, 0x60, 0x61, 0x01,
                   0xFF, 0x02, 0x01, 0x01, 0x05, 0x00, 0x00, 0x00, 0x00, 0x00]
    requires w == [0x01, 0x03] + classId + instance + [0x02, 0x01, 0x01, 0x05] + x
    ensures [0xC0] + w + [0] == b
  {
  }

  /** set-request-normal of attribute attr of the object, no selection, the value an unsigned u. */
  function SetNormal(inv: byte, classId: seq<byte>, instance: seq<byte>, attr: byte, u: byte): Value
  {
    V(setRequestNormal, Items([
      V(InvokeIdAndPriority, Raw([inv])), Descriptor(classId, instance, attr),
      V(SelectiveAccessDescriptorOptional, Absent), V(Data, Chosen(V(Unsigned, Raw([u]))))]))
  }

  lemma SetNormalOctets(inv: byte, classId: seq<byte>, instance: seq<byte>, attr: byte, u: byte)
    requires |classId| == 2 && |instance| == 6
    ensures var s := SetNormal(inv, classId, instance, attr, u);
      Plain(s) && Encode(s) == [0x01, inv] + classId + instance + [attr, 0x00, 0x11, u]
  {
    var i := V(InvokeIdAndPriority, Raw([inv]));
    var desc := Descriptor(classId, instance, attr);
    var none := V(SelectiveAccessDescriptorOptional, Absent);
    var d := V(Data, Chosen(V(Unsigned, Raw([u]))));
    Scalar(InvokeIdAndPriority, [inv]);
    DescriptorOctets(classId, instance, attr);
    AbsentFields(SelectiveAccessDescriptor.fields);
    TaggedScalar(17, Unsigned8, [u]);
    Held(DataAlts, V(Unsigned, Raw([u])));
    Laid4(i, desc, none, d);
    TaggedFields(1, SetRequestNormal.fields, [i, desc, none, d], Encode(i) + Encode(desc) + Encode(none) + Encode(d));
    assert [1] + ([inv] + (classId + instance + [attr]) + [0] + [0x11, u]) ==
      [0x01, inv] + classId + instance + [attr, 0x00, 0x11, u];
  }

  /**
   * 'c1 01 0a 00 08 00 00 01 00 00 ff 02 00 11 04 00' is create_buf of
   * set-request-normal of attribute 2 of class 8 at 0.0.1.0.0.255,
   * invoke-id 10, no selection, the unsigned 4, in an xDLMS-APDU: the
   * absent selection is the single octet 00, and the last octet is the
   * setRequest tag counted twice.
   */
  lemma SetRequestNormalVector(b: seq<byte>, classId: seq<byte>, instance: seq<byte>)
    requires classId == [0x00, 0x08] && instance == [0x00, 0x00, 0x01, 0x00, 0x00, 0xFF]
    requires b == [0xC1, 0x01, 0x0A, 0x00, 0x08, 0x00, 0x00, 0x01, 0x00, 0x00, 0xFF, 0x02, 0x00, 0x11, 0x04, 0x00]
    ensures var v := V(XdlmsApdu, Chosen(V(setRequest, Chosen(SetNormal(10, classId, instance, 2, 4)))));
      Len(v) == 16 && Apply(Zeros(Len(v)), 0, Emit(v)) == Wrote(b, 15)
  {
    var r := SetNormal(10, classId, instance, 2, 4);
    SetNormalOctets(10, classId, instance, 2, 4);
    var w := Encode(r);
    SetRequestApdu(r, w);
    SetRequestNormalLayout(b, classId, instance, w);
  }

  /** An xDLMS-APDU holding setRequest that holds r. */
  lemma SetRequestApdu(r: Value, w: seq<byte>)
    requires Plain(r) && Encode(r) == w
    ensures var v := V(XdlmsApdu, Chosen(V(setRequest, Chosen(r))));
      Len(v) == |w| + 2 && Apply(Zeros(Len(v)), 0, Emit(v)) == Wrote([0xC1] + w + [0], 1 + |w|)
  {
    TaggedChoiceApdu(setRequest, r, w);
  }

  lemma SetRequestNormalLayout(b: seq<byte>, classId: seq<byte>, instance: seq<byte>, w: seq<byte>)
    requires classId == [0x00, 0x08] && instance == [0x00, 0x00, 0x01, 0x00, 0x00, 0xFF]
    requires b == [0xC1, 0x01, 0x0A, 0x00, 0x08, 0x00, 0x00, 0x01, 0x00, 0x00, 0xFF, 0x02, 0x00, 0x11, 0x04, 0x00]
    requires w == [0x01, 0x0A] + classId + instance + [0x02, 0x00, 0x11, 0x04]
    ensures [0xC1] + w + [0] == b
  {
  }

  /** action-request-next-pblock: invoke-id and block number. */
  function NextPblock(inv: byte, n: seq<byte>): Value
  {
    V(actionRequestNextPblock, Items([V(InvokeIdAndPriority, Raw([inv])), V(Unsigned32, Raw(n))]))
  }

  /**
   * create_buf of actionRequest holding action-request-next-pblock: C3, 02,
   * the invoke-id, the four block-number octets, and one 00 octet more
   * than put writes.
   */
  lemma NextPblockBuffer(inv: byte, n: seq<byte>)
    requires |n| == 4
    ensures var v := V(actionRequest, Chosen(NextPblock(inv, n)));
      Len(v) == 8 && Apply(Zeros(Len(v)), 0, Emit(v)) == Wrote([0xC3, 0x02, inv] + n + [0], 7)
  {
    var a := NextPblock(inv, n);
    NextPblockLaid(inv, n);
    TaggedChoicePut(195, ActionRequest.alts, a);
    TaggedChoiceOverCount(195, ActionRequest.alts, a);
    CreateBufTaggedChoice(195, ActionRequest.alts, a);
    assert [0xC3] + ([2] + ([inv] + (n + []))) + [0] == [0xC3, 0x02, inv] + n + [0];
  }

  /** action-request-next-pblock alone: its tag 02, the invoke-id, the block number, all in place. */
  lemma NextPblockLaid(inv: byte, n: seq<byte>)
    requires |n| == 4
    ensures Plain(NextPblock(inv, n)) && Encode(NextPblock(inv, n)) == [2] + ([inv] + (n + []))
  {
    var i, k := V(InvokeIdAndPriority, Raw([inv])), V(Unsigned32, Raw(n));
    Scalar(InvokeIdAndPriority, [inv]);
    Scalar(Unsigned32, n);
    LaidNil();
    LaidCons(k, [], []);
    LaidCons(i, [k], n + []);
    assert [i] + [k] == [i, k] && [k] + [] == [k];
    TaggedFields(2, ActionRequestNextPblock.fields, [i, k], [inv] + (n + []));
  }

  /** 'c3 02 01 00 00 00 01 00' is create_buf of actionRequest holding action-request-next-pblock 1, 1. */
  lemma ActionRequestNextPblockVector(b: seq<byte>, n: seq<byte>)
    requires n == [0x00, 0x00, 0x00, 0x01]
    requires b == [0xC3, 0x02, 0x01, 0x00, 0x00, 0x00, 0x01, 0x00]
    ensures var v := V(actionRequest, Chosen(NextPblock(1, n)));
      Len(v) == 8 && Apply(Zeros(Len(v)), 0, Emit(v)) == Wrote(b, 7)
  {
    NextPblockBuffer(1, n);
  }

  /** write-response with the results success and data-access-result r. */
  function WriteResult(r: byte): Value
  {
    V(WriteResponseTagged, Items([
      V(WriteResponseElement, Chosen(V(Success, NoValue))),
      V(WriteResponseElement, Chosen(V(DataAccessResultTagged, Raw([r]))))]))
  }

  /**
   * create_buf of that response in an xDLMS-APDU: tag 0D, the count 02,
   * success as its tag 00, the result as its tag 01 and r. No tagged
   * CHOICE is involved, so __len__ is exact and every octet is written.
   */
  lemma WriteResultBuffer(r: byte)
    ensures var v := V(XdlmsApdu, Chosen(WriteResult(r)));
      Len(v) == 5 && Apply(Zeros(Len(v)), 0, Emit(v)) == Wrote([0x0D, 0x02, 0x00, 0x01, r], 5)
  {
    WriteResultLaid(r);
    var v := V(XdlmsApdu, Chosen(WriteResult(r)));
    Held(XdlmsApdu.alts, WriteResult(r));
    CreateBufExact(v);
    LenIsWritten(v);
  }

  /** The response alone encodes as 0D 02 00 01 r, all of it written in place. */
  lemma WriteResultLaid(r: byte)
    ensures Plain(WriteResult(r)) && Encode(WriteResult(r)) == [0x0D, 0x02, 0x00, 0x01, r]
  {
    var e0 := V(WriteResponseElement, Chosen(V(Success, NoValue)));
    var e1 := V(WriteResponseElement, Chosen(V(DataAccessResultTagged, Raw([r]))));
    TaggedNull(0);
    Held(WriteResponseElement.alts, V(Success, NoValue));
    TaggedScalar(1, DataAccessResult, [r]);
    Held(WriteResponseElement.alts, V(DataAccessResultTagged, Raw([r])));
    LaidNil();
    LaidCons(e1, [], []);
    LaidCons(e0, [e1], [1, r] + []);
    assert [e0] + [e1] == [e0, e1] && [e1] + [] == [e1];
    TaggedElements(13, WriteResponseElement, [e0, e1], [0] + ([1, r] + []));
    assert [13, 2] + ([0] + ([1, r] + [])) == [0x0D, 0x02, 0x00, 0x01, r];
  }

  /** '0d 02 00 01 04' is create_buf of write-response success, data-access-result 4. */
  lemma WriteResponseVector(b: seq<byte>)
    requires b == [0x0D, 0x02, 0x00, 0x01, 0x04]
    ensures var v := V(XdlmsApdu, Chosen(WriteResult(4)));
      Len(v) == 5 && Apply(Zeros(Len(v)), 0, Emit(v)) == Wrote(b, 5)
  {
    WriteResultBuffer(4);
  }

  // --------------------------------------------------------- Conformance

  /**
   * A conformance block of value octets c (the unused-bit octet first)
   * put into a buffer of ten octets: the identifier 5f 1f of
   * [APPLICATION 31], the length, then c; get from the start of the
   * buffer reads the same block back.
   */
  lemma ConformancePutGet(c: seq<byte>)
    requires |c| <= 7
    ensures var v := V(Conformance, Raw(c));
      var b := [0x5F, 0x1F, |c|] + c + Zeros(7 - |c|);
      Apply(Zeros(10), 0, Emit(v)) == Wrote(b, 3 + |c|) &&
      Decode(Data, Conformance, b, 0, 0) == Ok((v, 3 + |c|))
  {
    ConformancePut(c);
    ConformanceGet(Data, c, [0x5F, 0x1F, |c|] + c + Zeros(7 - |c|));
  }

  lemma ConformancePut(c: seq<byte>)
    requires |c| <= 7
    ensures Apply(Zeros(10), 0, Emit(V(Conformance, Raw(c)))) == Wrote([0x5F, 0x1F, |c|] + c + Zeros(7 - |c|), 3 + |c|)
  {
    var v := V(Conformance, Raw(c));
    ConformanceOctets(c);
    ApplyInPlace(Zeros(10), 0, Emit(v));
    ZerosSpliced(10, Encode(v));
  }

  lemma ConformanceGet(env: Schema, c: seq<byte>, b: seq<byte>)
    requires |c| <= 7 && b == [0x5F, 0x1F, |c|] + c + Zeros(7 - |c|)
    ensures Decode(env, Conformance, b, 0, 0) == Ok((V(Conformance, Raw(c)), 3 + |c|))
  {
    var v := V(Conformance, Raw(c));
    ConformanceOctets(c);
    assert b[0..3 + |c|] == Encode(v);
    assert LayerConforms(env, Conformance, Conformance, v.p, 0);
    RoundTrip(env, v, Conformance, 0, b, 0);
  }

  /** The conformance block writes 5f 1f, its length and its octets, all in place. */
  lemma ConformanceOctets(c: seq<byte>)
    requires |c| < 0x80
    ensures InPlace(Emit(V(Conformance, Raw(c))))
    ensures Encode(V(Conformance, Raw(c))) == [0x5F, 0x1F, |c|] + c
  {
    var tag := X690.Tag(31, Application);
    assert TagOctets(tag) == [0x5F, 0x1F];
    BerWritten(tag, c);
    assert Emit(V(Conformance, Raw(c))) == BerChunks(tag, c);
  }

  /**
   * The conformance block '101001100100110010101101' (no unused bits,
   * octets a6 4c ad) written into ten octets and read back.
   */
  lemma ConformanceVector(b: seq<byte>, c: seq<byte>)
    requires c == [0x00, 0xA6, 0x4C, 0xAD]
    requires b == [0x5F, 0x1F, 0x04, 0x00, 0xA6, 0x4C, 0xAD, 0x00, 0x00, 0x00]
    ensures Apply(Zeros(10), 0, Emit(V(Conformance, Raw(c)))) == Wrote(b, 7)
    ensures Decode(Data, Conformance, b, 0, 0) == Ok((V(Conformance, Raw(c)), 7))
  {
    ConformancePutGet(c);
    assert [0x5F, 0x1F, |c|] + c + Zeros(7 - |c|) == b;
  }

  /** Three octets' worth of bits pack into those three octets. */
  lemma PackThree(a: seq<bit>, b: seq<bit>, c: seq<bit>)
    requires |a| == 8 && |b| == 8 && |c| == 8
    ensures Pack(a + b + c) == [OctetOf(a), OctetOf(b), OctetOf(c)]
  {
    PackOne(c);
    PackCons(b, c);
    assert a + b + c == a + (b + c);
    PackCons(a, b + c);
  }

  /** The octet of eight bits is the number they stand for. */
  lemma OctetValue(c: seq<bit>, x: byte)
    requires |c| == 8 && FromBits(c) == x
    ensures OctetOf(c) == x
  {
    assert c + ZeroBits(0) == c;
  }

  /**
   * from_str('101001100100110010101101') for the conformance block: no
   * unused bits, then the octets a6 4c ad; to_list of those octets gives
   * the bits back.
   */
  lemma ConformanceFromStr(l: seq<bit>, a: seq<bit>, b: seq<bit>, c: seq<bit>)
    requires a == [1, 0, 1, 0, 0, 1, 1, 0] && b == [0, 1, 0, 0, 1, 1, 0, 0] && c == [1, 0, 1, 0, 1, 1, 0, 1]
    requires l == a + b + c
    ensures BerFromList(l) == [0x00, 0xA6, 0x4C, 0xAD]
    ensures BerToList([0x00, 0xA6, 0x4C, 0xAD]) == Ok(l)
  {
    FromBitsOctet(a);
    FromBitsOctet(b);
    FromBitsOctet(c);
    OctetValue(a, 0xA6);
    OctetValue(b, 0x4C);
    OctetValue(c, 0xAD);
    PackThree(a, b, c);
    BerListRoundTrip(l);
  }
}
