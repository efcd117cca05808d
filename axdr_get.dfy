// What the A-XDR get of each layer does with the octets in front of it: the
// error cases, the OPTIONAL flag, the counts, and the CHOICE dispatch that
// returns the alternative rather than a CHOICE holding it.

module AXdrGet {
  import opened Octets
  import opened Buffer
  import opened X690
  import opened Asn1
  import opened AXdr
  import opened AXdrLen

  /** Implicit.get: a tag octet other than t is refused; t hands the rest to the inner get. */
  lemma ImplicitTagChecked(env: Schema, cls: Schema, t: byte, inner: Schema, b: seq<byte>, pos: nat, fuel: nat)
    ensures pos >= |b| ==> DecodeLayer(env, cls, Implicit(t, inner), b, pos, fuel) == Err(Exhausted(pos, 1))
    ensures pos < |b| && b[pos] != t ==> DecodeLayer(env, cls, Implicit(t, inner), b, pos, fuel) == Err(TagMismatch(t, b[pos]))
    ensures pos < |b| && b[pos] == t ==>
      DecodeLayer(env, cls, Implicit(t, inner), b, pos, fuel) == DecodeLayer(env, cls, inner, b, pos + 1, fuel)
  {
    var r := DecodeLayer(env, cls, Implicit(t, inner), b, pos, fuel);
    assert r == DecodeImplicit(env, cls, t, inner, b, pos, fuel);
    if pos >= |b| {
      assert Peek(b, pos) == Err(Exhausted(pos, 1));
    } else {
      assert Peek(b, pos) == Ok(b[pos]);
    }
  }

  /**
   * Optional.get: a flag octet 00 is the absent value and nothing more is
   * read; any other flag octet is followed by the inner get.
   */
  lemma OptionalFlag(env: Schema, cls: Schema, inner: Schema, b: seq<byte>, pos: nat, fuel: nat)
    ensures pos >= |b| ==> DecodeLayer(env, cls, Optional(inner), b, pos, fuel) == Err(Exhausted(pos, 1))
    ensures pos < |b| && b[pos] == 0 ==> DecodeLayer(env, cls, Optional(inner), b, pos, fuel) == Ok((V(cls, Absent), pos + 1))
    ensures pos < |b| && b[pos] != 0 ==>
      DecodeLayer(env, cls, Optional(inner), b, pos, fuel) == DecodeLayer(env, cls, inner, b, pos + 1, fuel)
  {
    assert DecodeLayer(env, cls, Optional(inner), b, pos, fuel) == DecodeOptional(env, cls, inner, b, pos, fuel);
    if pos < |b| {
      assert ReadBytes(b, pos, 1) == Ok((b[pos..pos + 1], pos + 1));
      assert b[pos] == 0 <==> b[pos..pos + 1] == [0] by {
        assert b[pos..pos + 1][0] == b[pos];
      }
    }
  }

  /** _StringCoder.get: exactly the n octets its length announces, an indefinite length refused. */
  lemma StrReadsDeclared(cls: Schema, k: StringKind, b: seq<byte>, pos: nat, fuel: nat, env: Schema)
    requires DecodeLength(b, pos).Ok?
    ensures var (n, p) := DecodeLength(b, pos).value;
      && (n < 0 ==> DecodeLayer(env, cls, Str(k), b, pos, fuel) == Err(IndefiniteLength))
      && (0 <= n && p + n <= |b| ==> DecodeLayer(env, cls, Str(k), b, pos, fuel) == Ok((V(cls, Raw(b[p..p + n])), p + n)))
      && (0 <= n && p + n > |b| ==> DecodeLayer(env, cls, Str(k), b, pos, fuel).Err?)
  {
  }

  /**
   * BitStringType.get: ceil(count / 8) content octets after the count; an
   * indefinite count reads none and keeps -1 as the count.
   */
  lemma BitStrReadsCeiling(env: Schema, cls: Schema, b: seq<byte>, pos: nat, fuel: nat)
    requires DecodeLength(b, pos).Ok?
    ensures var (n, p) := DecodeLength(b, pos).value;
      var m := if n < 0 then 0 else (n + 7) / 8;
      && (p + m <= |b| ==> DecodeLayer(env, cls, BitStr, b, pos, fuel) == Ok((V(cls, Bits(n, b[p..p + m])), p + m)))
      && (p + m > |b| ==> DecodeLayer(env, cls, BitStr, b, pos, fuel).Err?)
  {
  }

  /** SequenceOfType.get: as many elements as the count says; an indefinite count (-1) gives none. */
  lemma {:induction false} SeqOfCount(env: Schema, cls: Schema, elem: Schema, b: seq<byte>, pos: nat, fuel: nat)
    requires DecodeLayer(env, cls, SeqOf(elem), b, pos, fuel).Ok?
    ensures DecodeLength(b, pos).Ok?
    ensures var v := DecodeLayer(env, cls, SeqOf(elem), b, pos, fuel).value.0;
      var n := DecodeLength(b, pos).value.0;
      v.cls == cls && v.p.Items? && |v.p.vs| == (if n < 0 then 0 else n)
  {
    var (n, p) := DecodeLength(b, pos).value;
    assert DecodeCount(env, elem, if n < 0 then 0 else n, b, p, fuel).Ok?;
  }

  /**
   * AnnotationSequenceOfData.get with declared fields: a count other than
   * the number of fields is refused before any field is read.
   */
  lemma AnnotatedCountChecked(env: Schema, cls: Schema, fields: seq<Schema>, b: seq<byte>, pos: nat, fuel: nat)
    requires fields != [] && DecodeLength(b, pos).Ok?
    ensures DecodeLength(b, pos).value.0 != |fields| ==>
      DecodeLayer(env, cls, Annotated(fields), b, pos, fuel) == Err(CountMismatch(DecodeLength(b, pos).value.0, |fields|))
    ensures DecodeLength(b, pos).value.0 == |fields| && DecodeLayer(env, cls, Annotated(fields), b, pos, fuel).Ok? ==>
      && DecodeLayer(env, cls, Annotated(fields), b, pos, fuel).value.0.p.Items?
      && |DecodeLayer(env, cls, Annotated(fields), b, pos, fuel).value.0.p.vs| == |fields|
  {
    assert DecodeLayer(env, cls, Annotated(fields), b, pos, fuel) == DecodeAnnotated(env, cls, fields, b, pos, fuel);
  }

  /** A structure without declared fields reads its count of Data elements, as SequenceOfType does. */
  lemma StructureFallsBack(env: Schema, cls: Schema, b: seq<byte>, pos: nat, fuel: nat)
    ensures DecodeLayer(env, cls, Annotated([]), b, pos, fuel) == DecodeLayer(env, cls, SeqOf(DataRef), b, pos, fuel)
  {
  }

  /** Choice.get: an octet that is no alternative's tag is refused, listing the tags it accepts. */
  lemma ChoiceUnknownTag(env: Schema, alts: seq<Schema>, b: seq<byte>, pos: nat, fuel: nat)
    requires pos < |b| && b[pos] !in Tags(alts)
    ensures Decode(env, Choice(alts), b, pos, fuel) == Err(UnknownTag(b[pos], Tags(alts)))
  {
    assert Decode(env, Choice(alts), b, pos, fuel) == DecodeChoice(env, alts, b, pos, fuel);
  }

  /**
   * Choice.get peeks the tag and lets the first alternative with that tag
   * read from the same position, tag included; what it returns is that
   * alternative's value.
   */
  lemma ChoiceDispatch(env: Schema, alts: seq<Schema>, b: seq<byte>, pos: nat, fuel: nat)
    requires pos < |b| && b[pos] in Tags(alts)
    ensures FirstWithTag(Tags(alts), b[pos]).Ok?
    ensures Decode(env, Choice(alts), b, pos, fuel) == Decode(env, alts[FirstWithTag(Tags(alts), b[pos]).value], b, pos, fuel)
  {
    assert Decode(env, Choice(alts), b, pos, fuel) == DecodeChoice(env, alts, b, pos, fuel);
  }

  /**
   * A value of the alternative at index i is a value of the CHOICE when no
   * two alternatives share a tag: get dispatches on its tag to that index.
   */
  lemma ChoiceMember(env: Schema, v: Value, alts: seq<Schema>, i: nat, fuel: nat)
    requires i < |alts| && alts[i] == v.cls && v.cls.Implicit?
    requires forall a, b :: 0 <= a < b < |alts| ==> Tags(alts)[a] != Tags(alts)[b]
    requires Conforms(env, v, v.cls, fuel)
    ensures Conforms(env, v, Choice(alts), fuel)
  {
    FirstWithDistinctTags(Tags(alts), i);
    assert Tags(alts)[i] == v.cls.tag;
  }

  /** Choice.put delegates: a CHOICE holding a writes exactly what a writes. */
  lemma ChoicePutDelegates(alts: seq<Schema>, a: Value)
    ensures Encode(V(Choice(alts), Chosen(a))) == Encode(a)
    ensures Len(V(Choice(alts), Chosen(a))) == Len(a)
  {
    assert ChosenLen(Chosen(a)) == Len(a);
  }

  /** An implicitly tagged CHOICE writes its tag octet, then what the alternative writes. */
  lemma TaggedChoicePut(t: byte, alts: seq<Schema>, a: Value)
    ensures Encode(V(Implicit(t, Choice(alts)), Chosen(a))) == [t] + Encode(a)
  {
    var cls := Implicit(t, Choice(alts));
    assert EmitAt(cls, Choice(alts), Chosen(a)) == Emit(a);
    assert Emit(V(cls, Chosen(a))) == [Here([t])] + EmitAt(cls, Choice(alts), Chosen(a));
    WrittenHere([t], Emit(a));
  }

  /**
   * Put then get of a CHOICE does not give back the CHOICE: the bytes of a
   * CHOICE holding a conforming alternative a read back as a itself.
   */
  lemma {:induction false} ChoiceGetUnwraps(env: Schema, alts: seq<Schema>, a: Value, fuel: nat, b: seq<byte>, pos: nat)
    requires Conforms(env, a, Choice(alts), fuel)
    requires At(b, pos, Encode(V(Choice(alts), Chosen(a))))
    ensures Encode(V(Choice(alts), Chosen(a))) == Encode(a)
    ensures Decode(env, Choice(alts), b, pos, fuel) == Ok((a, pos + |Encode(a)|))
    ensures Decode(env, Choice(alts), b, pos, fuel).value.0 != V(Choice(alts), Chosen(a))
  {
    ChoicePutDelegates(alts, a);
    RoundTrip(env, a, Choice(alts), fuel, b, pos);
  }
}
