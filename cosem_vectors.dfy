// The octet strings the COSEM PDUs are known to produce: Data values read
// and written back, and the buffers create_buf fills for a GET, a SET and
// an ACTION request and a WRITE response.

module CosemVectors {
  import opened Octets
  import opened Buffer
  import opened X690
  import opened Asn1
  import opened AXdr
  import opened AXdrLen
  import opened AXdrGet
  import opened AXdrCodec
  import opened Cosem

  /** __len__ counts what put writes, and put writes it all in place. */
  ghost predicate Plain(v: Value)
  {
    Measured(v) && InPlace(Emit(v))
  }

  // ------------------------------------------------------ building blocks

  /** A fixed-size scalar writes its octets and nothing else. */
  lemma Scalar(s: Schema, bs: seq<byte>)
    requires s.Sized? && |bs| == s.size
    ensures Emit(V(s, Raw(bs))) == [Here(bs)] && Encode(V(s, Raw(bs))) == bs && Plain(V(s, Raw(bs)))
    ensures forall env, fuel :: Conforms(env, V(s, Raw(bs)), s, fuel)
  {
    WrittenHere(bs, []);
  }

  /** A scalar under a one-octet tag writes the tag, then its octets. */
  lemma TaggedScalar(t: byte, inner: Schema, bs: seq<byte>)
    requires inner.Sized? || inner.Bool?
    requires |bs| == (if inner.Sized? then inner.size else 1)
    ensures var v := V(Implicit(t, inner), Raw(bs));
      Emit(v) == [Here([t]), Here(bs)] && Encode(v) == [t] + bs && Plain(v) &&
      forall env, fuel :: Conforms(env, v, v.cls, fuel)
  {
    var v := V(Implicit(t, inner), Raw(bs));
    assert EmitAt(v.cls, inner, v.p) == [Here(bs)];
    assert Emit(v) == [Here([t]), Here(bs)];
    WrittenHere([t], [Here(bs)]);
    WrittenHere(bs, []);
    assert MeasuredAt(v.cls, inner, v.p);
    assert InPlace(Emit(v));
    forall env, fuel ensures Conforms(env, v, v.cls, fuel) {
      assert LayerConforms(env, v.cls, inner, v.p, fuel);
    }
  }

  /** Prepending a value to a list prepends its chunks and its octets. */
  lemma {:induction false} Cons(v: Value, vs: seq<Value>)
    ensures EmitList([v] + vs) == Emit(v) + EmitList(vs)
    ensures Written(EmitList([v] + vs)) == Encode(v) + Written(EmitList(vs))
    ensures Plain(v) && MeasuredList(vs) && InPlace(EmitList(vs)) ==>
      MeasuredList([v] + vs) && InPlace(EmitList([v] + vs))
  {
    assert ([v] + vs)[0] == v && ([v] + vs)[1..] == vs;
    EmitListCons([v] + vs);
    WrittenConcat(Emit(v), EmitList(vs));
  }

  lemma {:induction false} FieldsCons(env: Schema, v: Value, vs: seq<Value>, f: Schema, fs: seq<Schema>, fuel: nat)
    requires Conforms(env, v, f, fuel) && FieldsConform(env, vs, fs, fuel)
    ensures FieldsConform(env, [v] + vs, [f] + fs, fuel)
  {
    assert ([v] + vs)[0] == v && ([v] + vs)[1..] == vs;
    assert ([f] + fs)[0] == f && ([f] + fs)[1..] == fs;
  }

  lemma {:induction false} ElemsCons(env: Schema, v: Value, vs: seq<Value>, e: Schema, fuel: nat)
    requires Conforms(env, v, e, fuel) && ElemsConform(env, vs, e, fuel)
    ensures ElemsConform(env, [v] + vs, e, fuel)
  {
    assert ([v] + vs)[0] == v && ([v] + vs)[1..] == vs;
  }

  /** Data holding d writes what d writes, and counts what it counts. */
  lemma {:induction false} HeldData(d: Value)
    requires Plain(d)
    ensures Emit(V(Data, Chosen(d))) == Emit(d) && Plain(V(Data, Chosen(d)))
  {
  }

  // ------------------------------------------------------------- Data

  /** The alternative of Data at index i read through the CHOICE: its tag picks it out. */
  lemma DataAlternative(v: Value, i: nat, fuel: nat)
    requires i < |DataAlts| && DataAlts[i] == v.cls && v.cls.Implicit?
    requires Conforms(Data, v, v.cls, fuel)
    ensures Conforms(Data, v, Data, fuel)
  {
    DataTagsDistinct();
    ChoiceMember(Data, v, DataAlts, i, fuel);
  }

  /**
   * The check the Data test vectors make: get from the octets gives v,
   * ending at the last octet, and put of v into a buffer allocated with
   * as many octets writes them all back.
   */
  lemma {:induction false} GetThenPut(v: Value, b: seq<byte>, fuel: nat)
    requires Conforms(Data, v, Data, fuel)
    requires Measured(v) && InPlace(Emit(v)) && Encode(v) == b
    ensures Decode(Data, Data, b, 0, fuel) == Ok((v, |b|))
    ensures Apply(Zeros(|b|), 0, Emit(v)) == Wrote(b, |b|)
  {
    assert b[0..|b|] == b;
    assert At(b, 0, Encode(v));
    RoundTrip(Data, v, Data, fuel, b, 0);
    CreateBufExact(v);
  }

  /** '00' is null-data. */
  lemma NullDataVector(b: seq<byte>)
    requires b == [0x00]
    ensures Decode(Data, Data, b, 0, 0) == Ok((V(NullData, NoValue), 1))
    ensures Apply(Zeros(1), 0, Emit(V(NullData, NoValue))) == Wrote(b, 1)
  {
    var v := V(NullData, NoValue);
    assert Emit(v) == [Here([0])];
    WrittenHere([0], []);
    DataAlternative(v, 0, 0);
    GetThenPut(v, b, 0);
  }

  /** '0301' is the boolean TRUE. */
  lemma BooleanVector(b: seq<byte>)
    requires b == [0x03, 0x01]
    ensures Decode(Data, Data, b, 0, 0) == Ok((V(Boolean, Raw([1])), 2))
    ensures Apply(Zeros(2), 0, Emit(V(Boolean, Raw([1])))) == Wrote(b, 2)
  {
    var v := V(Boolean, Raw([1]));
    TaggedScalar(3, Bool, [1]);
    DataAlternative(v, 3, 0);
    GetThenPut(v, b, 0);
  }

  /** An array writes its tag, its element count, then the elements. */
  lemma {:induction false} ArrayWritten(vs: seq<Value>)
    requires |vs| < 0x80 && MeasuredList(vs) && InPlace(EmitList(vs))
    ensures Encode(V(Array, Items(vs))) == [1, |vs|] + Written(EmitList(vs))
    ensures Plain(V(Array, Items(vs)))
  {
    var v := V(Array, Items(vs));
    var w := Written(EmitList(vs));
    ShortLengthInPlace(|vs|);
    var rest := [Here([|vs|])] + EmitList(vs);
    assert EmitAt(Array, SeqOf(DataRef), v.p) == rest;
    assert Emit(v) == [Here([1])] + rest;
    WrittenHere([1], rest);
    WrittenHere([|vs|], EmitList(vs));
    assert Encode(v) == [1] + ([|vs|] + w);
    assert [1] + ([|vs|] + w) == [1, |vs|] + w;
    assert InPlace(Emit(v)) by {
      forall i | 2 <= i < |Emit(v)| ensures Emit(v)[i].Here? {
        assert Emit(v)[i] == EmitList(vs)[i - 2];
      }
    }
    assert MeasuredAt(Array, SeqOf(DataRef), v.p);
  }

  /** An array of Data is read through Data when its elements are. */
  lemma {:induction false} ArrayConforms(vs: seq<Value>, fuel: nat)
    requires |vs| < 0x80 && ElemsConform(Data, vs, DataRef, fuel)
    ensures Conforms(Data, V(Array, Items(vs)), Data, fuel)
  {
    assert LayerConforms(Data, Array, SeqOf(DataRef), Items(vs), fuel);
    DataAlternative(V(Array, Items(vs)), 1, fuel);
  }

  /** Integer elements with the given values. */
  function Integers(xs: seq<byte>): (r: seq<Value>)
    ensures |r| == |xs| && forall i :: 0 <= i < |xs| ==> r[i] == V(Integer, Raw([xs[i]]))
  {
    seq(|xs|, i requires 0 <= i < |xs| => V(Integer, Raw([xs[i]])))
  }

  /** Each Integer element writes its tag 0F, then its octet. */
  function IntegerOctets(xs: seq<byte>): (r: seq<byte>)
    ensures |r| == 2 * |xs|
  {
    if xs == [] then [] else [15, xs[0]] + IntegerOctets(xs[1..])
  }

  /** An Integer element of an array: read through Data with the fuel the array leaves. */
  lemma IntegerElement(x: byte)
    ensures var e := V(Integer, Raw([x]));
      Encode(e) == [15, x] && Plain(e) && Conforms(Data, e, DataRef, 1)
  {
    var e := V(Integer, Raw([x]));
    TaggedScalar(15, Integer8, [x]);
    DataAlternative(e, 11, 0);
  }

  lemma {:induction false} IntegerElements(xs: seq<byte>)
    ensures var vs := Integers(xs);
      MeasuredList(vs) && InPlace(EmitList(vs)) && ElemsConform(Data, vs, DataRef, 1) &&
      Written(EmitList(vs)) == IntegerOctets(xs)
  {
    if xs != [] {
      var vs := Integers(xs);
      IntegerElement(xs[0]);
      IntegerElements(xs[1..]);
      assert vs == [vs[0]] + Integers(xs[1..]);
      Cons(vs[0], Integers(xs[1..]));
      ElemsCons(Data, vs[0], Integers(xs[1..]), DataRef, 1);
    }
  }

  /**
   * An array of Integer elements is written 01, the count, then 0F and the
   * octet of each element; get reads it back from those octets, and put
   * fills a buffer of exactly that size.
   */
  lemma IntegerArray(xs: seq<byte>, b: seq<byte>)
    requires |xs| < 0x80 && b == [1, |xs|] + IntegerOctets(xs)
    ensures var v := V(Array, Items(Integers(xs)));
      Encode(v) == b && Decode(Data, Data, b, 0, 1) == Ok((v, |b|)) &&
      Apply(Zeros(|b|), 0, Emit(v)) == Wrote(b, |b|)
  {
    var v := V(Array, Items(Integers(xs)));
    IntegerElements(xs);
    ArrayWritten(Integers(xs));
    ArrayConforms(Integers(xs), 1);
    GetThenPut(v, b, 1);
  }

  /** '01020f010f02' is the array of the integers 1 and 2. */
  lemma ArrayOfTwoVector(b: seq<byte>)
    requires b == [0x01, 0x02, 0x0F, 0x01, 0x0F, 0x02]
    ensures var v := V(Array, Items(Integers([1, 2])));
      Decode(Data, Data, b, 0, 1) == Ok((v, 6)) && Apply(Zeros(6), 0, Emit(v)) == Wrote(b, 6)
  {
    assert IntegerOctets([1, 2]) == [0x0F, 0x01, 0x0F, 0x02] by {
      assert [1, 2][1..] == [2] && [2][1..] == [];
    }
    IntegerArray([1, 2], b);
  }

  /** '01030f010f020f03' is the array of the integers 1, 2 and 3. */
  lemma ArrayOfThreeVector(b: seq<byte>)
    requires b == [0x01, 0x03, 0x0F, 0x01, 0x0F, 0x02, 0x0F, 0x03]
    ensures var v := V(Array, Items(Integers([1, 2, 3])));
      Decode(Data, Data, b, 0, 1) == Ok((v, 8)) && Apply(Zeros(8), 0, Emit(v)) == Wrote(b, 8)
  {
    assert IntegerOctets([1, 2, 3]) == [0x0F, 0x01, 0x0F, 0x02, 0x0F, 0x03] by {
      assert [1, 2, 3][1..] == [2, 3] && [2, 3][1..] == [3] && [3][1..] == [];
    }
    IntegerArray([1, 2, 3], b);
  }
}
