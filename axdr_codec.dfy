// The A-XDR get and put of every class as they run over the byte buffer:
// get moves the position and returns what Decode describes, put writes the
// chunks Emit describes; create_buf sizes its buffer by __len__, and
// EXPLICIT.put writes its tag, the __len__ of its value and the value.

module AXdrCodec {
  import opened Octets
  import opened Buffer
  import opened X690
  import opened Asn1
  import opened AXdr
  import opened AXdrLen
  import Ber

  /** A get returned r and left the position at pos, as the pure decode d describes. */
  predicate Got<T(==)>(r: Result<T>, d: Result<(T, nat)>, pos: nat)
  {
    match d
    case Ok((v, p)) => r == Ok(v) && pos == p
    case Err(e) => r == Err(e)
  }

  /** acc in front of what the decode of the remaining elements returns. */
  function Prepend(acc: seq<Value>, d: Result<(seq<Value>, nat)>): (r: Result<(seq<Value>, nat)>)
    ensures d.Ok? <==> r.Ok?
    ensures d.Ok? ==> r.value == (acc + d.value.0, d.value.1)
    ensures d.Err? ==> r.error == d.error
  {
    match d
    case Ok((vs, p)) => Ok((acc + vs, p))
    case Err(e) => Err(e)
  }

  // ------------------------------------------------------------------ get

  /** The classmethod get of class s at the buffer's position. */
  method Get(buf: ByteBuffer, env: Schema, s: Schema, fuel: nat) returns (r: Result<Value>)
    modifies buf`pos
    ensures Got(r, Decode(env, s, old(buf.data[..]), old(buf.pos), fuel), buf.pos)
    decreases fuel, Size(s), 2, 0
  {
    r := GetLayer(buf, env, s, s, fuel);
  }

  /** get of class cls from the layer on. */
  method GetLayer(buf: ByteBuffer, env: Schema, cls: Schema, layer: Schema, fuel: nat) returns (r: Result<Value>)
    modifies buf`pos
    ensures Got(r, DecodeLayer(env, cls, layer, old(buf.data[..]), old(buf.pos), fuel), buf.pos)
    decreases fuel, Size(layer), 1, 0
  {
    match layer
    case Implicit(t, inner) =>
      r := GetImplicit(buf, env, cls, t, inner, fuel);
    case Optional(inner) =>
      r := GetOptional(buf, env, cls, inner, fuel);
    case Sized(_, _) | Bool | Str(_) | Null | BitStr | BerBitStr(_) =>
      r := GetLeaf(buf, env, cls, layer, fuel);
    case Choice(alts) =>
      r := GetChoice(buf, env, alts, fuel);
    case DataRef =>
      if fuel == 0 {
        r := Err(DepthExceeded);
      } else {
        r := Get(buf, env, env, fuel - 1);
      }
    case Seq(fields) =>
      r := GetSeq(buf, env, cls, fields, fuel);
    case SeqOf(elem) =>
      r := GetSeqOf(buf, env, cls, elem, fuel);
    case Annotated(fields) =>
      r := GetAnnotated(buf, env, cls, fields, fuel);
  }

  /** get of the layers that hold no nested class: a run of octets, a boolean, null, a bit string. */
  method GetLeaf(buf: ByteBuffer, env: Schema, cls: Schema, layer: Schema, fuel: nat) returns (r: Result<Value>)
    requires layer.Sized? || layer.Bool? || layer.Str? || layer.Null? || layer.BitStr? || layer.BerBitStr?
    modifies buf`pos
    ensures Got(r, DecodeLayer(env, cls, layer, old(buf.data[..]), old(buf.pos), fuel), buf.pos)
  {
    match layer
    case Sized(n, _) =>
      r := GetSized(buf, cls, n);
    case Bool =>
      r := GetSized(buf, cls, 1);
    case Str(_) =>
      r := GetStr(buf, cls);
    case Null =>
      r := Ok(V(cls, NoValue));
    case BitStr =>
      r := GetBitStr(buf, cls);
    case BerBitStr(tag) =>
      var bs := Ber.Get(buf, tag);
      if bs.Err? {
        return Err(bs.error);
      }
      r := Ok(V(cls, Raw(bs.value)));
  }

  /** Implicit.get: read the tag octet, refuse any other than t, then the inner get. */
  method GetImplicit(buf: ByteBuffer, env: Schema, cls: Schema, t: byte, inner: Schema, fuel: nat) returns (r: Result<Value>)
    modifies buf`pos
    ensures Got(r, DecodeImplicit(env, cls, t, inner, old(buf.data[..]), old(buf.pos), fuel), buf.pos)
    decreases fuel, 1 + Size(inner), 0, 0
  {
    ghost var b, p0 := buf.data[..], buf.pos;
    var g := buf.GetUint8();
    if g.Err? {
      assert Peek(b, p0) == Err(Exhausted(p0, 1));
      return Err(g.error);
    }
    assert p0 < |b| && g.value == b[p0] && buf.pos == p0 + 1;
    assert Peek(b, p0) == Ok(b[p0]);
    if g.value != t {
      return Err(TagMismatch(t, g.value));
    }
    r := GetLayer(buf, env, cls, inner, fuel);
  }

  /** Optional.get: read the flag octet; 00 is the absent value, any other is followed by the inner get. */
  method GetOptional(buf: ByteBuffer, env: Schema, cls: Schema, inner: Schema, fuel: nat) returns (r: Result<Value>)
    modifies buf`pos
    ensures Got(r, DecodeOptional(env, cls, inner, old(buf.data[..]), old(buf.pos), fuel), buf.pos)
    decreases fuel, 1 + Size(inner), 0, 0
  {
    ghost var b, p0 := buf.data[..], buf.pos;
    var flag := buf.Read(1);
    if flag.Err? {
      assert ReadBytes(b, p0, 1).Err?;
      return Err(flag.error);
    }
    assert ReadBytes(b, p0, 1) == Ok((flag.value, p0 + 1)) && buf.pos == p0 + 1;
    if flag.value == [0] {
      return Ok(V(cls, Absent));
    }
    r := GetLayer(buf, env, cls, inner, fuel);
  }

  /** SizedCoder.get: read Size octets. */
  method GetSized(buf: ByteBuffer, cls: Schema, n: nat) returns (r: Result<Value>)
    modifies buf`pos
    ensures Got(r, DecodeSized(cls, n, old(buf.data[..]), old(buf.pos)), buf.pos)
  {
    var bs := buf.Read(n);
    if bs.Err? {
      return Err(bs.error);
    }
    r := Ok(V(cls, Raw(bs.value)));
  }

  /** _StringCoder.get: read the length, then that many octets. */
  method GetStr(buf: ByteBuffer, cls: Schema) returns (r: Result<Value>)
    modifies buf`pos
    ensures Got(r, DecodeStr(cls, old(buf.data[..]), old(buf.pos)), buf.pos)
  {
    var n := GetLength(buf);
    if n.Err? {
      return Err(n.error);
    }
    if n.value < 0 {
      return Err(IndefiniteLength);
    }
    var bs := buf.Read(n.value);
    if bs.Err? {
      return Err(bs.error);
    }
    r := Ok(V(cls, Raw(bs.value)));
  }

  /** BitStringType.get: read the bit count, then ceil(count / 8) octets. */
  method GetBitStr(buf: ByteBuffer, cls: Schema) returns (r: Result<Value>)
    modifies buf`pos
    ensures Got(r, DecodeBitStr(cls, old(buf.data[..]), old(buf.pos)), buf.pos)
  {
    var n := GetLength(buf);
    if n.Err? {
      return Err(n.error);
    }
    var c := buf.Read(if n.value < 0 then 0 else (n.value + 7) / 8);
    if c.Err? {
      return Err(c.error);
    }
    r := Ok(V(cls, Bits(n.value, c.value)));
  }

  /**
   * Choice.get: read the tag octet, look the alternative up, step the
   * position back onto the tag and let the alternative read itself.
   */
  method GetChoice(buf: ByteBuffer, env: Schema, alts: seq<Schema>, fuel: nat) returns (r: Result<Value>)
    modifies buf`pos
    ensures Got(r, DecodeChoice(env, alts, old(buf.data[..]), old(buf.pos), fuel), buf.pos)
    decreases fuel, 1 + SizeList(alts), 0, 0
  {
    var g := buf.GetUint8();
    if g.Err? {
      return Err(g.error);
    }
    var i := FirstWithTag(Tags(alts), g.value);
    if i.Err? {
      return Err(i.error);
    }
    buf.SetPos(buf.pos - 1);
    r := Get(buf, env, alts[i.value], fuel);
  }

  /** SequenceType.get: the fields one after the other, with no count in front. */
  method GetSeq(buf: ByteBuffer, env: Schema, cls: Schema, fields: seq<Schema>, fuel: nat) returns (r: Result<Value>)
    modifies buf`pos
    ensures Got(r, DecodeSeq(env, cls, fields, old(buf.data[..]), old(buf.pos), fuel), buf.pos)
    decreases fuel, 1 + SizeList(fields), 0, 0
  {
    var vs := GetFields(buf, env, fields, fuel);
    if vs.Err? {
      return Err(vs.error);
    }
    r := Ok(V(cls, Items(vs.value)));
  }

  /** SequenceOfType.get: read the count, then that many elements (none for -1). */
  method GetSeqOf(buf: ByteBuffer, env: Schema, cls: Schema, elem: Schema, fuel: nat) returns (r: Result<Value>)
    modifies buf`pos
    ensures Got(r, DecodeSeqOf(env, cls, elem, old(buf.data[..]), old(buf.pos), fuel), buf.pos)
    decreases fuel, 1 + Size(elem), 0, 0
  {
    SeqOfUnfold(env, cls, elem, buf.data[..], buf.pos, fuel);
    var n := GetLength(buf);
    if n.Err? {
      return Err(n.error);
    }
    var vs := GetCount(buf, env, elem, if n.value < 0 then 0 else n.value, fuel);
    r := Wrap(cls, vs);
  }

  /** The value of class cls holding the values a get returned, or the get's error. */
  function Wrap(cls: Schema, vs: Result<seq<Value>>): (r: Result<Value>)
    ensures r.Ok? <==> vs.Ok?
    ensures vs.Ok? ==> r.value == V(cls, Items(vs.value))
    ensures vs.Err? ==> r.error == vs.error
  {
    if vs.Err? then Err(vs.error) else Ok(V(cls, Items(vs.value)))
  }

  lemma SeqOfUnfold(env: Schema, cls: Schema, elem: Schema, b: seq<byte>, pos: nat, fuel: nat)
    ensures DecodeLength(b, pos).Err? ==> DecodeSeqOf(env, cls, elem, b, pos, fuel) == Err(DecodeLength(b, pos).error)
    ensures DecodeLength(b, pos).Ok? ==>
      var (n, p) := DecodeLength(b, pos).value;
      var d := DecodeCount(env, elem, if n < 0 then 0 else n, b, p, fuel);
      DecodeSeqOf(env, cls, elem, b, pos, fuel) == if d.Err? then Err(d.error) else Ok((V(cls, Items(d.value.0)), d.value.1))
  {
  }

  /**
   * AnnotationSequenceOfData.get: with no declared fields, the get of
   * SequenceOfType over Data; otherwise the count, which must equal the
   * number of fields, then the fields in order.
   */
  method GetAnnotated(buf: ByteBuffer, env: Schema, cls: Schema, fields: seq<Schema>, fuel: nat) returns (r: Result<Value>)
    modifies buf`pos
    ensures Got(r, DecodeAnnotated(env, cls, fields, old(buf.data[..]), old(buf.pos), fuel), buf.pos)
    decreases fuel, 2 + SizeList(fields), 0, 0
  {
    var n := GetLength(buf);
    if n.Err? {
      return Err(n.error);
    }
    var vs;
    if fields == [] {
      vs := GetCount(buf, env, DataRef, if n.value < 0 then 0 else n.value, fuel);
    } else if n.value != |fields| {
      return Err(CountMismatch(n.value, |fields|));
    } else {
      vs := GetFields(buf, env, fields, fuel);
    }
    if vs.Err? {
      return Err(vs.error);
    }
    r := Ok(V(cls, Items(vs.value)));
  }

  /** The loop of SequenceType.get: each field's get in declaration order, appended to a list. */
  method GetFields(buf: ByteBuffer, env: Schema, fields: seq<Schema>, fuel: nat) returns (r: Result<seq<Value>>)
    modifies buf`pos
    ensures Got(r, DecodeFields(env, fields, old(buf.data[..]), old(buf.pos), fuel), buf.pos)
    decreases fuel, SizeList(fields), 3, 0
  {
    ghost var b := buf.data[..];
    var acc: seq<Value> := [];
    var i := 0;
    assert fields[0..] == fields;
    PrependNothing(DecodeFields(env, fields, b, buf.pos, fuel));
    while i < |fields|
      invariant 0 <= i <= |fields|
      invariant buf.data[..] == b
      invariant DecodeFields(env, fields, b, old(buf.pos), fuel) == Prepend(acc, DecodeFields(env, fields[i..], b, buf.pos, fuel))
    {
      assert fields[i..][0] == fields[i] && fields[i..][1..] == fields[i + 1..];
      ghost var p := buf.pos;
      var v := Get(buf, env, fields[i], fuel);
      if v.Err? {
        return Err(v.error);
      }
      assert acc + ([v.value] + []) == acc + [v.value];
      PrependStep(acc, v.value, DecodeFields(env, fields[i + 1..], b, buf.pos, fuel));
      acc := acc + [v.value];
      i := i + 1;
    }
    assert fields[i..] == [] && acc + [] == acc;
    r := Ok(acc);
  }

  /** The generator of SequenceOfType.get: n gets of class elem, one after the other. */
  method GetCount(buf: ByteBuffer, env: Schema, elem: Schema, n: nat, fuel: nat) returns (r: Result<seq<Value>>)
    modifies buf`pos
    ensures Got(r, DecodeCount(env, elem, n, old(buf.data[..]), old(buf.pos), fuel), buf.pos)
    decreases fuel, Size(elem), 3, 0
  {
    ghost var b := buf.data[..];
    var acc: seq<Value> := [];
    var i := 0;
    PrependNothing(DecodeCount(env, elem, n, b, buf.pos, fuel));
    while i < n
      invariant 0 <= i <= n
      invariant buf.data[..] == b
      invariant DecodeCount(env, elem, n, b, old(buf.pos), fuel) == Prepend(acc, DecodeCount(env, elem, n - i, b, buf.pos, fuel))
    {
      var v := Get(buf, env, elem, fuel);
      if v.Err? {
        return Err(v.error);
      }
      PrependStep(acc, v.value, DecodeCount(env, elem, n - i - 1, b, buf.pos, fuel));
      acc := acc + [v.value];
      i := i + 1;
    }
    assert acc + [] == acc;
    r := Ok(acc);
  }

  lemma PrependNothing(d: Result<(seq<Value>, nat)>)
    ensures Prepend([], d) == d
  {
    if d.Ok? {
      assert [] + d.value.0 == d.value.0;
    }
  }

  lemma PrependStep(acc: seq<Value>, v: Value, d: Result<(seq<Value>, nat)>)
    ensures Prepend(acc, Prepend([v], d)) == Prepend(acc + [v], d)
  {
    if d.Ok? {
      assert acc + ([v] + d.value.0) == acc + [v] + d.value.0;
    }
  }

  // ------------------------------------------------------------------ put

  /** Performing c and then rest is performing c, then rest from where c left the buffer. */
  lemma ApplyOne(b: seq<byte>, pos: nat, c: Chunk, rest: seq<Chunk>)
    ensures Apply(b, pos, [c] + rest) == Then(Step(b, pos, c), rest)
    ensures Apply(b, pos, [c]) == Then(Step(b, pos, c), [])
  {
    assert ([c] + rest)[0] == c && ([c] + rest)[1..] == rest;
    assert [c][1..] == [];
  }

  /** put of value v: the sum it returns is the number of octets it wrote. */
  method Put(buf: ByteBuffer, v: Value) returns (ok: bool, ret: nat)
    modifies buf`pos, buf.data
    ensures buf.Reached(Apply(old(buf.data[..]), old(buf.pos), Emit(v)), ok)
    ensures ok ==> ret == |Encode(v)|
  {
    ok, ret := PutAt(buf, v.cls, v.cls, v.p);
  }

  /** put of a payload p of class cls from the layer on. */
  method PutAt(buf: ByteBuffer, cls: Schema, layer: Schema, p: Payload) returns (ok: bool, ret: nat)
    modifies buf`pos, buf.data
    ensures buf.Reached(Apply(old(buf.data[..]), old(buf.pos), EmitAt(cls, layer, p)), ok)
    ensures ok ==> ret == |Written(EmitAt(cls, layer, p))|
    decreases p, Size(layer), 1
  {
    ghost var b0 := buf.data[..];
    ghost var p0 := buf.pos;
    ret := 0;
    match layer
    case Implicit(t, inner) =>
      ok, ret := PutFlagged(buf, cls, [t], inner, p);
    case Optional(inner) =>
      if p == Absent {
        ApplyOne(b0, p0, Here([0]), []);
        WrittenHere([0], []);
        ok := buf.Perform(Here([0]));
        ret := 1;
      } else {
        ok, ret := PutFlagged(buf, cls, [1], inner, p);
      }
    case Choice(_) =>
      if !p.Chosen? {
        ApplyOne(b0, p0, Fail, []);
        return false, 0;
      }
      ok, ret := PutAt(buf, p.alt.cls, p.alt.cls, p.alt.p);
    case DataRef =>
      if !p.Chosen? {
        ApplyOne(b0, p0, Fail, []);
        return false, 0;
      }
      ok, ret := PutAt(buf, p.alt.cls, p.alt.cls, p.alt.p);
    case Seq(_) =>
      if !p.Items? {
        ApplyOne(b0, p0, Fail, []);
        return false, 0;
      }
      ok, ret := PutItems(buf, p.vs);
    case SeqOf(_) =>
      if !p.Items? {
        ApplyOne(b0, p0, Fail, []);
        return false, 0;
      }
      ok, ret := PutCounted(buf, p.vs);
    case Annotated(_) =>
      if !p.Items? {
        ApplyOne(b0, p0, Fail, []);
        return false, 0;
      }
      ok, ret := PutCounted(buf, p.vs);
    case _ =>
      ok, ret := PutScalar(buf, cls, layer, p);
  }

  /** Implicit.put and a present Optional.put: one octet (the tag or the flag 01), then the inner put. */
  method PutFlagged(buf: ByteBuffer, cls: Schema, first: seq<byte>, inner: Schema, p: Payload) returns (ok: bool, ret: nat)
    requires |first| == 1
    modifies buf`pos, buf.data
    ensures buf.Reached(Apply(old(buf.data[..]), old(buf.pos), [Here(first)] + EmitAt(cls, inner, p)), ok)
    ensures ok ==> ret == |Written([Here(first)] + EmitAt(cls, inner, p))|
    decreases p, Size(inner), 2
  {
    ApplyOne(buf.data[..], buf.pos, Here(first), EmitAt(cls, inner, p));
    WrittenHere(first, EmitAt(cls, inner, p));
    ret := 0;
    ok := buf.Perform(Here(first));
    if !ok {
      return;
    }
    var n;
    ok, n := PutAt(buf, cls, inner, p);
    ret := 1 + n;
  }

  /** The put of the coders without nested values: fixed-size, string, NULL, bit string and BER bit string. */
  method PutScalar(buf: ByteBuffer, cls: Schema, layer: Schema, p: Payload) returns (ok: bool, ret: nat)
    requires layer.Sized? || layer.Bool? || layer.Str? || layer.Null? || layer.BitStr? || layer.BerBitStr?
    modifies buf`pos, buf.data
    ensures buf.Reached(Apply(old(buf.data[..]), old(buf.pos), EmitAt(cls, layer, p)), ok)
    ensures ok ==> ret == |Written(EmitAt(cls, layer, p))|
  {
    ghost var b0 := buf.data[..];
    ghost var p0 := buf.pos;
    ret := 0;
    if layer.Null? {
      return true, 0;
    }
    if layer.BitStr? {
      if !p.Bits? {
        ApplyOne(b0, p0, Fail, []);
        return false, 0;
      }
      ok, ret := PutPrefixed(buf, p.count, p.content);
      return;
    }
    if !p.Raw? {
      ApplyOne(b0, p0, Fail, []);
      return false, 0;
    }
    if layer.Str? {
      ok, ret := PutPrefixed(buf, |p.bytes|, p.bytes);
    } else if layer.BerBitStr? {
      ok, ret := Ber.Put(buf, layer.id, p.bytes);
    } else {
      ApplyOne(b0, p0, Here(p.bytes), []);
      WrittenHere(p.bytes, []);
      ok := buf.Perform(Here(p.bytes));
      ret := |p.bytes|;
    }
  }

  /** Length(n).put, then the octets c: _StringCoder.put and BitStringType.put. */
  method PutPrefixed(buf: ByteBuffer, n: int, c: seq<byte>) returns (ok: bool, ret: nat)
    modifies buf`pos, buf.data
    ensures buf.Reached(Apply(old(buf.data[..]), old(buf.pos), LengthChunks(n) + [Here(c)]), ok)
    ensures ok ==> ret == |Written(LengthChunks(n) + [Here(c)])|
  {
    ghost var b0 := buf.data[..];
    ghost var p0 := buf.pos;
    ApplyConcat(b0, p0, LengthChunks(n), [Here(c)]);
    WrittenConcat(LengthChunks(n), [Here(c)]);
    WrittenHere(c, []);
    ret := 0;
    var k;
    ok, k := PutLength(buf, n);
    if !ok {
      return;
    }
    LengthReturned(b0, p0, n);
    ApplyOne(buf.data[..], buf.pos, Here(c), []);
    ok := buf.Perform(Here(c));
    ret := k + |c|;
  }

  /** SequenceOfType.put: Length(count).put, then the elements. */
  method PutCounted(buf: ByteBuffer, vs: seq<Value>) returns (ok: bool, ret: nat)
    modifies buf`pos, buf.data
    ensures buf.Reached(Apply(old(buf.data[..]), old(buf.pos), LengthChunks(|vs|) + EmitList(vs)), ok)
    ensures ok ==> ret == |Written(LengthChunks(|vs|) + EmitList(vs))|
    decreases vs, 1
  {
    ghost var b0 := buf.data[..];
    ghost var p0 := buf.pos;
    ApplyConcat(b0, p0, LengthChunks(|vs|), EmitList(vs));
    WrittenConcat(LengthChunks(|vs|), EmitList(vs));
    ret := 0;
    var k, n;
    ok, k := PutLength(buf, |vs|);
    if !ok {
      return;
    }
    LengthReturned(b0, p0, |vs|);
    ok, n := PutItems(buf, vs);
    ret := k + n;
  }

  /** The loop of SequenceType.put: each value's put in order, the returns summed. */
  method PutItems(buf: ByteBuffer, vs: seq<Value>) returns (ok: bool, ret: nat)
    modifies buf`pos, buf.data
    ensures buf.Reached(Apply(old(buf.data[..]), old(buf.pos), EmitList(vs)), ok)
    ensures ok ==> ret == |Written(EmitList(vs))|
    decreases vs, 0
  {
    ghost var b0 := buf.data[..];
    ghost var p0 := buf.pos;
    ok := true;
    ret := 0;
    var i := 0;
    while i < |vs|
      invariant 0 <= i <= |vs|
      invariant Apply(b0, p0, EmitList(vs)) == Apply(buf.data[..], buf.pos, EmitList(vs[i..]))
      invariant ret + |Written(EmitList(vs[i..]))| == |Written(EmitList(vs))|
    {
      var v := vs[i];
      assert v in vs && v.p < v;
      assert vs[i..][0] == v && vs[i..][1..] == vs[i + 1..];
      EmitListCons(vs[i..]);
      ApplyConcat(buf.data[..], buf.pos, Emit(v), EmitList(vs[i + 1..]));
      WrittenConcat(Emit(v), EmitList(vs[i + 1..]));
      var n;
      ok, n := PutAt(buf, v.cls, v.cls, v.p);
      if !ok {
        return;
      }
      ret := ret + n;
      i := i + 1;
    }
    assert vs[i..] == [];
  }

  // ----------------------------------------------------------- create_buf

  /**
   * create_buf: a zeroed buffer of __len__ octets, the value put into it,
   * the position set back to 0. ok is false where put raises.
   */
  method CreateBuf(v: Value) returns (buf: ByteBuffer, ok: bool)
    ensures fresh(buf) && fresh(buf.data)
    ensures ok <==> Apply(Zeros(Len(v)), 0, Emit(v)).Wrote?
    ensures ok ==> buf.data[..] == Apply(Zeros(Len(v)), 0, Emit(v)).buf
    ensures buf.pos == 0
  {
    buf := new ByteBuffer.Allocate(Len(v));
    var n;
    ok, n := Put(buf, v);
    buf.SetPos(0);
  }

  /** A buffer of zeros with w written from its start. */
  lemma ZerosSpliced(n: nat, w: seq<byte>)
    requires |w| <= n
    ensures Splice(Zeros(n), 0, w) == w + Zeros(n - |w|)
  {
    assert Zeros(n)[|w|..] == Zeros(n - |w|);
  }

  /**
   * For a value written in place, create_buf holds its octets followed by
   * zeros up to __len__, and put raises when __len__ falls short of them.
   */
  lemma CreateBufLayout(v: Value)
    requires InPlace(Emit(v))
    ensures |Encode(v)| <= Len(v) ==>
      Apply(Zeros(Len(v)), 0, Emit(v)) == Wrote(Encode(v) + Zeros(Len(v) - |Encode(v)|), |Encode(v)|)
    ensures |Encode(v)| > Len(v) ==> Apply(Zeros(Len(v)), 0, Emit(v)) == Raised
  {
    ApplyInPlace(Zeros(Len(v)), 0, Emit(v));
    if |Encode(v)| <= Len(v) {
      ZerosSpliced(Len(v), Encode(v));
    }
  }

  /** Where __len__ counts what put writes, create_buf holds exactly the value's octets. */
  lemma CreateBufExact(v: Value)
    requires Measured(v) && InPlace(Emit(v))
    ensures Apply(Zeros(Len(v)), 0, Emit(v)) == Wrote(Encode(v), |Encode(v)|)
  {
    LenIsWritten(v);
    CreateBufLayout(v);
    assert Encode(v) + Zeros(0) == Encode(v);
  }

  /**
   * An implicitly tagged CHOICE such as getRequest: create_buf holds the
   * octets put wrote and then one unwritten 00 octet, the tag __len__
   * counted twice.
   */
  lemma CreateBufTaggedChoice(t: byte, alts: seq<Schema>, a: Value)
    requires t != 0 && Measured(a) && InPlace(Emit(a))
    ensures var v := V(Implicit(t, Choice(alts)), Chosen(a));
      Apply(Zeros(Len(v)), 0, Emit(v)) == Wrote(Encode(v) + [0], |Encode(v)|)
  {
    var v := V(Implicit(t, Choice(alts)), Chosen(a));
    assert EmitAt(v.cls, Choice(alts), Chosen(a)) == Emit(a);
    assert Emit(v) == [Here([t])] + Emit(a);
    assert InPlace(Emit(v)) by {
      forall i | 0 <= i < |Emit(v)| ensures Emit(v)[i].Here? {
        if i > 0 {
          assert Emit(v)[i] == Emit(a)[i - 1];
        }
      }
    }
    TaggedChoiceOverCount(t, alts, a);
    CreateBufLayout(v);
  }

  // ------------------------------------------------------------- EXPLICIT

  /** What EXPLICIT.put does: the tag octet, Length of the value's __len__, then the value's put. */
  function ExplicitChunks(t: byte, v: Value): seq<Chunk>
  {
    [Here([t])] + LengthChunks(Len(v)) + Emit(v)
  }

  /** EXPLICIT.put over the buffer; ret is the sum it returns. */
  method ExplicitPut(buf: ByteBuffer, t: byte, v: Value) returns (ok: bool, ret: nat)
    modifies buf`pos, buf.data
    ensures buf.Reached(Apply(old(buf.data[..]), old(buf.pos), ExplicitChunks(t, v)), ok)
    ensures ok ==> ret == |Written(ExplicitChunks(t, v))|
  {
    ghost var b0 := buf.data[..];
    ghost var p0 := buf.pos;
    ApplyConcat(b0, p0, [Here([t])] + LengthChunks(Len(v)), Emit(v));
    ApplyConcat(b0, p0, [Here([t])], LengthChunks(Len(v)));
    ApplyOne(b0, p0, Here([t]), []);
    WrittenConcat([Here([t])] + LengthChunks(Len(v)), Emit(v));
    WrittenConcat([Here([t])], LengthChunks(Len(v)));
    WrittenHere([t], []);
    ret := 0;
    ok := buf.Perform(Here([t]));
    if !ok {
      return;
    }
    ghost var b1 := buf.data[..];
    ghost var p1 := buf.pos;
    var k, n;
    ok, k := PutLength(buf, Len(v));
    if !ok {
      return;
    }
    LengthReturned(b1, p1, Len(v));
    ok, n := Put(buf, v);
    ret := 1 + k + n;
  }

  /**
   * For a value whose __len__ counts what its put writes, EXPLICIT.put
   * writes the tag, a length octet equal to the number of octets that
   * follow, and those octets.
   */
  lemma ExplicitLengthExact(t: byte, v: Value)
    requires Measured(v) && Len(v) < 0x80
    ensures Written(ExplicitChunks(t, v)) == [t, |Encode(v)|] + Encode(v)
  {
    LenIsWritten(v);
    ShortLengthInPlace(Len(v));
    WrittenConcat([Here([t])] + LengthChunks(Len(v)), Emit(v));
    WrittenHere([t], LengthChunks(Len(v)));
    WrittenHere([Len(v)], []);
  }

  /**
   * EXPLICIT over an implicitly tagged CHOICE announces one octet more
   * than it then writes, because the CHOICE's __len__ counts its tag twice.
   */
  lemma ExplicitOverTaggedChoice(t: byte, u: byte, alts: seq<Schema>, a: Value)
    requires u != 0 && Measured(a)
    requires Len(V(Implicit(u, Choice(alts)), Chosen(a))) < 0x80
    ensures var v := V(Implicit(u, Choice(alts)), Chosen(a));
      Written(ExplicitChunks(t, v)) == [t, |Encode(v)| + 1] + Encode(v)
  {
    var v := V(Implicit(u, Choice(alts)), Chosen(a));
    TaggedChoiceOverCount(u, alts, a);
    ShortLengthInPlace(Len(v));
    WrittenConcat([Here([t])] + LengthChunks(Len(v)), Emit(v));
    WrittenHere([t], LengthChunks(Len(v)));
    WrittenHere([Len(v)], []);
  }
}
