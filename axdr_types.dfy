// The class-level behaviour of the A-XDR types beside get and put: the
// default value each class constructs, the CHOICE validation, the size
// check of the fixed-size coders, and equality between values.

module AXdrTypes {
  import opened Octets
  import opened Buffer
  import opened Asn1
  import opened X690
  import opened AXdr

  /** The base coder of a class: what is left once its tag and OPTIONAL layers are peeled off. */
  function Base(s: Schema): (r: Schema)
    ensures !r.Implicit? && !r.Optional?
    ensures Size(r) <= Size(s)
  {
    match s
    case Implicit(_, inner) => Base(inner)
    case Optional(inner) => Base(inner)
    case _ => s
  }

  // --------------------------------------------------------------- default

  /**
   * The classmethod default of class cls from the layer on: an OPTIONAL is
   * absent, the integers and enumerations are 00, the octet and character
   * strings are empty, a boolean is TRUE, a SEQUENCE OF is empty, a
   * SEQUENCE and a structure hold the defaults of their fields, a CHOICE
   * holds the default of its first alternative, and a bit string has none.
   */
  function Default(env: Schema, cls: Schema, layer: Schema, fuel: nat): (r: Result<Payload>)
    ensures layer.Optional? ==> r == Ok(Absent)
    ensures layer.BitStr? || layer.BerBitStr? ==> r.Err?
    ensures r.Ok? ==> !r.value.Bits?
    decreases fuel, Size(layer), 0
  {
    match layer
    case Implicit(_, inner) => Default(env, cls, inner, fuel)
    case Optional(_) => Ok(Absent)
    case Sized(_, kind) => Ok(Raw(if kind == OctetStr then [] else [0]))
    case Bool => Ok(Raw(TRUE))
    case Str(kind) => Ok(Raw(if kind == IntegerString then [0] else []))
    case Null => Ok(NoValue)
    case BitStr => Err(NotImplemented)
    case BerBitStr(_) => Err(NotImplemented)
    case Choice(alts) =>
      if alts == [] then Err(IndexOutOfRange)
      else
        var a :- DefaultValue(env, alts[0], fuel);
        Ok(Chosen(a))
    case DataRef => if fuel == 0 then Err(DepthExceeded) else Default(env, cls, env, fuel - 1)
    case Seq(fields) =>
      var vs :- DefaultList(env, fields, fuel);
      Ok(Items(vs))
    case SeqOf(_) => Ok(Items([]))
    case Annotated(fields) =>
      var vs :- DefaultList(env, fields, fuel);
      Ok(Items(vs))
  }

  /** cls.default(): a value of class cls. */
  function DefaultValue(env: Schema, s: Schema, fuel: nat): (r: Result<Value>)
    ensures r.Ok? ==> r.value.cls == s
    decreases fuel, Size(s), 1
  {
    var p :- Default(env, s, s, fuel);
    Ok(V(s, p))
  }

  /** The defaults of the fields, in order. */
  function DefaultList(env: Schema, fields: seq<Schema>, fuel: nat): (r: Result<seq<Value>>)
    ensures r.Ok? ==> |r.value| == |fields|
    decreases fuel, SizeList(fields), 2
  {
    if fields == [] then Ok([])
    else
      assert SizeList(fields) == Size(fields[0]) + SizeList(fields[1..]);
      var v :- DefaultValue(env, fields[0], fuel);
      var vs :- DefaultList(env, fields[1..], fuel);
      Ok([v] + vs)
  }

  /**
   * The classes whose default get reads back from what put writes: no bit
   * string, no CHOICE (its default holds the alternative, which get would
   * return unwrapped), fixed-size coders whose default has their size, and
   * structures with no declared fields.
   */
  ghost predicate Defaultable(s: Schema)
    decreases s, 1
  {
    match s
    case Implicit(_, inner) => Defaultable(inner)
    case Optional(_) => true
    case Sized(n, kind) => n == (if kind == OctetStr then 0 else 1)
    case Bool => true
    case Str(_) => true
    case Null => true
    case SeqOf(_) => true
    case Annotated(fields) => fields == []
    case Seq(fields) => DefaultableList(fields)
    case _ => false
  }

  ghost predicate DefaultableList(fields: seq<Schema>)
    decreases fields, 0
  {
    fields == [] || (Defaultable(fields[0]) && DefaultableList(fields[1..]))
  }

  /** The default of a defaultable class exists and is a value put and get carry unchanged. */
  lemma {:induction false} DefaultConforms(env: Schema, s: Schema, fuel: nat)
    requires Defaultable(s)
    ensures DefaultValue(env, s, fuel).Ok?
    ensures Conforms(env, DefaultValue(env, s, fuel).value, s, fuel)
    decreases s, 1
  {
    LayerDefaultConforms(env, s, s, fuel);
    var d := DefaultValue(env, s, fuel).value;
    assert d == V(s, Default(env, s, s, fuel).value);
    PlainConforms(env, d, s, fuel);
  }

  /** Outside CHOICE and Data, conforming is the value's own class accepting its payload. */
  lemma PlainConforms(env: Schema, v: Value, s: Schema, fuel: nat)
    requires !s.Choice? && !s.DataRef? && v.cls == s && LayerConforms(env, s, s, v.p, fuel)
    ensures Conforms(env, v, s, fuel)
  {
  }

  lemma {:induction false} LayerDefaultConforms(env: Schema, cls: Schema, layer: Schema, fuel: nat)
    requires Defaultable(layer)
    ensures Default(env, cls, layer, fuel).Ok?
    ensures LayerConforms(env, cls, layer, Default(env, cls, layer, fuel).value, fuel)
    decreases layer, 0
  {
    match layer
    case Implicit(_, inner) =>
      LayerDefaultConforms(env, cls, inner, fuel);
    case Seq(fields) =>
      ListDefaultConforms(env, fields, fuel);
    case Annotated(fields) =>
      assert DefaultList(env, fields, fuel) == Ok([]);
    case _ =>
      ScalarDefaultConforms(env, cls, layer, fuel);
  }

  /** The defaults of the classes without inner values: absent, 00, empty, TRUE or an empty list. */
  lemma ScalarDefaultConforms(env: Schema, cls: Schema, layer: Schema, fuel: nat)
    requires layer.Optional? || layer.Sized? || layer.Bool? || layer.Str? || layer.Null? || layer.SeqOf?
    requires Defaultable(layer)
    ensures Default(env, cls, layer, fuel).Ok?
    ensures LayerConforms(env, cls, layer, Default(env, cls, layer, fuel).value, fuel)
  {
  }

  lemma {:induction false} ListDefaultConforms(env: Schema, fields: seq<Schema>, fuel: nat)
    requires DefaultableList(fields)
    ensures DefaultList(env, fields, fuel).Ok?
    ensures FieldsConform(env, DefaultList(env, fields, fuel).value, fields, fuel)
    decreases fields
  {
    if fields != [] {
      DefaultConforms(env, fields[0], fuel);
      ListDefaultConforms(env, fields[1..], fuel);
      var vs := DefaultList(env, fields, fuel).value;
      assert vs[0] == DefaultValue(env, fields[0], fuel).value;
      assert vs[1..] == DefaultList(env, fields[1..], fuel).value;
      assert vs[0] in vs;
    }
  }

  /** get reads back the default of a defaultable class from what put writes for it. */
  lemma {:induction false} DefaultRoundTrip(env: Schema, s: Schema, fuel: nat, b: seq<byte>, pos: nat)
    requires Defaultable(s) && DefaultValue(env, s, fuel).Ok?
    requires At(b, pos, Encode(DefaultValue(env, s, fuel).value))
    ensures var d := DefaultValue(env, s, fuel).value;
      Decode(env, s, b, pos, fuel) == Ok((d, pos + |Encode(d)|))
  {
    DefaultConforms(env, s, fuel);
    RoundTrip(env, DefaultValue(env, s, fuel).value, s, fuel, b, pos);
  }

  /** The absent OPTIONAL and the empty SEQUENCE OF both write the single octet 00; a boolean writes 01. */
  lemma DefaultsWritten(env: Schema, inner: Schema, elem: Schema, fuel: nat)
    ensures DefaultValue(env, Optional(inner), fuel).Ok?
    ensures Encode(DefaultValue(env, Optional(inner), fuel).value) == [0]
    ensures DefaultValue(env, SeqOf(elem), fuel).Ok?
    ensures Encode(DefaultValue(env, SeqOf(elem), fuel).value) == [0]
    ensures DefaultValue(env, Bool, fuel).Ok?
    ensures Encode(DefaultValue(env, Bool, fuel).value) == [1]
  {
    WrittenHere([0], []);
    WrittenHere([1], []);
    ShortLengthInPlace(0);
    assert EmitList([]) == [];
    assert Emit(V(SeqOf(elem), Items([]))) == [Here([0])] + [];
  }

  // ------------------------------------------------------------ validation

  /**
   * isinstance for classes: an Implicit or OPTIONAL class is built as a
   * subclass of the class it wraps (get_implicit, get_optional, and the
   * Implicit and Optional classes of the COSEM module), so its values are
   * instances of that class too.
   */
  predicate IsInstance(c: Schema, a: Schema)
  {
    c == a || ((c.Implicit? || c.Optional?) && IsInstance(c.inner, a))
  }

  /** The scan of Choice.validation: whether cls is an instance of one of alts from index i on. */
  function AlternativeFrom(alts: seq<Schema>, cls: Schema, i: nat): (r: bool)
    requires i <= |alts|
    ensures r <==> exists j :: i <= j < |alts| && IsInstance(cls, alts[j])
    decreases |alts| - i
  {
    if i == |alts| then false
    else if IsInstance(cls, alts[i]) then true
    else AlternativeFrom(alts, cls, i + 1)
  }

  /**
   * Choice.validation: true when the CHOICE holds an instance of one of
   * its alternatives, the error otherwise.
   */
  function Validation(alts: seq<Schema>, p: Payload): (r: Result<bool>)
    ensures r.Ok? <==> p.Chosen? && exists a :: a in alts && IsInstance(p.alt.cls, a)
    ensures r.Ok? ==> r.value
    ensures r.Err? ==> r.error == NotAlternative
  {
    if p.Chosen? && AlternativeFrom(alts, p.alt.cls, 0) then
      InstanceIn(alts, p.alt.cls);
      Ok(true)
    else Err(NotAlternative)
  }

  lemma InstanceIn(alts: seq<Schema>, cls: Schema)
    requires exists j :: 0 <= j < |alts| && IsInstance(cls, alts[j])
    ensures exists a :: a in alts && IsInstance(cls, a)
  {
    var j :| 0 <= j < |alts| && IsInstance(cls, alts[j]);
    assert alts[j] in alts;
  }

  /**
   * A value of an alternative's class passes, and so does a value of any
   * Implicit or OPTIONAL subclass of it; a value of the class an
   * alternative wraps does not, since the wrapper is the subclass.
   */
  lemma {:induction false} ValidationSubclass(alts: seq<Schema>, a: Value, t: byte)
    requires a.cls in alts
    ensures Validation(alts, Chosen(a)) == Ok(true)
    ensures Validation(alts, Chosen(V(Implicit(t, a.cls), a.p))) == Ok(true)
    ensures Validation(alts, Chosen(V(Optional(a.cls), a.p))) == Ok(true)
  {
    assert IsInstance(a.cls, a.cls);
    assert IsInstance(Implicit(t, a.cls), a.cls);
    assert IsInstance(Optional(a.cls), a.cls);
  }

  /**
   * Instances of tagged and OPTIONAL subclasses pass: [5] Unsigned8 for a
   * CHOICE of Unsigned8, and an absent OPTIONAL NULL for Data. The class
   * an alternative wraps does not pass.
   */
  lemma ValidationExamples()
    ensures Validation([Sized(1, UnsignedInt)], Chosen(V(Implicit(5, Sized(1, UnsignedInt)), Raw([1])))) == Ok(true)
    ensures Validation([Implicit(0, Null)], Chosen(V(Optional(Implicit(0, Null)), Absent))) == Ok(true)
    ensures Validation([Implicit(5, Sized(1, UnsignedInt))], Chosen(V(Sized(1, UnsignedInt), Raw([1])))) == Err(NotAlternative)
  {
    assert IsInstance(Implicit(5, Sized(1, UnsignedInt)), Sized(1, UnsignedInt));
    assert IsInstance(Optional(Implicit(0, Null)), Implicit(0, Null));
  }

  /** A CHOICE's default holds its first alternative's default, and so passes the validation. */
  lemma ChoiceDefaultValid(env: Schema, cls: Schema, alts: seq<Schema>, fuel: nat)
    requires alts != [] && DefaultValue(env, alts[0], fuel).Ok?
    ensures Default(env, cls, Choice(alts), fuel) == Ok(Chosen(DefaultValue(env, alts[0], fuel).value))
    ensures Validation(alts, Default(env, cls, Choice(alts), fuel).value) == Ok(true)
  {
  }

  /** SizedCoder.validate: the value must have exactly the class's Size octets. */
  function SizedValidate(n: nat, bs: seq<byte>): (r: Result<()>)
    ensures r.Ok? <==> |bs| == n
    ensures r.Err? ==> r.error == WrongSize(|bs|, n)
  {
    if n != |bs| then Err(WrongSize(|bs|, n)) else Ok(())
  }

  /** What SizedCoder.get returns always has Size octets, so it passes validate. */
  lemma DecodedSizedValid(env: Schema, cls: Schema, n: nat, kind: ScalarKind, b: seq<byte>, pos: nat, fuel: nat)
    requires DecodeLayer(env, cls, Sized(n, kind), b, pos, fuel).Ok?
    ensures var v := DecodeLayer(env, cls, Sized(n, kind), b, pos, fuel).value.0;
      v.p.Raw? && SizedValidate(n, v.p.bytes) == Ok(())
  {
  }

  /**
   * The default of a fixed-size coder is the one octet 00 of IntegerType
   * and EnumeratedType, or the empty octets of OctetStringType, whatever
   * its Size: only Size 1 integers (and Size 0 octet strings) pass
   * validate with it, so Integer16.default() and OctetString4.default()
   * do not.
   */
  lemma SizedDefaultValid(env: Schema, cls: Schema, n: nat, kind: ScalarKind, fuel: nat)
    ensures Default(env, cls, Sized(n, kind), fuel).Ok?
    ensures var d := Default(env, cls, Sized(n, kind), fuel).value;
      d.Raw? && (SizedValidate(n, d.bytes).Ok? <==> n == (if kind == OctetStr then 0 else 1))
  {
  }

  // -------------------------------------------------------------- equality

  /** The base coders that compare as int(self) == int(other): IntegerType and EnumeratedType. */
  predicate IntLike(b: Schema)
  {
    (b.Sized? && b.kind != OctetStr) || b == Str(IntegerString)
  }

  /** The base coders that int() accepts: the integers, the enumerations and BooleanType. */
  predicate HasInt(b: Schema)
  {
    IntLike(b) || b.Bool?
  }

  /** SIGNED(): the signed integers, not the unsigned ones, the enumerations or the boolean. */
  predicate Signed(b: Schema)
  {
    (b.Sized? && b.kind == SignedInt) || b == Str(IntegerString)
  }

  /**
   * The object a class holds in its Tag attribute, as Python's == tells
   * them apart. A universal asn1.Tag has no __eq__ of its own and compares
   * by identity: there is one object per universal number, except that
   * SEQUENCE and SEQUENCE OF each create their own Tag(16). An IMPLICIT
   * class holds an a_xdr.Tag, whose == compares the numbers only; a BER bit
   * string holds an x690.Tag, whose == compares number and class; the
   * A-XDR bit string inherits the bare int 3.
   */
  datatype TagAttr =
    | UniversalTag(number: int, sequenceOf: bool)
    | ContextTag(number: int)
    | IdentifierTag(id: X690.Tag)
    | IntTag
  {
    /** The number the tag stands for (ClassNumber, or the int itself). */
    function Number(): int
    {
      match this
      case UniversalTag(n, _) => n
      case ContextTag(n) => n
      case IdentifierTag(t) => t.number
      case IntTag => 3
    }

    /** The Class attribute: every tag but an x690.Tag is built UNIVERSAL. */
    function Class(): TagClass
      requires !IntTag?
    {
      if IdentifierTag? then id.cls else Universal
    }
  }

  /** The Tag attribute of class s: Implicit overrides it, OPTIONAL keeps its base's. */
  function TagAttrOf(s: Schema): (r: TagAttr)
    ensures r.Number() == ClassTag(s)
    ensures r.UniversalTag? ==> (r.sequenceOf <==> Base(s).SeqOf? || Base(s).Annotated?)
  {
    match s
    case Implicit(t, _) => ContextTag(t)
    case Optional(inner) => TagAttrOf(inner)
    case BitStr => IntTag
    case BerBitStr(id) => IdentifierTag(id)
    case SeqOf(_) => UniversalTag(16, true)
    case Annotated(_) => UniversalTag(16, true)
    case _ => UniversalTag(ClassTag(s), false)
  }

  /**
   * a == b between two Tag attributes, with Python's reflected-operand
   * rule: an a_xdr.Tag or x690.Tag on the right of a universal asn1.Tag,
   * a subclass overriding __eq__, is asked first. Between an a_xdr.Tag and
   * an x690.Tag the left operand decides. The int 3 equals itself, differs
   * from a universal Tag, and raises against the other two, whose __eq__
   * reads its ClassNumber.
   */
  function TagsEqual(a: TagAttr, b: TagAttr): (r: Result<bool>)
    ensures r == Ok(true) ==> a.Number() == b.Number()
    ensures r.Err? <==> (a.IntTag? || b.IntTag?) && (a.ContextTag? || a.IdentifierTag? || b.ContextTag? || b.IdentifierTag?)
    ensures a.UniversalTag? && b.UniversalTag? ==> (r == Ok(true) <==> a == b)
    ensures a.IdentifierTag? && !b.IntTag? ==> (r == Ok(true) <==> a.Number() == b.Number() && a.Class() == b.Class())
  {
    if a.IntTag? || b.IntTag? then
      if a.IntTag? && b.IntTag? then Ok(true)
      else if a.UniversalTag? || b.UniversalTag? then Ok(false)
      else Err(Incomparable)
    else if a.UniversalTag? && b.UniversalTag? then Ok(a == b)
    else if a.ContextTag? then Ok(a.number == b.Number())
    else if b.ContextTag? && a.UniversalTag? then Ok(a.number == b.number)
    else Ok(a.Number() == b.Number() && a.Class() == b.Class())
  }

  /** The base coders whose == is Type.__eq__: the Tag attributes first, then the values. */
  predicate ComparesTags(b: Schema)
  {
    !IntLike(b) && !b.Bool? && !b.Choice? && !b.DataRef?
  }

  /**
   * x == y as the class of x defines it. IntegerType and EnumeratedType
   * compare the integers the octets stand for, under each side's own
   * signedness; BooleanType wants the same class and octets; Choice
   * compares the Tag attributes of the held values, then the held values;
   * every other type compares the Tag attributes (TagsEqual), then the
   * values, element by element for SEQUENCE and SEQUENCE OF. Where Python
   * raises (int() of a value without one, a NULL without a value, the int
   * tag of the A-XDR bit string against a tag object) the result is
   * Incomparable.
   */
  function Equal(x: Value, y: Value): (r: Result<bool>)
    ensures Base(x.cls).Bool? ==> (r == Ok(true) <==> x == y)
    ensures r == Ok(true) && !IntLike(Base(x.cls)) && !Base(x.cls).Choice? && !Base(x.cls).DataRef? ==>
      ClassTag(x.cls) == ClassTag(y.cls) && TagsEqual(TagAttrOf(x.cls), TagAttrOf(y.cls)) == Ok(true)
    ensures r == Ok(true) && (Base(x.cls).Choice? || Base(x.cls).DataRef?) ==>
      x.p.Chosen? && y.p.Chosen? && ClassTag(x.p.alt.cls) == ClassTag(y.p.alt.cls) &&
      TagsEqual(TagAttrOf(x.p.alt.cls), TagAttrOf(y.p.alt.cls)) == Ok(true)
    ensures ComparesTags(Base(x.cls)) && TagsEqual(TagAttrOf(x.cls), TagAttrOf(y.cls)).Err? ==> r.Err?
    ensures ComparesTags(Base(x.cls)) && TagsEqual(TagAttrOf(x.cls), TagAttrOf(y.cls)) == Ok(false) ==> r == Ok(false)
    decreases x, 1
  {
    var bx := Base(x.cls);
    if IntLike(bx) then
      if HasInt(Base(y.cls)) && x.p.Raw? && y.p.Raw? then
        Ok(ToInt(x.p.bytes, Signed(bx)) == ToInt(y.p.bytes, Signed(Base(y.cls))))
      else Err(Incomparable)
    else if bx.Bool? then Ok(y.cls == x.cls && y.p == x.p)
    else if bx.Choice? || bx.DataRef? then
      if !(x.p.Chosen? && y.p.Chosen?) then Err(Incomparable)
      else
        var same :- TagsEqual(TagAttrOf(x.p.alt.cls), TagAttrOf(y.p.alt.cls));
        if !same then Ok(false)
        else
          assert x.p.alt.p < x.p.alt;
          Equal(x.p.alt, y.p.alt)
    else
      var same :- TagsEqual(TagAttrOf(x.cls), TagAttrOf(y.cls));
      if !same then Ok(false)
      else if x.p.NoValue? || y.p.NoValue? then Err(Incomparable)
      else if x.p.Items? && y.p.Items? then EqualList(x.p.vs, y.p.vs)
      else Ok(x.p == y.p)
  }

  /**
   * Tuple equality as CPython compares tuples: the elements pairwise from
   * the front, the first unequal or raising pair deciding, and only when
   * the shorter tuple is used up, the lengths.
   */
  function EqualList(vs: seq<Value>, ws: seq<Value>): (r: Result<bool>)
    ensures r == Ok(true) ==> |vs| == |ws|
    decreases vs, 0
  {
    if vs == [] || ws == [] then Ok(|vs| == |ws|)
    else
      assert vs[0] in vs;
      var e :- Equal(vs[0], ws[0]);
      if !e then Ok(false) else EqualList(vs[1..], ws[1..])
  }

  /** Values whose == does not raise when compared with themselves. */
  ghost predicate Comparable(v: Value)
    decreases v, 1
  {
    var b := Base(v.cls);
    if IntLike(b) then v.p.Raw?
    else if b.Bool? then true
    else if b.Choice? || b.DataRef? then v.p.Chosen? && (assert v.p.alt.p < v.p.alt; Comparable(v.p.alt))
    else !v.p.NoValue? && (v.p.Items? ==> ComparableList(v.p.vs))
  }

  ghost predicate ComparableList(vs: seq<Value>)
    decreases vs, 0
  {
    vs == [] || (assert vs[0] in vs; Comparable(vs[0]) && ComparableList(vs[1..]))
  }

  /** A comparable value equals itself. */
  lemma {:induction false} EqualReflexive(v: Value)
    requires Comparable(v)
    ensures Equal(v, v) == Ok(true)
    decreases v, 1
  {
    var b := Base(v.cls);
    if IntLike(b) || b.Bool? {
    } else if b.Choice? || b.DataRef? {
      assert v.p.alt.p < v.p.alt;
      EqualReflexive(v.p.alt);
    } else if v.p.Items? {
      EqualListReflexive(v.p.vs);
    }
  }

  lemma {:induction false} EqualListReflexive(vs: seq<Value>)
    requires ComparableList(vs)
    ensures EqualList(vs, vs) == Ok(true)
    decreases vs, 0
  {
    if vs != [] {
      assert vs[0] in vs;
      EqualReflexive(vs[0]);
      EqualListReflexive(vs[1..]);
    }
  }

  /** Tuples are equal exactly when they have the same length and every pair of elements compares equal. */
  lemma {:induction false} EqualListPairwise(vs: seq<Value>, ws: seq<Value>)
    ensures EqualList(vs, ws) == Ok(true) <==>
      |vs| == |ws| && forall i :: 0 <= i < |vs| ==> Equal(vs[i], ws[i]) == Ok(true)
    decreases |vs|
  {
    if vs != [] && ws != [] {
      EqualListPairwise(vs[1..], ws[1..]);
      if EqualList(vs, ws) == Ok(true) {
        forall i | 1 <= i < |vs|
          ensures Equal(vs[i], ws[i]) == Ok(true)
        {
          assert vs[1..][i - 1] == vs[i] && ws[1..][i - 1] == ws[i];
        }
      }
      if |vs| == |ws| && forall i :: 0 <= i < |vs| ==> Equal(vs[i], ws[i]) == Ok(true) {
        forall i | 0 <= i < |vs| - 1
          ensures Equal(vs[1..][i], ws[1..][i]) == Ok(true)
        {
          assert vs[1..][i] == vs[i + 1] && ws[1..][i] == ws[i + 1];
        }
      }
    }
  }

  /**
   * A tuple of comparable values is unequal to a longer tuple that starts
   * with it: the lengths decide once the shorter tuple is used up.
   */
  lemma {:induction false} EqualListPrefix(vs: seq<Value>, ws: seq<Value>)
    requires ComparableList(vs) && |vs| < |ws| && ws[..|vs|] == vs
    ensures EqualList(vs, ws) == Ok(false)
    decreases |vs|
  {
    if vs != [] {
      assert ws[0] == vs[0];
      assert vs[0] in vs;
      EqualReflexive(vs[0]);
      assert ws[1..][..|vs| - 1] == vs[1..];
      EqualListPrefix(vs[1..], ws[1..]);
    }
  }

  /**
   * A pair of elements that cannot be compared raises even when the
   * lengths differ: SEQUENCE OF one NULL against SEQUENCE OF two NULLs is
   * Incomparable, not unequal.
   */
  lemma NullSequencesIncomparable(t: byte, e: Schema)
    ensures var n := V(Implicit(t, Null), NoValue);
      Equal(V(SeqOf(e), Items([n])), V(SeqOf(e), Items([n, n]))) == Err(Incomparable)
  {
    var n := V(Implicit(t, Null), NoValue);
    NullIncomparable(t);
    assert [n][1..] == [] && [n, n][1..] == [n];
    assert EqualList([n], [n, n]) == Err(Incomparable);
  }

  /** Between two integer classes == is symmetric: each side converts by its own signedness. */
  lemma IntegerEqualSymmetric(x: Value, y: Value)
    requires IntLike(Base(x.cls)) && IntLike(Base(y.cls))
    ensures Equal(x, y) == Equal(y, x)
  {
  }

  /**
   * Integers of different widths and signedness compare by value: Long 5
   * equals Unsigned 5, and Integer -1 does not equal Unsigned 255 though
   * their octets are the same.
   */
  lemma IntegerEqualByValue()
    ensures Equal(V(Sized(2, SignedInt), Raw([0x00, 0x05])), V(Sized(1, UnsignedInt), Raw([0x05]))) == Ok(true)
    ensures Equal(V(Sized(1, SignedInt), Raw([0xFF])), V(Sized(1, UnsignedInt), Raw([0xFF]))) == Ok(false)
  {
    assert [0x00, 0x05][..1] == [0x00];
    assert [0x05][..0] == [];
  }

  /**
   * An integer equals a boolean of the same int(), but the boolean, which
   * wants its own class, does not equal the integer: == is not symmetric.
   */
  lemma IntegerBooleanAsymmetric()
    ensures Equal(V(Sized(1, UnsignedInt), Raw([1])), V(Bool, Raw([1]))) == Ok(true)
    ensures Equal(V(Bool, Raw([1])), V(Sized(1, UnsignedInt), Raw([1]))) == Ok(false)
  {
  }

  /** Two NULLs of the same tag cannot be compared: NullType keeps no value. */
  lemma NullIncomparable(t: byte)
    ensures Equal(V(Implicit(t, Null), NoValue), V(Implicit(t, Null), NoValue)) == Err(Incomparable)
  {
    assert Base(Implicit(t, Null)) == Null;
  }

  /** Every Tag attribute equals itself: a universal Tag is the same object, the others compare their own fields. */
  lemma TagsEqualReflexive(a: TagAttr)
    ensures TagsEqual(a, a) == Ok(true)
  {
  }

  /** Tag == is symmetric except between an a_xdr.Tag and an x690.Tag, where the left operand's __eq__ decides. */
  lemma TagsEqualSymmetric(a: TagAttr, b: TagAttr)
    requires !(a.ContextTag? && b.IdentifierTag?) && !(a.IdentifierTag? && b.ContextTag?)
    ensures TagsEqual(a, b) == TagsEqual(b, a)
  {
  }

  /**
   * SEQUENCE and SEQUENCE OF both report tag number 16 but hold two
   * different universal Tag objects, so their values are never equal,
   * even when both are empty.
   */
  lemma SequenceNotSequenceOf(e: Schema)
    ensures ClassTag(Seq([])) == ClassTag(SeqOf(e))
    ensures Equal(V(Seq([]), Items([])), V(SeqOf(e), Items([]))) == Ok(false)
    ensures Equal(V(SeqOf(e), Items([])), V(Seq([]), Items([]))) == Ok(false)
  {
  }

  /** BER bit strings compare the class of their identifiers too: APPLICATION 31 is not PRIVATE 31. */
  lemma BerTagClassCompared(c: seq<byte>)
    ensures Equal(V(BerBitStr(X690.Tag(31, Application)), Raw(c)), V(BerBitStr(X690.Tag(31, Private)), Raw(c))) == Ok(false)
    ensures Equal(V(BerBitStr(X690.Tag(31, Application)), Raw(c)), V(BerBitStr(X690.Tag(31, Application)), Raw(c))) == Ok(true)
  {
  }

  /**
   * An IMPLICIT [31] octet string equals a BER bit string tagged
   * APPLICATION 31 with the same octets, because a_xdr.Tag compares numbers
   * only; the other way round x690.Tag also compares the class, and the
   * a_xdr.Tag is UNIVERSAL, so == is not symmetric.
   */
  lemma TaggedAgainstBerAsymmetric(c: seq<byte>)
    ensures Equal(V(Implicit(31, Str(OctetString)), Raw(c)), V(BerBitStr(X690.Tag(31, Application)), Raw(c))) == Ok(true)
    ensures Equal(V(BerBitStr(X690.Tag(31, Application)), Raw(c)), V(Implicit(31, Str(OctetString)), Raw(c))) == Ok(false)
  {
    assert Base(Implicit(31, Str(OctetString))) == Str(OctetString);
  }

  /**
   * The A-XDR bit string's Tag is the int 3: comparing it with a tagged
   * bit string reads ClassNumber of that int and raises, in either order.
   */
  lemma BitStringAgainstTaggedRaises(n: int, c: seq<byte>)
    ensures Equal(V(BitStr, Bits(n, c)), V(Implicit(3, BitStr), Bits(n, c))) == Err(Incomparable)
    ensures Equal(V(Implicit(3, BitStr), Bits(n, c)), V(BitStr, Bits(n, c))) == Err(Incomparable)
  {
    assert Base(Implicit(3, BitStr)) == BitStr;
  }
}
