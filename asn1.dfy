// The abstract ASN.1 type vocabulary (ITU-T X.680) the A-XDR coders build
// on: the top-level comma splitter used by the text notation, integer and
// boolean octet conversions, the CHOICE alternative lookup and the bit list
// operations of BIT STRING.

module Asn1 {
  import opened Octets

  // ------------------------------------------------------------ get_values

  /** The state of the splitter after some characters: pieces so far, the open piece, the depth. */
  datatype SplitState = SplitState(ret: seq<string>, el: string, nested: int)

  function SplitStep(st: SplitState, c: char): (r: SplitState)
    ensures r.nested == st.nested + (if c == '(' then 1 else if c == ')' then -1 else 0)
    ensures |r.ret| == |st.ret| + (if c == ',' && st.nested == 0 then 1 else 0)
    ensures r.ret[..|st.ret|] == st.ret
  {
    if c == ',' && st.nested == 0 then SplitState(st.ret + [st.el], "", 0)
    else if c == '(' then SplitState(st.ret, if st.nested != 0 then st.el + [c] else st.el, st.nested + 1)
    else if c == ')' then SplitState(st.ret, if st.nested - 1 != 0 then st.el + [c] else st.el, st.nested - 1)
    else SplitState(st.ret, st.el + [c], st.nested)
  }

  /** The splitter's state after reading s from the start. */
  function SplitRun(s: string): (r: SplitState)
    ensures r.nested == Depth(s)
    ensures |r.ret| == TopCommas(s)
  {
    if s == [] then SplitState([], "", 0) else SplitStep(SplitRun(s[..|s| - 1]), s[|s| - 1])
  }

  /** What get_values returns: the pieces, the open one included. */
  function Split(s: string): seq<string>
  {
    SplitRun(s).ret + [SplitRun(s).el]
  }

  /** get_values: split at the commas outside all parentheses, dropping the outer parentheses. */
  method GetValues(value: string) returns (ret: seq<string>)
    ensures ret == Split(value)
    ensures ret == UnwrapAll(Segments(value))
  {
    ret := [];
    var el := "";
    var nested := 0;
    for i := 0 to |value|
      invariant SplitRun(value[..i]) == SplitState(ret, el, nested)
    {
      var c := value[i];
      assert value[..i + 1][..i] == value[..i];
      if c == ',' && nested == 0 {
        ret := ret + [el];
        el := "";
      } else if c == '(' {
        if nested != 0 {
          el := el + [c];
        }
        nested := nested + 1;
      } else if c == ')' {
        nested := nested - 1;
        if nested != 0 {
          el := el + [c];
        }
      } else {
        el := el + [c];
      }
    }
    assert value[..|value|] == value;
    ret := ret + [el];
    SplitSegments(value);
  }

  /** Parenthesis depth after s: the opening minus the closing parentheses. */
  function Depth(s: string): int
  {
    if s == [] then 0
    else Depth(s[..|s| - 1]) + (if s[|s| - 1] == '(' then 1 else if s[|s| - 1] == ')' then -1 else 0)
  }

  /** The number of commas of s read at depth 0. */
  function TopCommas(s: string): nat
  {
    if s == [] then 0
    else TopCommas(s[..|s| - 1]) + (if s[|s| - 1] == ',' && Depth(s[..|s| - 1]) == 0 then 1 else 0)
  }

  /** Whether the last character of s is an outer parenthesis: a '(' opened at depth 0 or a ')' closing to depth 0. */
  predicate OuterParen(s: string)
    requires s != []
  {
    var d := Depth(s[..|s| - 1]);
    (s[|s| - 1] == '(' && d == 0) || (s[|s| - 1] == ')' && d == 1)
  }

  /** s without its outer parentheses; every other character, commas included, stays. */
  function Unwrapped(s: string): string
  {
    if s == [] then [] else Unwrapped(s[..|s| - 1]) + (if OuterParen(s) then [] else [s[|s| - 1]])
  }

  /** The pieces joined back together with commas. */
  function Join(xs: seq<string>): string
  {
    if xs == [] then ""
    else if |xs| == 1 then xs[0]
    else Join(xs[..|xs| - 1]) + "," + xs[|xs| - 1]
  }

  lemma JoinExtend(xs: seq<string>, e: string, c: char)
    ensures Join(xs + [e + [c]]) == Join(xs + [e]) + [c]
  {
    var ys := xs + [e + [c]];
    assert ys[..|ys| - 1] == xs;
    var zs := xs + [e];
    assert zs[..|zs| - 1] == xs;
  }

  lemma JoinSplit(xs: seq<string>, e: string)
    ensures Join(xs + [e] + [""]) == Join(xs + [e]) + ","
  {
    var ys := xs + [e] + [""];
    assert ys[..|ys| - 1] == xs + [e];
  }

  /** Joined back with commas, the pieces are s without its outer parentheses. */
  lemma {:induction false} SplitRunFacts(s: string)
    ensures Join(Split(s)) == Unwrapped(s)
  {
    if s != [] {
      var p := s[..|s| - 1];
      var c := s[|s| - 1];
      SplitRunFacts(p);
      var st := SplitRun(p);
      if c == ',' && st.nested == 0 {
        JoinSplit(st.ret, st.el);
      } else if c == '(' {
        if st.nested != 0 {
          JoinExtend(st.ret, st.el, c);
        }
      } else if c == ')' {
        if st.nested - 1 != 0 {
          JoinExtend(st.ret, st.el, c);
        }
      } else {
        JoinExtend(st.ret, st.el, c);
      }
    }
  }

  /** get_values returns one piece more than there are commas at depth 0. */
  lemma GetValuesCount(s: string)
    ensures |Split(s)| == TopCommas(s) + 1
  {
    SplitRunFacts(s);
  }

  /** Depth adds up over a concatenation. */
  lemma {:induction false} DepthConcat(x: string, y: string)
    ensures Depth(x + y) == Depth(x) + Depth(y)
    decreases |y|
  {
    if y != [] {
      var y' := y[..|y| - 1];
      assert (x + y)[..|x + y| - 1] == x + y';
      assert (x + y)[|x + y| - 1] == y[|y| - 1];
      DepthConcat(x, y');
    } else {
      assert x + y == x;
    }
  }

  /** The position just after the last comma of s read at depth 0, or 0 when there is none. */
  function LastTopCommaEnd(s: string): (r: nat)
    ensures r <= |s|
    ensures r > 0 ==> s[r - 1] == ',' && Depth(s[..r - 1]) == 0
    decreases |s|
  {
    if s == [] then 0
    else if s[|s| - 1] == ',' && Depth(s[..|s| - 1]) == 0 then |s|
    else
      var r := LastTopCommaEnd(s[..|s| - 1]);
      assert r > 0 ==> s[..|s| - 1][..r - 1] == s[..r - 1];
      r
  }

  /**
   * The text of s between consecutive commas read at depth 0: everything
   * before the first such comma, between each one and the next, and after
   * the last.
   */
  function Segments(s: string): (r: seq<string>)
    ensures |r| >= 1 && r[|r| - 1] == s[LastTopCommaEnd(s)..]
    decreases |s|
  {
    var c := LastTopCommaEnd(s);
    if c == 0 then [s] else Segments(s[..c - 1]) + [s[c..]]
  }

  /** Each piece with its outer parentheses dropped. */
  function UnwrapAll(xs: seq<string>): (r: seq<string>)
    ensures |r| == |xs| && forall k :: 0 <= k < |xs| ==> r[k] == Unwrapped(xs[k])
  {
    seq(|xs|, k requires 0 <= k < |xs| => Unwrapped(xs[k]))
  }

  /** The segments joined with commas are s again: the split loses nothing but the commas it splits at. */
  lemma {:induction false} SegmentsJoin(s: string)
    ensures Join(Segments(s)) == s
    decreases |s|
  {
    var c := LastTopCommaEnd(s);
    if c > 0 {
      var xs := Segments(s[..c - 1]);
      SegmentsJoin(s[..c - 1]);
      var ys := xs + [s[c..]];
      assert ys[..|ys| - 1] == xs;
      assert s == s[..c - 1] + "," + s[c..];
    }
  }

  /** A character that is not a depth-0 comma extends the last segment; one that is opens an empty one. */
  lemma SegmentsStep(p: string, ch: char)
    ensures ch == ',' && Depth(p) == 0 ==> Segments(p + [ch]) == Segments(p) + [""]
    ensures !(ch == ',' && Depth(p) == 0) ==>
      Segments(p + [ch]) == Segments(p)[..|Segments(p)| - 1] + [Segments(p)[|Segments(p)| - 1] + [ch]]
  {
    var s := p + [ch];
    assert s[..|s| - 1] == p;
    var c := LastTopCommaEnd(p);
    if !(ch == ',' && Depth(p) == 0) {
      assert LastTopCommaEnd(s) == c;
      assert s[c..] == p[c..] + [ch];
      if c > 0 {
        assert s[..c - 1] == p[..c - 1];
      }
    }
  }

  /** Read from the start of a segment, the depth is the depth in s, since each segment starts at depth 0. */
  lemma SegmentDepth(p: string)
    ensures Depth(p[LastTopCommaEnd(p)..]) == Depth(p)
  {
    var c := LastTopCommaEnd(p);
    assert p == p[..c] + p[c..];
    DepthConcat(p[..c], p[c..]);
    if c > 0 {
      assert p[..c][..c - 1] == p[..c - 1];
    }
  }

  lemma UnwrappedSnoc(t: string, ch: char)
    ensures Unwrapped(t + [ch]) ==
      Unwrapped(t) + (if (ch == '(' && Depth(t) == 0) || (ch == ')' && Depth(t) == 1) then [] else [ch])
  {
    assert (t + [ch])[..|t|] == t;
  }

  lemma UnwrapAllSnoc(xs: seq<string>, x: string)
    ensures UnwrapAll(xs + [x]) == UnwrapAll(xs) + [Unwrapped(x)]
  {
  }

  /** Away from a depth-0 comma the splitter keeps its pieces and extends the open one unless it reads an outer parenthesis. */
  lemma SplitStepOpen(st: SplitState, ch: char)
    requires !(ch == ',' && st.nested == 0)
    ensures SplitStep(st, ch).ret == st.ret
    ensures SplitStep(st, ch).el ==
      st.el + (if (ch == '(' && st.nested == 0) || (ch == ')' && st.nested == 1) then [] else [ch])
  {
  }

  /**
   * get_values splits exactly at the commas read at depth 0: its pieces
   * are the segments between them, each without its outer parentheses.
   */
  lemma {:induction false} SplitSegments(s: string)
    ensures Split(s) == UnwrapAll(Segments(s))
    decreases |s|
  {
    if s != [] {
      var p := s[..|s| - 1];
      var ch := s[|s| - 1];
      assert s == p + [ch];
      SplitSegments(p);
      SegmentsStep(p, ch);
      var st := SplitRun(p);
      var xs := Segments(p);
      var n := |xs|;
      assert SplitRun(s) == SplitStep(st, ch);
      if ch == ',' && st.nested == 0 {
        UnwrapAllSnoc(xs, "");
      } else {
        var init := xs[..n - 1];
        assert xs == init + [xs[n - 1]];
        UnwrapAllSnoc(init, xs[n - 1]);
        assert st.ret == UnwrapAll(init) && st.el == Unwrapped(xs[n - 1]);
        SplitStepOpen(st, ch);
        SegmentDepth(p);
        UnwrappedSnoc(xs[n - 1], ch);
        UnwrapAllSnoc(init, xs[n - 1] + [ch]);
      }
    }
  }

  lemma SplitRunPrefix(s: string, i: nat)
    requires i < |s|
    ensures SplitRun(s[..i + 1]) == SplitStep(SplitRun(s[..i]), s[i])
  {
    assert s[..i + 1][..i] == s[..i];
  }

  lemma ExampleHead()
    ensures SplitRun("3,(7,") == SplitState(["3"], "7,", 1)
  {
    var s := "3,(7,";
    assert SplitRun(s[..1]) == SplitState([], "3", 0);
    SplitRunPrefix(s, 1);
    assert SplitRun(s[..2]) == SplitState(["3"], "", 0);
    SplitRunPrefix(s, 2);
    assert SplitRun(s[..3]) == SplitState(["3"], "", 1);
    SplitRunPrefix(s, 3);
    assert SplitRun(s[..4]) == SplitState(["3"], "7", 1);
    SplitRunPrefix(s, 4);
    assert s[..5] == s;
  }

  lemma ExampleTail()
    ensures SplitRun("3,(7,0),") == SplitState(["3", "7,0"], "", 0)
  {
    var s := "3,(7,0),";
    ExampleHead();
    assert s[..5] == "3,(7,";
    SplitRunPrefix(s, 5);
    assert SplitRun(s[..6]) == SplitState(["3"], "7,0", 1);
    SplitRunPrefix(s, 6);
    assert SplitRun(s[..7]) == SplitState(["3"], "7,0", 0);
    SplitRunPrefix(s, 7);
    assert s[..8] == s;
  }

  /** A selective-access text splits into its parts, the commas inside the parentheses kept. */
  lemma GetValuesExample()
    ensures Split("3,(7,0),(1)") == ["3", "7,0", "1"]
  {
    var s := "3,(7,0),(1)";
    ExampleTail();
    assert s[..8] == "3,(7,0),";
    SplitRunPrefix(s, 8);
    assert SplitRun(s[..9]) == SplitState(["3", "7,0"], "", 1);
    SplitRunPrefix(s, 9);
    assert SplitRun(s[..10]) == SplitState(["3", "7,0"], "1", 1);
    SplitRunPrefix(s, 10);
    assert s[..11] == s;
  }

  // ------------------------------------------------------- integer octets

  /** The value 128 * 256^(k-1): the bound of a signed k-octet integer. */
  function SignBit(k: nat): nat
    requires k >= 1
  {
    128 * Pow256(k - 1)
  }

  /** Whether v fits k octets, two's complement when signed. */
  predicate Fits(v: int, k: nat, signed: bool)
  {
    if !signed then 0 <= v < Pow256(k)
    else if k == 0 then v == 0
    else var m: int := SignBit(k); -m <= v < m
  }

  /** Digital.__int__: the big-endian integer of the octets, two's complement when signed. */
  function ToInt(b: seq<byte>, signed: bool): (r: int)
    ensures Fits(r, |b|, signed)
    ensures r < 0 <==> signed && |b| > 0 && b[0] >= 128
  {
    if signed && |b| > 0 then
      SignOctet(b);
      assert Pow256(|b|) == 2 * SignBit(|b|);
      if b[0] >= 128 then FromBigEndian(b) - Pow256(|b|) else FromBigEndian(b)
    else FromBigEndian(b)
  }

  /** The width from_int uses: Size, or bit_length // 8 + 1 octets when the size is unrestricted (-1). */
  function Width(v: int, size: int): nat
    requires size >= -1
  {
    if size == -1 then BitLength(if v < 0 then -v else v) / 8 + 1 else size
  }

  /** Digital.from_int: big-endian, two's complement when signed; Overflow when v does not fit. */
  function FromInt(v: int, size: int, signed: bool): (r: Result<seq<byte>>)
    requires size >= -1
    ensures r.Ok? <==> Fits(v, Width(v, size), signed)
    ensures r.Ok? ==> |r.value| == Width(v, size)
  {
    var k := Width(v, size);
    if !Fits(v, k, signed) then Err(Overflow)
    else if v < 0 then Ok(ToBigEndian(v + Pow256(k), k))
    else Ok(ToBigEndian(v, k))
  }

  lemma Regroup(x: int, p: int, r: int, y: int)
    ensures (x * p + r) * 256 + y == x * (p * 256) + (r * 256 + y)
  {
  }

  lemma MulMonotone(a: nat, b: nat, p: nat)
    requires a <= b
    ensures a * p <= b * p
  {
  }

  lemma {:induction false} FromBigEndianHead(b: seq<byte>)
    requires |b| >= 1
    ensures FromBigEndian(b) == b[0] * Pow256(|b| - 1) + FromBigEndian(b[1..])
    decreases |b|
  {
    var n := |b|;
    if n == 1 {
      assert b[..0] == [] && b[1..] == [];
    } else {
      var init := b[..n - 1];
      FromBigEndianHead(init);
      assert init[1..] == b[1..n - 1];
      assert b[1..][..n - 2] == b[1..n - 1];
      var p := Pow256(n - 2);
      var r := FromBigEndian(b[1..n - 1]);
      assert FromBigEndian(b) == FromBigEndian(init) * 256 + b[n - 1];
      assert FromBigEndian(init) == b[0] * p + r;
      Regroup(b[0], p, r, b[n - 1]);
      assert Pow256(n - 1) == p * 256;
      assert FromBigEndian(b[1..]) == r * 256 + b[n - 1];
    }
  }

  /** The first octet is 0x80 or more exactly when the unsigned value reaches the sign bit. */
  lemma SignOctet(b: seq<byte>)
    requires |b| >= 1
    ensures b[0] >= 128 <==> FromBigEndian(b) >= SignBit(|b|)
  {
    FromBigEndianHead(b);
    var p := Pow256(|b| - 1);
    var rest := FromBigEndian(b[1..]);
    assert rest < p;
    if b[0] < 128 {
      MulMonotone(b[0], 127, p);
      assert FromBigEndian(b) < 128 * p;
    } else {
      MulMonotone(128, b[0], p);
    }
  }

  /** int(from_int(v)) == v whenever v fits. */
  lemma FromIntToInt(v: int, size: int, signed: bool)
    requires size >= -1
    requires FromInt(v, size, signed).Ok?
    ensures ToInt(FromInt(v, size, signed).value, signed) == v
  {
    var k := Width(v, size);
    var b := FromInt(v, size, signed).value;
    if v < 0 {
      FromToBigEndian(v + Pow256(k), k);
      SignOctet(b);
    } else {
      FromToBigEndian(v, k);
      if signed && k >= 1 {
        SignOctet(b);
      }
    }
  }

  /** from_int(int(b)) gives the octets back: k-octet strings and the integers that fit k octets are in one-to-one correspondence. */
  lemma ToIntFromInt(b: seq<byte>, signed: bool)
    ensures FromInt(ToInt(b, signed), |b|, signed) == Ok(b)
  {
    var k := |b|;
    var u := FromBigEndian(b);
    ToFromBigEndian(b);
    if signed && k >= 1 {
      SignOctet(b);
      assert SignBit(k) * 2 == Pow256(k);
    }
  }

  /** With no declared size, from_int always succeeds for signed types and for non-negative values. */
  lemma FromIntUnrestricted(v: int, signed: bool)
    requires signed || v >= 0
    ensures FromInt(v, -1, signed).Ok?
  {
    var m := if v < 0 then -v else v;
    var bits := BitLength(m);
    var k := bits / 8 + 1;
    Pow2Bytes(k - 1);
    Pow2Mul(7, 8 * (k - 1));
    assert Pow2(7) == 128;
    Pow2Monotone(bits, 8 * (k - 1) + 7);
    assert m < SignBit(k);
    assert SignBit(k) <= Pow256(k);
  }

  /** IntegerType and EnumeratedType equality: the integer values agree. */
  predicate SameInt(a: seq<byte>, b: seq<byte>, signed: bool)
  {
    ToInt(a, signed) == ToInt(b, signed)
  }

  /** Equal integer values of equal width are equal octets; different widths can still be equal. */
  lemma SameIntSameWidth(a: seq<byte>, b: seq<byte>, signed: bool)
    requires |a| == |b|
    ensures SameInt(a, b, signed) <==> a == b
  {
    ToIntFromInt(a, signed);
    ToIntFromInt(b, signed);
  }

  lemma SameIntAcrossWidths()
    ensures SameInt([0x00, 0x05], [0x05], false) && [0x00, 0x05] != [0x05]
  {
    assert [0x00, 0x05][..1] == [0x00];
    assert [0x05][..0] == [];
  }

  // --------------------------------------------------------------- boolean

  const FALSE: seq<byte> := [0x00]
  const TRUE: seq<byte> := [0x01]

  /** BooleanType.from_int: zero is FALSE, anything else TRUE. */
  function BoolFromInt(v: int): (r: seq<byte>)
    ensures r == FALSE <==> v == 0
    ensures r == TRUE <==> v != 0
  {
    if v == 0 then FALSE else TRUE
  }

  /** BooleanType.default. */
  function BoolDefault(): seq<byte>
  {
    TRUE
  }

  /** BooleanType.from_str: "0"/"False" and "1"/"True", anything else a ValueError. */
  function BoolFromStr(s: string): (r: Result<seq<byte>>)
    ensures r.Ok? <==> s in {"0", "False", "1", "True"}
  {
    if s == "0" || s == "False" then Ok(FALSE)
    else if s == "1" || s == "True" then Ok(TRUE)
    else Err(BadText)
  }

  /** BooleanType.__bool__: the unsigned value is nonzero. */
  predicate Truth(b: seq<byte>)
  {
    ToInt(b, false) != 0
  }

  /** from_int and __bool__ agree, and from_str and from_int agree on the numerals. */
  lemma BoolConversions(v: int)
    ensures Truth(BoolFromInt(v)) <==> v != 0
    ensures BoolFromStr("1") == Ok(BoolFromInt(1)) && BoolFromStr("0") == Ok(BoolFromInt(0))
    ensures Truth(BoolDefault())
  {
    assert FromBigEndian(TRUE) == 1 by {
      assert TRUE[..0] == [];
    }
    assert FromBigEndian(FALSE) == 0 by {
      assert FALSE[..0] == [];
    }
  }

  // ------------------------------------------------------- CHOICE lookup

  /**
   * Choice.get_named_type over the alternatives' tag numbers: the first
   * alternative carrying tag t, or UnknownTag listing the accepted tags.
   */
  function FirstWithTag(tags: seq<int>, t: int): (r: Result<nat>)
    ensures r.Ok? ==> r.value < |tags| && tags[r.value] == t
    ensures r.Ok? ==> forall j :: 0 <= j < r.value ==> tags[j] != t
    ensures r.Err? ==> t !in tags && r.error == UnknownTag(t, tags)
  {
    FirstFrom(tags, t, 0)
  }

  function FirstFrom(tags: seq<int>, t: int, i: nat): (r: Result<nat>)
    requires i <= |tags|
    ensures r.Ok? ==> i <= r.value < |tags| && tags[r.value] == t
    ensures r.Ok? ==> forall j :: i <= j < r.value ==> tags[j] != t
    ensures r.Err? ==> (forall j :: i <= j < |tags| ==> tags[j] != t) && r.error == UnknownTag(t, tags)
    decreases |tags| - i
  {
    if i == |tags| then Err(UnknownTag(t, tags))
    else if tags[i] == t then Ok(i)
    else FirstFrom(tags, t, i + 1)
  }

  /** When the tags are pairwise distinct, the lookup finds the one alternative with the tag. */
  lemma FirstWithDistinctTags(tags: seq<int>, i: nat)
    requires i < |tags|
    requires forall a, b :: 0 <= a < b < |tags| ==> tags[a] != tags[b]
    ensures FirstWithTag(tags, tags[i]) == Ok(i)
  {
  }
}
