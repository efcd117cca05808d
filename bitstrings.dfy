// BitStringType's bit access: __getitem__ reads one bit of to_list(),
// __setitem__ rebuilds the value from the bit list with one bit replaced,
// and inverse flips one bit. The A-XDR form keeps a bit count and the
// packed octets; the BER form keeps the unused-bit octet and the packed
// octets.

module BitStrings {
  import opened Octets
  import opened Bits

  /** The bit list with bit k (a Python index) replaced by b, or the IndexError. */
  function SetBit(l: seq<bit>, k: int, b: bit): (r: Result<seq<bit>>)
    ensures r.Ok? <==> -(|l| as int) <= k < |l|
    ensures r.Ok? ==> |r.value| == |l|
  {
    var i :- PyIndex(k, |l|);
    Ok(l[i := b])
  }

  /** The bit list with bit k flipped: to_list()[k] ^ 1 written back at k. */
  function FlipBit(l: seq<bit>, k: int): (r: Result<seq<bit>>)
    ensures r.Ok? <==> -(|l| as int) <= k < |l|
    ensures r.Ok? ==> |r.value| == |l|
  {
    var x :- GetBit(l, k);
    SetBit(l, k, 1 - x)
  }

  /** After setting bit k to b, bit k reads b and every other bit reads as before. */
  lemma SetBitGetBit(l: seq<bit>, k: int, b: bit, j: int)
    requires SetBit(l, k, b).Ok?
    ensures GetBit(SetBit(l, k, b).value, k) == Ok(b)
    ensures GetBit(l, j).Ok? && PyIndex(j, |l|) != PyIndex(k, |l|) ==>
      GetBit(SetBit(l, k, b).value, j) == GetBit(l, j)
  {
  }

  /** inverse changes bit k and no other. */
  lemma FlipBitChangesOne(l: seq<bit>, k: int)
    requires FlipBit(l, k).Ok?
    ensures var i := PyIndex(k, |l|).value;
      var m := FlipBit(l, k).value;
      m[i] != l[i] && forall j :: 0 <= j < |l| && j != i ==> m[j] == l[j]
  {
  }

  /** inverse twice at the same index gives the bit list back. */
  lemma FlipBitTwice(l: seq<bit>, k: int)
    requires FlipBit(l, k).Ok?
    ensures FlipBit(FlipBit(l, k).value, k) == Ok(l)
  {
    var i := PyIndex(k, |l|).value;
    var m := FlipBit(l, k).value;
    assert m == l[i := 1 - l[i]];
    assert m[i := 1 - m[i]] == l;
  }

  /** An A-XDR bit string: the bit count (its Length) and the packed content octets. */
  class XdrBitString {
    var count: int
    var content: seq<byte>

    /** from_str over a bit list: the count of bits and the bits packed. */
    constructor FromList(l: seq<bit>)
      ensures (count, content) == XdrFromList(l)
    {
      count := |l|;
      content := Pack(l);
    }

    /** to_list: the content bits cut to the count. */
    function ToList(): seq<bit>
      reads this
    {
      XdrToList(count, content)
    }

    /** __getitem__: bit k of to_list(), a negative k counting from the end. */
    function GetItem(k: int): (r: Result<bit>)
      reads this
      ensures r.Ok? <==> -(|ToList()| as int) <= k < |ToList()|
      ensures r.Ok? && k >= 0 ==> r.value == ToList()[k]
      ensures r.Ok? && k < 0 ==> r.value == ToList()[|ToList()| + k]
    {
      GetBit(ToList(), k)
    }

    /**
     * __setitem__: the bit list with bit k set to b, made a bit string
     * again; an index outside the list raises and changes nothing.
     */
    method SetItem(k: int, b: bit) returns (r: Result<()>)
      modifies this
      ensures r.Ok? <==> SetBit(old(ToList()), k, b).Ok?
      ensures r.Ok? ==> (count, content) == XdrFromList(SetBit(old(ToList()), k, b).value)
      ensures r.Ok? ==> ToList() == SetBit(old(ToList()), k, b).value
      ensures r.Err? ==> count == old(count) && content == old(content)
    {
      var tmp := ToList();
      var i := PyIndex(k, |tmp|);
      if i.Err? {
        return Err(i.error);
      }
      tmp := tmp[i.value := b];
      count, content := XdrFromList(tmp).0, XdrFromList(tmp).1;
      XdrListRoundTrip(tmp);
      r := Ok(());
    }

    /** inverse: bit k flipped, through __getitem__ and __setitem__. */
    method Inverse(k: int) returns (r: Result<()>)
      modifies this
      ensures r.Ok? <==> FlipBit(old(ToList()), k).Ok?
      ensures r.Ok? ==> ToList() == FlipBit(old(ToList()), k).value
      ensures r.Err? ==> count == old(count) && content == old(content)
    {
      var x := GetItem(k);
      if x.Err? {
        return Err(x.error);
      }
      r := SetItem(k, 1 - x.value);
    }
  }

  /** A BER bit string: the unused-bit octet, then the packed bits. */
  class BerBitString {
    var value: seq<byte>

    /** from_str over a bit list. */
    constructor FromList(l: seq<bit>)
      ensures value == BerFromList(l)
    {
      value := BerFromList(l);
    }

    /** to_list: an empty value has no unused-bit octet to read. */
    function ToList(): Result<seq<bit>>
      reads this
    {
      BerToList(value)
    }

    /** __getitem__. */
    function GetItem(k: int): (r: Result<bit>)
      reads this
      ensures ToList().Err? ==> r.Err?
      ensures ToList().Ok? ==> r == GetBit(ToList().value, k)
    {
      var l :- ToList();
      GetBit(l, k)
    }

    /** __setitem__: as for the A-XDR form, over the BER bit list. */
    method SetItem(k: int, b: bit) returns (r: Result<()>)
      modifies this
      ensures old(ToList()).Err? ==> r.Err?
      ensures old(ToList()).Ok? ==> (r.Ok? <==> SetBit(old(ToList()).value, k, b).Ok?)
      ensures r.Ok? ==> value == BerFromList(SetBit(old(ToList()).value, k, b).value)
      ensures r.Ok? ==> ToList() == Ok(SetBit(old(ToList()).value, k, b).value)
      ensures r.Err? ==> value == old(value)
    {
      var tmp := ToList();
      if tmp.Err? {
        return Err(tmp.error);
      }
      var l := tmp.value;
      var i := PyIndex(k, |l|);
      if i.Err? {
        return Err(i.error);
      }
      l := l[i.value := b];
      value := BerFromList(l);
      BerListRoundTrip(l);
      r := Ok(());
    }

    /** inverse. */
    method Inverse(k: int) returns (r: Result<()>)
      modifies this
      ensures old(ToList()).Err? ==> r.Err?
      ensures old(ToList()).Ok? ==> (r.Ok? <==> FlipBit(old(ToList()).value, k).Ok?)
      ensures r.Ok? ==> ToList() == Ok(FlipBit(old(ToList()).value, k).value)
      ensures r.Err? ==> value == old(value)
    {
      var x := GetItem(k);
      if x.Err? {
        return Err(x.error);
      }
      r := SetItem(k, 1 - x.value);
    }
  }
}
