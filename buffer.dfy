// The byte buffer the coders read from and write into: a fixed-size array of
// octets with a current position. Reads past the end fail with Exhausted;
// what a put does is described by a list of chunks, so that the pure
// encoders can say exactly which octets a put writes and where.

module Buffer {
  import opened Octets

  /** One write step of a put. */
  datatype Chunk =
    | Here(bytes: seq<byte>)    // written at the current position, which then moves past them
    | AtZero(bytes: seq<byte>)  // packed at offset 0 of the underlying buffer; the position stays
    | Fail                      // an octet value outside 0..255, which the buffer refuses

  /** The state after a run of chunks, or Raised when the buffer refused one. */
  datatype Outcome = Wrote(buf: seq<byte>, pos: nat) | Raised

  /** buf with the octets bs written from index at on. */
  function Splice(buf: seq<byte>, at: nat, bs: seq<byte>): (r: seq<byte>)
    requires at + |bs| <= |buf|
    ensures |r| == |buf|
  {
    buf[..at] + bs + buf[at + |bs|..]
  }

  /** A write replaces exactly its own octets and keeps the others. */
  lemma SpliceWrites(buf: seq<byte>, at: nat, bs: seq<byte>)
    requires at + |bs| <= |buf|
    ensures Splice(buf, at, bs)[..at] == buf[..at]
    ensures Splice(buf, at, bs)[at..at + |bs|] == bs
    ensures Splice(buf, at, bs)[at + |bs|..] == buf[at + |bs|..]
  {
    var r := Splice(buf, at, bs);
    assert r == buf[..at] + bs + buf[at + |bs|..];
  }

  /** One write of a put. */
  function Step(buf: seq<byte>, pos: nat, c: Chunk): Outcome
  {
    match c
    case Here(bs) => if pos + |bs| <= |buf| then Wrote(Splice(buf, pos, bs), pos + |bs|) else Raised
    case AtZero(bs) => if |bs| <= |buf| then Wrote(Splice(buf, 0, bs), pos) else Raised
    case Fail => Raised
  }

  /**
   * A write puts octets at the cursor, which moves past them, or packs them
   * at offset 0, the cursor staying; either raises when the octets do not
   * fit, and a refused octet always raises.
   */
  lemma StepWrites(buf: seq<byte>, pos: nat, c: Chunk)
    ensures c.Fail? ==> Step(buf, pos, c).Raised?
    ensures c.Here? ==> (Step(buf, pos, c).Wrote? <==> pos + |c.bytes| <= |buf|)
    ensures c.AtZero? ==> (Step(buf, pos, c).Wrote? <==> |c.bytes| <= |buf|)
    ensures Step(buf, pos, c).Wrote? ==>
      var r := Step(buf, pos, c);
      |r.buf| == |buf| && r.pos == (if c.Here? then pos + |c.bytes| else pos) &&
      r.buf[(if c.Here? then pos else 0)..][..|c.bytes|] == c.bytes
  {
  }

  /** The buffer and position after performing the chunks in order. */
  function Apply(buf: seq<byte>, pos: nat, cs: seq<Chunk>): Outcome
    decreases |cs|
  {
    if cs == [] then Wrote(buf, pos)
    else
      match Step(buf, pos, cs[0])
      case Raised => Raised
      case Wrote(b, p) => Apply(b, p, cs[1..])
  }

  /** A run of writes keeps the buffer's size and never moves the cursor back; a refused octet anywhere raises. */
  lemma {:induction false} ApplyBounds(buf: seq<byte>, pos: nat, cs: seq<Chunk>)
    ensures Apply(buf, pos, cs).Wrote? ==> |Apply(buf, pos, cs).buf| == |buf| && pos <= Apply(buf, pos, cs).pos
    ensures Fail in cs ==> Apply(buf, pos, cs).Raised?
    decreases |cs|
  {
    if cs != [] {
      assert Fail in cs && cs[0] != Fail ==> Fail in cs[1..];
      StepWrites(buf, pos, cs[0]);
      match Step(buf, pos, cs[0])
      case Raised =>
      case Wrote(b, p) => ApplyBounds(b, p, cs[1..]);
    }
  }

  function Then(o: Outcome, cs: seq<Chunk>): Outcome
  {
    match o
    case Raised => Raised
    case Wrote(b, p) => Apply(b, p, cs)
  }

  /** The octets the chunks carry, in order: what the put reports as written. */
  function Written(cs: seq<Chunk>): seq<byte>
    decreases |cs|
  {
    if cs == [] then [] else
      (match cs[0] case Here(bs) => bs case AtZero(bs) => bs case Fail => []) + Written(cs[1..])
  }

  /** Every chunk writes at the current position: an encoding laid out in place. */
  predicate InPlace(cs: seq<Chunk>)
  {
    forall i :: 0 <= i < |cs| ==> cs[i].Here?
  }

  lemma {:induction false} WrittenConcat(a: seq<Chunk>, b: seq<Chunk>)
    ensures Written(a + b) == Written(a) + Written(b)
    decreases |a|
  {
    if a == [] {
      assert a + b == b;
    } else {
      var h := match a[0] case Here(bs) => bs case AtZero(bs) => bs case Fail => [];
      assert (a + b)[0] == a[0];
      assert (a + b)[1..] == a[1..] + b;
      WrittenConcat(a[1..], b);
      calc {
        Written(a + b);
        h + Written(a[1..] + b);
        h + (Written(a[1..]) + Written(b));
        (h + Written(a[1..])) + Written(b);
      }
    }
  }

  lemma WrittenHere(bs: seq<byte>, cs: seq<Chunk>)
    ensures Written([Here(bs)]) == bs
    ensures Written([Here(bs)] + cs) == bs + Written(cs)
  {
    assert ([Here(bs)] + cs)[1..] == cs;
    assert Written([Here(bs)]) == bs + Written([]);
  }

  /** Running c, then the rest from where c left off. */
  lemma ApplyFirst(buf: seq<byte>, pos: nat, c: Chunk, rest: seq<Chunk>)
    ensures Apply(buf, pos, [c] + rest) == Then(Step(buf, pos, c), rest)
    ensures Apply(buf, pos, [c]) == Step(buf, pos, c)
  {
    assert ([c] + rest)[0] == c && ([c] + rest)[1..] == rest;
    assert [c][1..] == [];
  }

  /** Running a + b is running a, then b from where a left off. */
  lemma {:induction false} ApplyConcat(buf: seq<byte>, pos: nat, a: seq<Chunk>, b: seq<Chunk>)
    ensures Apply(buf, pos, a + b) == Then(Apply(buf, pos, a), b)
    decreases |a|
  {
    if a == [] {
      assert a + b == b;
    } else {
      assert (a + b)[0] == a[0];
      assert (a + b)[1..] == a[1..] + b;
      match Step(buf, pos, a[0])
      case Raised =>
      case Wrote(b1, p1) => ApplyConcat(b1, p1, a[1..], b);
    }
  }

  lemma SpliceTwice(buf: seq<byte>, at: nat, a: seq<byte>, b: seq<byte>)
    requires at + |a| + |b| <= |buf|
    ensures Splice(Splice(buf, at, a), at + |a|, b) == Splice(buf, at, a + b)
  {
    var s1 := Splice(buf, at, a);
    assert s1[..at + |a|] == buf[..at] + a;
    assert s1[at + |a| + |b|..] == buf[at + |a| + |b|..];
  }

  /**
   * Chunks that all write at the current position lay their octets out
   * contiguously from pos, or fail exactly when they do not fit.
   */
  lemma {:induction false} ApplyInPlace(buf: seq<byte>, pos: nat, cs: seq<Chunk>)
    requires InPlace(cs)
    requires pos <= |buf|
    ensures pos + |Written(cs)| <= |buf| ==>
      Apply(buf, pos, cs) == Wrote(Splice(buf, pos, Written(cs)), pos + |Written(cs)|)
    ensures pos + |Written(cs)| > |buf| ==> Apply(buf, pos, cs) == Raised
    decreases |cs|
  {
    if cs == [] {
      assert Splice(buf, pos, []) == buf;
    } else {
      var bs := cs[0].bytes;
      var rest := cs[1..];
      assert cs[0].Here? && Written(cs) == bs + Written(rest);
      InPlaceTail(cs);
      if pos + |bs| <= |buf| {
        var b1 := Splice(buf, pos, bs);
        assert |b1| == |buf| && Apply(buf, pos, cs) == Apply(b1, pos + |bs|, rest);
        ApplyInPlace(b1, pos + |bs|, rest);
        InPlaceStep(buf, pos, bs, Written(rest), Apply(b1, pos + |bs|, rest));
      } else {
        assert Apply(buf, pos, cs) == Raised;
      }
    }
  }

  /** The step of ApplyInPlace: bs written at pos, then w right after it, is bs + w written at pos. */
  lemma InPlaceStep(buf: seq<byte>, pos: nat, bs: seq<byte>, w: seq<byte>, o: Outcome)
    requires pos + |bs| <= |buf|
    requires pos + |bs| + |w| <= |buf| ==> o == Wrote(Splice(Splice(buf, pos, bs), pos + |bs|, w), pos + |bs| + |w|)
    requires pos + |bs| + |w| > |buf| ==> o == Raised
    ensures pos + |bs + w| <= |buf| ==> o == Wrote(Splice(buf, pos, bs + w), pos + |bs + w|)
    ensures pos + |bs + w| > |buf| ==> o == Raised
  {
    if pos + |bs| + |w| <= |buf| {
      SpliceTwice(buf, pos, bs, w);
    }
  }


  /** Writing one more octet of bs extends the write by that octet. */
  lemma SpliceExtend(buf: seq<byte>, at: nat, bs: seq<byte>, i: nat)
    requires at + |bs| <= |buf| && i < |bs|
    ensures Splice(buf, at, bs[..i])[at + i := bs[i]] == Splice(buf, at, bs[..i + 1])
  {
    assert bs[..i + 1] == bs[..i] + [bs[i]];
  }

  lemma InPlaceTail(cs: seq<Chunk>)
    requires cs != [] && InPlace(cs)
    ensures InPlace(cs[1..])
  {
    forall i | 0 <= i < |cs[1..]| ensures cs[1..][i].Here? {
      assert cs[1..][i] == cs[i + 1];
    }
  }


  /** The n octets at pos and the position after them, or Exhausted. */
  function ReadBytes(b: seq<byte>, pos: nat, n: nat): (r: Result<(seq<byte>, nat)>)
    ensures r.Ok? <==> pos + n <= |b|
    ensures r.Ok? ==> |r.value.0| == n && r.value.1 == pos + n
  {
    if pos + n <= |b| then Ok((b[pos..pos + n], pos + n)) else Err(Exhausted(pos, n))
  }

  /** A fixed-size octet buffer with a current position. */
  class ByteBuffer {
    var data: array<byte>
    var pos: nat

    /** A zero-filled buffer of n octets, positioned at its start. */
    constructor Allocate(n: nat)
      ensures fresh(data)
      ensures data[..] == Zeros(n) && pos == 0
    {
      data := new byte[n](_ => 0);
      pos := 0;
    }

    /** A buffer holding a copy of the octets b, positioned at its start. */
    constructor Wrap(b: seq<byte>)
      ensures fresh(data)
      ensures data[..] == b && pos == 0
    {
      data := new byte[|b|](i requires 0 <= i < |b| => b[i]);
      pos := 0;
    }

    /** Whether the buffer now holds what the outcome o describes (ok) or o was Raised (not ok). */
    predicate Reached(o: Outcome, ok: bool)
      reads this, data
    {
      if o.Wrote? then ok && data[..] == o.buf && pos == o.pos else !ok
    }

    method SetPos(p: nat)
      modifies this`pos
      ensures pos == p
    {
      pos := p;
    }

    method GetUint8() returns (r: Result<byte>)
      modifies this`pos
      ensures match ReadBytes(data[..], old(pos), 1)
        case Ok((bs, p)) => r == Ok(bs[0]) && pos == p
        case Err(e) => r == Err(e)
    {
      if pos + 1 <= data.Length {
        r := Ok(data[pos]);
        pos := pos + 1;
      } else {
        r := Err(Exhausted(pos, 1));
      }
    }

    /** The next k octets as a big-endian unsigned integer. */
    method GetUint(k: nat) returns (r: Result<nat>)
      modifies this`pos
      ensures match ReadBytes(data[..], old(pos), k)
        case Ok((bs, p)) => r == Ok(FromBigEndian(bs)) && pos == p
        case Err(e) => r == Err(e)
    {
      var bs := Read(k);
      match bs
      case Ok(b) => r := Ok(FromBigEndian(b));
      case Err(e) => r := Err(e);
    }

    method Read(n: nat) returns (r: Result<seq<byte>>)
      modifies this`pos
      ensures match ReadBytes(data[..], old(pos), n)
        case Ok((bs, p)) => r == Ok(bs) && pos == p
        case Err(e) => r == Err(e)
    {
      if pos + n <= data.Length {
        r := Ok(data[pos..pos + n]);
        pos := pos + n;
      } else {
        r := Err(Exhausted(pos, n));
      }
    }

    /** Performs one chunk; fails, leaving the buffer as it was, when the buffer refuses it. */
    method Perform(c: Chunk) returns (ok: bool)
      modifies this`pos, data
      ensures Reached(Step(old(data[..]), old(pos), c), ok)
      ensures !ok ==> data[..] == old(data[..]) && pos == old(pos)
    {
      match c
      case Fail =>
        ok := false;
      case Here(bs) =>
        if pos + |bs| <= data.Length {
          CopyInto(pos, bs);
          pos := pos + |bs|;
          ok := true;
        } else {
          ok := false;
        }
      case AtZero(bs) =>
        if |bs| <= data.Length {
          CopyInto(0, bs);
          ok := true;
        } else {
          ok := false;
        }
    }

    method CopyInto(at: nat, bs: seq<byte>)
      requires at + |bs| <= data.Length
      modifies data
      ensures data[..] == Splice(old(data[..]), at, bs)
    {
      var i := 0;
      while i < |bs|
        invariant 0 <= i <= |bs|
        invariant data[..] == Splice(old(data[..]), at, bs[..i])
      {
        SpliceExtend(old(data[..]), at, bs, i);
        data[at + i] := bs[i];
        i := i + 1;
      }
      assert bs[..i] == bs;
    }

    /** Performs the chunks in order, stopping at the first one the buffer refuses. */
    method PerformAll(cs: seq<Chunk>) returns (ok: bool)
      modifies this`pos, data
      ensures Reached(Apply(old(data[..]), old(pos), cs), ok)
    {
      var i := 0;
      ok := true;
      while i < |cs|
        invariant 0 <= i <= |cs|
        invariant Apply(old(data[..]), old(pos), cs) == Apply(data[..], pos, cs[i..])
      {
        assert cs[i..][0] == cs[i] && cs[i..][1..] == cs[i + 1..];
        ok := Perform(cs[i]);
        if !ok {
          return;
        }
        i := i + 1;
      }
    }
  }
}
