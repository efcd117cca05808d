// Octets, decoding results and big-endian unsigned integers: the vocabulary
// shared by the X.690 length/tag coders, the A-XDR codec and the COSEM layer.

module Octets {

  /** One octet of a byte buffer. */
  type byte = x: int | 0 <= x < 256

  /** Why a decode (or a value conversion) fails. */
  datatype Error =
    | Exhausted(at: nat, need: nat)            // a read past the end of the buffer
    | TagMismatch(expected: int, got: int)     // a one-octet implicit tag differs
    | BerTagMismatch(wantClass: int, wantNumber: nat, gotClass: int, gotNumber: nat)
    | UnknownTag(got: int, accepted: seq<int>) // no CHOICE alternative carries the tag
    | IndefiniteLength                         // a length of -1 where a byte count is needed
    | CountMismatch(count: int, fields: nat)   // a structure's element count is not its field count
    | DepthExceeded                            // nesting deeper than the decoder's bound
    | NotImplemented                           // a default the type does not provide
    | Overflow                                 // an integer does not fit the requested width
    | BadText                                  // text that the type cannot parse
    | IndexOutOfRange                          // a bit index outside the bit list
    | NotAlternative                           // a CHOICE holding none of its alternatives
    | WrongSize(length: nat, size: nat) // fixed-size octets of another length
    | Incomparable                             // == raises: no __int__, or no value to compare

  datatype Result<T> = Ok(value: T) | Err(error: Error)
  {
    predicate IsFailure() { Err? }

    function PropagateFailure<U>(): Result<U>
      requires Err?
    {
      Err(error)
    }

    function Extract(): T
      requires Ok?
    {
      value
    }
  }

  /** 256 to the power k. */
  function Pow256(k: nat): (r: nat)
    ensures r >= 1
    ensures k > 0 ==> r >= 256
  {
    if k == 0 then 1 else 256 * Pow256(k - 1)
  }

  /** 2 to the power k. */
  function Pow2(k: nat): (r: nat)
    ensures r >= 1
  {
    if k == 0 then 1 else 2 * Pow2(k - 1)
  }

  lemma {:induction false} Pow2Bytes(k: nat)
    ensures Pow2(8 * k) == Pow256(k)
  {
    if k > 0 {
      Pow2Bytes(k - 1);
      Pow2Mul(8 * (k - 1), 8);
      assert Pow2(8) == 256;
    }
  }

  lemma {:induction false} Pow2Mul(a: nat, b: nat)
    ensures Pow2(a + b) == Pow2(a) * Pow2(b)
  {
    if b > 0 {
      Pow2Mul(a, b - 1);
    }
  }

  lemma {:induction false} Pow2Monotone(a: nat, b: nat)
    requires a <= b
    ensures Pow2(a) <= Pow2(b)
  {
    if a < b {
      Pow2Monotone(a, b - 1);
    }
  }

  /** The k low-order octets of v, most significant first. */
  function ToBigEndian(v: nat, k: nat): (r: seq<byte>)
    ensures |r| == k
  {
    if k == 0 then [] else ToBigEndian(v / 256, k - 1) + [v % 256]
  }

  /** The unsigned integer whose big-endian octets are b. */
  function FromBigEndian(b: seq<byte>): (r: nat)
    ensures r < Pow256(|b|)
  {
    if b == [] then 0
    else
      var hi := FromBigEndian(b[..|b| - 1]);
      assert hi <= Pow256(|b| - 1) - 1;
      hi * 256 + b[|b| - 1]
  }

  /** Writing k octets and reading them back gives the integer back when it fits. */
  lemma {:induction false} FromToBigEndian(v: nat, k: nat)
    requires v < Pow256(k)
    ensures FromBigEndian(ToBigEndian(v, k)) == v
  {
    if k > 0 {
      var r := ToBigEndian(v, k);
      assert r[..k - 1] == ToBigEndian(v / 256, k - 1);
      FromToBigEndian(v / 256, k - 1);
    }
  }

  /** Reading k octets and writing them back gives the octets back. */
  lemma {:induction false} ToFromBigEndian(b: seq<byte>)
    ensures ToBigEndian(FromBigEndian(b), |b|) == b
  {
    if b != [] {
      var n := |b|;
      var hi := FromBigEndian(b[..n - 1]);
      assert (hi * 256 + b[n - 1]) / 256 == hi;
      assert (hi * 256 + b[n - 1]) % 256 == b[n - 1];
      ToFromBigEndian(b[..n - 1]);
      assert b == b[..n - 1] + [b[n - 1]];
    }
  }

  /** The number of base-256 digits of n (0 for 0). */
  function DigitCount256(n: nat): (r: nat)
    ensures n < Pow256(r)
    ensures r > 0 ==> Pow256(r - 1) <= n
  {
    if n == 0 then 0 else 1 + DigitCount256(n / 256)
  }

  /** The number of significant bits of n, as Python's int.bit_length. */
  function BitLength(n: nat): (r: nat)
    ensures n < Pow2(r)
    ensures r > 0 ==> Pow2(r - 1) <= n
  {
    if n == 0 then 0 else 1 + BitLength(n / 2)
  }

  /** Where the octets w lie at pos of b, every slice of w lies at the same offset. */
  lemma Window(b: seq<byte>, pos: nat, w: seq<byte>, i: nat, j: nat)
    requires pos + |w| <= |b| && b[pos..pos + |w|] == w
    requires i <= j <= |w|
    ensures b[pos + i..pos + j] == w[i..j]
  {
    forall k | i <= k < j
      ensures b[pos + k] == w[k]
    {
      assert b[pos + k] == b[pos..pos + |w|][k];
    }
  }

  /** The octets w sit in b from index pos on. */
  predicate At(b: seq<byte>, pos: nat, w: seq<byte>)
  {
    pos + |w| <= |b| && b[pos..pos + |w|] == w
  }

  /** Octets u + w at pos are u at pos followed by w right after it. */
  lemma AtConcat(b: seq<byte>, pos: nat, u: seq<byte>, w: seq<byte>)
    requires At(b, pos, u + w)
    ensures At(b, pos, u) && At(b, pos + |u|, w)
  {
    Window(b, pos, u + w, 0, |u|);
    Window(b, pos, u + w, |u|, |u| + |w|);
    assert (u + w)[..|u|] == u;
    assert (u + w)[|u|..|u| + |w|] == w;
  }

  /** n zero octets, as a freshly allocated buffer holds. */
  function Zeros(n: nat): (r: seq<byte>)
    ensures |r| == n
    ensures forall i :: 0 <= i < n ==> r[i] == 0
  {
    seq(n, _ => 0)
  }
}
