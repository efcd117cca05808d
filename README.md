# COSEMpdu codec core in Dafny

This project models the encoding engine of the COSEMpdu Python library,
which builds DLMS/COSEM application PDUs. It covers five layers.

- **X.690 identifier and length octets** (`x690.py`, module `X690`):
  - `Length` follows section 8.1.3 of ITU-T X.690;
  - `Tag` follows section 8.1.2, including the high-tag-number form.
- **The ASN.1 vocabulary** (`asn1.py`, modules `Asn1`, `Bits`, `BitStrings`):
  - the `get_values` splitter;
  - integer and boolean byte conversions;
  - Choice alternative lookup;
  - bit-string bit access and update.
- **The A-XDR dialect** of IEC 61334-6 (`a_xdr.py`, modules `AXdr`,
  `AXdrTypes`, `AXdrLen`, `AXdrGet`, `AXdrCodec`):
  - one-octet implicit tags, fixed-size scalars, length-prefixed strings;
  - flag-octet Optional, positional Sequence, count-prefixed SequenceOf;
  - peek-and-dispatch Choice;
  - encode-only EXPLICIT and `create_buf`.
- **The BER bit string** (`ber.py`, module `Ber`), with its initial
  "unused bits" octet (section 8.6.2 of X.690).
- **The COSEM schema layer** (`main.py`, modules `Cosem`, `CosemVectors`,
  `PduVectors`):
  - the fixed-size scalars and the `Data` tag table;
  - `AnnotationSequenceOfData.get`;
  - representative GET, SET, ACTION and WRITE PDUs, pinned to the byte
    vectors the repository's tests expect.

## How the Python classes become Dafny

- **Schemas and values.** Every Python codec class becomes a node of the
  `AXdr.Schema` datatype. The mixin stack becomes nesting:
  - `Implicit(tag, inner)` stands for `a_xdr.Implicit` over a base class;
  - `Optional(inner)` stands for `a_xdr.Optional` over a base class;
  - `Choice(alts)`, `Seq(fields)`, `SeqOf(elem)` and `Annotated(fields)`
    stand for the constructed types;
  - `DataRef` is the recursive reference to `Data`.

  A value `V(cls, payload)` carries its own class, as a Python instance
  does. `put` and `__len__` dispatch on that class.
- **Encoding.**
  - `AXdr.Emit` gives the sequence of buffer writes `put` performs.
  - `AXdr.Encode` gives the octets those writes lay down.
  - `AXdr.Len` is `__len__`.
  - `AXdr.Decode` is the classmethod `get` of a schema.
- **Buffer writes.** The writes are `Buffer.Chunk`s:
  - `Here` writes at the cursor and advances it;
  - `AtZero` is `pack_into(buf, 0, …)` and leaves the cursor alone;
  - `Fail` is an octet `put_uint8` refuses.

  `Buffer.Apply` runs them on a buffer.
- **Imperative side.** `Buffer.ByteBuffer` is a class holding a byte
  `array` and a cursor `pos`. The imperative methods work on it and are
  proved equal to the pure functions:
  - `X690.GetLength`, `X690.PutLength`, `X690.GetTag`, `X690.PutTag`;
  - `Ber.Get`, `Ber.Put`;
  - `AXdrCodec.Get`, `AXdrCodec.Put`, `AXdrCodec.CreateBuf`.
- **Python errors.** `ValueError` and the buffer's bounds errors become
  `Err` results. A `put` that raises becomes `ok == false`.

## Where the code does not match its own documentation

The model follows the code in each case, and the lemmas named here state
the discrepancy.

- **Long lengths are written at offset 0.** `Length.put` packs long-form
  lengths (0x80 up to 2^32 - 1) at offset 0 of the buffer. The cursor does
  not move, although the docstring says the position increases.
  - `X690.LongLengthAtOffsetZero` states what happens.
  - `X690.LengthRoundTripAtZero` shows the round trip holds only at
    position 0.
- **Three-octet lengths use four.** Lengths from 0x10000 use four length
  octets, not the minimum three (`X690.ThreeOctetLengthUsesFour`).
- **0xFF is read as indefinite.** `Length.get` reads a first octet 0xFF as
  the indefinite length -1 (`X690.IndefiniteLength`). X.690 uses 0x80 for
  the indefinite form, which this code reads as length 0
  (`X690.EmptyLongForm`).
- **`__len__` differs from what `put` writes.**
  - For an implicitly tagged Choice with a nonzero tag it counts one octet
    too many (`AXdrLen.TaggedChoiceOverCount`). `create_buf` therefore
    leaves a trailing zero octet, which the GET, SET and ACTION test
    vectors contain.
  - For an absent Optional over a string or fixed-size coder it counts
    extra octets (`AXdrLen.AbsentOptionalOverCount`).
  - For a BER bit string with a multi-octet identifier it counts too few
    (`Ber.BerLenUndercount`).
- **`Choice.get` unwraps.** `Choice.get` returns the alternative's own value,
  not a Choice holding it (`AXdrGet.ChoiceGetUnwraps`).

## Model

| member | source | states |
|---|---|---|
| X690.LengthSizeIsWritten | src/COSEMpdu/x690.py:37-49 | `Length.__len__` equals the number of length octets `put` reports, and the written octets are the X.690 length octets |
| X690.ShortLengthInPlace | src/COSEMpdu/x690.py:69-70 | below 0x80 the length is the single octet n, written at the cursor; `__len__` is 1 |
| X690.LengthSize | src/COSEMpdu/x690.py:37-49 | `Length.__len__` counts at least one octet |
| X690.LengthSizeFits | src/COSEMpdu/x690.py:37-49 | `__len__` is 1 exactly below 0x80, and from 0x80 up the octets after the first are enough to hold the length |
| X690.LengthChunksShape | src/COSEMpdu/x690.py:67-87 | `put` raises exactly for a negative length or one needing more than 127 octets, and writes at the cursor exactly below 0x80 and from 2^32 on |
| X690.LengthOctets | src/COSEMpdu/x690.py:71-82 | from 0x80 up the octets are 0x80 + count followed by count big-endian octets |
| X690.LongLengthAtOffsetZero | src/COSEMpdu/x690.py:71-82 | from 0x80 to 2^32 - 1 `put` overwrites offset 0 of the buffer with the length octets and leaves the cursor unchanged, or raises if they do not fit |
| X690.ThreeOctetLengthUsesFour | src/COSEMpdu/x690.py:75-82 | 0x10000 is encoded as 84 00 01 00 00, four octets of length rather than three |
| X690.LongCountFits | src/COSEMpdu/x690.py:41-49 | the long-form octet count is enough to hold the length |
| X690.DecodeLength | src/COSEMpdu/x690.py:51-65 | `Length.get` consumes at least one octet and returns a length of at least -1 |
| X690.DecodeLengthOctets | src/COSEMpdu/x690.py:58-65 | `get` returns n from the length octets of n, wherever they sit, consuming exactly those octets |
| X690.LengthRoundTripAtZero | src/COSEMpdu/x690.py:51-87 | `put` followed by `get` at position 0 returns every length below 2^32, consuming `__len__` octets |
| X690.LengthVector | src/COSEMpdu/x690.py:58-63 | 81 83 reads as 0x83 in two octets, and 0x83 is written as 81 83 |
| X690.IndefiniteLength | src/COSEMpdu/x690.py:59-62 | a first octet 0xFF gives -1 and consumes only that octet |
| X690.EmptyLongForm | src/COSEMpdu/x690.py:59-63 | a first octet 0x80 reads as length 0 with no further octets |
| X690.GetLength | src/COSEMpdu/x690.py:51-65 | the buffer method returns what `DecodeLength` gives and moves the cursor past it, or reports its error |
| X690.PutLength | src/COSEMpdu/x690.py:67-87 | the buffer ends in the state `LengthChunks` describes, and the return value is `__len__` |
| X690.LengthReturned | src/COSEMpdu/x690.py:67-87 | whenever `put` writes its octets, the count it returns is the number of octets written |
| X690.TagClass.Bits | src/COSEMpdu/asn1.py:80-84 | the class value occupies only the top two bits of the identifier octet |
| X690.ClassOf | src/COSEMpdu/x690.py:108-109 | the class read from an octet is its top two bits |
| X690.Leading | src/COSEMpdu/x690.py:130-136 | every base-128 digit before the last has bit 8 set |
| X690.Subsequent | src/COSEMpdu/x690.py:126-137 | the last subsequent octet is the low seven bits of the number, bit 8 clear |
| X690.LeadingDigits | src/COSEMpdu/x690.py:128-136 | the leading octets are the flagged base-128 digits of the number in reverse order, as the list is filled and popped |
| X690.SubsequentDigits | src/COSEMpdu/x690.py:128-136 | the subsequent octets are the base-128 digits with bit 8 set on all but the least significant, popped most significant first |
| X690.FirstIdentifierOctet | src/COSEMpdu/x690.py:123-127 | the first identifier octet carries the class, and the number below 31 or else 31 |
| X690.TagOctetsShape | src/COSEMpdu/x690.py:123-127 | the first identifier octet carries the class, and it is the only one exactly when the number is below 31 |
| X690.TagChunksWritten | src/COSEMpdu/x690.py:123-137 | `Tag.put` writes the identifier octets, all of them at the cursor |
| X690.DecodeTag | src/COSEMpdu/x690.py:105-121 | `Tag.get` consumes at least one octet |
| X690.DecodeSubsequent | src/COSEMpdu/x690.py:111-118 | the subsequent-octet loop consumes at least one octet |
| X690.ReadLeading | src/COSEMpdu/x690.py:113-118 | reading the flagged leading digits accumulates their value and continues with the rest |
| X690.DecodeLongTagOctets | src/COSEMpdu/x690.py:111-118 | for a number of 31 or more the loop reads the number back from the subsequent octets |
| X690.DecodeTagOctets | src/COSEMpdu/x690.py:105-137 | `Tag.get` reads back the class and number `Tag.put` wrote, consuming exactly its octets |
| X690.ConstructedBitIgnored | src/COSEMpdu/x690.py:108-110 | bit 0x20 of a one-octet identifier does not change what `Tag.get` returns |
| X690.LowTagVectors | src/COSEMpdu/x690.py:123-125 | UNIVERSAL 1 is 01 and APPLICATION 10 is 4A |
| X690.HighTagVectors | src/COSEMpdu/x690.py:126-137 | APPLICATION 31 is 5F 1F and APPLICATION 3999 is 5F 9F 1F |
| X690.LongTagVector | src/COSEMpdu/x690.py:105-137 | APPLICATION 7777777 is 5F 83 DA DB 71, and `get` reads it back in five octets |
| X690.LeadingSize | src/COSEMpdu/x690.py:98-103 | the leading octets are as many as the base-128 digits of the number over 128 |
| X690.TagLen | src/COSEMpdu/x690.py:94-103 | the digit-counting loop of `Tag.__len__` returns the number of octets `put` writes |
| X690.CollectDigits | src/COSEMpdu/x690.py:128-132 | the first loop of `Tag.put` collects the base-128 digits, least significant first |
| X690.FlagDigits | src/COSEMpdu/x690.py:133-134 | the second loop sets bit 8 on every digit except the least significant |
| X690.PutPopped | src/COSEMpdu/x690.py:135-136 | popping the list writes its octets in reverse order, one `put_uint8` each |
| X690.PutSubsequent | src/COSEMpdu/x690.py:128-137 | the three loops write the subsequent octets of the number |
| X690.PutTag | src/COSEMpdu/x690.py:123-137 | the buffer ends in the state `TagChunks` describes, and the return value is the number of identifier octets |
| X690.GetTag | src/COSEMpdu/x690.py:105-121 | the `while True` loop returns what `DecodeTag` gives and moves the cursor past it, or reports its error |
| Asn1.GetValues | src/COSEMpdu/asn1.py:14-35 | the character loop returns `Split(value)`, and that is the list of `Segments(value)`, the text between consecutive commas read at depth 0, each without its outer parentheses |
| Asn1.SplitStep | src/COSEMpdu/asn1.py:20-31 | one character moves the depth by +1 for '(' and -1 for ')', adds a part exactly for a comma at depth 0, and keeps the parts already emitted |
| Asn1.SplitRun | src/COSEMpdu/asn1.py:19-31 | after a prefix the depth is its parenthesis balance and the number of parts is its count of depth-0 commas |
| Asn1.SplitRunFacts | src/COSEMpdu/asn1.py:19-33 | the parts emitted so far and the open part, joined by commas, are the input without the parentheses that open or close depth 0 |
| Asn1.GetValuesCount | src/COSEMpdu/asn1.py:14-35 | the number of parts is the number of depth-0 commas plus one |
| Asn1.DepthConcat | src/COSEMpdu/asn1.py:24-31 | the nesting depth after `x + y` is the depth after `x` plus the depth after `y` |
| Asn1.LastTopCommaEnd | src/COSEMpdu/asn1.py:21-23 | the position found is just after a comma read at depth 0, or 0 |
| Asn1.Segments | src/COSEMpdu/asn1.py:21-23 | there is at least one segment, and the last is the text after the last comma read at depth 0 |
| Asn1.UnwrapAll | src/COSEMpdu/asn1.py:24-33 | piece k of the result is piece k of the input without its outer parentheses |
| Asn1.SegmentsJoin | src/COSEMpdu/asn1.py:21-23 | the segments joined with commas give the input back |
| Asn1.SegmentsStep | src/COSEMpdu/asn1.py:19-33 | a comma at depth 0 starts a new, empty segment; any other character extends the last one |
| Asn1.SegmentDepth | src/COSEMpdu/asn1.py:24-31 | a segment starts at depth 0, so depth read from its start equals depth read from the start of the input |
| Asn1.UnwrappedSnoc | src/COSEMpdu/asn1.py:26-31 | one more character is dropped exactly when it is a '(' opened at depth 0 or a ')' closing to depth 0 |
| Asn1.SplitStepOpen | src/COSEMpdu/asn1.py:24-33 | away from a depth-0 comma a step keeps the finished pieces and extends the open piece with the character unless it is an outer parenthesis |
| Asn1.SplitSegments | src/COSEMpdu/asn1.py:14-35 | the pieces of `get_values` are exactly the segments between depth-0 commas, in order, each without its outer parentheses |
| Asn1.SplitRunPrefix | src/COSEMpdu/asn1.py:19-33 | the loop state after i + 1 characters is one step from the state after i |
| Asn1.ExampleHead | src/COSEMpdu/asn1.py:19-33 | on "3,(7," the loop holds ["3"], the partial "7," and depth 1 |
| Asn1.ExampleTail | src/COSEMpdu/asn1.py:19-33 | on "3,(7,0)," the loop holds ["3", "7,0"], nothing partial and depth 0 |
| Asn1.GetValuesExample | src/COSEMpdu/asn1.py:14-35 | "3,(7,0),(1)" splits into "3", "7,0" and "1" |
| Asn1.FromInt | src/COSEMpdu/asn1.py:208-214 | `from_int` succeeds exactly when the value fits in the chosen width (Size, or bit_length // 8 + 1), and then gives that many octets |
| Asn1.FromIntToInt | src/COSEMpdu/asn1.py:205-214 | `int(from_int(v)) == v` whenever `from_int` succeeds, signed or unsigned |
| Asn1.ToIntFromInt | src/COSEMpdu/asn1.py:205-214 | `from_int(int(b))` at the width of b gives b back |
| Asn1.FromIntUnrestricted | src/COSEMpdu/asn1.py:211-214 | with Size -1, `from_int` accepts every signed value, and every non-negative value when unsigned |
| Asn1.SignOctet | src/COSEMpdu/asn1.py:205-206 | the top bit of the first octet is set exactly when the unsigned value reaches the sign bit |
| Asn1.FromBigEndianHead | src/COSEMpdu/asn1.py:205-206 | the big-endian value is the first octet times 256^(k-1) plus the value of the rest |
| Asn1.ToInt | src/COSEMpdu/asn1.py:205-206 | `int()` gives a value that fits the octets' width, two's complement when signed, and it is negative exactly when signed with the top bit of the first octet set |
| Asn1.SameIntSameWidth | src/COSEMpdu/asn1.py:459-463 | integer equality by value is octet equality when both widths agree |
| Asn1.SameIntAcrossWidths | src/COSEMpdu/asn1.py:459-463 | 00 05 and 05 compare equal by value although their octets differ |
| Asn1.BoolFromInt | src/COSEMpdu/asn1.py:319-321 | `from_int` gives 00 exactly for 0 and 01 for anything else |
| Asn1.BoolFromStr | src/COSEMpdu/asn1.py:293-301 | `from_str` succeeds exactly on "0", "False", "1" and "True" |
| Asn1.BoolConversions | src/COSEMpdu/asn1.py:293-321 | `bool(from_int(v))` is `v != 0`; "1" and "0" give the same octets as `from_int(1)` and `from_int(0)`; the default is true |
| Asn1.FirstWithTag | src/COSEMpdu/asn1.py:409-417 | `get_named_type` returns the first alternative with the tag, or fails exactly when no alternative has it, naming the accepted tags |
| Asn1.FirstFrom | src/COSEMpdu/asn1.py:412-417 | the scan from position i returns the first match at or after i, or fails when there is none |
| Asn1.FirstWithDistinctTags | src/COSEMpdu/asn1.py:409-417 | with pairwise distinct tags, looking up alternative i's tag gives i |
| Bits.FromBits | src/COSEMpdu/ber.py:32 | a string of k bits denotes a number below 2^k |
| Bits.Pack | src/COSEMpdu/ber.py:28-32 | l bits, padded with zeros, make ceil(l/8) octets |
| Bits.Unpack | src/COSEMpdu/ber.py:34-37 | unpacking gives eight bits per octet, most significant first |
| Bits.LowBitsFromBits | src/COSEMpdu/ber.py:36-37 | unpacking the number a bit string denotes gives the bit string back |
| Bits.BitsOfOctet | src/COSEMpdu/ber.py:32-37 | an octet made from eight bits unpacks to those bits |
| Bits.UnpackOctet | src/COSEMpdu/ber.py:30-37 | an octet made from fewer than eight bits unpacks to those bits followed by zeros |
| Bits.UnpackPack | src/COSEMpdu/ber.py:28-37 | unpacking packed bits gives the bits back, followed only by zero padding |
| Bits.FromBitsOctet | src/COSEMpdu/ber.py:32 | an octet's value is the weighted sum of its eight bits, 128 down to 1 |
| Bits.PackCons | src/COSEMpdu/ber.py:32 | packing proceeds eight bits per octet from the front |
| Bits.XdrToList | src/COSEMpdu/a_xdr.py:77-81 | `to_list` truncates the unpacked bits to the count when the count fits |
| Bits.XdrFromList | src/COSEMpdu/a_xdr.py:62-67 | `from_str` gives the count of bits and ceil(count/8) content octets |
| Bits.XdrListRoundTrip | src/COSEMpdu/a_xdr.py:62-81 | `to_list(from_str(s))` gives s back |
| Bits.UnusedBits | src/COSEMpdu/ber.py:30 | the unused count (8 - l) % 8 is below 8 and pads l to a multiple of 8 |
| Bits.BerFromList | src/COSEMpdu/ber.py:27-32 | `from_str` gives the unused count, then ceil(l/8) content octets |
| Bits.BerToList | src/COSEMpdu/ber.py:34-42 | `to_list` has a value exactly when there is an unused octet, and then gives 8 * (octets - 1) - unused bits |
| Bits.PaddedLength | src/COSEMpdu/ber.py:29-31 | ceil(l/8) octets hold exactly l plus the unused bits |
| Bits.BerListRoundTrip | src/COSEMpdu/ber.py:27-42 | `to_list(from_str(s))` gives s back |
| Bits.PyIndex | src/COSEMpdu/asn1.py:274-276 | Python indexing accepts -len up to len - 1 and counts negative indices from the end |
| Bits.GetBit | src/COSEMpdu/asn1.py:274-276 | `__getitem__` succeeds exactly on a valid Python index and returns that bit |
| BitStrings.SetBit | src/COSEMpdu/asn1.py:243-247 | setting a bit succeeds exactly on a valid Python index and keeps the length |
| BitStrings.FlipBit | src/COSEMpdu/asn1.py:249-251 | inverting a bit succeeds exactly on a valid Python index and keeps the length |
| BitStrings.SetBitGetBit | src/COSEMpdu/asn1.py:243-247 | after setting bit k, bit k reads as the new value and every other bit is unchanged |
| BitStrings.FlipBitChangesOne | src/COSEMpdu/asn1.py:249-251 | `inverse(k)` changes bit k and no other |
| BitStrings.FlipBitTwice | src/COSEMpdu/asn1.py:249-251 | inverting the same bit twice restores the list |
| BitStrings.XdrBitString.GetItem | src/COSEMpdu/asn1.py:274-276 | an A-XDR bit string reads bit k of `to_list`, negative k from the end, and fails exactly outside the list |
| BitStrings.XdrBitString.SetItem | src/COSEMpdu/asn1.py:243-247 | `__setitem__` replaces the value by `from_list` of the updated list, or fails and leaves it unchanged |
| BitStrings.XdrBitString.Inverse | src/COSEMpdu/asn1.py:249-251 | `inverse` replaces the list by the one with bit k flipped, or fails and leaves it unchanged |
| BitStrings.BerBitString.GetItem | src/COSEMpdu/asn1.py:274-276 | a BER bit string reads bit k of `to_list`, and fails when `to_list` does |
| BitStrings.BerBitString.SetItem | src/COSEMpdu/asn1.py:243-247 | `__setitem__` stores the BER octets of the updated list, or fails and leaves the value unchanged |
| BitStrings.BerBitString.Inverse | src/COSEMpdu/asn1.py:249-251 | `inverse` flips bit k of the BER bit string, or fails and leaves it unchanged |
| Ber.BerDecode | src/COSEMpdu/ber.py:17-22 | `get` consumes at least one octet |
| Ber.BerWritten | src/COSEMpdu/ber.py:24-25 | `put` writes the identifier octets, the length octet and the value, in place |
| Ber.BerChunksLayout | src/COSEMpdu/ber.py:24-25 | `put` writes identifier, length and value octets in that order, all at the cursor exactly when the length octets are |
| Ber.BerLenMeasures | src/COSEMpdu/ber.py:14-15 | `__len__` is what `put` writes plus one minus the identifier octets, so exact exactly when the tag number is below 31 |
| Ber.BerRoundTrip | src/COSEMpdu/ber.py:17-25 | `get` reads back what `put` wrote, consuming exactly those octets |
| Ber.BerReadsOctets | src/COSEMpdu/ber.py:17-22 | `get` of identifier, length and value octets returns the value, unused octet included |
| Ber.BerWrongTag | src/COSEMpdu/ber.py:19-22 | `get` refuses an identifier whose class or number differs from the class's tag |
| Ber.BerLenUndercount | src/COSEMpdu/ber.py:14-15 | `__len__` counts one identifier octet: it is exact below number 31 and one short for APPLICATION 31 |
| Ber.BerBitsRoundTrip | src/COSEMpdu/ber.py:17-42 | `to_list(get(put(from_str(s))))` gives s back |
| Ber.Get | src/COSEMpdu/ber.py:17-22 | the buffer method returns what `BerDecode` gives and moves the cursor past it, or reports its error |
| Ber.Put | src/COSEMpdu/ber.py:24-25 | the buffer ends in the state `BerChunks` describes, and the return value is the number of octets written |
| AXdr.ClassTag | src/COSEMpdu/a_xdr.py:124-128 | the tag `Choice.__len__` looks at is the Implicit tag when there is one |
| AXdr.Tags | src/COSEMpdu/asn1.py:412-414 | the tag list has one entry per alternative, that alternative's tag |
| AXdr.Peek | src/COSEMpdu/a_xdr.py:131-133 | peeking succeeds exactly inside the buffer and gives the octet there |
| AXdr.Decode | src/COSEMpdu/a_xdr.py:131-135 | decoding never moves the cursor backwards |
| AXdr.DecodeLayer | src/COSEMpdu/a_xdr.py:311-316 | the get a layer delegates to never moves the cursor backwards |
| AXdr.DecodeChoice | src/COSEMpdu/a_xdr.py:131-135 | `Choice.get` steps back over the tag it peeked, so the alternative's get never ends before the start |
| AXdr.ChoiceDispatchesOnTag | src/COSEMpdu/a_xdr.py:131-135 | `Choice.get` succeeds only on an octet that is the tag of one of its alternatives |
| AXdr.ConformingNotChoice | src/COSEMpdu/a_xdr.py:131-135 | no value that `get` can return has an untagged Choice or Data class: the wrapper is dropped |
| AXdr.DecodeImplicit | src/COSEMpdu/a_xdr.py:311-316 | `Implicit.get` consumes at least its tag octet |
| AXdr.DecodeOptional | src/COSEMpdu/a_xdr.py:183-188 | `Optional.get` consumes at least its flag octet |
| AXdr.DecodeSized | src/COSEMpdu/a_xdr.py:261-263 | `SizedCoder.get` succeeds exactly when Size octets remain, and returns those octets |
| AXdr.DecodeStr | src/COSEMpdu/a_xdr.py:43-45 | `_StringCoder.get` consumes at least its length octet |
| AXdr.DecodeBitStr | src/COSEMpdu/a_xdr.py:69-72 | `BitStringType.get` consumes at least its length octet |
| AXdr.DecodeSeqOf | src/COSEMpdu/a_xdr.py:231-233 | `SequenceOfType.get` consumes at least its count octet |
| AXdr.DecodeAnnotated | src/COSEMpdu/main.py:238-250 | `AnnotationSequenceOfData.get` consumes at least its count octet |
| AXdr.DecodeBer | src/COSEMpdu/ber.py:17-22 | the BER bit string inside A-XDR consumes at least one octet |
| AXdr.DecodeSeq | src/COSEMpdu/a_xdr.py:211-217 | `SequenceType.get` builds a value of its own class with one item per declared field, never moves the cursor back, and fails exactly when a field fails |
| AXdr.DecodeFields | src/COSEMpdu/a_xdr.py:211-217 | a positional sequence decodes one value per declared field |
| AXdr.DecodeCount | src/COSEMpdu/a_xdr.py:231-233 | a count of n decodes exactly n elements |
| AXdr.RoundTrip | src/COSEMpdu/a_xdr.py:19-319 | for every value that conforms to its schema, `get` reads back what `put` wrote and consumes exactly those octets. `Conforms` asks that every count, string length and bit count be below 0x80: longer lengths up to 2^32 - 1 are packed at offset 0 of the buffer rather than at the cursor, and round-trip only there (`X690.LengthRoundTripAtZero`). It also asks that no CHOICE sit under an Implicit or Optional layer, because `Choice.get` returns the held value rather than the Choice (`AXdrGet.ChoiceGetUnwraps`) |
| AXdr.ChoiceRoundTrip | src/COSEMpdu/a_xdr.py:130-138 | a Choice returns the held value from what the held value wrote |
| AXdr.LayerRoundTrip | src/COSEMpdu/a_xdr.py:19-319 | the round trip holds at every layer of a class |
| AXdr.ImplicitRoundTrip | src/COSEMpdu/a_xdr.py:311-319 | `Implicit.get` reads back the tag octet and body `Implicit.put` wrote |
| AXdr.OptionalRoundTrip | src/COSEMpdu/a_xdr.py:183-194 | `Optional.get` reads 00 as absent and 01 followed by the body as present |
| AXdr.ScalarRoundTrip | src/COSEMpdu/a_xdr.py:39-170 | the scalar coders read back what they wrote |
| AXdr.SizedRoundTrip | src/COSEMpdu/a_xdr.py:92-103 | fixed-size and boolean coders read back exactly their octets |
| AXdr.BerLayerRoundTrip | src/COSEMpdu/ber.py:17-25 | a BER bit string inside A-XDR reads back what it wrote |
| AXdr.StrRoundTrip | src/COSEMpdu/a_xdr.py:39-49 | `_StringCoder` reads back the length and octets it wrote |
| AXdr.BitStrRoundTrip | src/COSEMpdu/a_xdr.py:69-75 | the A-XDR bit string reads back its count and content octets |
| AXdr.SeqRoundTrip | src/COSEMpdu/a_xdr.py:211-221 | `SequenceType` reads its fields back in declaration order |
| AXdr.SeqOfRoundTrip | src/COSEMpdu/a_xdr.py:231-237 | `SequenceOfType` reads back the count and the elements it wrote |
| AXdr.AnnotatedRoundTrip | src/COSEMpdu/main.py:238-250 | a structure reads back its count and elements, with or without declared fields |
| AXdr.DataItemsRoundTrip | src/COSEMpdu/main.py:241-242 | without declared fields a structure reads back its Data elements |
| AXdr.FieldItemsRoundTrip | src/COSEMpdu/main.py:243-250 | with declared fields a structure checks the count and reads back each field |
| AXdr.AnnotatedConforms | src/COSEMpdu/main.py:238-250 | a conforming structure has fewer than 0x80 items and writes a count followed by them |
| AXdr.CountPrefixed | src/COSEMpdu/a_xdr.py:235-237 | a count below 0x80 is one octet, which `Length.get` reads back |
| AXdr.LengthThen | src/COSEMpdu/a_xdr.py:43-49 | a length octet followed by content reads back as that length and content |
| AXdr.FieldsRoundTrip | src/COSEMpdu/a_xdr.py:211-221 | fields written in order are decoded in order |
| AXdr.CountRoundTrip | src/COSEMpdu/a_xdr.py:231-237 | n elements written in order are decoded as n elements in order |
| AXdr.ListSplit | src/COSEMpdu/a_xdr.py:219-221 | the octets of a list are the first value's octets followed by the rest's |
| AXdr.EmitAtHead | src/COSEMpdu/a_xdr.py:164-194 | `Implicit.put` writes its tag first, `Optional.put` its flag first and only the flag 00 when absent, and `NullType.put` nothing |
| AXdr.ChoiceEmitsAlternative | src/COSEMpdu/a_xdr.py:137-138 | `Choice.put` writes exactly what the held value writes |
| AXdr.FirstOctet | src/COSEMpdu/a_xdr.py:190-194 | the first encoded octet of a tagged class is its tag, of an Optional its flag, and an absent Optional is the single octet 00 |
| AXdrTypes.Base | src/COSEMpdu/a_xdr.py:301-319 | stripping Implicit and Optional layers leaves the base class |
| AXdrTypes.Default | src/COSEMpdu/asn1.py:266-268 | an Optional default is absent, a bit string has no default and raises, and no default holds a bit string |
| AXdrTypes.DefaultValue | src/COSEMpdu/asn1.py:142-143 | a default value has the requested class |
| AXdrTypes.DefaultList | src/COSEMpdu/asn1.py:632-634 | a sequence default has one default per declared field |
| AXdrTypes.DefaultConforms | src/COSEMpdu/asn1.py:632-634 | every class with a default gets a default value that conforms to it |
| AXdrTypes.LayerDefaultConforms | src/COSEMpdu/asn1.py:426-428 | every layer with a default gets a conforming payload |
| AXdrTypes.ListDefaultConforms | src/COSEMpdu/asn1.py:632-634 | a sequence's defaults conform field by field |
| AXdrTypes.DefaultRoundTrip | src/COSEMpdu/asn1.py:632-634 | a default value survives `put` followed by `get` |
| AXdrTypes.DefaultsWritten | src/COSEMpdu/asn1.py:567-569 | an absent Optional and an empty SequenceOf are written 00, and the boolean default is written 01 |
| AXdrTypes.AlternativeFrom | src/COSEMpdu/asn1.py:384-386 | the scan succeeds exactly when the class is an instance of some later alternative: that alternative itself, or an Implicit or OPTIONAL subclass of it |
| AXdrTypes.Validation | src/COSEMpdu/asn1.py:383-388 | `validation` is true exactly when the held value is an instance of one of the alternatives (`isinstance`, so Implicit and OPTIONAL subclasses pass), and otherwise fails |
| AXdrTypes.ValidationSubclass | src/COSEMpdu/asn1.py:383-388 | a value of an alternative passes validation, and so does the same value under the Implicit class `get_implicit` builds from that alternative (a_xdr.py lines 323-327) or the OPTIONAL class `get_optional` builds from it (a_xdr.py lines 197-201) |
| AXdrTypes.ValidationExamples | src/COSEMpdu/asn1.py:383-388 | an Implicit subclass of an alternative passes; an OPTIONAL subclass of a tagged alternative passes; the base class of a tagged alternative does not |
| AXdrTypes.ChoiceDefaultValid | src/COSEMpdu/asn1.py:425-428 | `Choice.default` holds the first alternative's default and passes `validation` |
| AXdrTypes.SizedValidate | src/COSEMpdu/a_xdr.py:254-256 | `validate` fails exactly when the length differs from Size, reporting both |
| AXdrTypes.DecodedSizedValid | src/COSEMpdu/a_xdr.py:254-263 | a value `get` returns for a fixed-size class passes `validate` |
| AXdrTypes.SizedDefaultValid | src/COSEMpdu/asn1.py:436-439 | a fixed-size default is 00 for integers and enumerations and empty for octet strings, whatever the Size, so it passes `validate` only at Size 1 (Size 0 for octet strings) |
| AXdrTypes.EqualReflexive | src/COSEMpdu/asn1.py:145-150 | every comparable value equals itself |
| AXdrTypes.EqualListReflexive | src/COSEMpdu/asn1.py:145-150 | every comparable list equals itself |
| AXdrTypes.Equal | src/COSEMpdu/asn1.py:145-150 | a boolean equals exactly an identical boolean; for `Type.__eq__` the Tag attributes are compared first, so a true result needs `==` of the Tag attributes (and equal tag numbers), unequal Tag attributes give False and a raising tag comparison raises; a Choice compares the Tag attributes of the held values |
| AXdrTypes.TagAttrOf | src/COSEMpdu/asn1.py:645-667 | the Tag attribute stands for the tag number the class reports, and a universal Tag is the SEQUENCE OF object exactly for SEQUENCE OF and the Data structure, not for SEQUENCE |
| AXdrTypes.TagsEqual | src/COSEMpdu/asn1.py:87-103 | universal `asn1.Tag` objects are equal only when they are the same object; an `x690.Tag` compares number and class; a true result means the same number; the comparison raises exactly between the int 3 and an `a_xdr.Tag` or `x690.Tag` |
| AXdrTypes.TagsEqualReflexive | src/COSEMpdu/asn1.py:145-150 | every Tag attribute equals itself |
| AXdrTypes.TagsEqualSymmetric | src/COSEMpdu/a_xdr.py:32-36 | Tag `==` is symmetric except between an `a_xdr.Tag` and an `x690.Tag` |
| AXdrTypes.SequenceNotSequenceOf | src/COSEMpdu/asn1.py:645-667 | an empty SEQUENCE and an empty SEQUENCE OF both report tag 16 and still compare unequal, in either order |
| AXdrTypes.BerTagClassCompared | src/COSEMpdu/x690.py:142-146 | BER bit strings tagged APPLICATION 31 and PRIVATE 31 with the same octets are unequal; with the same tag they are equal |
| AXdrTypes.TaggedAgainstBerAsymmetric | src/COSEMpdu/a_xdr.py:32-36 | an IMPLICIT [31] octet string equals an APPLICATION 31 BER bit string with the same octets, but not the other way round |
| AXdrTypes.BitStringAgainstTaggedRaises | src/COSEMpdu/asn1.py:232-234 | the A-XDR bit string, whose Tag is the int 3, raises when compared with an IMPLICIT [3] bit string, in either order |
| AXdrTypes.EqualList | src/COSEMpdu/asn1.py:145-150 | tuples compared equal have the same length |
| AXdrTypes.EqualListPairwise | src/COSEMpdu/asn1.py:145-150 | tuples are equal exactly when they have the same length and every pair of elements compares equal |
| AXdrTypes.EqualListPrefix | src/COSEMpdu/asn1.py:145-150 | a tuple of comparable values is unequal to a longer tuple starting with it |
| AXdrTypes.NullSequencesIncomparable | src/COSEMpdu/asn1.py:145-150 | one NULL against two NULLs raises on the first pair, before the lengths are compared |
| AXdrTypes.IntegerEqualSymmetric | src/COSEMpdu/asn1.py:459-463 | integer and enumerated equality by value is symmetric |
| AXdrTypes.IntegerEqualByValue | src/COSEMpdu/asn1.py:459-463 | integers compare by value across widths and signedness: 00 05 equals 05, but signed FF differs from unsigned FF |
| AXdrTypes.IntegerBooleanAsymmetric | src/COSEMpdu/asn1.py:309-313 | an integer 1 equals a boolean 01, but a boolean 01 does not equal an integer 1 |
| AXdrTypes.NullIncomparable | src/COSEMpdu/asn1.py:145-150 | comparing two null values reaches their missing `value` attribute |
| AXdrLen.LenIsWritten | src/COSEMpdu/a_xdr.py:12-16 | for every measured value, `__len__` equals the number of octets `put` writes |
| AXdrLen.Len | src/COSEMpdu/a_xdr.py:12-16 | for a measured value, the size `create_buf` allocates is the number of octets `put` writes |
| AXdrLen.LayerLenIsWritten | src/COSEMpdu/a_xdr.py:19-319 | the same holds at every layer |
| AXdrLen.WrapperLen | src/COSEMpdu/a_xdr.py:180-181 | an Implicit or Optional layer adds exactly the octet it writes |
| AXdrLen.ChoiceLen | src/COSEMpdu/a_xdr.py:124-128 | an untagged Choice measures as its held value |
| AXdrLen.ItemsLen | src/COSEMpdu/a_xdr.py:208-229 | `SequenceType.__len__` is the sum of the fields; `SequenceOfType.__len__` adds the count octets |
| AXdrLen.ListLen | src/COSEMpdu/a_xdr.py:208-209 | the lengths of a list add up to its octets |
| AXdrLen.ScalarLen | src/COSEMpdu/a_xdr.py:40-41 | the scalar coders measure what they write |
| AXdrLen.PrefixedSize | src/COSEMpdu/a_xdr.py:40-41 | a length-prefixed string is `len(Length(n)) + n` octets |
| AXdrLen.BerWrittenSize | src/COSEMpdu/ber.py:24-25 | a BER bit string writes identifier, length and value octets |
| AXdrLen.TaggedChoiceOverCount | src/COSEMpdu/a_xdr.py:124-128 | a Choice under a nonzero Implicit tag measures one octet more than it writes |
| AXdrLen.AbsentOptionalOverCount | src/COSEMpdu/a_xdr.py:180-181 | an absent Optional writes one octet but measures one plus its base's length of an empty value: one extra for a string, Size extra for a fixed-size coder |
| AXdrLen.AbsentOptionalSeqExact | src/COSEMpdu/a_xdr.py:180-181 | an absent Optional sequence measures exactly its one octet |
| AXdrGet.ImplicitTagChecked | src/COSEMpdu/a_xdr.py:311-316 | `Implicit.get` fails on an exhausted buffer or a different tag octet, and otherwise delegates to the inner class after the tag |
| AXdrGet.OptionalFlag | src/COSEMpdu/a_xdr.py:183-188 | flag 00 is absent with nothing more read; any other flag is followed by the inner `get` |
| AXdrGet.StrReadsDeclared | src/COSEMpdu/a_xdr.py:43-45 | `_StringCoder.get` reads exactly the announced number of octets, and fails when they are missing or the length is indefinite |
| AXdrGet.BitStrReadsCeiling | src/COSEMpdu/a_xdr.py:69-72 | `BitStringType.get` reads ceil(count/8) content octets, none for an indefinite count |
| AXdrGet.SeqOfCount | src/COSEMpdu/a_xdr.py:231-233 | a decoded SequenceOf has as many elements as its count, none for an indefinite count |
| AXdrGet.AnnotatedCountChecked | src/COSEMpdu/main.py:243-250 | with declared fields, a count other than the number of fields is refused; otherwise one value per field |
| AXdrGet.StructureFallsBack | src/COSEMpdu/main.py:241-242 | without declared fields a structure decodes as a SequenceOf Data |
| AXdrGet.ChoiceUnknownTag | src/COSEMpdu/a_xdr.py:131-132 | `Choice.get` fails on an octet that no alternative has as its tag, naming the accepted tags |
| AXdrGet.ChoiceDispatch | src/COSEMpdu/a_xdr.py:131-135 | otherwise it rewinds and decodes with the first alternative whose tag matches |
| AXdrGet.ChoiceMember | src/COSEMpdu/a_xdr.py:131-135 | with distinct tags, a value of a tagged alternative conforms to the Choice |
| AXdrGet.ChoicePutDelegates | src/COSEMpdu/a_xdr.py:124-138 | an untagged Choice writes and measures exactly its held value |
| AXdrGet.TaggedChoicePut | src/COSEMpdu/a_xdr.py:318-319 | a tagged Choice writes its tag octet and then the held value |
| AXdrGet.ChoiceGetUnwraps | src/COSEMpdu/a_xdr.py:131-138 | `get` of what a Choice wrote returns the held value itself, not a Choice holding it |
| AXdrCodec.Prepend | src/COSEMpdu/a_xdr.py:213-216 | appending decoded values keeps the earlier ones in front, and errors pass through |
| AXdrCodec.Get | src/COSEMpdu/a_xdr.py:131-135 | the buffer method returns what `Decode` gives and moves the cursor past it, or reports its error |
| AXdrCodec.GetLayer | src/COSEMpdu/a_xdr.py:19-319 | each layer's `get` matches `DecodeLayer` |
| AXdrCodec.GetLeaf | src/COSEMpdu/a_xdr.py:39-170 | the scalar `get`s match `DecodeLayer` |
| AXdrCodec.GetImplicit | src/COSEMpdu/a_xdr.py:311-316 | `Implicit.get` matches `DecodeImplicit` |
| AXdrCodec.GetOptional | src/COSEMpdu/a_xdr.py:183-188 | `Optional.get` matches `DecodeOptional` |
| AXdrCodec.GetSized | src/COSEMpdu/a_xdr.py:261-263 | `SizedCoder.get` matches `DecodeSized` |
| AXdrCodec.GetStr | src/COSEMpdu/a_xdr.py:43-45 | `_StringCoder.get` matches `DecodeStr` |
| AXdrCodec.GetBitStr | src/COSEMpdu/a_xdr.py:69-72 | `BitStringType.get` matches `DecodeBitStr` |
| AXdrCodec.GetChoice | src/COSEMpdu/a_xdr.py:131-135 | `Choice.get`, peek and rewind included, matches `DecodeChoice` |
| AXdrCodec.GetSeq | src/COSEMpdu/a_xdr.py:211-217 | `SequenceType.get` on the buffer returns what `DecodeSeq` gives and leaves the cursor where `DecodeSeq` ends |
| AXdrCodec.GetSeqOf | src/COSEMpdu/a_xdr.py:231-233 | `SequenceOfType.get` matches `DecodeSeqOf` |
| AXdrCodec.Wrap | src/COSEMpdu/a_xdr.py:217 | wrapping a decoded list gives a value of the class, and errors pass through |
| AXdrCodec.SeqOfUnfold | src/COSEMpdu/a_xdr.py:231-233 | a SequenceOf fails with the length's error, or reads max(count, 0) elements after it |
| AXdrCodec.GetAnnotated | src/COSEMpdu/main.py:238-250 | `AnnotationSequenceOfData.get` matches `DecodeAnnotated` |
| AXdrCodec.GetFields | src/COSEMpdu/a_xdr.py:211-217 | the field loop, appending to a list, matches `DecodeFields` |
| AXdrCodec.GetCount | src/COSEMpdu/a_xdr.py:231-233 | the element loop matches `DecodeCount` |
| AXdrCodec.Put | src/COSEMpdu/a_xdr.py:19-319 | the buffer ends in the state `Emit` describes, and the return value is the number of octets written |
| AXdrCodec.PutAt | src/COSEMpdu/a_xdr.py:19-319 | each layer's `put` performs that layer's writes |
| AXdrCodec.PutFlagged | src/COSEMpdu/a_xdr.py:190-194 | a flag or tag octet followed by the inner `put` |
| AXdrCodec.PutScalar | src/COSEMpdu/a_xdr.py:39-170 | the scalar `put`s perform their writes |
| AXdrCodec.PutPrefixed | src/COSEMpdu/a_xdr.py:47-49 | `_StringCoder.put`: `Length(n).put` then the octets |
| AXdrCodec.PutCounted | src/COSEMpdu/a_xdr.py:235-237 | `SequenceOfType.put`: the count then every element |
| AXdrCodec.PutItems | src/COSEMpdu/a_xdr.py:219-221 | `SequenceType.put`: the fields in order, summing the counts |
| AXdrCodec.CreateBuf | src/COSEMpdu/a_xdr.py:12-16 | `create_buf` allocates `__len__` zero octets, runs `put` and rewinds to 0 |
| AXdrCodec.ZerosSpliced | src/COSEMpdu/a_xdr.py:13-14 | writing w at the start of n zero octets leaves w followed by zeros |
| AXdrCodec.CreateBufLayout | src/COSEMpdu/a_xdr.py:12-16 | `create_buf` holds the encoding followed by zeros up to `__len__`, or raises when `__len__` is too small |
| AXdrCodec.CreateBufExact | src/COSEMpdu/a_xdr.py:12-16 | for a measured value the buffer is exactly the encoding |
| AXdrCodec.CreateBufTaggedChoice | src/COSEMpdu/a_xdr.py:124-128 | for a tagged Choice the buffer is the encoding plus one trailing zero octet |
| AXdrCodec.ExplicitPut | src/COSEMpdu/a_xdr.py:281-298 | `EXPLICIT.put` writes the tag octet, `Length(len(value))` and the value |
| AXdrCodec.ExplicitLengthExact | src/COSEMpdu/a_xdr.py:292-293 | for a measured value the length octet is the number of octets that follow |
| AXdrCodec.ExplicitOverTaggedChoice | src/COSEMpdu/a_xdr.py:292-293 | over a tagged Choice the length octet is one more than the octets that follow |
| Cosem.Increasing | src/COSEMpdu/main.py:257-286 | in a strictly increasing list, a later entry is larger |
| Cosem.DataTagsDistinct | src/COSEMpdu/main.py:113-286 | the 24 `Data` alternatives have the tags 0, 1, 2, 3, 4, 5, 6, 9, 10, 12, 13, 15, 16, 17, 18, 20 to 27 and 255, pairwise distinct |
| CosemVectors.Scalar | src/COSEMpdu/main.py:8-110 | a fixed-size scalar of the right length writes exactly its octets and conforms |
| CosemVectors.TaggedScalar | src/COSEMpdu/main.py:124-211 | a tagged scalar `Data` alternative writes its tag then its octets |
| CosemVectors.HeldData | src/COSEMpdu/main.py:214-217 | a `Data` writes exactly its alternative |
| CosemVectors.DataAlternative | src/COSEMpdu/main.py:214-286 | a value of a `Data` alternative conforms to `Data` |
| CosemVectors.GetThenPut | src/COSEMpdu/main.py:214-286 | `Data.get` of an encoding returns the value, and `put` into a buffer of that size writes the same octets |
| CosemVectors.NullDataVector | src/COSEMpdu/main.py:113-121 | 00 is null-data and is written back as 00 |
| CosemVectors.BooleanVector | src/COSEMpdu/main.py:124-126 | 03 01 is boolean true and is written back unchanged |
| CosemVectors.ArrayWritten | src/COSEMpdu/main.py:227-228 | an array writes tag 01, the count and the elements |
| CosemVectors.ArrayConforms | src/COSEMpdu/main.py:220-228 | an array of conforming `Data` elements conforms to `Data` |
| CosemVectors.Integers | src/COSEMpdu/main.py:162-163 | a list of `Integer` values, one per octet |
| CosemVectors.IntegerArray | src/COSEMpdu/main.py:162-228 | an array of `Integer`s round-trips through `Data.get` and `put` |
| CosemVectors.ArrayOfTwoVector | src/COSEMpdu/main.py:162-228 | 01 02 0f 01 0f 02 decodes to an array of the integers 1 and 2 and is written back unchanged |
| CosemVectors.ArrayOfThreeVector | src/COSEMpdu/main.py:162-228 | 01 03 0f 01 0f 02 0f 03 decodes to an array of 1, 2 and 3 and is written back unchanged |
| PduVectors.Fields | src/COSEMpdu/a_xdr.py:219-221 | a sequence writes its fields one after the other |
| PduVectors.TaggedFields | src/COSEMpdu/a_xdr.py:318-319 | a tagged sequence writes its tag, then the fields |
| PduVectors.PresentFields | src/COSEMpdu/a_xdr.py:193-194 | a present Optional sequence writes 01, then the fields |
| PduVectors.AbsentFields | src/COSEMpdu/a_xdr.py:191-192 | an absent Optional sequence writes 00 |
| PduVectors.TaggedElements | src/COSEMpdu/a_xdr.py:235-237 | a tagged SequenceOf writes its tag, the count, then the elements |
| PduVectors.TaggedChoiceApdu | src/COSEMpdu/main.py:1910 | an APDU holding a tagged Choice is sized one octet too large, and `create_buf` holds the tag, the body and one zero octet |
| PduVectors.DescriptorOctets | src/COSEMpdu/main.py:548-553 | a `CosemAttributeDescriptor` is its class id, instance id and attribute id octets |
| PduVectors.SelectionOctets | src/COSEMpdu/main.py:584-600 | a present selective-access descriptor is 01, the selector and the parameters |
| PduVectors.GetRequestNormalOctets | src/COSEMpdu/main.py:621-639 | `getRequestNormal` is 01, the invoke id, the descriptor and the access selection |
| PduVectors.GetNormalOctets | src/COSEMpdu/main.py:621-639 | with selective access the request is 01, invoke id, descriptor, 01, selector and the `Data` parameter |
| PduVectors.GetRequestApdu | src/COSEMpdu/main.py:690-701 | a `getRequest` APDU is sized one octet too large, and its buffer is C0, the body and 00 |
| PduVectors.GetRequestNormalVector | src/COSEMpdu/main.py:621-701 | the request "3, (7, 00 00 60 61 01 ff, 2), (1,5:0)" makes a 20-octet buffer c0 01 03 00 07 00 00 60 61 01 ff 02 01 01 05 00 00 00 00 00, of which 19 octets are written |
| PduVectors.SetNormalOctets | src/COSEMpdu/main.py:1434-1440 | `setRequestNormal` is 01, invoke id, descriptor, 00 for no selection, then the `Data` value |
| PduVectors.SetRequestApdu | src/COSEMpdu/main.py:1583-1595 | a `setRequest` APDU is sized one octet too large, and its buffer is C1, the body and 00 |
| PduVectors.SetRequestNormalVector | src/COSEMpdu/main.py:1434-1595 | the SET request of the repository's test makes the buffer c1 01 0a 00 08 00 00 01 00 00 ff 02 00 11 04 00, of which 15 octets are written |
| PduVectors.NextPblockBuffer | src/COSEMpdu/main.py:1158-1175 | `actionRequest` holding `actionRequestNextPblock` makes the buffer C3 02, invoke id, block number and 00 |
| PduVectors.ActionRequestNextPblockVector | src/COSEMpdu/main.py:1294-1308 | "1, 1" makes the buffer c3 02 01 00 00 00 01 00 |
| PduVectors.WriteResultBuffer | src/COSEMpdu/main.py:1403-1431 | a WRITE response of success and a `DataAccessResult` is sized exactly 0D 02 00 01 and the result |
| PduVectors.WriteResponseVector | src/COSEMpdu/main.py:1403-1431 | success and result 4 make exactly 0d 02 00 01 04 |
| PduVectors.ConformanceOctets | src/COSEMpdu/main.py:310-312 | `Conformance` writes 5F 1F, the length and its octets in place |
| PduVectors.ConformancePutGet | src/COSEMpdu/main.py:310-312 | `Conformance` put into a ten-octet buffer and read back gives the same value |
| PduVectors.ConformanceVector | src/COSEMpdu/main.py:310-312 | the repository's 24-bit conformance is written 5f 1f 04 00 a6 4c ad and read back |
| PduVectors.OctetValue | src/COSEMpdu/ber.py:32 | eight bits with value x pack into the octet x |
| PduVectors.ConformanceFromStr | src/COSEMpdu/ber.py:27-42 | "101001100100110010101101" gives the octets 00 a6 4c ad, and `to_list` reads the bits back |
| Buffer.SpliceWrites | src/COSEMpdu/a_xdr.py:47-49 | a write replaces exactly its own octets and keeps everything else |
| Buffer.StepWrites | src/COSEMpdu/x690.py:69-82 | one write puts its octets at the cursor and moves past them, or packs them at offset 0 and stays; it raises exactly when they do not fit, and a refused octet always raises |
| Buffer.ApplyInPlace | src/COSEMpdu/a_xdr.py:219-221 | writes at the cursor lay down their octets one after the other, or raise when they overrun the buffer |
| Buffer.ApplyBounds | src/COSEMpdu/a_xdr.py:219-221 | a run of writes keeps the buffer's size and never moves the cursor back, and a refused octet anywhere raises |
| Buffer.WrittenConcat | src/COSEMpdu/a_xdr.py:219-221 | the octets of consecutive writes are concatenated |
| Buffer.ApplyConcat | src/COSEMpdu/a_xdr.py:219-221 | running consecutive writes is running the first, then the rest |
| Buffer.SpliceTwice | src/COSEMpdu/a_xdr.py:47-49 | two adjacent writes are one write of both |
| Buffer.ReadBytes | src/COSEMpdu/a_xdr.py:44-45 | reading n octets succeeds exactly when they remain, and advances by n |
| Buffer.ByteBuffer.GetUint8 | src/COSEMpdu/x690.py:58 | `get_uint8` returns the octet at the cursor and advances, or fails at the end |
| Buffer.ByteBuffer.GetUint | src/COSEMpdu/x690.py:63 | `get_uint(k)` returns the big-endian value of k octets and advances |
| Buffer.ByteBuffer.Read | src/COSEMpdu/a_xdr.py:45 | `read(n)` returns n octets and advances |
| Buffer.ByteBuffer.Perform | src/COSEMpdu/x690.py:69-82 | one write changes the buffer as `Step` describes, and a refused write changes nothing |
| Buffer.ByteBuffer.PerformAll | src/COSEMpdu/a_xdr.py:219-221 | a list of writes changes the buffer as `Apply` describes |
| Buffer.ByteBuffer.CopyInto | src/COSEMpdu/x690.py:72-81 | `pack_into` overwrites exactly the octets it packs |
| Octets.FromToBigEndian | src/COSEMpdu/x690.py:63-86 | a number that fits in k octets reads back from its k big-endian octets |
| Octets.ToFromBigEndian | src/COSEMpdu/x690.py:63-86 | k octets read as a number and rewritten in k octets are unchanged |
| Octets.DigitCount256 | src/COSEMpdu/x690.py:48 | the base-256 digit count of n is the least k with n < 256^k |

## Left out

- `byte_buffer.py` is not part of this model. `Buffer.ByteBuffer` holds
  only the interface the codec calls: `get_uint8`, `get_uint`, `read`,
  `put_uint8`, `write`, `pack_into`, `set_pos`, `allocate`. Reads past the
  end fail with `Exhausted`. A write that does not fit makes the method
  report failure, and the buffer state after a failed write is left
  unspecified.
  `get_uint(0)` is modelled as returning 0 without reading an octet. The
  long-form length 0x80 relies on this (`X690.EmptyLongForm`), and it is
  an assumption about `byte_buffer.py`, whose code is not shown.
- X690.LengthSize: for lengths of 2^32 and more, the source counts octets
  with the floating-point `int(log(n, 256)) + 1`. The model uses the exact
  base-256 digit count, which can differ from the float result near
  powers of 256. The round-trip lemmas are stated below 2^32.
- AXdr.Decode: decoding carries a `fuel` bound on the nesting depth of
  `Data`. Python's bound is its recursion limit. Every round-trip lemma
  holds for any fuel at which the value conforms.
- AXdr.DecodeStr: an indefinite length (-1) before a string or BER bit
  string is refused with `IndefiniteLength`. Python would call `read(-1)`
  on a buffer whose behaviour is not shown.
- Text notation is out of the model. This covers `from_str` and `__str__`
  of integers, octet strings, `Choice` and sequences, which rely on
  `int()`, `bytes.fromhex` and string codecs. `get_values`,
  `BooleanType.from_str` and the bit-string `from_str` are modelled; the
  request vectors are built from their values.
- Python reflection is replaced by explicit alternative and field lists in
  `Cosem`. This covers `getfullargspec`/`get_args`, `__annotations__`,
  `__init_subclass__`, the `lru_cache` on `get_named_type` and the
  `setattr` re-initialisation.
- `BitStringType.__lshift__`, `__rshift__` and `clear` are left out. The
  shifts store an instance, not octets, in `value`. `clear` iterates over
  the encoded length rather than the bit count.
- `EXPLICIT` has no decoder in the source, so only its `put` is modelled.
  The unused `_tag2_buf` scratch buffer is left out.
- `a_xdr.BitStringType` equality compares `Length` objects by identity in
  the source. The model's values compare structurally.
- The PDUs beyond those in `PduVectors` (block transfer, with-list
  requests, responses, ACSE) are instances of the same primitives and are
  not written out. `Cosem` declares the schemas the vectors use.
- The round trip of whole APDUs that `test_get_APDU` expects does not
  follow from `Choice.get`, because that method drops the Choice wrapper.
  The model proves the unwrapped result (`AXdrGet.ChoiceGetUnwraps`)
  instead.
- AXdrTypes.Equal: where Python's `==` raises (`int()` of a value that has
  none, the missing `value` of a NULL, the int Tag of the A-XDR bit string
  compared with a tag object), the model returns `Incomparable`
  instead of an exception. Tuples of elements compare pairwise from the
  front, the first unequal or raising pair deciding, and the lengths only
  once the shorter tuple is used up. CPython's identity shortcut is not
  modelled: its tuple comparison treats an element that is the same object
  on both sides as equal without calling `__eq__`. The model has values
  and no object identity, so such a pair is compared, and it can raise
  where Python would not (two references to one NULL instance).