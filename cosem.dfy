// The COSEM layer built on the A-XDR codec: the fixed-size scalars, the
// Data choice of common data types, and the request and response PDUs
// the xDLMS services exchange, each as a schema of the codec. The octet
// strings the services are known to produce are stated as lemmas.

module Cosem {
  import opened Octets
  import opened Buffer
  import opened X690
  import opened Asn1
  import opened AXdr
  import opened AXdrLen
  import opened AXdrCodec

  // ------------------------------------------------------------ scalars

  const Integer8: Schema := Sized(1, SignedInt)
  const Integer16: Schema := Sized(2, SignedInt)
  const Integer32: Schema := Sized(4, SignedInt)
  const Integer64: Schema := Sized(8, SignedInt)
  const Unsigned8: Schema := Sized(1, UnsignedInt)
  const Unsigned16: Schema := Sized(2, UnsignedInt)
  const Unsigned32: Schema := Sized(4, UnsignedInt)
  const Unsigned64: Schema := Sized(8, UnsignedInt)
  const OctetString4: Schema := Sized(4, OctetStr)
  const OctetString5: Schema := Sized(5, OctetStr)
  const OctetString6: Schema := Sized(6, OctetStr)
  const OctetString8: Schema := Sized(8, OctetStr)
  const OctetString12: Schema := Sized(12, OctetStr)

  // --------------------------------------------------------------- Data

  const NullData: Schema := Implicit(0, Null)
  const Array: Schema := Implicit(1, SeqOf(DataRef))
  const Structure: Schema := Implicit(2, Annotated([]))
  const Boolean: Schema := Implicit(3, Bool)
  const BitString: Schema := Implicit(4, BitStr)
  const DoubleLong: Schema := Implicit(5, Integer32)
  const DoubleLongUnsigned: Schema := Implicit(6, Unsigned32)
  const OctetString: Schema := Implicit(9, Str(StringKind.OctetString))
  const VisibleString: Schema := Implicit(10, Str(StringKind.OctetString))
  const Utf8String: Schema := Implicit(12, Str(Utf8))
  const Bcd: Schema := Implicit(13, Integer8)
  const Integer: Schema := Implicit(15, Integer8)
  const Long: Schema := Implicit(16, Integer16)
  const Unsigned: Schema := Implicit(17, Unsigned8)
  const LongUnsigned: Schema := Implicit(18, Unsigned16)
  const Long64: Schema := Implicit(20, Integer64)
  const Long64Unsigned: Schema := Implicit(21, Unsigned64)
  const Enum: Schema := Implicit(22, Unsigned8)
  const Float32: Schema := Implicit(23, OctetString4)
  const Float64: Schema := Implicit(24, OctetString8)
  const DateTime: Schema := Implicit(25, OctetString12)
  const Date: Schema := Implicit(26, OctetString5)
  const Time: Schema := Implicit(27, OctetString4)
  const DontCare: Schema := Implicit(255, Null)

  /** The common data types in the order of the CHOICE. */
  const DataAlts: seq<Schema> := [
    NullData, Array, Structure, Boolean, BitString, DoubleLong, DoubleLongUnsigned,
    OctetString, VisibleString, Utf8String, Bcd, Integer, Long, Unsigned, LongUnsigned,
    Long64, Long64Unsigned, Enum, Float32, Float64, DateTime, Date, Time, DontCare]

  /** Data: the environment every DataRef of the COSEM schemas resolves to. */
  const Data: Schema := Choice(DataAlts)

  /** The tags of the Data alternatives, in order. */
  const DataTags: seq<int> := [0, 1, 2, 3, 4, 5, 6, 9, 10, 12, 13, 15, 16, 17, 18, 20, 21, 22, 23, 24, 25, 26, 27, 255]

  // ---------------------------------------------------------------- PDUs

  const InvokeIdAndPriority: Schema := Unsigned8
  const CosemClassId: Schema := Unsigned16
  const CosemObjectInstanceId: Schema := OctetString6
  const CosemObjectMethodId: Schema := Integer8
  const CosemObjectAttributeId: Schema := Integer8

  const CosemAttributeDescriptor: Schema := Seq([CosemClassId, CosemObjectInstanceId, CosemObjectAttributeId])
  const CosemMethodDescriptor: Schema := Seq([CosemClassId, CosemObjectInstanceId, CosemObjectMethodId])
  const SelectiveAccessDescriptor: Schema := Seq([Unsigned8, Data])
  const SelectiveAccessDescriptorOptional: Schema := Optional(SelectiveAccessDescriptor)
  const CosemAttributeDescriptorWithList: Schema := Seq([CosemAttributeDescriptor, SelectiveAccessDescriptorOptional])

  const GetRequestNormal: Schema := Seq([InvokeIdAndPriority, CosemAttributeDescriptor, SelectiveAccessDescriptorOptional])
  const getRequestNormal: Schema := Implicit(1, GetRequestNormal)
  const GetRequestNext: Schema := Seq([InvokeIdAndPriority, Unsigned32])
  const getRequestNext: Schema := Implicit(2, GetRequestNext)
  const GetRequestWithList: Schema := Seq([InvokeIdAndPriority, SeqOf(CosemAttributeDescriptorWithList)])
  const getRequestWithList: Schema := Implicit(3, GetRequestWithList)
  const GetRequest: Schema := Choice([getRequestNormal, getRequestNext, getRequestWithList])
  const getRequest: Schema := Implicit(192, GetRequest)

  const DataOptional: Schema := Optional(Data)
  const ActionRequestNormal: Schema := Seq([InvokeIdAndPriority, CosemMethodDescriptor, DataOptional])
  const actionRequestNormal: Schema := Implicit(1, ActionRequestNormal)
  const ActionRequestNextPblock: Schema := Seq([InvokeIdAndPriority, Unsigned32])
  const actionRequestNextPblock: Schema := Implicit(2, ActionRequestNextPblock)
  /** Action-Request with its first two alternatives; the block-transfer forms are not modelled. */
  const ActionRequest: Schema := Choice([actionRequestNormal, actionRequestNextPblock])
  const actionRequest: Schema := Implicit(195, ActionRequest)

  const Success: Schema := Implicit(0, Null)
  const DataAccessResult: Schema := Sized(1, Enumerated)
  const DataAccessResultTagged: Schema := Implicit(1, DataAccessResult)
  const BlockNumber: Schema := Implicit(2, Unsigned16)
  const WriteResponseElement: Schema := Choice([Success, DataAccessResultTagged, BlockNumber])
  const WriteResponse: Schema := SeqOf(WriteResponseElement)
  const WriteResponseTagged: Schema := Implicit(13, WriteResponse)

  const SetRequestNormal: Schema := Seq([InvokeIdAndPriority, CosemAttributeDescriptor, SelectiveAccessDescriptorOptional, Data])
  const setRequestNormal: Schema := Implicit(1, SetRequestNormal)
  /** Set-Request with its normal alternative; the list and data-block forms are not modelled. */
  const SetRequest: Schema := Choice([setRequestNormal])
  const setRequest: Schema := Implicit(193, SetRequest)

  /** The xDLMS-APDU CHOICE over the PDUs modelled here. */
  const XdlmsApdu: Schema := Choice([WriteResponseTagged, getRequest, setRequest, actionRequest])

  /** The conformance block: a BER bit string with identifier [APPLICATION 31]. */
  const Conformance: Schema := BerBitStr(X690.Tag(31, Application))

  /** Tags increasing from one alternative to the next are pairwise distinct. */
  lemma {:induction false} Increasing(s: seq<int>, a: nat, b: nat)
    requires forall i :: 0 <= i < |s| - 1 ==> s[i] < s[i + 1]
    requires a < b < |s|
    ensures s[a] < s[b]
    decreases b - a
  {
    if a + 1 < b {
      Increasing(s, a + 1, b);
    }
  }

  /** The Data alternatives carry the tags of the common data types, no two alike. */
  lemma DataTagsDistinct()
    ensures Tags(DataAlts) == DataTags
    ensures forall a, b :: 0 <= a < b < |DataTags| ==> DataTags[a] != DataTags[b]
  {
    forall a, b | 0 <= a < b < |DataTags| ensures DataTags[a] != DataTags[b] {
      Increasing(DataTags, a, b);
    }
  }
}
