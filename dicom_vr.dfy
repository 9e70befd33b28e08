/**
 * The DICOM tags and value representations (VRs) the element reader uses,
 * with the values section 7 and Annex A of DICOM PS3.5 give them. A VR is
 * held as its two ASCII letters read as a big-endian 16-bit number, so
 * "OB" is 0x4F42.
 */
module DicomVR {

  const GroupByteOrder: nat := 0x0002
  const GroupByteOrderSwapped: nat := 0x0200
  const GroupSequence: nat := 0xFFFE
  const ElementTransferSyntaxUid: nat := 0x0010
  const ElementSequenceItem: nat := 0xE000
  const ElementSequenceDelimitationItem: nat := 0xE0DD
  /** The undefined length 0xFFFFFFFF of section 7.1 of DICOM PS3.5. */
  const LengthUndefined: nat := 0xFFFF_FFFF

  const AE: nat := 0x4145  // "AE"
  const AS: nat := 0x4153  // "AS"
  const AT: nat := 0x4154  // "AT"
  const CS: nat := 0x4353  // "CS"
  const DA: nat := 0x4441  // "DA"
  const DS: nat := 0x4453  // "DS"
  const DT: nat := 0x4454  // "DT"
  const FD: nat := 0x4644  // "FD"
  const FL: nat := 0x464C  // "FL"
  const IS: nat := 0x4953  // "IS"
  const LO: nat := 0x4C4F  // "LO"
  const LT: nat := 0x4C54  // "LT"
  const OB: nat := 0x4F42  // "OB"
  const OF: nat := 0x4F46  // "OF"
  const OW: nat := 0x4F57  // "OW"
  const PN: nat := 0x504E  // "PN"
  const SH: nat := 0x5348  // "SH"
  const SL: nat := 0x534C  // "SL"
  const SQ: nat := 0x5351  // "SQ"
  const SS: nat := 0x5353  // "SS"
  const ST: nat := 0x5354  // "ST"
  const TM: nat := 0x544D  // "TM"
  const UI: nat := 0x5549  // "UI"
  const UL: nat := 0x554C  // "UL"
  const UN: nat := 0x554E  // "UN"
  const US: nat := 0x5553  // "US"
  const UT: nat := 0x5554  // "UT"

  /** The VRs whose presence at bytes 4-5 of the first element means explicit encoding. */
  const ExplicitVRs: set<nat> := {OB, OW, OF, SQ, UN, AE, AS, AT, CS, DA, DS, DT, FD, FL, IS, LO,
                                  LT, PN, SH, SL, SS, ST, TM, UI, UL, US, UT}

  /** The VRs with two reserved bytes and a 4-byte length in explicit encoding. */
  const LongLengthVRs: set<nat> := {OB, OW, OF, SQ, UN, UT}

  /** The VRs decoded as text. */
  const TextVRs: set<nat> := {AE, AS, CS, DA, DS, DT, IS, LO, LT, PN, SH, ST, TM, UI, UT, AT}

  datatype ElementType = Invalid | Int | UInt | Float | Seq | String | Other

  /**
   * `Element::type`: the kind of value a VR holds. Every VR falls in exactly
   * one class; a VR of 0 (none read) is invalid.
   */
  function TypeOf(vr: nat): (t: ElementType)
    ensures t == Invalid <==> vr == 0
    ensures t == Float <==> vr in {FD, FL}
    ensures t == Int <==> vr in {SL, SS}
    ensures t == UInt <==> vr in {UL, US}
    ensures t == Seq <==> vr == SQ
    ensures t == String <==> vr in TextVRs
    ensures t == Other <==> vr != 0 && vr !in {FD, FL, SL, SS, UL, US, SQ} + TextVRs
  {
    if vr == 0 then Invalid
    else if vr == FD || vr == FL then Float
    else if vr == SL || vr == SS then Int
    else if vr == UL || vr == US then UInt
    else if vr == SQ then Seq
    else if vr in TextVRs then String
    else Other
  }
}
