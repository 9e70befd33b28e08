/**
 * What the element reader does with well-formed data: an encoded element
 * header reads back as the tag, VR and length it was written with, the
 * byte-order marker of the meta group is recognised, every read moves the
 * cursor forward, the padded transfer syntax UIDs select their syntaxes,
 * and stored values read back through the getters.
 */
module DicomElementLemmas {

  import opened Wrappers
  import opened DicomBytes
  import opened DicomVR
  import opened DicomElement

  /** The header of an explicit-VR element (section 7.1.2 of DICOM PS3.5); the VR is always written big-endian. */
  function ExplicitHeaderBytes(g: nat, e: nat, vr: nat, size: nat, isBE: bool): (h: seq<Byte>)
    requires g < 0x1_0000 && e < 0x1_0000 && vr < 0x1_0000
    requires if vr in LongLengthVRs then size < 0x1_0000_0000 else size < 0x1_0000
    ensures |h| == if vr in LongLengthVRs then 12 else 8
  {
    Encode16(g, isBE) + Encode16(e, isBE) + Encode16(vr, true) +
    (if vr in LongLengthVRs then [0, 0] + Encode32(size, isBE) else Encode16(size, isBE))
  }

  /** The header of an implicit-VR element (section 7.1.3 of DICOM PS3.5). */
  function ImplicitHeaderBytes(g: nat, e: nat, size: nat, isBE: bool): (h: seq<Byte>)
    requires g < 0x1_0000 && e < 0x1_0000 && size < 0x1_0000_0000
    ensures |h| == 8
  {
    Encode16(g, isBE) + Encode16(e, isBE) + Encode32(size, isBE)
  }

  lemma SubSlice(buf: seq<Byte>, off: nat, h: seq<Byte>, k: nat, n: nat)
    requires off + |h| <= |buf| && buf[off..off + |h|] == h && k + n <= |h|
    ensures buf[off + k..off + k + n] == h[k..k + n]
  {
    forall j | off + k <= j < off + k + n
      ensures buf[j] == h[j - off]
    {
      assert buf[j] == buf[off..off + |h|][j - off];
    }
  }

  /** The tag of a header whose first four bytes are the encoded group and element. */
  lemma TagFetch(buf: seq<Byte>, off: nat, g: nat, e: nat, isBE: bool)
    requires g < 0x1_0000 && e < 0x1_0000
    requires off + 4 <= |buf| && buf[off..off + 4] == Encode16(g, isBE) + Encode16(e, isBE)
    ensures Fetch16(buf, off, isBE) == g && Fetch16(buf, off + 2, isBE) == e
  {
    var h := Encode16(g, isBE) + Encode16(e, isBE);
    SubSlice(buf, off, h, 0, 2);
    SubSlice(buf, off, h, 2, 2);
    assert h[0..2] == Encode16(g, isBE);
    assert h[2..4] == Encode16(e, isBE);
    Fetch16Encode(buf, off, g, isBE);
    Fetch16Encode(buf, off + 2, e, isBE);
  }

  /** The VR and length fields of an explicit header. */
  lemma ExplicitFieldsFetch(buf: seq<Byte>, off: nat, g: nat, e: nat, vr: nat, size: nat, isBE: bool)
    requires g < 0x1_0000 && e < 0x1_0000 && vr < 0x1_0000
    requires if vr in LongLengthVRs then size < 0x1_0000_0000 else size < 0x1_0000
    requires off + |ExplicitHeaderBytes(g, e, vr, size, isBE)| <= |buf|
    requires buf[off..off + |ExplicitHeaderBytes(g, e, vr, size, isBE)|] == ExplicitHeaderBytes(g, e, vr, size, isBE)
    ensures Fetch16(buf, off, isBE) == g && Fetch16(buf, off + 2, isBE) == e
    ensures Fetch16(buf, off + 4, true) == vr
    ensures vr in LongLengthVRs ==> Fetch32(buf, off + 8, isBE) == size
    ensures vr !in LongLengthVRs ==> Fetch16(buf, off + 6, isBE) == size
  {
    var h := ExplicitHeaderBytes(g, e, vr, size, isBE);
    SubSlice(buf, off, h, 0, 4);
    assert h[0..4] == Encode16(g, isBE) + Encode16(e, isBE);
    TagFetch(buf, off, g, e, isBE);
    SubSlice(buf, off, h, 4, 2);
    assert h[4..6] == Encode16(vr, true);
    Fetch16Encode(buf, off + 4, vr, true);
    if vr in LongLengthVRs {
      SubSlice(buf, off, h, 8, 4);
      assert h[8..12] == Encode32(size, isBE);
      Fetch32Encode(buf, off + 8, size, isBE);
    } else {
      SubSlice(buf, off, h, 6, 2);
      assert h[6..8] == Encode16(size, isBE);
      Fetch16Encode(buf, off + 6, size, isBE);
    }
  }

  /**
   * An explicit-VR element read with the transfer syntax's byte order: the
   * reader finds its tag, VR (refined from the dictionary when it is UN),
   * length and value, and moves past the value, or into it for a sequence.
   */
  lemma ExplicitElementRead(p: Parser, buf: seq<Byte>, dict: Dictionary, name: string, g: nat, e: nat, vr: nat, size: nat)
    requires g < 0x1_0000 && e < 0x1_0000 && vr < 0x1_0000
    requires if vr in LongLengthVRs then size < LengthUndefined else size < 0x1_0000
    requires p.next >= 0 && p.isExplicit
    requires g != GroupSequence && g != GroupByteOrderSwapped && !(g == GroupByteOrder && e == ElementTransferSyntaxUid)
    requires p.next + |ExplicitHeaderBytes(g, e, vr, size, p.isTransferSyntaxBE)| + size <= |buf|
    requires buf[p.next..p.next + |ExplicitHeaderBytes(g, e, vr, size, p.isTransferSyntaxBE)|] == ExplicitHeaderBytes(g, e, vr, size, p.isTransferSyntaxBE)
    ensures var r := ReadSpec(p, buf, dict, name);
      r.Ok? && r.value.1 &&
      r.value.0.group == g && r.value.0.element == e && r.value.0.size == size && r.value.0.start == p.next &&
      r.value.0.data == p.next + |ExplicitHeaderBytes(g, e, vr, size, p.isTransferSyntaxBE)| &&
      r.value.0.vr == (if vr == UN && (g, e) in dict then dict[(g, e)] else vr) &&
      r.value.0.next == (if r.value.0.vr == SQ then r.value.0.data else r.value.0.data + size)
  {
    ExplicitFieldsFetch(buf, p.next, g, e, vr, size, p.isTransferSyntaxBE);
  }

  /**
   * An implicit-VR element outside the meta group: the VR comes from the
   * dictionary (UN for an unknown tag), the length from bytes 4-7.
   */
  lemma ImplicitElementRead(p: Parser, buf: seq<Byte>, dict: Dictionary, name: string, g: nat, e: nat, size: nat)
    requires g < 0x1_0000 && e < 0x1_0000 && size < LengthUndefined
    requires p.next >= 0 && !p.isExplicit
    requires g != GroupByteOrder && g != GroupByteOrderSwapped
    requires p.next + 8 + size <= |buf|
    requires buf[p.next..p.next + 8] == ImplicitHeaderBytes(g, e, size, p.isTransferSyntaxBE)
    ensures var r := ReadSpec(p, buf, dict, name);
      r.Ok? && r.value.1 &&
      r.value.0.group == g && r.value.0.element == e && r.value.0.size == size && r.value.0.start == p.next &&
      r.value.0.data == p.next + 8 && r.value.0.vr == DictionaryVR(dict, g, e) &&
      r.value.0.next == (if r.value.0.vr == SQ || (g == GroupSequence && e == ElementSequenceItem) then p.next + 8 else p.next + 8 + size)
  {
    var h := ImplicitHeaderBytes(g, e, size, p.isTransferSyntaxBE);
    SubSlice(buf, p.next, h, 0, 4);
    assert h[0..4] == Encode16(g, p.isTransferSyntaxBE) + Encode16(e, p.isTransferSyntaxBE);
    TagFetch(buf, p.next, g, e, p.isTransferSyntaxBE);
    SubSlice(buf, p.next, h, 4, 4);
    assert h[4..8] == Encode32(size, p.isTransferSyntaxBE);
    Fetch32Encode(buf, p.next + 4, size, p.isTransferSyntaxBE);
  }

  /**
   * In a big-endian file the meta group is still little-endian: its group
   * number reads as 0x0200, and the reader takes it as group 0x0002 read in
   * little-endian order.
   */
  lemma MetaGroupInBigEndianFile(p: Parser, buf: seq<Byte>, name: string, e: nat)
    requires e < 0x1_0000 && p.next >= 0 && p.next + 8 <= |buf| && p.isTransferSyntaxBE
    requires buf[p.next..p.next + 4] == Encode16(GroupByteOrder, false) + Encode16(e, false)
    ensures ReadGrElSpec(p, buf, name).Ok?
    ensures var q := ReadGrElSpec(p, buf, name).value;
      !q.1 && q.0.group == GroupByteOrder && q.0.element == e && !q.0.isBE
  {
    TagFetch(buf, p.next, GroupByteOrder, e, false);
    FetchOtherOrder(buf, p.next, false);
  }

  /**
   * Every successful read starts at the old cursor and leaves the cursor at
   * least 8 bytes further on, so a loop over `read` ends; past the end of
   * the file the cursor stands only on the value of an element entered or
   * of undefined length.
   */
  lemma ReadProgress(p: Parser, buf: seq<Byte>, dict: Dictionary, name: string)
    ensures var r := ReadSpec(p, buf, dict, name);
      r.Ok? && r.value.1 ==> (r.value.0.start == p.next && r.value.0.next >= p.next + 8 &&
        (r.value.0.next > |buf| ==> r.value.0.next == r.value.0.data))
  {
    match ReadGrElSpec(p, buf, name)
    case Err(_) =>
    case Ok((q, atEnd)) =>
      if !atEnd {
        var h := HeaderSpec(q, buf, dict);
        assert h.data >= q.start + 8 && h.start == q.start;
        match AdvanceSpec(h, buf, name)
        case Err(_) =>
        case Ok(a) =>
          assert a.next >= a.data == h.data;
          var s := ParentsSpec(a);
          assert s.next == a.next && s.data == a.data && s.start == q.start;
      }
  }

  /** Reading returns false exactly when fewer than 8 bytes remain at the cursor. */
  lemma ReadAtEnd(p: Parser, buf: seq<Byte>, dict: Dictionary, name: string)
    ensures var r := ReadSpec(p, buf, dict, name);
      (r.Ok? && !r.value.1) <==> (p.next >= 0 && p.next + 8 > |buf|)
  {
  }

  /** None of the transfer syntax UIDs holds a NUL byte. */
  lemma UidsHaveNoNul()
    ensures NoNul(UidImplicitLE) && NoNul(UidExplicitLE) && NoNul(UidExplicitBE) && NoNul(UidDeflated)
  {
    assert forall i :: 0 <= i < |UidImplicitLE| ==> UidImplicitLE[i] != 0;
    assert forall i :: 0 <= i < |UidExplicitLE| ==> UidExplicitLE[i] == if i < 17 then UidImplicitLE[i] else [46, 49][i - 17];
    assert forall i :: 0 <= i < |UidExplicitBE| ==> UidExplicitBE[i] == if i < 17 then UidImplicitLE[i] else [46, 50][i - 17];
    assert forall i :: 0 <= i < |UidDeflated| ==> UidDeflated[i] == if i < 19 then UidExplicitLE[i] else [46, 57, 57][i - 19];
  }

  /** The bytes of the value from the file, as strncmp sees them. */
  lemma ValueBytes(buf: seq<Byte>, data: nat, v: seq<Byte>, j: nat)
    requires data + |v| <= |buf| && buf[data..data + |v|] == v && j < |v|
    ensures ByteAt(buf, data + j) == v[j]
  {
    assert buf[data..data + |v|][j] == buf[data + j];
  }

  /** What strncmp of the value against a UID decides, in terms of the value's bytes. */
  lemma ValueCompare(buf: seq<Byte>, data: nat, v: seq<Byte>, lit: seq<Byte>)
    requires data + |v| <= |buf| && buf[data..data + |v|] == v && NoNul(lit)
    ensures StrNEq(buf, data, lit, |v|) <==> forall j :: 0 <= j < |v| && j <= |lit| ==> v[j] == LitAt(lit, j)
  {
    StrNEqMeaning(buf, data, lit, |v|);
    forall j | 0 <= j < |v|
      ensures ByteAt(buf, data + j) == v[j]
    {
      ValueBytes(buf, data, v, j);
    }
  }

  /** The explicit little endian UID, NUL-padded to 20 bytes, selects that syntax. */
  lemma ExplicitLittleEndianSelected(buf: seq<Byte>, data: nat)
    requires data + 20 <= |buf| && buf[data..data + 20] == UidExplicitLE + [0]
    ensures SyntaxOf(buf, data, 20) == ExplicitLittleEndian
  {
    UidsHaveNoNul();
    var v := UidExplicitLE + [0];
    ValueCompare(buf, data, v, UidExplicitLE);
    assert forall j :: 0 <= j < 20 ==> v[j] == LitAt(UidExplicitLE, j);
  }

  /** The explicit big endian UID, NUL-padded to 20 bytes, selects that syntax. */
  lemma ExplicitBigEndianSelected(buf: seq<Byte>, data: nat)
    requires data + 20 <= |buf| && buf[data..data + 20] == UidExplicitBE + [0]
    ensures SyntaxOf(buf, data, 20) == ExplicitBigEndian
  {
    UidsHaveNoNul();
    var v := UidExplicitBE + [0];
    ValueCompare(buf, data, v, UidExplicitLE);
    assert v[18] != LitAt(UidExplicitLE, 18);
    ValueCompare(buf, data, v, UidExplicitBE);
    assert forall j :: 0 <= j < 20 ==> v[j] == LitAt(UidExplicitBE, j);
  }

  /** The implicit little endian UID, NUL-padded to 18 bytes, selects that syntax. */
  lemma ImplicitLittleEndianSelected(buf: seq<Byte>, data: nat)
    requires data + 18 <= |buf| && buf[data..data + 18] == UidImplicitLE + [0]
    ensures SyntaxOf(buf, data, 18) == ImplicitLittleEndian
  {
    UidsHaveNoNul();
    var v := UidImplicitLE + [0];
    ValueCompare(buf, data, v, UidExplicitLE);
    assert v[17] != LitAt(UidExplicitLE, 17);
    ValueCompare(buf, data, v, UidExplicitBE);
    assert v[17] != LitAt(UidExplicitBE, 17);
    ValueCompare(buf, data, v, UidImplicitLE);
    assert forall j :: 0 <= j < 18 ==> v[j] == LitAt(UidImplicitLE, j);
  }

  /** The deflated UID, 22 bytes, selects the deflated syntax, which `read` refuses. */
  lemma DeflatedSelected(buf: seq<Byte>, data: nat)
    requires data + 22 <= |buf| && buf[data..data + 22] == UidDeflated
    ensures SyntaxOf(buf, data, 22) == Deflated
  {
    UidsHaveNoNul();
    var v := UidDeflated;
    ValueCompare(buf, data, v, UidExplicitLE);
    assert v[19] != LitAt(UidExplicitLE, 19);
    ValueCompare(buf, data, v, UidExplicitBE);
    assert v[18] != LitAt(UidExplicitBE, 18);
    ValueCompare(buf, data, v, UidImplicitLE);
    assert v[17] != LitAt(UidImplicitLE, 17);
    ValueCompare(buf, data, v, UidDeflated);
    assert forall j :: 0 <= j < 22 ==> v[j] == LitAt(UidDeflated, j);
  }

  /**
   * The comparison is bounded by the value's length: the implicit little
   * endian UID left unpadded at its odd length of 17 matches the first 17
   * bytes of the explicit little endian UID and selects explicit encoding.
   */
  lemma UnpaddedImplicitSelectsExplicit(buf: seq<Byte>, data: nat)
    requires data + 17 <= |buf| && buf[data..data + 17] == UidImplicitLE
    ensures SyntaxOf(buf, data, 17) == ExplicitLittleEndian
  {
    UidsHaveNoNul();
    ValueCompare(buf, data, UidImplicitLE, UidExplicitLE);
    assert forall j :: 0 <= j < 17 ==> UidImplicitLE[j] == LitAt(UidExplicitLE, j);
  }

  /**
   * Binary values read back: words stored one after another in the
   * element's byte order come back from `get_int` as signed and from
   * `get_uint` as unsigned values.
   */
  lemma WordValuesRoundTrip(p: Parser, buf: seq<Byte>, ws: seq<nat>, width: nat,
                            parse: seq<Byte> -> int, parseU: seq<Byte> -> nat)
    requires width == 2 || width == 4
    requires FitWidth(ws, width)
    requires p.data >= 0 && p.size == |EncodeWords(ws, width, p.isBE)| && p.data + p.size <= |buf|
    requires buf[p.data..p.data + p.size] == EncodeWords(ws, width, p.isBE)
    ensures p.vr == (if width == 4 then SL else SS) ==> IntValues(p, buf, parse) == AsSigned(ws, width)
    ensures p.vr == (if width == 4 then UL else US) ==> UIntValues(p, buf, parseU) == ws
  {
    WordsRoundTrip(buf, p.data, ws, width, p.isBE);
  }

  /** A signed value agrees with its stored word modulo the word's range. */
  lemma SignedAgrees(ws: seq<nat>, width: nat, i: nat)
    requires width == 2 || width == 4
    requires FitWidth(ws, width) && i < |ws|
    ensures (AsSigned(ws, width)[i] - ws[i]) % (if width == 2 then 0x1_0000 else 0x1_0000_0000) == 0
    ensures 0 <= ws[i] < (if width == 2 then 0x8000 else 0x8000_0000) ==> AsSigned(ws, width)[i] == ws[i]
  {
  }

  /**
   * An attribute tag value gives its group and element as "%02X %02X":
   * the two hexadecimal fields read back as the stored numbers.
   */
  lemma TagTextRoundTrip(p: Parser, buf: seq<Byte>, g: nat, e: nat)
    requires g < 0x1_0000 && e < 0x1_0000 && p.vr == AT
    requires p.data >= 0 && p.data + 4 <= |buf|
    requires buf[p.data..p.data + 4] == Encode16(g, p.isBE) + Encode16(e, p.isBE)
    ensures StringValues(p, buf) == [TagText(g, e)]
    ensures var t, k := TagText(g, e), |Format02X(g)|;
      k < |t| && t[k] == Space && ParseHex(t[..k]) == g && ParseHex(t[k + 1..]) == e
  {
    TagFetch(buf, p.data, g, e, p.isBE);
    TagTextFields(g, e);
  }

  lemma TagTextFields(g: nat, e: nat)
    ensures var t, k := TagText(g, e), |Format02X(g)|;
      k < |t| && t[k] == Space && ParseHex(t[..k]) == g && ParseHex(t[k + 1..]) == e
  {
    var t, k := TagText(g, e), |Format02X(g)|;
    assert t[..k] == Format02X(g);
    assert t[k + 1..] == Format02X(e);
    Format02XRoundTrip(g);
    Format02XRoundTrip(e);
  }

  /**
   * Text values: one more than there are backslashes in the value, none
   * holding a backslash or a caret; IS values are parsed piece by piece,
   * one number per text value.
   */
  lemma TextValueCounts(p: Parser, buf: seq<Byte>, parse: seq<Byte> -> int, parseU: seq<Byte> -> nat)
    ensures p.vr != AT ==> |StringValues(p, buf)| == Occurrences(Slice(buf, p.data, p.size), Backslash) + 1
    ensures p.vr != AT ==> forall i, j :: 0 <= i < |StringValues(p, buf)| && 0 <= j < |StringValues(p, buf)[i]| ==>
      StringValues(p, buf)[i][j] != Backslash && StringValues(p, buf)[i][j] != Caret
    ensures p.vr == IS ==> |IntValues(p, buf, parse)| == |UIntValues(p, buf, parseU)| == Occurrences(Slice(buf, p.data, p.size), Backslash) + 1
    ensures p.vr == IS ==> forall i :: 0 <= i < |IntValues(p, buf, parse)| ==> IntValues(p, buf, parse)[i] == parse(Pieces(p, buf)[i])
  {
    TextValuesClean(Slice(buf, p.data, p.size));
    SplitCount(Slice(buf, p.data, p.size), Backslash);
  }
}
