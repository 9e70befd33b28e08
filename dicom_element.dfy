/**
 * The DICOM data-element reader (`File::Dicom::Element`). The reader holds
 * a mapped file and a cursor into it: `start` is the first byte of the
 * current element, `data` the first byte of its value and `next` the first
 * byte of the element to read next. It keeps the byte order of the current
 * element and of the transfer syntax, whether the encoding is explicit VR,
 * and a stack of the sequences it is inside.
 *
 * Each phase of `read` is a function from the reader's state to the next
 * state (or the error it throws), and the methods of
 * the class are proved to perform exactly those transitions. The layouts
 * are those of sections 7.1.2 (explicit VR), 7.1.3 (implicit VR) and 7.5
 * (sequences and items) of DICOM PS3.5, the file start that of section 7.1
 * of DICOM PS3.10, and the transfer syntaxes those of Annex A of PS3.5.
 *
 * Pointers are offsets into the file, with NULL as -1. The tag dictionary
 * is a map from (group, element) to the VR its entry gives.
 */
module DicomElement {

  import opened Wrappers
  import opened DicomBytes
  import opened DicomVR

  /** An open sequence: its tag and the offset its value ends at, -1 for undefined length. */
  datatype Sequence = Sequence(group: nat, element: nat, end: int)

  /** The fields of an Element, and the global `error_message` as unsupportedSyntax. */
  datatype Parser = Parser(
    group: nat, element: nat, vr: nat, size: nat,
    start: int, data: int, next: int,
    isBE: bool, isTransferSyntaxBE: bool, isExplicit: bool,
    parents: seq<Sequence>, unsupportedSyntax: bool)

  type Dictionary = map<(nat, nat), nat>

  function Quoted(name: string): string
  {
    "\"" + name + "\""
  }

  /** The exceptions the reader throws, by cause. */
  datatype ReadError =
    | InvalidElement
    | InvalidGroup(file: string)
    | TooSmallForElements(file: string)
    | DeflatedUnsupported
    | TooSmallForDicom(file: string)
    | TooSmallForFile(file: string)
    | NotDicom(file: string)
    | InvalidFile(file: string)

  /** The text of each exception. */
  function Message(e: ReadError): string
  {
    match e
    case InvalidElement => "invalid DICOM element"
    case InvalidGroup(f) => "invalid DICOM group ID 512 in file " + Quoted(f)
    case TooSmallForElements(f) => "file " + Quoted(f) + " is too small to contain DICOM elements specified"
    case DeflatedUnsupported => "DICOM deflated explicit VR little endian transfer syntax not supported"
    case TooSmallForDicom(f) => Quoted(f) + " is too small to be DICOM"
    case TooSmallForFile(f) => Quoted(f) + " is too small to be a valid DICOM file"
    case NotDicom(f) => "file " + Quoted(f) + " does not have the DICOM magic number or the .dcm extension - assuming not DICOM"
    case InvalidFile(f) => Quoted(f) + " is not a valid DICOM file"
  }

  /** The file name suffix that admits a file without the magic number. */
  const DcmSuffix: string := ".dcm"

  /** `Path::has_suffix` */
  function HasSuffix(name: string, suffix: string): bool
  {
    |suffix| <= |name| && name[|name| - |suffix|..] == suffix
  }

  /** The "DICM" prefix at byte 128, after the preamble. */
  function HasMagic(buf: seq<Byte>): bool
  {
    |buf| >= 132 && buf[128..132] == [68, 73, 67, 77]
  }

  /** Where the first element starts: after the prefix, or at 0 in the truncated format. */
  function Begin(buf: seq<Byte>): nat
  {
    if HasMagic(buf) then 132 else 0
  }

  /**
   * `read_GR_EL`: clear the element, take `next` as its start, and read the
   * group and element numbers. The result says whether fewer than 8 bytes
   * remain (the end). A group of 0x0200 read in big-endian order is group
   * 0x0002 written little-endian, as the file meta information always is.
   */
  function ReadGrElSpec(p: Parser, buf: seq<Byte>, name: string): (r: Result<(Parser, bool), ReadError>)
    ensures r.Err? <==> p.next < 0 || (p.next + 8 <= |buf| && !p.isTransferSyntaxBE && Fetch16(buf, p.next, false) == GroupByteOrderSwapped)
    ensures r.Ok? ==> r.value.0.start == p.next && r.value.0.data == -1 && r.value.0.next == -1
    ensures r.Ok? ==> r.value.0.vr == 0 && r.value.0.size == 0 && r.value.0.parents == p.parents
    ensures r.Ok? ==> (r.value.1 <==> p.next + 8 > |buf|)
    ensures r.Ok? && !r.value.1 ==> r.value.0.group != GroupByteOrderSwapped
    ensures r.Ok? && !r.value.1 && Fetch16(buf, p.next, p.isTransferSyntaxBE) == GroupByteOrderSwapped ==>
      r.value.0.group == GroupByteOrder && !r.value.0.isBE && r.value.0.element == Fetch16(buf, p.next + 2, false)
    ensures r.Ok? && !r.value.1 && Fetch16(buf, p.next, p.isTransferSyntaxBE) != GroupByteOrderSwapped ==>
      r.value.0.group == Fetch16(buf, p.next, p.isTransferSyntaxBE) && r.value.0.isBE == p.isTransferSyntaxBE &&
      r.value.0.element == Fetch16(buf, p.next + 2, p.isTransferSyntaxBE)
  {
    var q := p.(group := 0, element := 0, vr := 0, size := 0, start := p.next, data := -1, next := -1);
    if q.start < 0 then Err(InvalidElement)
    else if q.start + 8 > |buf| then Ok((q, true))
    else
      var isBE := p.isTransferSyntaxBE;
      var group := Fetch16(buf, q.start, isBE);
      if group == GroupByteOrderSwapped then
        if !isBE then Err(InvalidGroup(name))
        else Ok((q.(isBE := false, group := GroupByteOrder, element := Fetch16(buf, q.start + 2, false)), false))
      else Ok((q.(isBE := isBE, group := group, element := Fetch16(buf, q.start + 2, isBE)), false))
  }

  /** An element that has the explicit-VR layout: explicit encoding outside items, and always the meta group. */
  predicate ExplicitLayout(p: Parser)
  {
    (p.isExplicit && p.group != GroupSequence) || p.group == GroupByteOrder
  }

  /** The VR of a tag by the dictionary, UN when it has no entry. */
  function DictionaryVR(dict: Dictionary, group: nat, element: nat): nat
  {
    if (group, element) in dict then dict[(group, element)] else UN
  }

  /** Explicit VR: the VR at +4, then a 2-byte length, or 2 reserved bytes and a 4-byte length. */
  function ExplicitHeader(p: Parser, buf: seq<Byte>, dict: Dictionary): Parser
  {
    var vr := Fetch16(buf, p.start + 4, true);
    var long := vr in LongLengthVRs;
    var size := if long then Fetch32(buf, p.start + 8, p.isBE) else Fetch16(buf, p.start + 6, p.isBE);
    var vr' := if vr == UN && (p.group, p.element) in dict then dict[(p.group, p.element)] else vr;
    p.(data := if long then p.start + 12 else p.start + 8, vr := vr', size := size)
  }

  /** Implicit VR: the VR from the dictionary, a 4-byte length at +4. */
  function ImplicitHeader(p: Parser, buf: seq<Byte>, dict: Dictionary): Parser
  {
    p.(data := p.start + 8, vr := DictionaryVR(dict, p.group, p.element), size := Fetch32(buf, p.start + 4, p.isBE))
  }

  /**
   * The header decoding of `read`: the VR, the length and the value offset.
   * Explicit VR: the VR at +4; OB, OW, OF, SQ, UN and UT have a 4-byte
   * length at +8 and the value at +12 (the dictionary may then refine UN),
   * the others a 2-byte length at +6 and the value at +8. Implicit VR: the
   * VR from the dictionary, a 4-byte length at +4, the value at +8.
   */
  function HeaderSpec(p: Parser, buf: seq<Byte>, dict: Dictionary): Parser
  {
    if ExplicitLayout(p) then ExplicitHeader(p, buf, dict) else ImplicitHeader(p, buf, dict)
  }

  /** Where the header decoding finds the VR, the length and the value, by layout. */
  lemma HeaderLayout(p: Parser, buf: seq<Byte>, dict: Dictionary)
    ensures ExplicitLayout(p) && Fetch16(buf, p.start + 4, true) in LongLengthVRs ==>
      HeaderSpec(p, buf, dict).data == p.start + 12 && HeaderSpec(p, buf, dict).size == Fetch32(buf, p.start + 8, p.isBE)
    ensures ExplicitLayout(p) && Fetch16(buf, p.start + 4, true) !in LongLengthVRs ==>
      HeaderSpec(p, buf, dict).data == p.start + 8 && HeaderSpec(p, buf, dict).size == Fetch16(buf, p.start + 6, p.isBE) && HeaderSpec(p, buf, dict).vr == Fetch16(buf, p.start + 4, true)
    ensures !ExplicitLayout(p) ==>
      HeaderSpec(p, buf, dict).data == p.start + 8 && HeaderSpec(p, buf, dict).size == Fetch32(buf, p.start + 4, p.isBE) && HeaderSpec(p, buf, dict).vr == DictionaryVR(dict, p.group, p.element)
    ensures HeaderSpec(p, buf, dict).vr == UN ==> !ExplicitLayout(p) || Fetch16(buf, p.start + 4, true) == UN
    ensures HeaderSpec(p, buf, dict).group == p.group && HeaderSpec(p, buf, dict).element == p.element && HeaderSpec(p, buf, dict).start == p.start && HeaderSpec(p, buf, dict).isBE == p.isBE && HeaderSpec(p, buf, dict).parents == p.parents
  {
  }

  /** An item (FFFE,E000), whose value is read as nested elements. */
  predicate IsItem(p: Parser)
  {
    p.group == GroupSequence && p.element == ElementSequenceItem
  }

  /**
   * The cursor advance of `read`. A sequence or an item is entered: next is
   * its value. Any other element is skipped: next is past its value, and an
   * undefined length on it counts as 0. A defined length that runs past the
   * end of the file is an error.
   */
  function AdvanceSpec(p: Parser, buf: seq<Byte>, name: string): (r: Result<Parser, ReadError>)
    ensures r.Err? <==> p.size != LengthUndefined && p.data + p.size > |buf|
    ensures r.Ok? ==> r.value.size == if p.size == LengthUndefined && p.vr != SQ && !IsItem(p) then 0 else p.size
    ensures r.Ok? ==> r.value.next == if p.vr == SQ || IsItem(p) then p.data else p.data + r.value.size
    ensures r.Ok? ==> r.value.(next := p.next, size := p.size) == p
  {
    var q := p.(next := p.data);
    if p.size == LengthUndefined then
      if p.vr != SQ && !IsItem(p) then Ok(q.(size := 0)) else Ok(q)
    else if q.next + p.size > |buf| then
      Err(TooSmallForElements(name))
    else if p.vr != SQ && !IsItem(p) then Ok(q.(next := q.next + p.size))
    else Ok(q)
  }

  /** The last open sequence closes when the value starts past its end or at a delimitation item. */
  predicate ClosesSequence(p: Parser)
  {
    |p.parents| > 0 &&
    ((p.parents[|p.parents| - 1].end != -1 && p.data > p.parents[|p.parents| - 1].end) ||
     (p.group == GroupSequence && p.element == ElementSequenceDelimitationItem))
  }

  /**
   * The sequence stack update of `read`: at most one sequence is closed,
   * and a sequence element opens one that ends where its value ends (never,
   * for undefined length).
   */
  function ParentsSpec(p: Parser): (r: Parser)
    ensures var kept := if ClosesSequence(p) then p.parents[..|p.parents| - 1] else p.parents;
      r.parents == if p.vr == SQ then kept + [Sequence(p.group, p.element, if p.size == LengthUndefined then -1 else p.data + p.size)] else kept
    ensures |p.parents| - 1 <= |r.parents| <= |p.parents| + 1
    ensures |r.parents| == |p.parents| + 1 ==> p.vr == SQ
    ensures r.(parents := p.parents) == p
  {
    var kept := if ClosesSequence(p) then p.parents[..|p.parents| - 1] else p.parents;
    var pushed := if p.vr == SQ then kept + [Sequence(p.group, p.element, if p.size == LengthUndefined then -1 else p.data + p.size)] else kept;
    p.(parents := pushed)
  }

  datatype TransferSyntax = ExplicitLittleEndian | ExplicitBigEndian | ImplicitLittleEndian | Deflated | Unsupported

  const UidImplicitLE: seq<Byte> := [49, 46, 50, 46, 56, 52, 48, 46, 49, 48, 48, 48, 56, 46, 49, 46, 50]
  const UidExplicitLE: seq<Byte> := UidImplicitLE + [46, 49]
  const UidExplicitBE: seq<Byte> := UidImplicitLE + [46, 50]
  const UidDeflated: seq<Byte> := UidExplicitLE + [46, 57, 57]

  /** The UIDs spelled out: "1.2.840.10008.1.2" and its extensions ".1", ".2" and ".1.99". */
  lemma UidSpelling()
    ensures UidImplicitLE == Ascii("1.2.840.10008.1.2")
    ensures UidExplicitLE == Ascii("1.2.840.10008.1.2.1")
    ensures UidExplicitBE == Ascii("1.2.840.10008.1.2.2")
    ensures UidDeflated == Ascii("1.2.840.10008.1.2.1.99")
  {
  }

  /**
   * The transfer syntax the value selects: the four UIDs are tried in turn
   * with `strncmp` bounded by the value's length.
   */
  function SyntaxOf(buf: seq<Byte>, data: int, size: nat): TransferSyntax
  {
    if StrNEq(buf, data, UidExplicitLE, size) then ExplicitLittleEndian
    else if StrNEq(buf, data, UidExplicitBE, size) then ExplicitBigEndian
    else if StrNEq(buf, data, UidImplicitLE, size) then ImplicitLittleEndian
    else if StrNEq(buf, data, UidDeflated, size) then Deflated
    else Unsupported
  }

  /**
   * The effect of a transfer syntax on the reader: the byte order and the
   * encoding of what follows, an error for deflated data, and only the
   * error message for an unknown syntax.
   */
  function SwitchSyntax(p: Parser, ts: TransferSyntax): (r: Result<Parser, ReadError>)
    ensures r.Err? <==> ts == Deflated
    ensures ts == Unsupported ==> r == Ok(p.(unsupportedSyntax := true))
    ensures ts != Unsupported && r.Ok? ==>
      r.value.isBE == r.value.isTransferSyntaxBE == (ts == ExplicitBigEndian) &&
      (r.value.isExplicit <==> ts != ImplicitLittleEndian) && r.value.unsupportedSyntax == p.unsupportedSyntax
    ensures r.Ok? ==> r.value.(isBE := p.isBE, isTransferSyntaxBE := p.isTransferSyntaxBE, isExplicit := p.isExplicit, unsupportedSyntax := p.unsupportedSyntax) == p
  {
    match ts
    case ExplicitLittleEndian => Ok(p.(isBE := false, isTransferSyntaxBE := false, isExplicit := true))
    case ExplicitBigEndian => Ok(p.(isBE := true, isTransferSyntaxBE := true, isExplicit := true))
    case ImplicitLittleEndian => Ok(p.(isBE := false, isTransferSyntaxBE := false, isExplicit := false))
    case Deflated => Err(DeflatedUnsupported)
    case Unsupported => Ok(p.(unsupportedSyntax := true))
  }

  predicate IsTransferSyntaxUid(p: Parser)
  {
    p.group == GroupByteOrder && p.element == ElementTransferSyntaxUid
  }

  /** The transfer syntax switch of `read`, which only (0002,0010) triggers. */
  function SyntaxSpec(p: Parser, buf: seq<Byte>): Result<Parser, ReadError>
  {
    if IsTransferSyntaxUid(p) then SwitchSyntax(p, SyntaxOf(buf, p.data, p.size)) else Ok(p)
  }

  /** The whole of `read`: false at the end of the file, true after reading an element. */
  function ReadSpec(p: Parser, buf: seq<Byte>, dict: Dictionary, name: string): Result<(Parser, bool), ReadError>
  {
    match ReadGrElSpec(p, buf, name)
    case Err(e) => Err(e)
    case Ok((q, atEnd)) =>
      if atEnd then Ok((q, false))
      else
        match AdvanceSpec(HeaderSpec(q, buf, dict), buf, name)
        case Err(e) => Err(e)
        case Ok(a) =>
          match SyntaxSpec(ParentsSpec(a), buf)
          case Err(e) => Err(e)
          case Ok(s) => Ok((s, true))
  }

  /**
   * `set_explicit_encoding`: read the first tag, take explicit encoding iff
   * bytes 4-5 hold one of the known VRs, and put the cursor back on the
   * element so that nothing is consumed.
   */
  function ExplicitEncodingSpec(p: Parser, buf: seq<Byte>, name: string): (r: Result<Parser, ReadError>)
    ensures r.Ok? ==> r.value.next == r.value.start == p.next && r.value.parents == p.parents
    ensures r.Ok? ==> (r.value.isExplicit <==> Fetch16(buf, p.next + 4, true) in ExplicitVRs)
  {
    match ReadGrElSpec(p, buf, name)
    case Err(e) => Err(e)
    case Ok((q, atEnd)) =>
      if atEnd then Err(TooSmallForDicom(name))
      else
        var vr := Fetch16(buf, q.start + 4, true);
        Ok(q.(isExplicit := vr in ExplicitVRs, next := q.start, vr := vr))
  }

  /** The state `set` clears before it maps the file; is_explicit and error_message are kept. */
  function Cleared(p: Parser): Parser
  {
    Parser(0, 0, 0, 0, -1, -1, -1, false, false, p.isExplicit, [], p.unsupportedSyntax)
  }

  /**
   * The part of `set` before the encoding probe: files under 256 bytes are
   * refused; with "DICM" at byte 128 the first element is at 132, otherwise
   * at 0 with implicit encoding, and then the name must end in ".dcm" unless
   * reading is forced.
   */
  function OpenSpec(p: Parser, buf: seq<Byte>, name: string, forceRead: bool): Result<Parser, ReadError>
  {
    var q := Cleared(p);
    if |buf| < 256 then Err(TooSmallForFile(name))
    else if !HasMagic(buf) && !forceRead && !HasSuffix(name, DcmSuffix) then Err(NotDicom(name))
    else if HasMagic(buf) then Ok(q.(next := 132))
    else Ok(q.(isExplicit := false, next := 0))
  }

  /** `set`: open the file, then probe the encoding; a failed probe makes the file invalid. */
  function SetSpec(p: Parser, buf: seq<Byte>, name: string, forceRead: bool): Result<Parser, ReadError>
  {
    match OpenSpec(p, buf, name, forceRead)
    case Err(e) => Err(e)
    case Ok(q) =>
      match ExplicitEncodingSpec(q, buf, name)
      case Err(_) => Err(InvalidFile(name))
      case Ok(s) => Ok(s)
  }

  /**
   * A file is accepted iff it has 256 bytes, the magic number, the ".dcm"
   * suffix or a forced read, and a first group the byte order allows; the
   * reader then stands on the first element, little-endian, outside any
   * sequence, with the encoding the first element's VR bytes suggest.
   */
  lemma SetOutcome(p: Parser, buf: seq<Byte>, name: string, forceRead: bool)
    ensures |buf| < 256 ==> SetSpec(p, buf, name, forceRead) == Err(TooSmallForFile(name))
    ensures SetSpec(p, buf, name, forceRead).Ok? <==> (|buf| >= 256 && (HasMagic(buf) || forceRead || HasSuffix(name, DcmSuffix)) &&
      Fetch16(buf, Begin(buf), false) != GroupByteOrderSwapped)
    ensures var r := SetSpec(p, buf, name, forceRead);
      r.Ok? ==> (r.value.start == r.value.next == Begin(buf) && r.value.parents == [] &&
        !r.value.isBE && !r.value.isTransferSyntaxBE &&
        (r.value.isExplicit <==> Fetch16(buf, Begin(buf) + 4, true) in ExplicitVRs))
  {
  }

  /** An error outcome agrees with the specification's: the same exception, or none on success. */
  ghost predicate Fails<T>(err: Option<ReadError>, r: Result<T, ReadError>)
  {
    (err.Some? <==> r.Err?) && (r.Err? ==> err.value == r.error)
  }

  /** Unsigned words read as two's complement integers of their width. */
  function AsSigned(ws: seq<nat>, width: nat): (r: seq<int>)
    requires width == 2 || width == 4
    requires FitWidth(ws, width)
    ensures |r| == |ws|
  {
    seq(|ws|, i requires 0 <= i < |ws| => if width == 2 then Signed16(ws[i]) else Signed32(ws[i]))
  }

  function Parsed<T>(pieces: seq<seq<Byte>>, parse: seq<Byte> -> T): (r: seq<T>)
    ensures |r| == |pieces|
  {
    seq(|pieces|, i requires 0 <= i < |pieces| => parse(pieces[i]))
  }

  /** The backslash-separated pieces of a text value. */
  function Pieces(p: Parser, buf: seq<Byte>): seq<seq<Byte>>
  {
    Split(Slice(buf, p.data, p.size), Backslash)
  }

  /** The words of the element's value, one per width bytes. */
  function Words(p: Parser, buf: seq<Byte>, width: nat): seq<nat>
    requires width == 2 || width == 4
  {
    WordsFrom(buf, p.data, p.data + p.size, width, p.isBE)
  }

  /**
   * `get_int`: SL and SS values as signed 32- and 16-bit words, IS values
   * parsed from their text; other VRs give nothing. The parser stands for
   * `to<int32_t>`.
   */
  function IntValues(p: Parser, buf: seq<Byte>, parse: seq<Byte> -> int): seq<int>
  {
    if p.vr == SL then AsSigned(Words(p, buf, 4), 4)
    else if p.vr == SS then AsSigned(Words(p, buf, 2), 2)
    else if p.vr == IS then Parsed(Pieces(p, buf), parse)
    else []
  }

  /** `get_uint`: UL and US values as unsigned words, IS values parsed by `to<uint32_t>`. */
  function UIntValues(p: Parser, buf: seq<Byte>, parse: seq<Byte> -> nat): seq<nat>
  {
    if p.vr == UL then Words(p, buf, 4)
    else if p.vr == US then Words(p, buf, 2)
    else if p.vr == IS then Parsed(Pieces(p, buf), parse)
    else []
  }

  /** The "%02X %02X" text of an attribute tag. */
  function TagText(group: nat, element: nat): seq<Byte>
  {
    Format02X(group) + [Space] + Format02X(element)
  }

  /** `get_string`: an AT value as its tag text, any other value as its cleaned text values. */
  function StringValues(p: Parser, buf: seq<Byte>): seq<seq<Byte>>
  {
    if p.vr == AT then [TagText(Fetch16(buf, p.data, p.isBE), Fetch16(buf, p.data + 2, p.isBE))]
    else TextValues(Slice(buf, p.data, p.size))
  }

  /**
   * `File::Dicom::Element`: the reader over one mapped file. The fields the
   * source updates are those of the Parser value in `state`; the dictionary
   * is fixed.
   */
  class Element {
    const dictionary: Dictionary
    var buf: seq<Byte>
    var name: string
    var state: Parser

    constructor(dict: Dictionary)
      ensures dictionary == dict && buf == [] && name == []
      ensures state == Parser(0, 0, 0, 0, -1, -1, -1, false, false, false, [], false)
    {
      dictionary, buf, name := dict, [], [];
      state := Parser(0, 0, 0, 0, -1, -1, -1, false, false, false, [], false);
    }

    method Set(file: seq<Byte>, filename: string, forceRead: bool) returns (err: Option<ReadError>)
      modifies this
      ensures buf == file && name == filename
      ensures Fails(err, SetSpec(old(state), file, filename, forceRead))
      ensures err.None? ==> state == SetSpec(old(state), file, filename, forceRead).value
    {
      err := Open(file, filename, forceRead);
      if err.Some? {
        return;
      }
      var e := SetExplicitEncoding();
      if e.Some? {
        return Some(InvalidFile(name));
      }
    }

    /** Clear the reader, take the file, and find the first element. */
    method Open(file: seq<Byte>, filename: string, forceRead: bool) returns (err: Option<ReadError>)
      modifies this
      ensures buf == file && name == filename
      ensures Fails(err, OpenSpec(old(state), file, filename, forceRead))
      ensures err.None? ==> state == OpenSpec(old(state), file, filename, forceRead).value
    {
      state := state.(group := 0, element := 0, vr := 0, size := 0, start := -1, data := -1, next := -1);
      state := state.(isBE := false, isTransferSyntaxBE := false, parents := []);
      buf, name := file, filename;
      if |buf| < 256 {
        return Some(TooSmallForFile(name));
      }
      state := state.(next := 0);
      if !HasMagic(buf) {
        state := state.(isExplicit := false);
        if !forceRead && !HasSuffix(name, DcmSuffix) {
          return Some(NotDicom(name));
        }
      } else {
        state := state.(next := state.next + 132);
      }
      return None;
    }

    method SetExplicitEncoding() returns (err: Option<ReadError>)
      modifies this
      ensures buf == old(buf) && name == old(name)
      ensures Fails(err, ExplicitEncodingSpec(old(state), buf, name))
      ensures err.None? ==> state == ExplicitEncodingSpec(old(state), buf, name).value
    {
      var atEnd, e := ReadGrEl();
      if e.Some? {
        return e;
      }
      if atEnd {
        return Some(TooSmallForDicom(name));
      }
      state := state.(isExplicit := true, next := state.start);
      state := state.(vr := Fetch16(buf, state.start + 4, true));
      if state.vr in ExplicitVRs {
        return None;
      }
      state := state.(isExplicit := false);
      return None;
    }

    method ReadGrEl() returns (atEnd: bool, err: Option<ReadError>)
      modifies this
      ensures buf == old(buf) && name == old(name)
      ensures Fails(err, ReadGrElSpec(old(state), buf, name))
      ensures err.None? ==> (state, atEnd) == ReadGrElSpec(old(state), buf, name).value
    {
      state := state.(group := 0, element := 0, vr := 0, size := 0);
      state := state.(start := state.next);
      state := state.(data := -1, next := -1);
      if state.start < 0 {
        return false, Some(InvalidElement);
      }
      if state.start + 8 > |buf| {
        return true, None;
      }
      state := state.(isBE := state.isTransferSyntaxBE);
      state := state.(group := Fetch16(buf, state.start, state.isBE));
      if state.group == GroupByteOrderSwapped {
        if !state.isBE {
          return false, Some(InvalidGroup(name));
        }
        state := state.(isBE := false, group := GroupByteOrder);
      }
      state := state.(element := Fetch16(buf, state.start + 2, state.isBE));
      return false, None;
    }

    method Read() returns (more: bool, err: Option<ReadError>)
      modifies this
      ensures buf == old(buf) && name == old(name)
      ensures Fails(err, ReadSpec(old(state), buf, dictionary, name))
      ensures err.None? ==> (state, more) == ReadSpec(old(state), buf, dictionary, name).value
    {
      var atEnd, e := ReadGrEl();
      if e.Some? {
        return false, e;
      }
      if atEnd {
        return false, None;
      }
      DecodeHeader();
      e := Advance();
      if e.Some? {
        return false, e;
      }
      UpdateParents();
      e := UpdateSyntax();
      if e.Some? {
        return false, e;
      }
      return true, None;
    }

    /** The VR, length and value offset of the element at start. */
    method DecodeHeader()
      modifies this
      ensures buf == old(buf) && name == old(name)
      ensures state == HeaderSpec(old(state), buf, dictionary)
    {
      if (state.isExplicit && state.group != GroupSequence) || state.group == GroupByteOrder {
        DecodeExplicit();
      } else {
        DecodeImplicit();
      }
    }

    method DecodeExplicit()
      modifies this
      ensures buf == old(buf) && name == old(name)
      ensures state == ExplicitHeader(old(state), buf, dictionary)
    {
      state := state.(data := state.start + 8);
      state := state.(vr := Fetch16(buf, state.start + 4, true));
      var vr, tag := state.vr, (state.group, state.element);
      if vr in LongLengthVRs {
        state := state.(size := Fetch32(buf, state.start + 8, state.isBE));
        state := state.(data := state.data + 4);
      } else {
        state := state.(size := Fetch16(buf, state.start + 6, state.isBE));
      }
      if vr == UN && tag in dictionary {
        state := state.(vr := dictionary[tag]);
      }
    }

    method DecodeImplicit()
      modifies this
      ensures buf == old(buf) && name == old(name)
      ensures state == ImplicitHeader(old(state), buf, dictionary)
    {
      state := state.(data := state.start + 8);
      var tag := (state.group, state.element);
      if tag !in dictionary {
        state := state.(vr := UN);
      } else {
        state := state.(vr := dictionary[tag]);
      }
      state := state.(size := Fetch32(buf, state.start + 4, state.isBE));
    }

    /** The cursor move past the element, or into it for a sequence or an item. */
    method Advance() returns (err: Option<ReadError>)
      modifies this
      ensures buf == old(buf) && name == old(name)
      ensures Fails(err, AdvanceSpec(old(state), buf, name))
      ensures err.None? ==> state == AdvanceSpec(old(state), buf, name).value
    {
      state := state.(next := state.data);
      if state.size == LengthUndefined {
        if state.vr != SQ && !IsItem(state) {
          state := state.(size := 0);
        }
      } else if state.next + state.size > |buf| {
        return Some(TooSmallForElements(name));
      } else if state.vr != SQ && !IsItem(state) {
        state := state.(next := state.next + state.size);
      }
      return None;
    }

    method UpdateParents()
      modifies this
      ensures buf == old(buf) && name == old(name)
      ensures state == ParentsSpec(old(state))
    {
      var parents := state.parents;
      if |parents| > 0 {
        if (parents[|parents| - 1].end != -1 && state.data > parents[|parents| - 1].end) ||
           (state.group == GroupSequence && state.element == ElementSequenceDelimitationItem) {
          parents := parents[..|parents| - 1];
        }
      }
      if state.vr == SQ {
        if state.size == LengthUndefined {
          parents := parents + [Sequence(state.group, state.element, -1)];
        } else {
          parents := parents + [Sequence(state.group, state.element, state.data + state.size)];
        }
      }
      state := state.(parents := parents);
    }

    method UpdateSyntax() returns (err: Option<ReadError>)
      modifies this
      ensures buf == old(buf) && name == old(name)
      ensures Fails(err, SyntaxSpec(old(state), buf))
      ensures err.None? ==> state == SyntaxSpec(old(state), buf).value
    {
      if IsTransferSyntaxUid(state) {
        var data, size := state.data, state.size;
        if StrNEq(buf, data, UidExplicitLE, size) {
          state := state.(isBE := false, isTransferSyntaxBE := false, isExplicit := true);
        } else if StrNEq(buf, data, UidExplicitBE, size) {
          state := state.(isBE := true, isTransferSyntaxBE := true, isExplicit := true);
        } else if StrNEq(buf, data, UidImplicitLE, size) {
          state := state.(isBE := false, isTransferSyntaxBE := false, isExplicit := false);
        } else if StrNEq(buf, data, UidDeflated, size) {
          return Some(DeflatedUnsupported);
        } else {
          state := state.(unsupportedSyntax := true);
        }
      }
      return None;
    }

    /** The pointer loop over the value, width bytes at a time. */
    method ReadWords(width: nat) returns (ws: seq<nat>)
      requires width == 2 || width == 4
      ensures ws == Words(state, buf, width)
    {
      ws := [];
      var p, end := state.data, state.data + state.size;
      while p < end
        invariant Words(state, buf, width) == ws + WordsFrom(buf, p, end, width, state.isBE)
        decreases end - p
      {
        ws := ws + [FetchWord(buf, p, width, state.isBE)];
        p := p + width;
      }
    }

    /** The conversion loop over the text values. */
    static method ParseAll<T>(pieces: seq<seq<Byte>>, parse: seq<Byte> -> T) returns (v: seq<T>)
      ensures v == Parsed(pieces, parse)
    {
      v := [];
      var n := 0;
      while n < |pieces|
        invariant 0 <= n <= |pieces|
        invariant v == Parsed(pieces[..n], parse)
      {
        v := v + [parse(pieces[n])];
        n := n + 1;
      }
      assert pieces[..n] == pieces;
    }

    method GetInt(parse: seq<Byte> -> int) returns (v: seq<int>)
      ensures v == IntValues(state, buf, parse)
    {
      if state.vr == SL {
        var ws := ReadWords(4);
        v := AsSigned(ws, 4);
      } else if state.vr == SS {
        var ws := ReadWords(2);
        v := AsSigned(ws, 2);
      } else if state.vr == IS {
        v := ParseAll(Pieces(state, buf), parse);
      } else {
        v := [];
      }
    }

    method GetUInt(parse: seq<Byte> -> nat) returns (v: seq<nat>)
      ensures v == UIntValues(state, buf, parse)
    {
      if state.vr == UL {
        v := ReadWords(4);
      } else if state.vr == US {
        v := ReadWords(2);
      } else if state.vr == IS {
        v := ParseAll(Pieces(state, buf), parse);
      } else {
        v := [];
      }
    }

    method GetString() returns (strings: seq<seq<Byte>>)
      ensures strings == StringValues(state, buf)
    {
      if state.vr == AT {
        return [TagText(Fetch16(buf, state.data, state.isBE), Fetch16(buf, state.data + 2, state.isBE))];
      }
      var pieces := Pieces(state, buf);
      strings := pieces;
      var i := 0;
      while i < |strings|
        invariant 0 <= i <= |strings| == |pieces|
        invariant forall j :: 0 <= j < i ==> strings[j] == Cleaned(pieces[j])
        invariant forall j :: i <= j < |strings| ==> strings[j] == pieces[j]
      {
        strings := strings[i := Cleaned(strings[i])];
        i := i + 1;
      }
    }
  }
}
