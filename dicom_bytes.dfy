/**
 * Byte-level helpers of the DICOM element reader: fixed-width integers
 * fetched from a mapped file in either byte order, with their encoders;
 * `strncmp` against a NUL-terminated literal; and the string helpers the
 * text decoders use (split on a separator, strip, replace, "%02X").
 *
 * The mapped file is a sequence of bytes and pointers into it are offsets.
 * Reading past its end is undefined in the source; here such bytes read 0.
 */
module DicomBytes {

  type Byte = x: int | 0 <= x < 256

  function ByteAt(buf: seq<Byte>, i: int): Byte
  {
    if 0 <= i < |buf| then buf[i] else 0
  }

  /** The bytes of an ASCII string. */
  function Ascii(s: string): (r: seq<Byte>)
    requires forall i :: 0 <= i < |s| ==> s[i] as int < 256
    ensures |r| == |s| && forall i :: 0 <= i < |s| ==> r[i] == s[i] as int
  {
    seq(|s|, i requires 0 <= i < |s| => s[i] as int)
  }

  /** `Raw::fetch_<uint16_t>`: two bytes, most significant first when big-endian. */
  function Fetch16(buf: seq<Byte>, off: int, isBE: bool): (r: nat)
    ensures r < 0x1_0000
  {
    if isBE then ByteAt(buf, off) * 256 + ByteAt(buf, off + 1)
    else ByteAt(buf, off + 1) * 256 + ByteAt(buf, off)
  }

  /** `Raw::fetch_<uint32_t>`: four bytes, as two halves in the same byte order. */
  function Fetch32(buf: seq<Byte>, off: int, isBE: bool): (r: nat)
    ensures r < 0x1_0000_0000
  {
    if isBE then Fetch16(buf, off, true) * 0x1_0000 + Fetch16(buf, off + 2, true)
    else Fetch16(buf, off + 2, false) * 0x1_0000 + Fetch16(buf, off, false)
  }

  /** Two's complement reading of a 16-bit value (`int16_t`). */
  function Signed16(v: nat): (r: int)
    requires v < 0x1_0000
    ensures -0x8000 <= r < 0x8000 && (r - v) % 0x1_0000 == 0
  {
    if v >= 0x8000 then v - 0x1_0000 else v
  }

  /** Two's complement reading of a 32-bit value (`int32_t`). */
  function Signed32(v: nat): (r: int)
    requires v < 0x1_0000_0000
    ensures -0x8000_0000 <= r < 0x8000_0000 && (r - v) % 0x1_0000_0000 == 0
  {
    if v >= 0x8000_0000 then v - 0x1_0000_0000 else v
  }

  /** The two bytes that store v in the given byte order. */
  function Encode16(v: nat, isBE: bool): (r: seq<Byte>)
    requires v < 0x1_0000
    ensures |r| == 2
  {
    if isBE then [v / 256, v % 256] else [v % 256, v / 256]
  }

  /** The four bytes that store v in the given byte order. */
  function Encode32(v: nat, isBE: bool): (r: seq<Byte>)
    requires v < 0x1_0000_0000
    ensures |r| == 4
  {
    if isBE then Encode16(v / 0x1_0000, true) + Encode16(v % 0x1_0000, true)
    else Encode16(v % 0x1_0000, false) + Encode16(v / 0x1_0000, false)
  }

  /** Fetching the encoded bytes gives the value back, wherever they sit in the file. */
  lemma Fetch16Encode(buf: seq<Byte>, off: nat, v: nat, isBE: bool)
    requires v < 0x1_0000 && off + 2 <= |buf| && buf[off..off + 2] == Encode16(v, isBE)
    ensures Fetch16(buf, off, isBE) == v
  {
    assert buf[off] == buf[off..off + 2][0] && buf[off + 1] == buf[off..off + 2][1];
  }

  /** Encoding a fetched value gives the bytes back. */
  lemma Encode16Fetch(buf: seq<Byte>, off: nat, isBE: bool)
    requires off + 2 <= |buf|
    ensures Encode16(Fetch16(buf, off, isBE), isBE) == buf[off..off + 2]
  {
  }

  lemma Fetch32Encode(buf: seq<Byte>, off: nat, v: nat, isBE: bool)
    requires v < 0x1_0000_0000 && off + 4 <= |buf| && buf[off..off + 4] == Encode32(v, isBE)
    ensures Fetch32(buf, off, isBE) == v
  {
    assert buf[off..off + 2] == buf[off..off + 4][..2];
    assert buf[off + 2..off + 4] == buf[off..off + 4][2..];
    Fetch16Encode(buf, off, if isBE then v / 0x1_0000 else v % 0x1_0000, isBE);
    Fetch16Encode(buf, off + 2, if isBE then v % 0x1_0000 else v / 0x1_0000, isBE);
  }

  lemma Encode32Fetch(buf: seq<Byte>, off: nat, isBE: bool)
    requires off + 4 <= |buf|
    ensures Encode32(Fetch32(buf, off, isBE), isBE) == buf[off..off + 4]
  {
    var hi, lo := Fetch16(buf, off, isBE), Fetch16(buf, off + 2, isBE);
    var v := Fetch32(buf, off, isBE);
    if isBE {
      assert v / 0x1_0000 == hi && v % 0x1_0000 == lo;
    } else {
      assert v / 0x1_0000 == lo && v % 0x1_0000 == hi;
    }
    Encode16Fetch(buf, off, isBE);
    Encode16Fetch(buf, off + 2, isBE);
  }

  /** The 16-bit value with its two bytes exchanged. */
  function Swap16(v: nat): (r: nat)
    requires v < 0x1_0000
    ensures r < 0x1_0000
  {
    (v % 256) * 256 + v / 256
  }

  lemma Bytes16(hi: Byte, lo: Byte)
    ensures (hi * 256 + lo) / 256 == hi && (hi * 256 + lo) % 256 == lo
  {
  }

  /** Reading in the other byte order swaps the bytes: group 0x0002 read big-endian is 0x0200. */
  lemma FetchOtherOrder(buf: seq<Byte>, off: int, isBE: bool)
    ensures Fetch16(buf, off, !isBE) == Swap16(Fetch16(buf, off, isBE))
    ensures Swap16(Swap16(Fetch16(buf, off, isBE))) == Fetch16(buf, off, isBE)
  {
    var b0, b1 := ByteAt(buf, off), ByteAt(buf, off + 1);
    Bytes16(b0, b1);
    Bytes16(b1, b0);
  }

  /** The byte of a NUL-terminated literal at index i: 0 past its end. */
  function LitAt(lit: seq<Byte>, i: nat): Byte
  {
    if i < |lit| then lit[i] else 0
  }

  /**
   * `strncmp (p, lit, n) == 0` from position i on: the bytes agree up to the
   * first NUL they share, or for n bytes.
   */
  function StrNEqFrom(buf: seq<Byte>, off: int, lit: seq<Byte>, i: nat, n: nat): bool
    decreases n - i
  {
    if i >= n then true
    else if ByteAt(buf, off + i) != LitAt(lit, i) then false
    else if ByteAt(buf, off + i) == 0 then true
    else StrNEqFrom(buf, off, lit, i + 1, n)
  }

  function StrNEq(buf: seq<Byte>, off: int, lit: seq<Byte>, n: nat): bool
  {
    StrNEqFrom(buf, off, lit, 0, n)
  }

  ghost predicate NoNul(lit: seq<Byte>)
  {
    forall i :: 0 <= i < |lit| ==> lit[i] != 0
  }

  /**
   * What strncmp compares against a literal without NUL bytes: within the
   * literal's length, the first n bytes must equal the literal's first n;
   * beyond it, the bytes must equal the whole literal followed by a NUL.
   */
  lemma {:induction false} StrNEqFromMeaning(buf: seq<Byte>, off: int, lit: seq<Byte>, i: nat, n: nat)
    requires NoNul(lit) && i <= n && i <= |lit|
    ensures StrNEqFrom(buf, off, lit, i, n) <==>
      (forall j :: i <= j < n && j <= |lit| ==> ByteAt(buf, off + j) == LitAt(lit, j))
    decreases n - i
  {
    if i < n && ByteAt(buf, off + i) == LitAt(lit, i) && ByteAt(buf, off + i) != 0 {
      StrNEqFromMeaning(buf, off, lit, i + 1, n);
    }
  }

  lemma StrNEqMeaning(buf: seq<Byte>, off: int, lit: seq<Byte>, n: nat)
    requires NoNul(lit)
    ensures StrNEq(buf, off, lit, n) <==> forall j :: 0 <= j < n && j <= |lit| ==> ByteAt(buf, off + j) == LitAt(lit, j)
  {
    StrNEqFromMeaning(buf, off, lit, 0, n);
  }

  /**
   * `split (s, sep, false)`: the pieces between separators, empty pieces
   * kept. Built from the last byte backwards.
   */
  function Split(s: seq<Byte>, sep: Byte): (r: seq<seq<Byte>>)
    ensures |r| >= 1
  {
    if s == [] then [[]]
    else
      var r := Split(s[..|s| - 1], sep);
      var last := s[|s| - 1];
      if last == sep then r + [[]] else r[..|r| - 1] + [r[|r| - 1] + [last]]
  }

  /** The pieces joined with the separator between them. */
  function Join(pieces: seq<seq<Byte>>, sep: Byte): seq<Byte>
    requires |pieces| >= 1
  {
    if |pieces| == 1 then pieces[0] else Join(pieces[..|pieces| - 1], sep) + [sep] + pieces[|pieces| - 1]
  }

  function Occurrences(s: seq<Byte>, b: Byte): nat
  {
    if s == [] then 0 else Occurrences(s[..|s| - 1], b) + if s[|s| - 1] == b then 1 else 0
  }

  /** Splitting loses nothing: joining the pieces gives the string back. */
  lemma {:induction false} SplitJoin(s: seq<Byte>, sep: Byte)
    ensures Join(Split(s, sep), sep) == s
  {
    if s != [] {
      var init, last := s[..|s| - 1], s[|s| - 1];
      var r := Split(init, sep);
      SplitJoin(init, sep);
      assert s == init + [last];
      if last == sep {
        assert (r + [[]])[..|r|] == r;
      } else {
        var k := |r| - 1;
        var r' := r[..k] + [r[k] + [last]];
        assert r'[..k] == r[..k];
      }
    }
  }

  /** No piece holds the separator. */
  lemma {:induction false} SplitNoSeparator(s: seq<Byte>, sep: Byte)
    ensures forall p :: p in Split(s, sep) ==> sep !in p
  {
    if s != [] {
      var init, last := s[..|s| - 1], s[|s| - 1];
      var r := Split(init, sep);
      SplitNoSeparator(init, sep);
      if last != sep {
        var k := |r| - 1;
        var r' := r[..k] + [r[k] + [last]];
        forall p | p in r'
          ensures sep !in p
        {
          if p != r'[k] {
            assert p in r[..k];
          }
        }
      }
    }
  }

  /** There is one piece more than there are separators. */
  lemma {:induction false} SplitCount(s: seq<Byte>, sep: Byte)
    ensures |Split(s, sep)| == Occurrences(s, sep) + 1
  {
    if s != [] {
      SplitCount(s[..|s| - 1], sep);
    }
  }

  /** The bytes `strip` removes: space, NUL, tab, carriage return and newline. */
  const Whitespace: set<Byte> := {32, 0, 9, 13, 10}

  function StripLeft(s: seq<Byte>): (r: seq<Byte>)
    ensures |r| <= |s| && r == s[|s| - |r|..]
    ensures r != [] ==> r[0] !in Whitespace
    ensures forall i :: 0 <= i < |s| - |r| ==> s[i] in Whitespace
  {
    if s != [] && s[0] in Whitespace then StripLeft(s[1..]) else s
  }

  function StripRight(s: seq<Byte>): (r: seq<Byte>)
    ensures |r| <= |s| && r == s[..|r|]
    ensures r != [] ==> r[|r| - 1] !in Whitespace
    ensures forall i :: |r| <= i < |s| ==> s[i] in Whitespace
  {
    if s != [] && s[|s| - 1] in Whitespace then StripRight(s[..|s| - 1]) else s
  }

  /** The number of leading whitespace bytes. */
  function Leading(s: seq<Byte>): (a: nat)
    ensures a <= |s| && StripLeft(s) == s[a..]
  {
    |s| - |StripLeft(s)|
  }

  lemma StripRightOfSlice(s: seq<Byte>, a: nat, l: seq<Byte>)
    requires a <= |s| && l == s[a..]
    ensures a + |StripRight(l)| <= |s| && StripRight(l) == s[a..a + |StripRight(l)|]
    ensures forall i :: a + |StripRight(l)| <= i < |s| ==> s[i] in Whitespace
  {
    var r := StripRight(l);
    forall i | a + |r| <= i < |s|
      ensures s[i] in Whitespace
    {
      assert s[i] == l[i - a];
    }
  }

  /**
   * `strip`: the string without its leading and trailing whitespace. The
   * result is the slice of s after its leading whitespace; it starts and
   * ends with a non-whitespace byte, and everything cut off is whitespace.
   */
  function Strip(s: seq<Byte>): (r: seq<Byte>)
    ensures Leading(s) + |r| <= |s| && r == s[Leading(s)..Leading(s) + |r|]
    ensures forall i :: 0 <= i < Leading(s) ==> s[i] in Whitespace
    ensures forall i :: Leading(s) + |r| <= i < |s| ==> s[i] in Whitespace
    ensures r != [] ==> r[0] !in Whitespace && r[|r| - 1] !in Whitespace
  {
    var l := StripLeft(s);
    StripRightOfSlice(s, Leading(s), l);
    StripRight(l)
  }

  /** `replace (s, from, to)`: every byte equal to from becomes to. */
  function Replace(s: seq<Byte>, from: Byte, to: Byte): (r: seq<Byte>)
    ensures |r| == |s|
    ensures forall i :: 0 <= i < |s| ==> r[i] == if s[i] == from then to else s[i]
  {
    seq(|s|, i requires 0 <= i < |s| => if s[i] == from then to else s[i])
  }

  function HexDigit(d: nat): (r: Byte)
    requires d < 16
  {
    if d < 10 then 48 + d else 55 + d
  }

  /** The upper-case hexadecimal digits of v, without leading zeros. */
  function Hex(v: nat): (r: seq<Byte>)
    ensures |r| >= 1
  {
    if v < 16 then [HexDigit(v)] else Hex(v / 16) + [HexDigit(v % 16)]
  }

  /** `printf ("%02X", v)`: at least two upper-case hexadecimal digits. */
  function Format02X(v: nat): (r: seq<Byte>)
    ensures |r| >= 2
  {
    if v < 16 then [48] + Hex(v) else Hex(v)
  }

  function DigitValue(c: Byte): nat
  {
    if 48 <= c <= 57 then c - 48 else if 65 <= c <= 70 then c - 55 else 0
  }

  /** Reading hexadecimal digits back, most significant first. */
  function ParseHex(s: seq<Byte>): nat
  {
    if s == [] then 0 else ParseHex(s[..|s| - 1]) * 16 + DigitValue(s[|s| - 1])
  }

  lemma {:induction false} HexRoundTrip(v: nat)
    ensures ParseHex(Hex(v)) == v
  {
    if v >= 16 {
      HexRoundTrip(v / 16);
      assert Hex(v)[..|Hex(v)| - 1] == Hex(v / 16);
    }
  }

  lemma {:induction false} ParseHexLeadingZero(s: seq<Byte>)
    ensures ParseHex([48] + s) == ParseHex(s)
  {
    if s != [] {
      assert ([48] + s)[..|[48] + s| - 1] == [48] + s[..|s| - 1];
      ParseHexLeadingZero(s[..|s| - 1]);
    }
  }

  /** "%02X" can be read back: the digits give the value. */
  lemma Format02XRoundTrip(v: nat)
    ensures ParseHex(Format02X(v)) == v
  {
    HexRoundTrip(v);
    if v < 16 {
      ParseHexLeadingZero(Hex(v));
    }
  }

  /** The bytes data .. data+size-1 of the file, as `std::string (data, size)` takes them. */
  function Slice(buf: seq<Byte>, data: int, size: nat): (r: seq<Byte>)
    ensures |r| == size && forall i :: 0 <= i < size ==> r[i] == ByteAt(buf, data + i)
  {
    seq<Byte>(size, i requires 0 <= i < size => ByteAt(buf, data + i))
  }

  /** A 2- or 4-byte unsigned value. */
  function FetchWord(buf: seq<Byte>, off: int, width: nat, isBE: bool): nat
  {
    if width == 2 then Fetch16(buf, off, isBE) else Fetch32(buf, off, isBE)
  }

  function EncodeWord(v: nat, width: nat, isBE: bool): (r: seq<Byte>)
    requires width == 2 || width == 4
    requires if width == 2 then v < 0x1_0000 else v < 0x1_0000_0000
    ensures |r| == width
  {
    if width == 2 then Encode16(v, isBE) else Encode32(v, isBE)
  }

  ghost predicate FitWidth(ws: seq<nat>, width: nat)
  {
    forall i :: 0 <= i < |ws| ==> if width == 2 then ws[i] < 0x1_0000 else ws[i] < 0x1_0000_0000
  }

  /** The values stored one after another. */
  function EncodeWords(ws: seq<nat>, width: nat, isBE: bool): (r: seq<Byte>)
    requires width == 2 || width == 4
    requires FitWidth(ws, width)
  {
    if ws == [] then [] else EncodeWord(ws[0], width, isBE) + EncodeWords(ws[1..], width, isBE)
  }

  /**
   * The values of the pointer loop `for (p = data; p < end; p += width)`:
   * one per step, the last one possibly reaching past end.
   */
  function WordsFrom(buf: seq<Byte>, p: int, end: int, width: nat, isBE: bool): (r: seq<nat>)
    requires width == 2 || width == 4
    ensures |r| == 0 <==> p >= end
    ensures FitWidth(r, width)
    decreases end - p
  {
    if p >= end then [] else [FetchWord(buf, p, width, isBE)] + WordsFrom(buf, p + width, end, width, isBE)
  }

  /** There are ceil((end - p) / width) values. */
  lemma {:induction false} WordsCount(buf: seq<Byte>, p: int, end: int, width: nat, isBE: bool)
    requires width == 2 || width == 4
    ensures p < end ==> width * (|WordsFrom(buf, p, end, width, isBE)| - 1) < end - p <= width * |WordsFrom(buf, p, end, width, isBE)|
    decreases end - p
  {
    if p < end {
      WordsCount(buf, p + width, end, width, isBE);
    }
  }

  lemma FetchWordEncode(buf: seq<Byte>, off: nat, v: nat, width: nat, isBE: bool)
    requires width == 2 || width == 4
    requires if width == 2 then v < 0x1_0000 else v < 0x1_0000_0000
    requires off + width <= |buf| && buf[off..off + width] == EncodeWord(v, width, isBE)
    ensures FetchWord(buf, off, width, isBE) == v
  {
    if width == 2 {
      Fetch16Encode(buf, off, v, isBE);
    } else {
      Fetch32Encode(buf, off, v, isBE);
    }
  }

  lemma SliceConcat(buf: seq<Byte>, off: nat, x: seq<Byte>, y: seq<Byte>)
    requires off + |x| + |y| <= |buf| && buf[off..off + |x| + |y|] == x + y
    ensures buf[off..off + |x|] == x
    ensures buf[off + |x|..off + |x| + |y|] == y
  {
    assert buf[off..off + |x|] == (x + y)[..|x|];
    assert buf[off + |x|..off + |x| + |y|] == (x + y)[|x|..];
  }

  /** Reading back values stored in order gives those values. */
  lemma {:induction false} WordsRoundTrip(buf: seq<Byte>, data: nat, ws: seq<nat>, width: nat, isBE: bool)
    requires width == 2 || width == 4
    requires FitWidth(ws, width)
    requires data + |EncodeWords(ws, width, isBE)| <= |buf|
    requires buf[data..data + |EncodeWords(ws, width, isBE)|] == EncodeWords(ws, width, isBE)
    ensures WordsFrom(buf, data, data + |EncodeWords(ws, width, isBE)|, width, isBE) == ws
    decreases ws
  {
    if ws != [] {
      var rest := ws[1..];
      WordsHead(buf, data, ws, width, isBE);
      WordsRoundTrip(buf, data + width, rest, width, isBE);
      assert ws == [ws[0]] + rest;
    }
  }

  /** The first encoded word reads back, and the rest of the encoding follows it. */
  lemma WordsHead(buf: seq<Byte>, data: nat, ws: seq<nat>, width: nat, isBE: bool)
    requires width == 2 || width == 4
    requires FitWidth(ws, width) && ws != []
    requires data + |EncodeWords(ws, width, isBE)| <= |buf|
    requires buf[data..data + |EncodeWords(ws, width, isBE)|] == EncodeWords(ws, width, isBE)
    ensures FetchWord(buf, data, width, isBE) == ws[0] && FitWidth(ws[1..], width)
    ensures |EncodeWords(ws, width, isBE)| == width + |EncodeWords(ws[1..], width, isBE)|
    ensures data + width + |EncodeWords(ws[1..], width, isBE)| <= |buf|
    ensures buf[data + width..data + width + |EncodeWords(ws[1..], width, isBE)|] == EncodeWords(ws[1..], width, isBE)
  {
    var e0, rest := EncodeWord(ws[0], width, isBE), EncodeWords(ws[1..], width, isBE);
    SliceConcat(buf, data, e0, rest);
    FetchWordEncode(buf, data, ws[0], width, isBE);
  }

  /** The backslash that separates the values of a multi-valued text element. */
  const Backslash: Byte := 92
  const Caret: Byte := 94
  const Space: Byte := 32

  /** A text value as `get_string` returns it: stripped, with '^' turned into ' '. */
  function Cleaned(piece: seq<Byte>): seq<Byte>
  {
    Replace(Strip(piece), Caret, Space)
  }

  /** The values of a text element: the backslash-separated pieces, cleaned. */
  function TextValues(text: seq<Byte>): (r: seq<seq<Byte>>)
    ensures |r| == |Split(text, Backslash)|
  {
    var pieces := Split(text, Backslash);
    seq(|pieces|, i requires 0 <= i < |pieces| => Cleaned(pieces[i]))
  }

  /**
   * The text values hold no backslash and no caret, and there is one more
   * of them than there are backslashes in the element.
   */
  lemma TextValuesClean(text: seq<Byte>)
    ensures |TextValues(text)| == Occurrences(text, Backslash) + 1
    ensures forall i, j :: 0 <= i < |TextValues(text)| && 0 <= j < |TextValues(text)[i]| ==>
      TextValues(text)[i][j] != Backslash && TextValues(text)[i][j] != Caret
  {
    SplitCount(text, Backslash);
    SplitNoSeparator(text, Backslash);
    var pieces := Split(text, Backslash);
    forall i, j | 0 <= i < |pieces| && 0 <= j < |TextValues(text)[i]|
      ensures TextValues(text)[i][j] != Backslash
    {
      assert pieces[i] in pieces;
      var st := Strip(pieces[i]);
      assert st[j] == pieces[i][Leading(pieces[i]) + j];
    }
  }
}
