/** The byte-level decoders of the binary BMFont (AngelCode bitmap font,
    format version 3) reader in src/font.c: little-endian integer fields
    read under a bounds check against a declared buffer size, the
    length-bounded string copier, the block descriptor, the 20-byte
    character record, the header test, and the printable-ASCII
    substitution applied before a glyph is drawn. */
module BMFont {
  import opened CTypes

  // Glyph range supported by the renderer (printable ASCII).
  const GLYPH_FIRST: int := 32
  const GLYPH_LAST: int := 126
  const GLYPH_COUNT: int := GLYPH_LAST - GLYPH_FIRST + 1
  const QUESTION_MARK: int := 63  // '?'

  // C's EOF, which the string copier compares a byte against.
  const EOF: int := -1

  const ASCII_B: byte := 66
  const ASCII_M: byte := 77
  const ASCII_F: byte := 70
  const SUPPORTED_VERSION: byte := 3

  /** The 5-byte block descriptor: a type byte and a 32-bit size. */
  datatype Block = Block(blockType: uint8, size: uint32)

  /** A pair of floats (cglm `vec2`); only the zero vector occurs here. */
  datatype Vec2 = Vec2(x: real, y: real)

  const ZERO_VEC2: Vec2 := Vec2(0.0, 0.0)

  /** One glyph of the font (`CharData_t`). `character` holds the low byte
      of the record's 32-bit id. */
  datatype CharData = CharData(
    character: byte,
    x: uint16, y: uint16,
    width: uint16, height: uint16,
    channel: uint8,
    uv: Vec2, uvSize: Vec2)

  /** Outcome of the header test: the loader continues only on Accepted. */
  datatype HeaderStatus = Accepted | NotBMF | UnsupportedVersion(version: byte)

  // ---------------------------------------------------------------------
  // Little-endian encodings: the reference the decoders are checked against.

  function EncodeUInt32(v: uint32): (bs: seq<byte>)
    ensures |bs| == 4
  {
    [v % 0x100, (v / 0x100) % 0x100, (v / 0x1_0000) % 0x100, v / 0x100_0000]
  }

  function EncodeUInt16(v: uint16): (bs: seq<byte>)
    ensures |bs| == 2
  {
    [v % 0x100, v / 0x100]
  }

  // ---------------------------------------------------------------------
  // parse_uint32, parse_int32, parse_uint16
  //
  // The C code ORs the bytes shifted by 0, 8, 16 and 24 bits; the shifted
  // bytes occupy disjoint bits, so the OR is their sum, which is how the
  // bodies below are written. `bufSize` is the size the caller declares,
  // which may be smaller than the buffer.

  /** parse_uint32: 0 when the four bytes at `index` are not inside the
      declared size, otherwise the number whose little-endian encoding is
      exactly those four bytes. */
  function ParseUInt32(buf: seq<byte>, bufSize: nat, index: nat): (r: uint32)
    requires bufSize <= |buf|
    ensures index + 4 > bufSize ==> r == 0
    ensures index + 4 <= bufSize ==> EncodeUInt32(r) == buf[index..index + 4]
  {
    if index + 4 > bufSize then 0
    else
      var b0, b1, b2, b3 := buf[index] as int, buf[index + 1] as int, buf[index + 2] as int, buf[index + 3] as int;
      var r := b0 + b1 * 0x100 + b2 * 0x1_0000 + b3 * 0x100_0000;
      DecodeEncode32(b0, b1, b2, b3);
      r
  }

  /** parse_int32: the same bounds test and the same four bytes as
      parse_uint32, the 32-bit pattern being read as two's complement. */
  function ParseInt32(buf: seq<byte>, bufSize: nat, index: nat): (r: int32)
    requires bufSize <= |buf|
    ensures index + 4 > bufSize ==> r == 0
    ensures r % U32_LIMIT == ParseUInt32(buf, bufSize, index)
    ensures index + 4 <= bufSize ==> (r < 0 <==> buf[index + 3] >= 0x80)
  {
    if index + 4 > bufSize then 0
    else
      var b0, b1, b2, b3 := buf[index] as int, buf[index + 1] as int, buf[index + 2] as int, buf[index + 3] as int;
      AsInt32(b0 + b1 * 0x100 + b2 * 0x1_0000 + b3 * 0x100_0000)
  }

  /** parse_uint16: 0 when the two bytes at `index` are not inside the
      declared size, otherwise the number whose little-endian encoding is
      exactly those two bytes. */
  function ParseUInt16(buf: seq<byte>, bufSize: nat, index: nat): (r: uint16)
    requires bufSize <= |buf|
    ensures index + 2 > bufSize ==> r == 0
    ensures index + 2 <= bufSize ==> EncodeUInt16(r) == buf[index..index + 2]
  {
    if index + 2 > bufSize then 0
    else buf[index] as int + buf[index + 1] as int * 0x100
  }

  lemma DecodeEncode32(b0: int, b1: int, b2: int, b3: int)
    requires 0 <= b0 < 0x100 && 0 <= b1 < 0x100 && 0 <= b2 < 0x100 && 0 <= b3 < 0x100
    ensures 0 <= b0 + b1 * 0x100 + b2 * 0x1_0000 + b3 * 0x100_0000 < U32_LIMIT
    ensures EncodeUInt32(b0 + b1 * 0x100 + b2 * 0x1_0000 + b3 * 0x100_0000) == [b0, b1, b2, b3]
  {
    var v := b0 + b1 * 0x100 + b2 * 0x1_0000 + b3 * 0x100_0000;
    assert v / 0x100 == b1 + b2 * 0x100 + b3 * 0x1_0000;
    assert v / 0x1_0000 == b2 + b3 * 0x100;
    assert v / 0x100_0000 == b3;
  }

  /** Encoding a 32-bit value and reading it back at any in-range offset
      gives the value again. */
  lemma UInt32RoundTrip(v: uint32, prefix: seq<byte>, suffix: seq<byte>)
    ensures var buf := prefix + EncodeUInt32(v) + suffix;
      ParseUInt32(buf, |buf|, |prefix|) == v
  {
    var buf := prefix + EncodeUInt32(v) + suffix;
    assert buf[|prefix|..|prefix| + 4] == EncodeUInt32(v);
    EncodeUInt32Injective(ParseUInt32(buf, |buf|, |prefix|), v);
  }

  /** The 16-bit analogue of UInt32RoundTrip. */
  lemma UInt16RoundTrip(v: uint16, prefix: seq<byte>, suffix: seq<byte>)
    ensures var buf := prefix + EncodeUInt16(v) + suffix;
      ParseUInt16(buf, |buf|, |prefix|) == v
  {
    var buf := prefix + EncodeUInt16(v) + suffix;
    assert buf[|prefix|..|prefix| + 2] == EncodeUInt16(v);
  }

  /** Encoding a 32-bit two's-complement value and reading it back with
      parse_int32 gives the value again. */
  lemma Int32RoundTrip(v: int32, prefix: seq<byte>, suffix: seq<byte>)
    ensures var buf := prefix + EncodeUInt32(ToUInt32(v)) + suffix;
      ParseInt32(buf, |buf|, |prefix|) == v
  {
    var buf := prefix + EncodeUInt32(ToUInt32(v)) + suffix;
    UInt32RoundTrip(ToUInt32(v), prefix, suffix);
    var r := ParseInt32(buf, |buf|, |prefix|);
    assert r % U32_LIMIT == v % U32_LIMIT;
  }

  lemma EncodeUInt32Injective(u: uint32, v: uint32)
    requires EncodeUInt32(u) == EncodeUInt32(v)
    ensures u == v
  {
    Decompose32(u);
    Decompose32(v);
  }

  lemma Decompose32(v: uint32)
    ensures var e := EncodeUInt32(v);
      v == e[0] as int + e[1] as int * 0x100 + e[2] as int * 0x1_0000 + e[3] as int * 0x100_0000
  {
    var q1, q2 := v / 0x100, v / 0x1_0000;
    assert v == v % 0x100 + q1 * 0x100;
    assert q1 / 0x100 == q2;
    assert q1 == q1 % 0x100 + q2 * 0x100;
    assert q2 / 0x100 == v / 0x100_0000;
    assert q2 == q2 % 0x100 + (v / 0x100_0000) * 0x100;
  }

  lemma EncodeUInt16Injective(u: uint16, v: uint16)
    requires EncodeUInt16(u) == EncodeUInt16(v)
    ensures u == v
  {
    assert EncodeUInt16(u)[0] == EncodeUInt16(v)[0] && EncodeUInt16(u)[1] == EncodeUInt16(v)[1];
  }

  // ---------------------------------------------------------------------
  // parse_string

  /** parse_string: NULL (None) when the requested length exceeds the
      declared buffer size; otherwise exactly `strSize` bytes, the first
      `strSize - 1` copied from the buffer (zero bytes included: the
      loop's null test compares against both '\0' and EOF with `||`, and
      can never be false) and a terminating zero. A `strSize` below 2
      writes past the allocation in C, so callers must not ask for it. */
  function ParsedString(buf: seq<byte>, bufSize: nat, strSize: nat): (str: Option<seq<byte>>)
    requires bufSize <= |buf|
    requires strSize <= bufSize ==> strSize >= 2
    ensures str.None? <==> strSize > bufSize
    ensures str.Some? ==> |str.value| == strSize
    ensures str.Some? ==> str.value[..strSize - 1] == buf[..strSize - 1]
    ensures str.Some? ==> str.value[strSize - 1] == 0
  {
    if strSize > bufSize then None else Some(buf[..strSize - 1] + [0])
  }

  /** The copy loop of parse_string, which computes `ParsedString`. */
  method ParseString(buf: seq<byte>, bufSize: nat, strSize: nat) returns (str: Option<seq<byte>>)
    requires bufSize <= |buf|
    requires strSize <= bufSize ==> strSize >= 2
    ensures str == ParsedString(buf, bufSize, strSize)
  {
    if strSize > bufSize {
      return None;
    }
    var s := new byte[strSize];
    var len := 0;
    while len <= bufSize && len < strSize && (buf[len] != 0 || buf[len] as int != EOF)
      invariant 0 <= len < strSize - 1
      invariant s[..len] == buf[..len]
    {
      s[len] := buf[len];
      len := len + 1;
      if len == strSize - 1 {
        break;
      }
    }
    assert len == strSize - 1;
    s[len] := 0;
    len := len + 1;
    assert s[..len] == buf[..strSize - 1] + [0];
    return Some(s[..len]);
  }

  /** The C string held in a byte array: the bytes before the first zero. */
  function CStrLen(s: seq<byte>): (n: nat)
    ensures n <= |s|
    ensures forall i :: 0 <= i < n ==> s[i] != 0
    ensures n < |s| ==> s[n] == 0
  {
    if |s| == 0 || s[0] == 0 then 0 else 1 + CStrLen(s[1..])
  }

  function CStr(s: seq<byte>): (r: seq<byte>)
    ensures 0 !in r
  {
    s[..CStrLen(s)]
  }

  /** Although parse_string copies past an embedded zero, the C string the
      caller then sees (through strlen, strcat or printf) is the
      read-until-zero-or-length reading of the buffer. */
  lemma {:induction false} CopiedStringIsReadUntilZero(buf: seq<byte>, strSize: nat)
    requires 1 <= strSize <= |buf|
    ensures CStr(buf[..strSize - 1] + [0]) == CStr(buf[..strSize - 1])
    ensures CStrLen(buf[..strSize - 1] + [0]) == CStrLen(buf[..strSize - 1])
  {
    TerminatedCStr(buf[..strSize - 1]);
  }

  lemma {:induction false} TerminatedCStr(s: seq<byte>)
    ensures CStrLen(s + [0]) == CStrLen(s)
  {
    if |s| == 0 {
      assert (s + [0])[0] == 0;
    } else if s[0] == 0 {
      assert (s + [0])[0] == 0;
    } else {
      assert (s + [0])[1..] == s[1..] + [0];
      TerminatedCStr(s[1..]);
    }
  }

  // ---------------------------------------------------------------------
  // parse_Block and parse_CharData

  /** parse_Block: the type is the first byte, the size the little-endian
      32-bit field after it; with a declared size below 5 the size reads
      as 0 (the first byte is still read). */
  function ParseBlock(buf: seq<byte>, bufSize: nat): (b: Block)
    requires 1 <= |buf| && bufSize <= |buf|
    ensures b.blockType == buf[0]
    ensures bufSize < 5 ==> b.size == 0
    ensures bufSize >= 5 ==> EncodeUInt32(b.size) == buf[1..5]
  {
    Block(buf[0], ParseUInt32(buf, bufSize, 1))
  }

  /** parse_CharData over a buffer that starts with one 20-byte record:
      the id's low byte, the four 16-bit rectangle fields at offsets 4, 6,
      8 and 10, and the channel byte at offset 19. Each field reads as 0
      when it lies beyond the declared size (the channel byte is read
      unguarded), and the UV fields are left zero. */
  function ParseCharData(buf: seq<byte>, bufSize: nat): (c: CharData)
    requires 20 <= |buf| && bufSize <= |buf|
    ensures c.character == (if bufSize < 4 then 0 else buf[0])
    ensures bufSize >= 6 ==> EncodeUInt16(c.x) == buf[4..6]
    ensures bufSize >= 8 ==> EncodeUInt16(c.y) == buf[6..8]
    ensures bufSize >= 10 ==> EncodeUInt16(c.width) == buf[8..10]
    ensures bufSize >= 12 ==> EncodeUInt16(c.height) == buf[10..12]
    ensures bufSize < 6 ==> c.x == 0
    ensures bufSize < 8 ==> c.y == 0
    ensures bufSize < 10 ==> c.width == 0
    ensures bufSize < 12 ==> c.height == 0
    ensures c.channel == buf[19]
    ensures c.uv == ZERO_VEC2 && c.uvSize == ZERO_VEC2
  {
    var id := ToUInt8(ParseUInt32(buf, bufSize, 0));
    CharData(
      character := id,
      x := ParseUInt16(buf, bufSize, 4),
      y := ParseUInt16(buf, bufSize, 6),
      width := ParseUInt16(buf, bufSize, 8),
      height := ParseUInt16(buf, bufSize, 10),
      channel := buf[19],
      uv := ZERO_VEC2,
      uvSize := ZERO_VEC2)
  }

  /** parse_CharData looks only at the first 20 bytes of its buffer. */
  lemma ParseCharDataOfRecord(buf: seq<byte>, bufSize: nat)
    requires 20 <= bufSize <= |buf|
    ensures ParseCharData(buf, bufSize) == ParseCharData(buf[..20], 20)
  {
    var rec := buf[..20];
    assert rec[0] == buf[0] && rec[19] == buf[19];
    assert rec[4..6] == buf[4..6] && rec[6..8] == buf[6..8];
    assert rec[8..10] == buf[8..10] && rec[10..12] == buf[10..12];
    var a, b := ParseCharData(buf, bufSize), ParseCharData(rec, 20);
    EncodeUInt16Injective(a.x, b.x);
    EncodeUInt16Injective(a.y, b.y);
    EncodeUInt16Injective(a.width, b.width);
    EncodeUInt16Injective(a.height, b.height);
  }

  // ---------------------------------------------------------------------
  // read_Header

  const HEADER: seq<byte> := [ASCII_B, ASCII_M, ASCII_F, SUPPORTED_VERSION]

  /** The test read_Header applies to the first four bytes of its buffer. */
  function CheckHeader(buf: seq<byte>): (status: HeaderStatus)
    requires 4 <= |buf|
    ensures status == Accepted <==> buf[..4] == HEADER
    ensures status == NotBMF <==> buf[..3] != HEADER[..3]
    ensures status.UnsupportedVersion? ==> status.version == buf[3] != SUPPORTED_VERSION
  {
    if buf[0] != ASCII_B || buf[1] != ASCII_M || buf[2] != ASCII_F then NotBMF
    else if buf[3] == SUPPORTED_VERSION then Accepted
    else UnsupportedVersion(buf[3])
  }

  // ---------------------------------------------------------------------
  // FontRenderer_drawChar: substitution of unsupported characters

  /** The character actually drawn for `c` (the value of a C `char`): any
      code outside the printable range becomes '?'. The result is always a
      glyph the font's dense table covers. */
  function SubstituteGlyph(c: int): (g: int)
    ensures GLYPH_FIRST <= g <= GLYPH_LAST
    ensures 0 <= g - GLYPH_FIRST < GLYPH_COUNT
    ensures GLYPH_FIRST <= c <= GLYPH_LAST ==> g == c
    ensures !(GLYPH_FIRST <= c <= GLYPH_LAST) ==> g == QUESTION_MARK
  {
    if c < 32 || c > 126 then QUESTION_MARK else c
  }

  /** The value of a C `char` holding byte `b` on a target where `char`
      is signed: bytes from 0x80 on read as negative. */
  function SignedChar(b: byte): (c: int)
    ensures -0x80 <= c < 0x80 && (c - b) % U8_LIMIT == 0
    ensures c == b <==> b < 0x80
  {
    if b < 0x80 then b else b - U8_LIMIT
  }

  /** Whether `char` is signed or unsigned does not change the glyph
      FontRenderer_drawChar picks for a `char` parameter holding byte `b`:
      both readings of a byte from 0x80 on lie outside the printable
      range. */
  lemma GlyphIgnoresCharSignedness(b: byte)
    ensures SubstituteGlyph(SignedChar(b)) == SubstituteGlyph(b)
    ensures b >= 0x80 ==> SubstituteGlyph(b) == QUESTION_MARK
  {
  }

  /** Substituting twice is substituting once. */
  lemma SubstituteGlyphIdempotent(c: int)
    ensures SubstituteGlyph(SubstituteGlyph(c)) == SubstituteGlyph(c)
  {
  }
}
