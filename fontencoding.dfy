/** Writing a binary BMFont (format version 3) image with the four blocks
    the loader in src/font.c expects, in the order info, common, pages,
    chars, and what the loader recovers from it. The type bytes of the
    blocks, the 14 bytes of info fields before the name, the whole common block and
    the record fields after `height` (xoffset, yoffset, xadvance, page) are
    free in the encoding: the round trip holds whatever they are, which is
    to say the loader never looks at them. */
module FontEncoding {
  import opened CTypes
  import opened BMFont
  import opened FontLoader

  /** All fields of one 20-byte record of the chars block. */
  datatype CharRecord = CharRecord(
    id: uint32,
    x: uint16, y: uint16,
    width: uint16, height: uint16,
    xoffset: uint16, yoffset: uint16, xadvance: uint16,
    page: uint8, channel: uint8)

  function EncodeCharRecord(c: CharRecord): (bs: seq<byte>)
    ensures |bs| == CHAR_RECORD_SIZE
  {
    EncodeUInt32(c.id)
      + EncodeUInt16(c.x) + EncodeUInt16(c.y)
      + EncodeUInt16(c.width) + EncodeUInt16(c.height)
      + EncodeUInt16(c.xoffset) + EncodeUInt16(c.yoffset) + EncodeUInt16(c.xadvance)
      + [c.page, c.channel]
  }

  /** The glyph the loader should make of a record. */
  function DecodedChar(c: CharRecord): CharData
  {
    CharData(c.id % 0x100, c.x, c.y, c.width, c.height, c.channel, ZERO_VEC2, ZERO_VEC2)
  }

  function DecodedChars(cs: seq<CharRecord>): (ds: seq<CharData>)
    ensures |ds| == |cs|
  {
    if cs == [] then [] else DecodedChars(cs[..|cs| - 1]) + [DecodedChar(cs[|cs| - 1])]
  }

  /** parse_CharData recovers every field it keeps from an encoded record. */
  lemma CharRecordRoundTrip(c: CharRecord)
    ensures ParseCharData(EncodeCharRecord(c), CHAR_RECORD_SIZE) == DecodedChar(c)
  {
    var bs := EncodeCharRecord(c);
    var d := ParseCharData(bs, CHAR_RECORD_SIZE);
    assert bs[4..6] == EncodeUInt16(c.x) && bs[6..8] == EncodeUInt16(c.y);
    assert bs[8..10] == EncodeUInt16(c.width) && bs[10..12] == EncodeUInt16(c.height);
    EncodeUInt16Injective(d.x, c.x);
    EncodeUInt16Injective(d.y, c.y);
    EncodeUInt16Injective(d.width, c.width);
    EncodeUInt16Injective(d.height, c.height);
    assert bs[0] == c.id % 0x100;
  }

  /** Each record encoded on its own. */
  function EncodedRecords(cs: seq<CharRecord>): (chunks: seq<seq<byte>>)
    ensures |chunks| == |cs| && RecordSized(chunks)
    ensures forall j :: 0 <= j < |cs| ==> chunks[j] == EncodeCharRecord(cs[j])
  {
    seq(|cs|, j requires 0 <= j < |cs| => EncodeCharRecord(cs[j]))
  }

  /** Every chunk is as long as one record. */
  predicate RecordSized(chunks: seq<seq<byte>>)
  {
    forall j :: 0 <= j < |chunks| ==> |chunks[j]| == CHAR_RECORD_SIZE
  }

  /** The chunks one after the other. */
  function Flatten(chunks: seq<seq<byte>>): (bs: seq<byte>)
    ensures RecordSized(chunks) ==> |bs| == 20 * |chunks|
  {
    if chunks == [] then []
    else
      var init := chunks[..|chunks| - 1];
      assert RecordSized(chunks) ==> RecordSized(init) by {
        assert forall j :: 0 <= j < |init| ==> init[j] == chunks[j];
      }
      Flatten(init) + chunks[|chunks| - 1]
  }

  /** The chars block: the records back to back. */
  function EncodeCharRecords(cs: seq<CharRecord>): (bs: seq<byte>)
    ensures |bs| == 20 * |cs|
  {
    Flatten(EncodedRecords(cs))
  }

  function EncodeDescriptor(blockType: byte, size: uint32): (bs: seq<byte>)
    ensures |bs| == DESCRIPTOR_SIZE
  {
    [blockType] + EncodeUInt32(size)
  }

  /** The contents of a font file, block by block. `name` and `texName`
      are stored with their terminating zero, as the format does. */
  datatype FontImage = FontImage(
    infoType: byte, infoFields: seq<byte>, name: seq<byte>,
    commonType: byte, common: seq<byte>,
    pagesType: byte, texName: seq<byte>,
    charsType: byte, chars: seq<CharRecord>)

  /** The images the loader can read: fields of the sizes the format gives
      them, both strings zero-terminated and within the 128-byte buffer,
      and the atlas path within texPath[128]. */
  predicate WellFormed(img: FontImage)
  {
    && |img.infoFields| == INFO_SKIP
    && 2 <= |img.name| <= BUF_SIZE && img.name[|img.name| - 1] == 0
    && |img.common| < U32_LIMIT
    && 2 <= |img.texName| <= BUF_SIZE && img.texName[|img.texName| - 1] == 0
    && |ASSET_DIR| + CStrLen(img.texName) < TEX_PATH_SIZE
    && 20 * |img.chars| < U32_LIMIT
  }

  function EncodeFont(img: FontImage): seq<byte>
    requires WellFormed(img)
  {
    HEADER
      + (EncodeDescriptor(img.infoType, INFO_SKIP + |img.name|)
      + (img.infoFields
      + (img.name
      + (EncodeDescriptor(img.commonType, |img.common|)
      + (img.common
      + (EncodeDescriptor(img.pagesType, |img.texName|)
      + (img.texName
      + (EncodeDescriptor(img.charsType, 20 * |img.chars|)
      + EncodeCharRecords(img.chars)))))))))
  }

  /** The FontData the loader should produce for an image. */
  function ExpectedFont(img: FontImage): FontData
  {
    FontData(
      img.name, CStrLen(img.name),
      ASSET_DIR + CStr(img.texName),
      |img.chars|, DecodedChars(img.chars))
  }

  // ---------------------------------------------------------------------

  /** Reading a piece that the file holds at the cursor. */
  lemma ReadPiece(rd: Reader, file: seq<byte>, piece: seq<byte>, rest: seq<byte>)
    requires |rd.buf| == BUF_SIZE && |piece| <= BUF_SIZE
    requires rd.cursor <= |file| && file[rd.cursor..] == piece + rest
    ensures ReadBytes(rd, file, |piece|) == Reader(piece + rd.buf[|piece|..], rd.cursor + |piece|)
    ensures file[rd.cursor + |piece|..] == rest
  {
    assert file[rd.cursor..rd.cursor + |piece|] == (piece + rest)[..|piece|];
    assert file[rd.cursor + |piece|..] == (piece + rest)[|piece|..];
  }

  /** Seeking over a piece that the file holds at the cursor. */
  lemma SkipPiece(cursor: nat, file: seq<byte>, piece: seq<byte>, rest: seq<byte>)
    requires cursor <= |file| && file[cursor..] == piece + rest
    ensures cursor + |piece| <= |file| && file[cursor + |piece|..] == rest
  {
    assert file[cursor + |piece|..] == (piece + rest)[|piece|..];
  }

  /** Reading a block descriptor that the file holds at the cursor. */
  lemma ReadDescriptor(rd: Reader, file: seq<byte>, blockType: byte, size: uint32, rest: seq<byte>)
    requires |rd.buf| == BUF_SIZE
    requires rd.cursor <= |file| && file[rd.cursor..] == EncodeDescriptor(blockType, size) + rest
    ensures NextBlock(rd, file) == Block(blockType, size)
    ensures ReadBytes(rd, file, DESCRIPTOR_SIZE)
      == Reader(EncodeDescriptor(blockType, size) + rd.buf[DESCRIPTOR_SIZE..], rd.cursor + DESCRIPTOR_SIZE)
    ensures file[rd.cursor + DESCRIPTOR_SIZE..] == rest
  {
    var d := EncodeDescriptor(blockType, size);
    ReadPiece(rd, file, d, rest);
    var buf := d + rd.buf[DESCRIPTOR_SIZE..];
    var b := ParseBlock(buf, BUF_SIZE);
    assert buf[1..5] == EncodeUInt32(size);
    EncodeUInt32Injective(b.size, size);
  }

  /** Reading a zero-terminated string field that the file holds at the
      cursor gives the field back. */
  lemma TerminatedField(rd: Reader, s: seq<byte>)
    requires |rd.buf| == BUF_SIZE && 2 <= |s| <= BUF_SIZE && s[|s| - 1] == 0
    ensures (s + rd.buf[|s|..])[..|s| - 1] + [0] == s
  {
    assert (s + rd.buf[|s|..])[..|s| - 1] == s[..|s| - 1];
  }

  /** The info block: the descriptor, 14 skipped bytes and the name. */
  lemma InfoRoundTrip(rd: Reader, file: seq<byte>, blockType: byte, fields: seq<byte>,
                      name: seq<byte>, rest: seq<byte>)
    requires |rd.buf| == BUF_SIZE && rd.cursor <= |file|
    requires |fields| == INFO_SKIP && 2 <= |name| <= BUF_SIZE && name[|name| - 1] == 0
    requires file[rd.cursor..] == EncodeDescriptor(blockType, INFO_SKIP + |name|) + (fields + (name + rest))
    ensures NameFits(rd, file)
    ensures InfoPhase(rd, file).str == name
    ensures InfoPhase(rd, file).reader.cursor <= |file|
    ensures file[InfoPhase(rd, file).reader.cursor..] == rest
  {
    ReadDescriptor(rd, file, blockType, INFO_SKIP + |name|, fields + (name + rest));
    var rd1 := ReadBytes(rd, file, DESCRIPTOR_SIZE);
    SkipPiece(rd1.cursor, file, fields, name + rest);
    var rd2 := Seek(rd1, INFO_SKIP);
    ReadPiece(rd2, file, name, rest);
    TerminatedField(rd2, name);
  }

  /** The common block: the descriptor and the skipped contents. */
  lemma CommonRoundTrip(rd: Reader, file: seq<byte>, blockType: byte, common: seq<byte>, rest: seq<byte>)
    requires |rd.buf| == BUF_SIZE && rd.cursor <= |file| && |common| < U32_LIMIT
    requires file[rd.cursor..] == EncodeDescriptor(blockType, |common|) + (common + rest)
    ensures CommonPhase(rd, file).cursor <= |file|
    ensures file[CommonPhase(rd, file).cursor..] == rest
  {
    ReadDescriptor(rd, file, blockType, |common|, common + rest);
    SkipPiece(rd.cursor + DESCRIPTOR_SIZE, file, common, rest);
  }

  /** The pages block: the descriptor and the atlas file name. */
  lemma PagesRoundTrip(rd: Reader, file: seq<byte>, blockType: byte, texName: seq<byte>, rest: seq<byte>)
    requires |rd.buf| == BUF_SIZE && rd.cursor <= |file|
    requires 2 <= |texName| <= BUF_SIZE && texName[|texName| - 1] == 0
    requires file[rd.cursor..] == EncodeDescriptor(blockType, |texName|) + (texName + rest)
    ensures TexNameFits(rd, file)
    ensures PagesPhase(rd, file).str == texName
    ensures PagesPhase(rd, file).reader.cursor <= |file|
    ensures file[PagesPhase(rd, file).reader.cursor..] == rest
  {
    ReadDescriptor(rd, file, blockType, |texName|, texName + rest);
    var rd1 := ReadBytes(rd, file, DESCRIPTOR_SIZE);
    ReadPiece(rd1, file, texName, rest);
    TerminatedField(rd1, texName);
  }

  lemma {:induction false} FlattenAt(chunks: seq<seq<byte>>, i: nat)
    requires RecordSized(chunks) && i < |chunks|
    ensures Flatten(chunks)[20 * i..20 * i + CHAR_RECORD_SIZE] == chunks[i]
  {
    var init := chunks[..|chunks| - 1];
    assert RecordSized(init) by {
      assert forall j :: 0 <= j < |init| ==> init[j] == chunks[j];
    }
    var front := Flatten(init);
    assert Flatten(chunks) == front + chunks[|chunks| - 1];
    assert |front| == 20 * (|chunks| - 1);
    if i < |chunks| - 1 {
      FlattenAt(init, i);
      assert init[i] == chunks[i];
      assert (front + chunks[|chunks| - 1])[20 * i..20 * i + CHAR_RECORD_SIZE] == front[20 * i..20 * i + CHAR_RECORD_SIZE];
    } else {
      assert (front + chunks[|chunks| - 1])[20 * i..20 * i + CHAR_RECORD_SIZE] == chunks[|chunks| - 1];
    }
  }

  lemma {:induction false} DecodedCharsAt(cs: seq<CharRecord>, i: nat)
    requires i < |cs|
    ensures DecodedChars(cs)[i] == DecodedChar(cs[i])
  {
    if i < |cs| - 1 {
      DecodedCharsAt(cs[..|cs| - 1], i);
    }
  }

  /** A piece of what the file holds from `at` on is a slice of the file. */
  lemma PieceOfSuffix(file: seq<byte>, at: nat, whole: seq<byte>, lo: nat, len: nat, piece: seq<byte>)
    requires at <= |file| && file[at..] == whole
    requires lo + len <= |whole| && whole[lo..lo + len] == piece
    ensures at + lo + len <= |file| && file[at + lo..at + lo + len] == piece
  {
    assert file[at + lo..at + lo + len] == file[at..][lo..lo + len];
  }

  /** The bytes of the chunk at index `i` of a run of records. */
  lemma ChunkBytesAt(file: seq<byte>, at: nat, chunks: seq<seq<byte>>, i: nat)
    requires RecordSized(chunks) && i < |chunks|
    requires at <= |file| && file[at..] == Flatten(chunks)
    ensures at + 20 * i + CHAR_RECORD_SIZE <= |file|
    ensures file[at + 20 * i..at + 20 * i + CHAR_RECORD_SIZE] == chunks[i]
  {
    FlattenAt(chunks, i);
    PieceOfSuffix(file, at, Flatten(chunks), 20 * i, CHAR_RECORD_SIZE, chunks[i]);
  }

  /** The record at index `i` of an encoded chars block. */
  lemma ChunkRecordAt(file: seq<byte>, at: nat, cs: seq<CharRecord>, i: nat)
    requires at <= |file| && file[at..] == EncodeCharRecords(cs) && i < |cs|
    ensures at + 20 * i + CHAR_RECORD_SIZE <= |file|
    ensures RecordAt(file, at + 20 * i) == DecodedChar(cs[i])
  {
    ChunkBytesAt(file, at, EncodedRecords(cs), i);
    CharRecordRoundTrip(cs[i]);
  }

  /** The records the loader reads from an encoded chars block. */
  lemma ChunkRecords(file: seq<byte>, at: nat, cs: seq<CharRecord>)
    requires at <= |file| && file[at..] == EncodeCharRecords(cs)
    ensures at + 20 * |cs| <= |file|
    ensures FileRecords(file, at, |cs|) == DecodedChars(cs)
  {
    var n := |cs|;
    forall i | 0 <= i < n
      ensures FileRecords(file, at, n)[i] == DecodedChars(cs)[i]
    {
      FileRecordsAt(file, at, n, i);
      ChunkRecordAt(file, at, cs, i);
      DecodedCharsAt(cs, i);
    }
  }

  /** The chars block: the descriptor and the records. */
  lemma CharsRoundTrip(rd: Reader, file: seq<byte>, blockType: byte, cs: seq<CharRecord>)
    requires |rd.buf| == BUF_SIZE && rd.cursor <= |file| && 20 * |cs| < U32_LIMIT
    requires file[rd.cursor..] == EncodeDescriptor(blockType, 20 * |cs|) + EncodeCharRecords(cs)
    ensures CharsPhase(rd, file).records == DecodedChars(cs)
  {
    var n := |cs|;
    var start := rd.cursor + DESCRIPTOR_SIZE;
    ReadDescriptor(rd, file, blockType, 20 * n, EncodeCharRecords(cs));
    assert (20 * n) / CHAR_RECORD_SIZE == n;
    ChunkRecords(file, start, cs);
    RecordsInFileOrder(ReadBytes(rd, file, DESCRIPTOR_SIZE), file, n);
  }

  /** The header of an encoded image passes the check and leaves the
      cursor on the info block. */
  lemma HeaderRoundTrip(file: seq<byte>, initial: seq<byte>, rest: seq<byte>)
    requires |initial| == BUF_SIZE && file == HEADER + rest
    ensures Status(file, initial) == Accepted
    ensures HeaderRead(file, initial).cursor == HEADER_SIZE && file[HEADER_SIZE..] == rest
  {
    assert file[0..] == HEADER + rest;
    ReadPiece(Reader(initial, 0), file, HEADER, rest);
    assert HeaderRead(file, initial).buf[..HEADER_SIZE] == HEADER;
  }

  // What is left of an encoded image after each block.

  function TailAfterPages(img: FontImage): seq<byte>
    requires WellFormed(img)
  {
    EncodeDescriptor(img.charsType, 20 * |img.chars|) + EncodeCharRecords(img.chars)
  }

  function TailAfterCommon(img: FontImage): seq<byte>
    requires WellFormed(img)
  {
    EncodeDescriptor(img.pagesType, |img.texName|) + (img.texName + TailAfterPages(img))
  }

  function TailAfterInfo(img: FontImage): seq<byte>
    requires WellFormed(img)
  {
    EncodeDescriptor(img.commonType, |img.common|) + (img.common + TailAfterCommon(img))
  }

  function TailAfterHeader(img: FontImage): seq<byte>
    requires WellFormed(img)
  {
    EncodeDescriptor(img.infoType, INFO_SKIP + |img.name|) + (img.infoFields + (img.name + TailAfterInfo(img)))
  }

  lemma InfoStage(img: FontImage, initial: seq<byte>)
    requires WellFormed(img) && |initial| == BUF_SIZE
    ensures Status(EncodeFont(img), initial) == Accepted
    ensures NameFits(HeaderRead(EncodeFont(img), initial), EncodeFont(img))
    ensures AfterInfo(EncodeFont(img), initial).str == img.name
    ensures AfterInfo(EncodeFont(img), initial).reader.cursor <= |EncodeFont(img)|
    ensures EncodeFont(img)[AfterInfo(EncodeFont(img), initial).reader.cursor..] == TailAfterInfo(img)
  {
    var file := EncodeFont(img);
    assert file == HEADER + TailAfterHeader(img);
    HeaderRoundTrip(file, initial, TailAfterHeader(img));
    InfoRoundTrip(HeaderRead(file, initial), file, img.infoType, img.infoFields, img.name, TailAfterInfo(img));
  }

  lemma CommonStage(img: FontImage, file: seq<byte>, initial: seq<byte>)
    requires WellFormed(img) && |initial| == BUF_SIZE
    requires NameFits(HeaderRead(file, initial), file)
    requires AfterInfo(file, initial).reader.cursor <= |file|
    requires file[AfterInfo(file, initial).reader.cursor..] == TailAfterInfo(img)
    ensures AfterCommon(file, initial).cursor <= |file|
    ensures file[AfterCommon(file, initial).cursor..] == TailAfterCommon(img)
  {
    CommonRoundTrip(AfterInfo(file, initial).reader, file, img.commonType, img.common, TailAfterCommon(img));
  }

  lemma PagesStage(img: FontImage, file: seq<byte>, initial: seq<byte>)
    requires WellFormed(img) && |initial| == BUF_SIZE
    requires NameFits(HeaderRead(file, initial), file)
    requires AfterCommon(file, initial).cursor <= |file|
    requires file[AfterCommon(file, initial).cursor..] == TailAfterCommon(img)
    ensures StringsFit(file, initial)
    ensures AfterPages(file, initial).str == img.texName
    ensures AfterPages(file, initial).reader.cursor <= |file|
    ensures file[AfterPages(file, initial).reader.cursor..] == TailAfterPages(img)
  {
    PagesRoundTrip(AfterCommon(file, initial), file, img.pagesType, img.texName, TailAfterPages(img));
  }

  /** What each phase of the loader reads from an encoded image. */
  lemma PhasesRoundTrip(img: FontImage, initial: seq<byte>)
    requires WellFormed(img) && |initial| == BUF_SIZE
    ensures Status(EncodeFont(img), initial) == Accepted
    ensures StringsFit(EncodeFont(img), initial)
    ensures AfterInfo(EncodeFont(img), initial).str == img.name
    ensures AfterPages(EncodeFont(img), initial).str == img.texName
    ensures CharsPhase(AfterPages(EncodeFont(img), initial).reader, EncodeFont(img)).records
      == DecodedChars(img.chars)
  {
    var file := EncodeFont(img);
    InfoStage(img, initial);
    CommonStage(img, file, initial);
    PagesStage(img, file, initial);
    CharsRoundTrip(AfterPages(file, initial).reader, file, img.charsType, img.chars);
  }

  /** Loading the encoding of a well-formed image yields its name, atlas
      path and the record fields the loader keeps, whatever the stack
      buffer held before. */
  lemma LoadRoundTrip(img: FontImage, initial: seq<byte>)
    requires WellFormed(img) && |initial| == BUF_SIZE
    ensures DefinedLoad(EncodeFont(img), initial)
    ensures LoadSpec(EncodeFont(img), initial) == Loaded(ExpectedFont(img))
  {
    PhasesRoundTrip(img, initial);
  }
}
