/** FontRenderer_loadData (src/font.c): the block sequencing of the
    binary BMFont loader, over an in-memory image of the font file.

    The C loader keeps a cursor into the open file and a single 128-byte
    stack buffer. Every `read_bytes` copies the next bytes of the file to
    the FRONT of that buffer (fewer when the file ends, leaving the rest
    of the buffer as it was), every `fseek(.., SEEK_CUR)` moves the
    cursor, and every parse_ call is given the declared size 128, never
    the number of bytes just read. The buffer is never initialised, so
    its first contents are a parameter here (`initial`).

    The blocks are taken in the fixed order info, common, pages, chars;
    no block's type byte is ever looked at. */
module FontLoader {
  import opened CTypes
  import opened BMFont

  const BUF_SIZE: nat := 128          // uint8_t buf[128], and the bufSize of every parse_ call
  const HEADER_SIZE: nat := 4
  const DESCRIPTOR_SIZE: nat := 5
  const INFO_SKIP: nat := 14          // bytes of the info block before the font name
  const CHAR_RECORD_SIZE: nat := 20
  const TEX_PATH_SIZE: nat := 128     // char texPath[128]
  const ASSET_DIR: seq<byte> := [97, 115, 115, 101, 116, 115, 47]  // "assets/"

  /** The loader's I/O state: the stack buffer and the file position. */
  datatype Reader = Reader(buf: seq<byte>, cursor: nat)

  /** What the loader stores in `FontData_t`; `atlasPath` is the path given
      to the texture loader (the texture itself is external). */
  datatype FontData = FontData(
    fontName: seq<byte>,
    nameLen: nat,
    atlasPath: seq<byte>,
    charCount: nat,
    charData: seq<CharData>)

  /** A rejected header stops the load before any block is read and leaves
      the caller's FontData_t unwritten. */
  datatype LoadOutcome = HeaderRejected(status: HeaderStatus) | Loaded(font: FontData)

  // ---------------------------------------------------------------------
  // read_bytes and fseek

  /** How many of `amount` bytes fread obtains at `cursor`. */
  function Available(file: seq<byte>, cursor: nat, amount: nat): (n: nat)
    ensures n <= amount
    ensures n > 0 ==> cursor + n <= |file|
    ensures cursor + amount <= |file| ==> n == amount
    ensures n < amount ==> cursor + n >= |file|
  {
    if cursor >= |file| then 0
    else if amount <= |file| - cursor then amount
    else |file| - cursor
  }

  /** read_bytes: the bytes obtained overwrite the front of the buffer and
      advance the cursor; the rest of the buffer keeps its old bytes. */
  function ReadBytes(rd: Reader, file: seq<byte>, amount: nat): (next: Reader)
    requires |rd.buf| == BUF_SIZE && amount <= BUF_SIZE
    ensures |next.buf| == BUF_SIZE
    ensures next.cursor == rd.cursor + Available(file, rd.cursor, amount)
  {
    var n := Available(file, rd.cursor, amount);
    if n == 0 then rd
    else Reader(file[rd.cursor..rd.cursor + n] + rd.buf[n..], rd.cursor + n)
  }

  /** What the buffer holds after read_bytes: the bytes obtained at the
      front, the earlier bytes behind them, also on a short read. */
  lemma ReadBytesContents(rd: Reader, file: seq<byte>, amount: nat)
    requires |rd.buf| == BUF_SIZE && amount <= BUF_SIZE
    ensures var n := Available(file, rd.cursor, amount);
      && (n > 0 ==> ReadBytes(rd, file, amount).buf[..n] == file[rd.cursor..rd.cursor + n])
      && ReadBytes(rd, file, amount).buf[n..] == rd.buf[n..]
  {
  }

  /** fseek(file, offset, SEEK_CUR); a position past the end is allowed. */
  function Seek(rd: Reader, offset: nat): (next: Reader)
    ensures next.buf == rd.buf && next.cursor == rd.cursor + offset
  {
    Reader(rd.buf, rd.cursor + offset)
  }

  // ---------------------------------------------------------------------
  // The loader's phases, one per block, in file order

  /** A string field read through parse_string, and the reader after it. */
  datatype StringRead = StringRead(reader: Reader, str: seq<byte>)

  datatype CharsRead = CharsRead(reader: Reader, records: seq<CharData>)

  /** The block whose 5-byte descriptor is read next. */
  function NextBlock(rd: Reader, file: seq<byte>): (b: Block)
    requires |rd.buf| == BUF_SIZE
    ensures rd.cursor + DESCRIPTOR_SIZE <= |file| ==>
      b.blockType == file[rd.cursor]
      && EncodeUInt32(b.size) == file[rd.cursor + 1..rd.cursor + DESCRIPTOR_SIZE]
  {
    var buf := ReadBytes(rd, file, DESCRIPTOR_SIZE).buf;
    assert rd.cursor + DESCRIPTOR_SIZE <= |file| ==>
      buf[..DESCRIPTOR_SIZE] == file[rd.cursor..rd.cursor + DESCRIPTOR_SIZE];
    ParseBlock(buf, BUF_SIZE)
  }

  /** `block1.size - 14` bytes are read into the 128-byte buffer and handed
      to parse_string: C's behaviour is defined only for 2..128 bytes. */
  function NameFits(rd: Reader, file: seq<byte>): (fits: bool)
    requires |rd.buf| == BUF_SIZE
    ensures fits ==>
      var len := NextBlock(rd, file).size - INFO_SKIP;
      && 2 <= len <= BUF_SIZE
      && ToUInt32(len) == len
      && ParsedString(ReadBytes(Seek(ReadBytes(rd, file, DESCRIPTOR_SIZE), INFO_SKIP), file, len).buf, BUF_SIZE, len).Some?
  {
    INFO_SKIP + 2 <= NextBlock(rd, file).size <= INFO_SKIP + BUF_SIZE
  }

  /** Block 1 (info): skip 14 bytes, then read the font name. */
  function InfoPhase(rd: Reader, file: seq<byte>): (r: StringRead)
    requires |rd.buf| == BUF_SIZE && NameFits(rd, file)
    ensures |r.reader.buf| == BUF_SIZE
    ensures |r.str| == NextBlock(rd, file).size - INFO_SKIP
  {
    var len := NextBlock(rd, file).size - INFO_SKIP;
    var next := ReadBytes(Seek(ReadBytes(rd, file, DESCRIPTOR_SIZE), INFO_SKIP), file, len);
    StringRead(next, ParsedString(next.buf, BUF_SIZE, len).value)
  }

  /** Block 2 (common): skipped by its size. */
  function CommonPhase(rd: Reader, file: seq<byte>): (next: Reader)
    requires |rd.buf| == BUF_SIZE
    ensures |next.buf| == BUF_SIZE
    ensures rd.cursor + DESCRIPTOR_SIZE <= |file| ==>
      next.cursor == rd.cursor + DESCRIPTOR_SIZE + NextBlock(rd, file).size
  {
    Seek(ReadBytes(rd, file, DESCRIPTOR_SIZE), NextBlock(rd, file).size)
  }

  /** `block3.size` bytes are read into the buffer and handed to
      parse_string: defined only for 2..128 bytes. */
  function TexNameFits(rd: Reader, file: seq<byte>): (fits: bool)
    requires |rd.buf| == BUF_SIZE
    ensures fits ==>
      var len := NextBlock(rd, file).size;
      && 2 <= len <= BUF_SIZE
      && ParsedString(ReadBytes(ReadBytes(rd, file, DESCRIPTOR_SIZE), file, len).buf, BUF_SIZE, len).Some?
  {
    2 <= NextBlock(rd, file).size <= BUF_SIZE
  }

  /** Block 3 (pages): the whole block is the atlas texture's file name. */
  function PagesPhase(rd: Reader, file: seq<byte>): (r: StringRead)
    requires |rd.buf| == BUF_SIZE && TexNameFits(rd, file)
    ensures |r.reader.buf| == BUF_SIZE
    ensures |r.str| == NextBlock(rd, file).size
  {
    var len := NextBlock(rd, file).size;
    var next := ReadBytes(ReadBytes(rd, file, DESCRIPTOR_SIZE), file, len);
    StringRead(next, ParsedString(next.buf, BUF_SIZE, len).value)
  }

  /** The `for` loop over the chars block: `count` reads of one 20-byte
      record, each parsed from the front of the buffer. */
  function ReadChars(rd: Reader, file: seq<byte>, count: nat): (r: CharsRead)
    requires |rd.buf| == BUF_SIZE
    ensures |r.reader.buf| == BUF_SIZE && |r.records| == count
    ensures rd.cursor <= r.reader.cursor <= rd.cursor + 20 * count
  {
    if count == 0 then CharsRead(rd, [])
    else
      var prev := ReadChars(rd, file, count - 1);
      var next := ReadBytes(prev.reader, file, CHAR_RECORD_SIZE);
      CharsRead(next, prev.records + [ParseCharData(next.buf, BUF_SIZE)])
  }

  /** One more turn of the record loop, given the read it makes. */
  lemma ReadCharsStep(rd: Reader, file: seq<byte>, count: nat, after: Reader, record: CharData)
    requires |rd.buf| == BUF_SIZE
    requires after == ReadBytes(ReadChars(rd, file, count).reader, file, CHAR_RECORD_SIZE)
    requires record == ParseCharData(after.buf, BUF_SIZE)
    ensures ReadChars(rd, file, count + 1) == CharsRead(after, ReadChars(rd, file, count).records + [record])
  {
  }

  /** Block 4 (chars): `size / 20` records. */
  function CharsPhase(rd: Reader, file: seq<byte>): (r: CharsRead)
    requires |rd.buf| == BUF_SIZE
    ensures |r.records| == NextBlock(rd, file).size / CHAR_RECORD_SIZE
  {
    ReadChars(ReadBytes(rd, file, DESCRIPTOR_SIZE), file, NextBlock(rd, file).size / CHAR_RECORD_SIZE)
  }

  // The reader state after each phase, for the whole file.

  function HeaderRead(file: seq<byte>, initial: seq<byte>): (rd: Reader)
    requires |initial| == BUF_SIZE
    ensures |rd.buf| == BUF_SIZE
  {
    ReadBytes(Reader(initial, 0), file, HEADER_SIZE)
  }

  function Status(file: seq<byte>, initial: seq<byte>): HeaderStatus
    requires |initial| == BUF_SIZE
  {
    CheckHeader(HeaderRead(file, initial).buf)
  }

  function AfterInfo(file: seq<byte>, initial: seq<byte>): StringRead
    requires |initial| == BUF_SIZE && NameFits(HeaderRead(file, initial), file)
  {
    InfoPhase(HeaderRead(file, initial), file)
  }

  function AfterCommon(file: seq<byte>, initial: seq<byte>): (rd: Reader)
    requires |initial| == BUF_SIZE && NameFits(HeaderRead(file, initial), file)
    ensures |rd.buf| == BUF_SIZE
  {
    CommonPhase(AfterInfo(file, initial).reader, file)
  }

  predicate StringsFit(file: seq<byte>, initial: seq<byte>)
    requires |initial| == BUF_SIZE
  {
    NameFits(HeaderRead(file, initial), file) && TexNameFits(AfterCommon(file, initial), file)
  }

  function AfterPages(file: seq<byte>, initial: seq<byte>): StringRead
    requires |initial| == BUF_SIZE && StringsFit(file, initial)
  {
    PagesPhase(AfterCommon(file, initial), file)
  }

  /** The inputs on which the C loader's behaviour is defined: a rejected
      header returns at once; otherwise both strings fit the buffer and
      the strcat of the texture name onto "assets/" fits texPath[128],
      terminator included. */
  function DefinedLoad(file: seq<byte>, initial: seq<byte>): (defined: bool)
    ensures defined ==> |initial| == BUF_SIZE
    ensures defined && |initial| == BUF_SIZE && Status(file, initial) == Accepted ==>
      StringsFit(file, initial) && |ASSET_DIR + CStr(AfterPages(file, initial).str)| + 1 <= TEX_PATH_SIZE
  {
    |initial| == BUF_SIZE
    && (Status(file, initial) == Accepted ==>
          StringsFit(file, initial)
          && |ASSET_DIR| + CStrLen(AfterPages(file, initial).str) < TEX_PATH_SIZE)
  }

  /** What FontRenderer_loadData leaves behind for a file image. */
  function LoadSpec(file: seq<byte>, initial: seq<byte>): (r: LoadOutcome)
    requires DefinedLoad(file, initial)
    ensures r.HeaderRejected? <==> Status(file, initial) != Accepted
    ensures r.Loaded? ==> r.font.charCount == |r.font.charData|
  {
    var status := Status(file, initial);
    if status != Accepted then HeaderRejected(status)
    else
      var name := AfterInfo(file, initial).str;
      var texName := AfterPages(file, initial).str;
      var chars := CharsPhase(AfterPages(file, initial).reader, file);
      Loaded(FontData(name, CStrLen(name), ASSET_DIR + CStr(texName), |chars.records|, chars.records))
  }

  // ---------------------------------------------------------------------
  // The loader itself

  /** read_bytes on the stack buffer. */
  method ReadBytesInto(buf: array<byte>, file: seq<byte>, cursor: nat, amount: nat) returns (next: nat)
    requires buf.Length == BUF_SIZE && amount <= BUF_SIZE
    modifies buf
    ensures Reader(buf[..], next) == ReadBytes(Reader(old(buf[..]), cursor), file, amount)
  {
    var n := Available(file, cursor, amount);
    forall k | 0 <= k < n {
      buf[k] := file[cursor + k];
    }
    next := cursor + n;
    if n > 0 {
      assert buf[..] == file[cursor..cursor + n] + old(buf[..])[n..];
    } else {
      assert buf[..] == old(buf[..]);
    }
  }

  /** read_Header: reads four bytes and tests them. */
  method ReadHeader(buf: array<byte>, file: seq<byte>, cursor: nat) returns (status: HeaderStatus, next: nat)
    requires buf.Length == BUF_SIZE
    modifies buf
    ensures Reader(buf[..], next) == ReadBytes(Reader(old(buf[..]), cursor), file, HEADER_SIZE)
    ensures status == CheckHeader(buf[..])
  {
    next := ReadBytesInto(buf, file, cursor, HEADER_SIZE);
    status := CheckHeader(buf[..]);
  }

  /** Block 1 of FontRenderer_loadData. */
  method ReadInfoBlock(buf: array<byte>, file: seq<byte>, cursor: nat) returns (fontName: seq<byte>, next: nat)
    requires buf.Length == BUF_SIZE && NameFits(Reader(buf[..], cursor), file)
    modifies buf
    ensures StringRead(Reader(buf[..], next), fontName) == InfoPhase(Reader(old(buf[..]), cursor), file)
  {
    ghost var start := Reader(buf[..], cursor);
    next := ReadBytesInto(buf, file, cursor, DESCRIPTOR_SIZE);
    var block1 := ParseBlock(buf[..], BUF_SIZE);
    next := next + INFO_SKIP;
    ghost var skipped := Seek(ReadBytes(start, file, DESCRIPTOR_SIZE), INFO_SKIP);
    assert Reader(buf[..], next) == skipped;
    var strLen := ToUInt32(block1.size - INFO_SKIP);
    assert strLen == NextBlock(start, file).size - INFO_SKIP;
    next := ReadBytesInto(buf, file, next, strLen);
    var str := ParseString(buf[..], BUF_SIZE, strLen);
    fontName := str.value;
  }

  /** Block 2 of FontRenderer_loadData. */
  method SkipCommonBlock(buf: array<byte>, file: seq<byte>, cursor: nat) returns (next: nat)
    requires buf.Length == BUF_SIZE
    modifies buf
    ensures Reader(buf[..], next) == CommonPhase(Reader(old(buf[..]), cursor), file)
  {
    next := ReadBytesInto(buf, file, cursor, DESCRIPTOR_SIZE);
    next := next + ParseBlock(buf[..], BUF_SIZE).size;
  }

  /** Block 3 of FontRenderer_loadData. */
  method ReadPagesBlock(buf: array<byte>, file: seq<byte>, cursor: nat) returns (texName: seq<byte>, next: nat)
    requires buf.Length == BUF_SIZE && TexNameFits(Reader(buf[..], cursor), file)
    modifies buf
    ensures StringRead(Reader(buf[..], next), texName) == PagesPhase(Reader(old(buf[..]), cursor), file)
  {
    next := ReadBytesInto(buf, file, cursor, DESCRIPTOR_SIZE);
    var block3 := ParseBlock(buf[..], BUF_SIZE);
    next := ReadBytesInto(buf, file, next, block3.size);
    var str := ParseString(buf[..], BUF_SIZE, block3.size);
    texName := str.value;
  }

  /** One turn of the record loop: read 20 bytes, parse the front of the
      buffer. */
  method ReadRecord(buf: array<byte>, file: seq<byte>, cursor: nat) returns (record: CharData, next: nat)
    requires buf.Length == BUF_SIZE
    modifies buf
    ensures Reader(buf[..], next) == ReadBytes(Reader(old(buf[..]), cursor), file, CHAR_RECORD_SIZE)
    ensures record == ParseCharData(buf[..], BUF_SIZE)
  {
    next := ReadBytesInto(buf, file, cursor, CHAR_RECORD_SIZE);
    record := ParseCharData(buf[..], BUF_SIZE);
  }

  /** Block 4 of FontRenderer_loadData: the record loop fills a freshly
      allocated array in file order. */
  method ReadCharsBlock(buf: array<byte>, file: seq<byte>, cursor: nat) returns (charData: seq<CharData>, next: nat)
    requires buf.Length == BUF_SIZE
    modifies buf
    ensures CharsRead(Reader(buf[..], next), charData) == CharsPhase(Reader(old(buf[..]), cursor), file)
  {
    next := ReadBytesInto(buf, file, cursor, DESCRIPTOR_SIZE);
    var block4 := ParseBlock(buf[..], BUF_SIZE);
    charData, next := ReadRecords(buf, file, next, block4.size / CHAR_RECORD_SIZE);
  }

  /** The record loop: `charCount` records into a freshly allocated array. */
  method ReadRecords(buf: array<byte>, file: seq<byte>, cursor: nat, charCount: nat) returns (charData: seq<CharData>, next: nat)
    requires buf.Length == BUF_SIZE
    modifies buf
    ensures CharsRead(Reader(buf[..], next), charData) == ReadChars(Reader(old(buf[..]), cursor), file, charCount)
  {
    ghost var start := Reader(buf[..], cursor);
    next := cursor;
    var records := new CharData[charCount];
    for i := 0 to charCount
      invariant Reader(buf[..], next) == ReadChars(start, file, i).reader
      invariant records[..i] == ReadChars(start, file, i).records
    {
      var record;
      record, next := ReadRecord(buf, file, next);
      ReadCharsStep(start, file, i, Reader(buf[..], next), record);
      records[i] := record;
      assert records[..i + 1] == records[..i] + [record];
    }
    assert records[..] == records[..charCount];
    charData := records[..];
  }

  /** FontRenderer_loadData over the file image `file`, with `initial` the
      indeterminate first contents of the stack buffer. */
  method LoadData(file: seq<byte>, initial: seq<byte>) returns (r: LoadOutcome)
    requires DefinedLoad(file, initial)
    ensures r == LoadSpec(file, initial)
  {
    var buf := new byte[BUF_SIZE](i requires 0 <= i < BUF_SIZE => initial[i]);
    assert buf[..] == initial;
    var cursor: nat := 0;

    var status;
    status, cursor := ReadHeader(buf, file, cursor);
    if status != Accepted {
      return HeaderRejected(status);
    }
    var fontName;
    fontName, cursor := ReadInfoBlock(buf, file, cursor);
    var nameLen := CStrLen(fontName);
    cursor := SkipCommonBlock(buf, file, cursor);
    var texName;
    texName, cursor := ReadPagesBlock(buf, file, cursor);
    var texPath := ASSET_DIR + CStr(texName);
    var charData;
    charData, cursor := ReadCharsBlock(buf, file, cursor);
    return Loaded(FontData(fontName, nameLen, texPath, |charData|, charData));
  }

  // ---------------------------------------------------------------------
  // Properties of the loader

  /** On a file of at least four bytes, the load is rejected exactly when
      the file does not start with "BMF" and version 3; the outcome then
      depends on nothing else. */
  lemma HeaderDecidesLoad(file: seq<byte>, initial: seq<byte>)
    requires |file| >= HEADER_SIZE && DefinedLoad(file, initial)
    ensures LoadSpec(file, initial).HeaderRejected? <==> file[..HEADER_SIZE] != HEADER
    ensures LoadSpec(file, initial).HeaderRejected? ==>
      LoadSpec(file, initial) == HeaderRejected(CheckHeader(file[..HEADER_SIZE]))
  {
    var rd := HeaderRead(file, initial);
    assert rd.buf[..HEADER_SIZE] == file[..HEADER_SIZE];
    assert rd.buf[..3] == file[..3];
  }

  /** The record stored in the file at byte offset `at`. */
  function RecordAt(file: seq<byte>, at: nat): CharData
    requires at + CHAR_RECORD_SIZE <= |file|
  {
    ParseCharData(file[at..at + CHAR_RECORD_SIZE], CHAR_RECORD_SIZE)
  }

  /** The `count` consecutive 20-byte records stored from offset `at` on. */
  function FileRecords(file: seq<byte>, at: nat, count: nat): (rs: seq<CharData>)
    requires at + 20 * count <= |file|
    ensures |rs| == count
  {
    if count == 0 then [] else FileRecords(file, at, count - 1) + [RecordAt(file, at + 20 * (count - 1))]
  }

  lemma {:induction false} FileRecordsAt(file: seq<byte>, at: nat, count: nat, i: nat)
    requires at + 20 * count <= |file| && i < count
    ensures FileRecords(file, at, count)[i] == RecordAt(file, at + 20 * i)
  {
    var init := FileRecords(file, at, count - 1);
    var last := RecordAt(file, at + 20 * (count - 1));
    assert FileRecords(file, at, count) == init + [last];
    if i < count - 1 {
      FileRecordsAt(file, at, count - 1, i);
      assert (init + [last])[i] == init[i];
    } else {
      assert (init + [last])[i] == last;
    }
  }

  /** Reading `count` records where the file still holds them yields the
      file's consecutive 20-byte records, in file order, and leaves the
      cursor just after them. */
  lemma {:induction false} RecordsInFileOrder(rd: Reader, file: seq<byte>, count: nat)
    requires |rd.buf| == BUF_SIZE
    requires rd.cursor + 20 * count <= |file|
    ensures ReadChars(rd, file, count).reader.cursor == rd.cursor + 20 * count
    ensures ReadChars(rd, file, count).records == FileRecords(file, rd.cursor, count)
  {
    if count > 0 {
      RecordsInFileOrder(rd, file, count - 1);
      NextRecord(rd, file, count);
      assert FileRecords(file, rd.cursor, count)
        == FileRecords(file, rd.cursor, count - 1) + [RecordAt(file, rd.cursor + 20 * (count - 1))];
    } else {
      assert ReadChars(rd, file, count) == CharsRead(rd, []);
    }
  }

  /** One turn of the record loop, when the previous turns ended where the
      file still holds a whole record. */
  lemma NextRecord(rd: Reader, file: seq<byte>, count: nat)
    requires |rd.buf| == BUF_SIZE && 0 < count
    requires rd.cursor + 20 * count <= |file|
    requires ReadChars(rd, file, count - 1).reader.cursor == rd.cursor + 20 * (count - 1)
    ensures ReadChars(rd, file, count).reader.cursor == rd.cursor + 20 * count
    ensures ReadChars(rd, file, count).records
      == ReadChars(rd, file, count - 1).records + [RecordAt(file, rd.cursor + 20 * (count - 1))]
  {
    var prev := ReadChars(rd, file, count - 1);
    var start := rd.cursor + 20 * (count - 1);
    var piece := file[start..start + CHAR_RECORD_SIZE];
    var next := ReadBytes(prev.reader, file, CHAR_RECORD_SIZE);
    assert next == Reader(piece + prev.reader.buf[CHAR_RECORD_SIZE..], start + CHAR_RECORD_SIZE);
    assert next.buf[..20] == piece;
    ParseCharDataOfRecord(next.buf, BUF_SIZE);
    assert ParseCharData(next.buf, BUF_SIZE) == RecordAt(file, start);
    assert ReadChars(rd, file, count) == CharsRead(next, prev.records + [RecordAt(file, start)]);
  }

  /** The chars block's `count` records, where the file holds them all,
      are the file's consecutive 20-byte records after its descriptor. */
  lemma CharsPhaseInFileOrder(rd: Reader, file: seq<byte>, count: nat)
    requires |rd.buf| == BUF_SIZE
    requires count == NextBlock(rd, file).size / CHAR_RECORD_SIZE
    requires rd.cursor + DESCRIPTOR_SIZE + 20 * count <= |file|
    ensures CharsPhase(rd, file).records == FileRecords(file, rd.cursor + DESCRIPTOR_SIZE, count)
  {
    RecordsInFileOrder(ReadBytes(rd, file, DESCRIPTOR_SIZE), file, count);
  }

  /** The loader's records are the file's consecutive 20-byte records
      that follow the chars descriptor (`rd` is the reader after the pages
      block), `count = size / 20` of them, wherever the file holds them
      all. */
  lemma LoadedRecordsInFileOrder(file: seq<byte>, initial: seq<byte>, rd: Reader, count: nat)
    requires DefinedLoad(file, initial) && Status(file, initial) == Accepted
    requires rd == AfterPages(file, initial).reader
    requires count == NextBlock(rd, file).size / CHAR_RECORD_SIZE
    requires rd.cursor + DESCRIPTOR_SIZE + 20 * count <= |file|
    ensures LoadSpec(file, initial).font.charCount == count
    ensures LoadSpec(file, initial).font.charData == FileRecords(file, rd.cursor + DESCRIPTOR_SIZE, count)
  {
    CharsPhaseInFileOrder(rd, file, count);
  }
}
