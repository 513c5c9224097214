# DeltaWing core, modelled in Dafny

DeltaWing is a small C game built on OpenGL and GLFW. This project models
four pieces of its logic and proves properties of them:

- **The binary BMFont reader** (`src/font.c`, modules `BMFont`,
  `FontLoader` and `FontEncoding`). It covers:
  - the bounds-checked little-endian decoders `parse_uint32`,
    `parse_int32` and `parse_uint16`;
  - the string copier `parse_string`;
  - the 5-byte block descriptor parser and the 20-byte character-record
    parser;
  - the `BMF` version 3 header test;
  - the block and record sequencing of `FontRenderer_loadData`;
  - the `'?'` substitution of `FontRenderer_drawChar`.

  The loader runs over an in-memory image of the font file. It keeps the
  C code's cursor and its single uninitialised 128-byte stack buffer,
  whose first contents are a parameter. `FontEncoding` writes a font
  image the way the format lays it out and proves that loading it gives
  back the name, atlas path and record fields the loader keeps. The other
  record fields (xoffset, yoffset, xadvance, page), the rest of the info
  block and the whole common block are read past and not kept.
- **The game loop's timing arithmetic** (`src/main.c`, module `Game`). It
  covers:
  - the uint64 millisecond delta and its clamp;
  - the accumulator drained in fixed ticks;
  - the uint32 tick and frame counters and the once-a-second FPS/TPS
    publication.
- **The key callback, `DW_setScene` and `DW_exitGame`** (`src/main.c`,
  modules `Game` and `Globals`).
- **The main menu's selection** (`src/scenes/mainmenu.c`, module
  `MainMenu`) and **the key query** `DW_isKeyDown` (`src/input.c`, module
  `Input`).

Integer widths are subset types of `int` (module `CTypes`). Each C
conversion into a narrower unsigned type is written out as a reduction
modulo 2^n. Two conversions go into `char`, whose signedness is
implementation-defined. The first is parse_string's `str[len] = buf[len]`
(`src/font.c:68`). It is harmless: the bit pattern survives, and `strlen`
and `strcat` see the same bytes either way, so the model keeps bytes. The
second, the `char` of a glyph's id, is discussed under "Left out".

State the C code changes in place is modelled with classes:

- `Input.InputState` holds `Input_t` (its `keyStates` is an `array`);
- `Globals.Globals` holds `input`, `currentScene` and `running`;
- `MainMenu.Menu` holds `selectionIndex`;
- `Game.FrameClock` holds the loop's timing variables together with
  `fps` and `tps`.

The loader's methods fill a 128-element `array` buffer and a fresh
record array, as the C code does. Each method is proved equal to a
function that states what it computes.

`MS_PER_TICK` and `MAX_DELTA_TIME` are not defined in any file of the
repository that this model draws on. They are constants here, 50 and 250
milliseconds. The proofs refer to them only by name, so no other special
property of these values is used. The one exception is
`MAX_TICKS_PER_FRAME`, which is computed from the two.

Notes on what the C code does, which the model follows:

- `parse_string` keeps copying past an embedded zero byte. Its loop test
  `buf[len] != '\0' || buf[len] != EOF` is always true, so the string is
  never trimmed at the first zero. `BMFont.CopiedStringIsReadUntilZero`
  shows that every later use sees the same C string either way, because
  each one goes through `strlen`, `strcat` or `printf`'s `%s`.
- The channel byte is read at offset 19 of the 20-byte record.
- No UV coordinates are computed at load time. `parse_CharData` leaves
  `uv` and `uvSize` zero.
- A short read does not yield zeros. `fread` leaves the rest of the
  buffer holding its earlier bytes, and every parse_ call is given the
  declared size 128 rather than the number of bytes read.

One behaviour departs from the binary BMFont format the loader cites:
the format identifies each block by its type byte, but the loader never
looks at a type byte and takes the blocks in the fixed order info,
common, pages, chars.

## Model

| member | source | states |
|---|---|---|
| BMFont.ParseUInt32 | src/font.c:17-29 | 0 when `index + 4` exceeds the declared size; otherwise the four bytes at `index` are exactly the little-endian encoding of the result |
| BMFont.ParseInt32 | src/font.c:31-43 | the same bound as parse_uint32; the result is the two's-complement reading of parse_uint32's value, negative exactly when the top byte has its high bit set |
| BMFont.ParseUInt16 | src/font.c:45-55 | 0 out of range; otherwise the two bytes at `index` are the little-endian encoding of the result, which is below 65536 |
| BMFont.UInt32RoundTrip | src/font.c:23-28 | encoding a uint32 and parsing it at any offset of any buffer gives the value back |
| BMFont.UInt16RoundTrip | src/font.c:51-54 | the same round trip for uint16 |
| BMFont.Int32RoundTrip | src/font.c:37-42 | the same round trip for int32, through its 32-bit two's-complement pattern |
| BMFont.ParsedString | src/font.c:58-78 | parse_string's result: NULL exactly when `strSize > bufSize`; otherwise exactly `strSize` bytes, the first `strSize - 1` copied verbatim (embedded zeros included), then a zero |
| BMFont.ParseString | src/font.c:58-78 | the copy loop returns exactly `ParsedString`'s result |
| BMFont.CStrLen | src/font.c:171 | the length `strlen` returns: every byte before it is non-zero, and the byte at it (if any) is zero |
| BMFont.CopiedStringIsReadUntilZero | src/font.c:64-74 | the C string in parse_string's result equals the buffer read up to its first zero or the length limit |
| BMFont.ParseBlock | src/font.c:80-89 | the type is `buf[0]`; the size is 0 below a declared size of 5, otherwise the little-endian uint32 at offset 1 |
| BMFont.ParseCharData | src/font.c:93-118 | the character is the id's low byte; x, y, width and height are the little-endian uint16 fields at offsets 4, 6, 8 and 10 (0 if beyond the declared size); the channel is `buf[19]`; `uv` and `uvSize` are zero |
| BMFont.ParseCharDataOfRecord | src/font.c:100-108 | parse_CharData depends only on the first 20 bytes of its buffer |
| BMFont.CheckHeader | src/font.c:127-144 | accepted exactly when the bytes are `B`, `M`, `F`, 3; "not BMF" exactly when the first three differ; otherwise the other version byte is reported |
| BMFont.SubstituteGlyph | src/font.c:305-308 | every code outside 32..126 becomes `'?'`, codes inside are kept, and the result always indexes the dense 95-glyph table |
| BMFont.SubstituteGlyphIdempotent | src/font.c:305-308 | substituting twice is the same as substituting once |
| BMFont.SignedChar | src/font.c:100 | the value a signed `char` takes for a byte: the same byte below 0x80, otherwise 256 less, so congruent to the byte modulo 256 and within -128..127 |
| BMFont.GlyphIgnoresCharSignedness | src/font.c:305-308 | drawChar's substitution picks the same glyph for a `char` parameter holding a given byte whether `char` is signed or not; bytes from 0x80 on draw `'?'` |
| FontLoader.Available | src/font.c:120-125 | fread obtains the whole amount when the file holds it, otherwise only what is left |
| FontLoader.ReadBytes | src/font.c:120-125 | read_bytes on the loader state: the buffer keeps its 128 bytes and the cursor advances by exactly the bytes fread obtains |
| FontLoader.ReadBytesContents | src/font.c:120-125 | what the buffer holds after read_bytes: its first `n` bytes are the `n` file bytes fread obtains at the cursor, and the rest keeps its earlier bytes, even on a short read |
| FontLoader.Seek | src/font.c:167 | `fseek(.., SEEK_CUR)` moves the cursor by the offset and leaves the buffer alone |
| FontLoader.NextBlock | src/font.c:161-165 | the descriptor read next (also at lines 175-176, 179-180 and 193-194): where the file holds it, its type is the byte at the cursor and its size the little-endian uint32 of the next four bytes |
| FontLoader.NameFits | src/font.c:165-170 | the inputs on which block 1's string read is defined: the length `block1.size - 14` lies in 2..128, does not wrap as a uint32_t, and parse_string returns a string (not NULL) for it |
| FontLoader.ReadBytesInto | src/font.c:120-125 | the copy into the stack buffer overwrites only its front with the bytes obtained, and advances the cursor by their number |
| FontLoader.ReadHeader | src/font.c:127-144 | read_Header reads four bytes and reports the header test on them |
| FontLoader.InfoPhase | src/font.c:160-171 | the font name read from the info block has `size - 14` bytes |
| FontLoader.ReadInfoBlock | src/font.c:160-171 | block 1: descriptor, a 14-byte seek, then the name read by parse_string, leaving the buffer and cursor `InfoPhase` gives |
| FontLoader.CommonPhase | src/font.c:174-176 | where the file holds the descriptor, the cursor ends exactly the declared size after it: the whole block is skipped |
| FontLoader.SkipCommonBlock | src/font.c:174-176 | block 2 is skipped by its declared size |
| FontLoader.TexNameFits | src/font.c:179-184 | the inputs on which block 3's string read is defined: `block3.size` lies in 2..128 and parse_string returns a string (not NULL) for it |
| FontLoader.PagesPhase | src/font.c:178-184 | the texture name read from the pages block has `size` bytes |
| FontLoader.ReadPagesBlock | src/font.c:178-184 | block 3: descriptor, then the texture name read by parse_string |
| FontLoader.ReadChars | src/font.c:203-207 | `count` turns of the record loop give exactly `count` records and advance the cursor by at most 20 bytes each |
| FontLoader.CharsPhase | src/font.c:192-200 | the chars block yields exactly `size / 20` records |
| FontLoader.ReadRecord | src/font.c:204-205 | one loop turn: a 20-byte read and parse_CharData of the buffer |
| FontLoader.ReadRecords | src/font.c:200-207 | the record loop fills the new array, in order, with the records `ReadChars` gives and leaves its buffer and cursor |
| FontLoader.ReadCharsBlock | src/font.c:192-207 | block 4: descriptor, then `size / 20` records |
| FontLoader.DefinedLoad | src/font.c:157-188 | the inputs on which the C loader is defined: an accepted header implies both strings fit the buffer and `"assets/"` plus the texture name, with its terminator, fits `texPath[128]` |
| FontLoader.LoadSpec | src/font.c:148-212 | the load is rejected exactly when the header test fails, and a loaded font's `charCount` is the length of its record array |
| FontLoader.LoadData | src/font.c:148-212 | FontRenderer_loadData produces exactly `LoadSpec`'s outcome: the name and its strlen, `"assets/"` + the texture name, and the records |
| FontLoader.HeaderDecidesLoad | src/font.c:131-158 | a file of four bytes or more is rejected exactly when it does not start with `BMF` and version 3, and the rejection depends on nothing else |
| FontLoader.FileRecordsAt | src/font.c:203-206 | the i-th of a file's consecutive records is the one at byte offset `20 * i` |
| FontLoader.RecordsInFileOrder | src/font.c:198-207 | where the file still holds them, the loop reads the file's consecutive 20-byte records in file order and ends just after them |
| FontLoader.CharsPhaseInFileOrder | src/font.c:193-207 | where the file holds them, the chars block's `size / 20` records are the file's consecutive records right after its descriptor |
| FontLoader.LoadedRecordsInFileOrder | src/font.c:193-207 | a loaded font has `charCount == size / 20`, and its records are the file's consecutive 20-byte records after the chars descriptor, in file order, wherever the file holds them |
| FontLoader.NextRecord | src/font.c:203-206 | each turn appends the record stored where the previous turns ended |
| FontEncoding.CharRecordRoundTrip | src/font.c:93-118 | parse_CharData of an encoded record recovers the id's low byte, x, y, width, height and channel, whatever the other fields are |
| FontEncoding.ChunkRecords | src/font.c:203-207 | the records read from an encoded chars payload are the decoded records, in order |
| FontEncoding.HeaderRoundTrip | src/font.c:127-144 | an encoded header passes the check and leaves the cursor on the first block |
| FontEncoding.InfoRoundTrip | src/font.c:161-171 | an encoded info block gives back its name and leaves the cursor after the block |
| FontEncoding.CommonRoundTrip | src/font.c:174-176 | an encoded common block is skipped whole |
| FontEncoding.PagesRoundTrip | src/font.c:179-184 | an encoded pages block gives back its texture name and leaves the cursor after the block |
| FontEncoding.CharsRoundTrip | src/font.c:192-207 | an encoded chars block gives back its records |
| FontEncoding.PhasesRoundTrip | src/font.c:158-207 | on an encoded image every phase reads what the image holds, and both strings fit the buffer |
| FontEncoding.LoadRoundTrip | src/font.c:148-212 | loading any well-formed encoded image is defined and yields exactly its name, atlas path and decoded records, whatever the stack buffer held |
| Input.InputState.constructor | src/main.c:133-134 | the calloc'd input state: every key released, the mouse zeroed |
| Input.InputState.IsKeyDown | src/input.c:5-11 | false for a key outside 32..348; for a tracked key, true exactly when its state is not GLFW_RELEASE; reads the state only |
| Game.KeyCallback | src/main.c:30-37 | for a tracked key: the key's state becomes the action (as uint8_t), the modifiers are stored, and the current scene's handler runs; a press or a repeat makes DW_isKeyDown true and a release false. Other keys change nothing |
| Globals.Globals.constructor | src/main.c:133-138 | DW_initGame: zeroed input (every key released, no modifiers, mouse position and buttons zero), the main menu current and its `init` called, the game running |
| Globals.Globals.ExitGame | src/main.c:161-163 | `running` becomes false |
| Globals.Globals.SetScene | src/main.c:103-111 | NULL changes nothing; otherwise the old scene's `exit` (if any), then the switch, then the new scene's `init`, in that order |
| Globals.ExitCalls | src/main.c:106 | an `exit` call is made exactly when a scene is current, and only for that scene |
| MainMenu.SelectUp | src/scenes/mainmenu.c:55-62 | on the menu the cursor moves to the other option; off it, the uint8_t decrement |
| MainMenu.SelectDown | src/scenes/mainmenu.c:63-70 | on the menu the cursor moves to the other option; off it, the uint8_t increment |
| MainMenu.NextSelection | src/scenes/mainmenu.c:52-82 | the selection after one event: from an option of the menu it stays on the menu, and it changes exactly on a press of W, Up, S or Down |
| MainMenu.ExitsGame | src/scenes/mainmenu.c:71-79 | an event that calls DW_exitGame finds the selection on the menu and leaves it unmoved |
| MainMenu.Menu.constructor | src/scenes/mainmenu.c:10 | the selection starts on "Play" (1) |
| MainMenu.Menu.OnKey | src/scenes/mainmenu.c:50-83 | the selection after the event, and `running` cleared exactly on Enter pressed with "Exit" selected |
| MainMenu.UpDownInverse | src/scenes/mainmenu.c:55-70 | up then down, and down then up, restore the selection |
| MainMenu.UpIsDown | src/scenes/mainmenu.c:55-70 | with two options, up and down both go to the other one |
| MainMenu.IgnoredEventsChangeNothing | src/scenes/mainmenu.c:52-82 | any other action or key leaves the selection and `running` unchanged |
| MainMenu.EnterActsOnSelection | src/scenes/mainmenu.c:71-79 | Enter never moves the selection; it exits exactly when pressed on "Exit" and does nothing on "Play" |
| MainMenu.Replay | src/scenes/mainmenu.c:50-83 | the selection after a sequence of events: from an option of the menu, no sequence moves it off the menu |
| MainMenu.ReplayExits | src/scenes/mainmenu.c:71-79 | a sequence of events that exits contains a press of Enter |
| MainMenu.ReplayExitsAt | src/scenes/mainmenu.c:71-79 | a run of events exits exactly when some Enter press arrives while "Exit" is selected |
| Game.Elapsed | src/main.c:212 | `currentTime - lastTime` on uint64_t: the reading that, added to `lastTime` modulo 2^64, gives `currentTime` |
| Game.ClampedDelta | src/main.c:212-217 | the frame time is the elapsed time, capped at MAX_DELTA_TIME |
| Game.Drain | src/main.c:222-226 | the inner loop as ticks run and accumulator left: the remainder is below one tick and at most the input, and no tick runs exactly when less than one tick is pending |
| Game.DrainIsDivMod | src/main.c:222-226 | the drain loop runs `acc / MS_PER_TICK` ticks and leaves `acc % MS_PER_TICK` |
| Game.DrainConserves | src/main.c:222-226 | ticks times MS_PER_TICK plus the remainder is the accumulated time, and the remainder is below one tick |
| Game.TicksPerFrameBounded | src/main.c:215-226 | however long a frame took, it runs at most MAX_TICKS_PER_FRAME ticks |
| Game.RunFrames | src/main.c:210-226 | the ticks and accumulator over a run of frames: after any frame, or from less than one tick pending, the accumulator is below one tick |
| Game.RunFramesConserves | src/main.c:210-226 | over any run of frames, the ticks run are the total capped time divided by MS_PER_TICK, and the remainder carries over |
| Game.FpsDue | src/main.c:238 | the once-a-second test on uint64_t: with no wrap, due exactly when at least 1000 ms have passed; across a wrap, on the wrapped difference |
| Game.FrameClock.constructor | src/main.c:202-206 | the loop's variables before the first frame |
| Game.FrameClock.RunTicks | src/main.c:222-226 | the inner loop drains the accumulator as the drain function says, with `ticks` counted modulo 2^32 |
| Game.FrameClock.Frame | src/main.c:211-248 | one frame: the capped delta is accumulated and drained; `frames` is incremented; with a second elapsed, fps/tps take the counts, the counters reset and `lastFPSTime` moves; otherwise they are kept. The accumulator stays below one tick |

## Left out

- **OpenGL and GLFW.** Window and context creation, callback
  registration, shaders, vertex arrays, texture binding, buffer swapping
  and event polling are all left out. They are calls into libraries
  with no behaviour this model can state.
- **The texture load**, `DW_loadTexture`. The model records only the
  path it is given (`"assets/"` + the texture name).
- **Floating-point code.** This covers UV generation (`CharData_genUV`),
  `partialTicks`, the menu text layout, and player physics. The zero
  `uv` and `uvSize` of a loaded glyph are exact reals.
- **The file.** `fopen` failure, `fclose` and every `printf` or
  `fprintf` diagnostic are left out. The file is an in-memory byte
  sequence, so a file that cannot be opened is not represented.
- **The clock.** `DW_currentTimeMillis` is not modelled. The current time
  is a parameter of `Game.FrameClock.Frame`.
- **The outer `while (running)` loop.** Only one pass of it is modelled
  (`Game.FrameClock.Frame`). Several passes are covered by the
  `Game.RunFrames` lemmas, which work on the capped frame times.
- **Scenes.**
  - `tick`, `render`, `init` and `exit` are not run. `init` and `exit`
    calls are only recorded, in the order they happen, in
    `Globals.Globals.sceneCalls`.
  - The world scene's key handler is empty, so the key callback
    dispatches only the main menu's.
  - The scene tables' header declarations come from a different
    revision.
- **The mouse-button and cursor callbacks** (`DW_mouseButtonCallback`,
  `DW_cursorPosCallback`). They are outside the modelled core, and the
  menu's click handler is empty.
- **Memory.** `malloc`, `realloc` and `free`, and the nulling of pointers
  after release, are left out. The model's sequences have exactly the
  length C allocates.
- **The empty stubs** `FontRenderer_drawString` and
  `FontRenderer_getStringWidth`, which have no behaviour to model.
- **Undefined behaviour in the loader's memory use is excluded by
  preconditions rather than modelled** (`FontLoader.DefinedLoad`,
  `BMFont.ParseString`). The excluded cases are:
  - a name length outside 2..128 (which includes a `block1.size` below
    14);
  - a texture name length outside 2..128;
  - a `strcat` overflowing `texPath[128]`;
  - a `strSize` below 2 passed to parse_string.
- BMFont.ParseUInt32: where the top byte is 0x80 or more,
  `buf[index + 3] << 24` on the promoted `int` does not fit in `int`,
  which section 6.5.7 of the C11 standard makes undefined. The model gives
  the value compilers produce, the four bytes assembled modulo 2^32, and
  `BMFont.ParseInt32` reads that pattern as two's complement. No
  precondition excludes this case, because every font with a large field
  would be excluded.
- BMFont.ParseCharData: `character` is the id's low byte as an unsigned
  value 0..255, and so is the expected glyph of
  `FontEncoding.DecodedChar`. Where `char` is signed (the common x86
  targets), bytes from 0x80 on read as -128..-1 instead
  (`BMFont.SignedChar`); the signedness is implementation-defined. The
  loaded field is written (`src/font.c:111`) and never read anywhere in
  the source, so the difference is not observable. `FontRenderer_drawChar`
  takes its own `char` parameter (and is never called); for that
  parameter, `BMFont.GlyphIgnoresCharSignedness` shows that both readings
  of a byte draw the same glyph.
- FontLoader.Seek: the offset is a `nat`, so a seek always moves forward
  by the full amount. This assumes a `long` of at least 64 bits (LP64).
  `src/font.c:176` passes the `uint32_t` size of block 2 as fseek's
  `long` offset. Where `long` is 32 bits (LLP64, as on 64-bit Windows), a
  size of 2^31 or more becomes negative, and C seeks backward or fails
  instead.
- **Truncated files in the round trip.** The encoding round trip
  (`FontEncoding.LoadRoundTrip`) is stated for files that hold all four
  blocks in full. What a truncated file yields is the business of
  `FontLoader.LoadData`. It is exact for every file on which the C loader
  is defined (`FontLoader.DefinedLoad`) and says nothing about any other
  file. A file cut off before its pages descriptor usually falls outside
  `DefinedLoad`. The descriptor read then obtains nothing, so
  `parse_Block` sees stale buffer bytes. The stale size reaches
  parse_string, which returns NULL, and C then passes NULL to `strcat`.
