# NE resource reader, modelled in Dafny

This project models the resource side of `nefile`, a reader for 16-bit New
Executable (NE) files. The model covers four parts:

- **The MZ/NE front end.** Choosing the data source, checking the `MZ` stub,
  reading the NE header and locating the resource table.
- **The resource table scanner.** The alignment shift, then the type entries
  up to the `0x0000` sentinel. Each type and id word is either a 15-bit
  integer or an offset to a length-prefixed name.
- **Dispatch and the memoised cache.** Built-in types are materialised in
  enum order, then the other types in file order. A failing decoder falls
  back to raw data. `find_resource_by_id` looks into the partly built cache.
- **The payload decoders and file encoders.** Bitmap (BITMAPINFOHEADER and a
  synthesised 14-byte BITMAPFILEHEADER), icon and group icon (ICONDIR /
  ICONDIRENTRY, and ICO re-encoding), the 16-slot string table, and raw
  application-defined data.

The file is one immutable byte sequence. A stream position is a `nat` into it.
Every reader is a `Result`-returning function of `(bytes, position)`. The byte
source behaves like the read-only memory map the reader opens for a file
path, and a stream passed by the caller is given the same behaviour:

- A seek past the end is a ValueError (`SeekOutOfRange`).
- `read(n)` returns fewer bytes at the end of the data.
- A fixed-width unpack that runs short is a `struct.error` (`Truncated`).
  That is not a ValueError, so it escapes `NE.__init__`'s `except ValueError`.

Each exception of the original is one variant of `Errors.Error`. The
`Errors.IsValueError` predicate records which ones `except ValueError`
swallows.

Modules follow the source:

| module | models |
|---|---|
| `Errors` | exception classes, `Option`, `Result` |
| `Bytes` | the little-endian struct reads and packs, reads and seeks on the mapped data, ASCII decoding |
| `Decimal` | `str(n)` of the integers in export names and the version string |
| `ResourceTypes` | the `ResourceType` enum and `has_value` |
| `ResourceNames` | `ResourceString` and decoding of type and id words |
| `TypeTables` | `ResourceTypeTable`, `ResourceDeclaration`, and the scan in `ResourceTable.__init__`, plus an encoder for integer-keyed tables |
| `OrderedDict` | insertion-ordered Python dicts |
| `Bitmap` | `BitmapFileHeader`, `BitmapInfoHeader`, `Bitmap` |
| `Icon` | `IconDirectory`, `IconDirectoryEntry` and the ICO layout of `GroupIcon.export` |
| `StringTable` | `StringTable` |
| `ApplicationDefinedData` | `ApplicationDefinedData` |
| `Resources` | the decoded resources, `is_in_group`, and each resource's `export` |
| `ResourceCache` | the cache of decoded resources and `find_resource_by_id` |
| `GroupIcon` | `GroupIcon.__init__` |
| `Dispatch` | parser registration, `_parse_resources`, materialisation order |
| `ResourceTable` | `ResourceTable.__init__`, `resources`, and a lookup through it |
| `Headers` | `MZ`, `NEHeader` and its derived properties |
| `NeFile` | `NE.__init__`, `filename`, `export_resources` |

In five places the code does something other than what the format's general
description suggests. The model follows the code in each of them:

- The bitmap decoder reads only the 40-byte BITMAPINFOHEADER. There is no
  12-byte legacy-header fallback.
- An icon that no group claims cannot be exported. There is no one-entry ICO
  for it.
- The cursor decoders cannot be constructed with the arguments the dispatcher
  passes, so cursors always end up as raw data.
- A declaration whose data offset lies beyond the end of the file aborts
  materialisation. This is because the seek before the `try` raises. The
  cache then keeps the types finished so far.
- The string-table length prefix is one byte, not a word.

## Model

| member | source | states |
|---|---|---|
| `Bytes.ReadUInt` | nefile/resource_table.py:185 | an unsigned little-endian unpack of n bytes succeeds exactly when n bytes remain; it advances by n and yields a value below 256^n; a short read is `struct.error` |
| `Bytes.UIntAt` | nefile/resource_table.py:207 | the value at a position where the field fits is the one the unpack returns |
| `Bytes.ReadEncoded` | nefile/resources/icon.py:75-77 | a packed little-endian field unpacks to the packed value |
| `Bytes.LittleEndianRoundTrip` | nefile/resources/icon.py:105-111 | packing a value into n bytes and reading it back gives the value |
| `Bytes.ToLittleEndianOfValue` | nefile/resources/icon.py:90-98 | the bytes of a field are the packing of the value read from them, so reading loses nothing |
| `Bytes.Pack` | nefile/resources/bitmap.py:30-35 | `struct.pack` of an unsigned field succeeds exactly when the value fits the width, and gives its little-endian bytes |
| `Bytes.Signed32` | nefile/resources/bitmap.py:44-45 | the `int32_le` reading of a 32-bit word is in the signed range and congruent to the word modulo 2^32 |
| `Bytes.ReadBytes` | nefile/resource_table.py:209 | `read(n)` gives the bytes at the position, clipped at the end of the data, and advances past them |
| `Bytes.Seek` | nefile/resource_table.py:133 | a seek succeeds exactly when the target is within the data; otherwise it raises with the target offset |
| `Bytes.AsciiText` | nefile/resource_table.py:270 | the characters of ASCII bytes have the bytes' codes |
| `Bytes.AsciiBytes` | nefile/resource_table.py:270 | the bytes of ASCII text have the characters' codes |
| `Bytes.DecodeAscii` | nefile/resource_table.py:270 | `decode('ascii')` succeeds exactly when every byte is below 0x80; the text encodes back to the same bytes |
| `Bytes.AsciiRoundTrip` | nefile/resource_table.py:270 | decoding the bytes of ASCII text gives the text back |
| `Decimal.ToDecimal` | nefile/nefile.py:97 | `str(n)` is a non-empty string of digits with no leading zero |
| `Decimal.DecimalRoundTrip` | nefile/nefile.py:97 | `int(str(n)) == n` |
| `Decimal.DecimalInjective` | nefile/nefile.py:97 | two numbers never have the same decimal text |
| `ResourceTypes.FromCode` | nefile/resource_table.py:32-35 | a code is converted to the enum member whose value it is |
| `ResourceTypes.AllTypesListed` | nefile/resource_table.py:15-30 | iterating the enum visits all 14 members |
| `ResourceTypes.AllTypesAscending` | nefile/resource_table.py:83-84 | iteration order is strictly ascending by value |
| `ResourceTypes.FromCodeOfCode` | nefile/resource_table.py:192-195 | `ResourceType(t.value) == t` for every member |
| `ResourceTypes.FromCodeDomain` | nefile/resource_table.py:15-35 | `has_value(n)` holds exactly for 1-12, 14 and 16 |
| `ResourceTypes.KeyOfCode` | nefile/resource_table.py:189-199 | an integer type code becomes the enum member exactly when it is one of the enum's values, and otherwise stays the integer |
| `ResourceNames.FirstNul` | nefile/resource_table.py:265-267 | the position of the first NUL, or the length when there is none |
| `ResourceNames.ReadName` | nefile/resource_table.py:254-274 | a name offset beyond the data raises the seek error, and one at the very end is a short read; a name read is ASCII with no NUL and no longer than its length byte; the caller's position is untouched (a pure function of the offset) |
| `ResourceNames.NameRoundTrip` | nefile/resource_table.py:256-274 | a length byte, ASCII text, then garbage starting with NUL, read back as exactly that text |
| `ResourceNames.NulAfterText` | nefile/resource_table.py:265-267 | truncation at the first NUL cuts exactly at the end of NUL-free text |
| `ResourceNames.DecodeTypeWord` | nefile/resource_table.py:185-204 | with the high bit set, the low 15 bits are the type code (enum member when one); otherwise the name at table start plus the word, with its errors |
| `ResourceNames.DecodeIdWord` | nefile/resource_table.py:236-244 | with the high bit set, the low 15 bits are the integer id; otherwise the name at table start plus the word, with its errors |
| `TypeTables.ReadDeclaration` | nefile/resource_table.py:223-246 | a declaration reads four words then four reserved bytes; offset and length are the raw words shifted left; under 8 bytes left is a short read |
| `TypeTables.DataEndOfRead` | nefile/resource_table.py:248-250 | `data_end_offset` is the sum of the raw offset and length words, shifted |
| `TypeTables.ReadDeclarations` | nefile/resource_table.py:210-212 | exactly `count` declarations are read, 12 bytes each |
| `TypeTables.ReadTypeBody` | nefile/resource_table.py:206-212 | a type entry keeps its key and occupies its 8-byte header plus 12 bytes per declaration |
| `TypeTables.ReadTypeEntry` | nefile/resource_table.py:185-188 | a type word of 0 is the sentinel: it yields no table and consumes 2 bytes; any other entry consumes 8 plus 12 per declaration |
| `TypeTables.ScanTypes` | nefile/resource_table.py:76-80 | the scan stops right after the sentinel, having consumed every entry's size |
| `TypeTables.ReadLayout` | nefile/resource_table.py:61-80 | the shift is the low byte of the first word; the scan starts after it |
| `TypeTables.ReadDeclarationOfBytes` | nefile/resource_table.py:223-246 | an encoded declaration reads back as itself, offset and length shifted |
| `TypeTables.ReadDeclarationsOfBytes` | nefile/resource_table.py:210-212 | encoded declarations read back in order |
| `TypeTables.TypeHeaderOfBytes` | nefile/resource_table.py:185-209 | the header of an encoded type entry holds its type word, its count and the reserved bytes |
| `TypeTables.ReadTypeEntryOfBytes` | nefile/resource_table.py:185-212 | an encoded type entry reads back as its table |
| `TypeTables.TypesAtOfBytes` | nefile/resource_table.py:76-80 | encoded type entries followed by a sentinel are laid out one after another |
| `TypeTables.ScanTypesOfBytes` | nefile/resource_table.py:76-80 | type entries laid out one after another, then the sentinel, scan back as their tables, stopping after the sentinel |
| `TypeTables.TableParts` | nefile/resource_table.py:61-76 | an encoded table reads its shift word first, and the type entries and sentinel follow it |
| `TypeTables.ScanRoundTrip` | nefile/resource_table.py:61-80 | an encoded table reads back as every entry in file order, offsets and lengths shifted by the low byte of the shift word; the high byte never matters |
| `OrderedDict.Empty` | nefile/resource_table.py:130 | `{}` has no keys |
| `OrderedDict.Get` | nefile/resource_table.py:108 | `dict.get` finds exactly the present keys |
| `OrderedDict.Put` | nefile/resource_table.py:153 | `update({k: v})` sets k, keeps the others, keeps the place of an existing key and appends a new one |
| `OrderedDict.Values` | nefile/resources/icon.py:39 | `values()` lists the values in insertion order |
| `OrderedDict.CollectKeys` | nefile/resource_table.py:131-153 | after inserting a sequence of pairs, the keys are exactly the keys inserted |
| `OrderedDict.CollectLastWins` | nefile/resource_table.py:153 | the value kept for a key is the one inserted last |
| `OrderedDict.CollectValueFrom` | nefile/resource_table.py:153 | every stored value was inserted under its key |
| `OrderedDict.CollectDistinctValues` | nefile/resources/icon.py:17-24 | inserting pairs with distinct keys keeps every pair: the keys and the values come out in insertion order |
| `Bitmap.ReadInfoHeader` | nefile/resources/bitmap.py:41-53 | the info header always reads exactly 40 bytes of fixed little-endian fields, with no check of its length field |
| `Bitmap.DecodeBitmap` | nefile/resources/bitmap.py:58-66 | the data starts at the info header (the position is rewound) and has the declared length, clipped at the end of the data |
| `Bitmap.EncodeFileHeader` | nefile/resources/bitmap.py:30-35 | the file header is 14 bytes starting `BM`; it fails exactly when a field does not fit its width |
| `Bitmap.DecodeFileHeader` | nefile/resources/bitmap.py:21-28 | input not starting `BM` is rejected; otherwise it reads 14 bytes |
| `Bitmap.FileHeaderRoundTrip` | nefile/resources/bitmap.py:21-35 | `decode(encode(h)) == h` |
| `Bitmap.FileHeaderBytesRoundTrip` | nefile/resources/bitmap.py:21-35 | encoding a decoded file header gives back the bytes it was read from |
| `Bitmap.BitfieldLength` | nefile/resources/bitmap.py:94-100 | 12 exactly for compression 3, 16 exactly for 6, else 0 |
| `Bitmap.PaletteLength` | nefile/resources/bitmap.py:102-108 | 4 times the palette colour count, or 4 times 2^bpp when that count is 0 |
| `Bitmap.FileHeaderFor` | nefile/resources/bitmap.py:87-117 | file length is 14 plus the data, reserved fields are 0, and the pixel offset is past the info header |
| `Bitmap.BmpFile` | nefile/resources/bitmap.py:81-83 | the BMP is the encoded file header followed by the data, failing only when a header field overflows |
| `Bitmap.BmpFileReadsBack` | nefile/resources/bitmap.py:87-117 | the written BMP's header reads back with the file's own length and pixel offset = 14 + header length + bitfields + palette |
| `Bitmap.DecodePrefix` | nefile/resources/bitmap.py:21-28 | decoding a file header looks at its 14 bytes only |
| `ApplicationDefinedData.ReadRaw` | nefile/resources/application_defined_data.py:5-7 | the data is the bytes at the position for the declared length, uninterpreted, clipped at the end |
| `Icon.ReadEntry` | nefile/resources/icon.py:90-98 | an entry consumes 14 bytes: u8, u8, u16, u16, u16, u32 and the u16 id |
| `Icon.ReadEntries` | nefile/resources/icon.py:68-72 | exactly `count` entries are read; the read fails exactly when they do not fit |
| `Icon.ReadEntriesInOrder` | nefile/resources/icon.py:68-72 | entry i is the entry read at 14 times i past the first, in stream order |
| `Icon.ReadDirectory` | nefile/resources/icon.py:59-72 | a nonzero signature raises; otherwise the directory holds `icon_count` entries and ends after them |
| `Icon.EncodeHeader` | nefile/resources/icon.py:74-77 | the header is the signature, type and count as little-endian words, 6 bytes; it fails exactly when one of them needs more than 16 bits |
| `Icon.IcoFileHeader` | nefile/resources/icon.py:74-77 | a written ICO file reads back the directory's signature, type and count from bytes 0, 2 and 4 |
| `Icon.HeaderWords` | nefile/resources/icon.py:74-77 | the three header words read back from any bytes the header starts |
| `Icon.EncodeEntry` | nefile/resources/icon.py:104-111 | an entry encodes as 16 bytes ending in the u32 image offset; it fails exactly when the offset does not fit |
| `Icon.EntryRoundTrip` | nefile/resources/icon.py:90-111 | encoding a read entry reproduces its first 12 bytes, then the image offset in place of the id |
| `Icon.ImageOffsets` | nefile/resources/icon.py:37-41 | one offset per image |
| `Icon.ImageOffsetsArePrefixSums` | nefile/resources/icon.py:37-41 | the i-th offset is the directory length plus the lengths of the images before it |
| `Icon.EncodeEntries` | nefile/resources/icon.py:46-47 | the encoded entries are 16 bytes each and fail only on an offset that does not fit |
| `Icon.EncodeEntriesPart` | nefile/resources/icon.py:46-47 | bytes 16i to 16(i+1) are the encoding of entry i with offset i |
| `Icon.IcoFile` | nefile/resources/icon.py:30-51 | the ICO file is 6 + 16 per entry + the images, in length |
| `Icon.IcoFileFails` | nefile/resources/icon.py:37-51 | writing fails exactly when some image offset needs more than 32 bits |
| `Icon.IcoFileLayout` | nefile/resources/icon.py:30-51 | entry i's offset field points at image i, and image i is stored there, after the images before it |
| `Icon.ConcatAppend` | nefile/resources/icon.py:50-51 | writing two runs of images one after the other writes their concatenation |
| `Icon.ConcatPart` | nefile/resources/icon.py:50-51 | image i sits in the concatenation right after the images before it |
| `Icon.IconsById` | nefile/resources/icon.py:17-24 | the group's `icons` is a dict keyed by id |
| `Icon.IcoFileAsWritten` | nefile/resources/icon.py:30-51 | as written: one entry per distinct id, and the images of the id-keyed dict |
| `Icon.TwiceTheSameIconCollapses` | nefile/resources/icon.py:24 | two entries naming the same id leave one image in the dict |
| `Icon.DuplicateIdCounterexample` | nefile/resources/icon.py:37-51 | as written, a directory naming one icon twice writes a header counting 2 entries but only one entry and one image |
| `Icon.DuplicateIdCorrected` | nefile/resources/icon.py:37-51 | with one image per entry the same directory writes both entries, each pointing at its own image |
| `Icon.IconsByIdDistinct` | nefile/resources/icon.py:17-24 | when no two entries name the same icon, the dict's values are the entries' images in entry order |
| `Icon.IcoFileAsWrittenAgrees` | nefile/resources/icon.py:30-51 | when no two entries name the same icon, the file as written equals the corrected file |
| `StringTable.ReadSlot` | nefile/resources/string.py:14-27 | a one-byte length; 0 gives no string; n gives the following n bytes as ASCII text, and a non-ASCII byte raises |
| `StringTable.ReadSlots` | nefile/resources/string.py:13-28 | exactly `count` slots, in stream order |
| `StringTable.DecodeStringTable` | nefile/resources/string.py:12-28 | always 16 slots |
| `StringTable.SlotBytes` | nefile/resources/string.py:14-21 | a slot occupies its length byte and its text |
| `StringTable.ReadSlotOfBytes` | nefile/resources/string.py:14-27 | an encoded slot reads back as itself |
| `StringTable.ReadSlotsOfBytes` | nefile/resources/string.py:13-28 | encoded slots read back in order |
| `StringTable.ReadSlotsCons` | nefile/resources/string.py:13-28 | reading count + 1 slots is one slot, then count more |
| `StringTable.StringTableRoundTrip` | nefile/resources/string.py:12-28 | a block of 16 encoded slots decodes to the same slots and consumes 16 + the text lengths |
| `Resources.DataOf` | nefile/resources/icon.py:41 | raw data, bitmaps and icons have `data`; the others do not |
| `Resources.Marked` | nefile/resources/icon.py:23 | `is_in_group = True` sets the flag of an icon and changes nothing else |
| `Resources.Lower` | nefile/resources/icon.py:32 | `lower()` maps A-Z to a-z, each character in place |
| `Resources.ExportPath` | nefile/resources/icon.py:31-34 | corrected: the extension is appended exactly when the path does not already end with it, in any case |
| `Resources.ExportPathAsWritten` | nefile/resources/bitmap.py:72-75 | as written: the extension is left off exactly when the path minus its last four characters, lowered, equals it |
| `Resources.ExportPathCounterexample` | nefile/resources/icon.py:31-34 | `icon.ico` gets a second `.ico` as written; the corrected check leaves it alone |
| `Resources.ExportPathStemCounterexample` | nefile/resources/icon.py:31-34 | `.icodata` gets no extension as written; the corrected check appends one |
| `Resources.ExportPathsAgree` | nefile/resources/icon.py:31-34 | the two checks give the same path exactly when they agree on whether the extension is present |
| `Resources.AllImages` | nefile/resources/icon.py:50-51 | every member of the group has data, or the write fails |
| `Resources.Export` | nefile/resources/icon.py:123-132 | corrected: raw data writes its data as is; a bitmap writes its BMP and a group icon its one-image-per-entry ICO, each under a path ending in its extension; an icon writes nothing when grouped and raises otherwise; a string table has no export |
| `Resources.ExportAsWritten` | nefile/resources/bitmap.py:71-77 | as written: a bitmap or group icon keeps the path exactly when the path minus its last four characters is the extension, and a group icon writes the file of the id-keyed dict; the other resources export as in `Resources.Export` |
| `Resources.ExportAsWrittenAgrees` | nefile/resources/icon.py:30-51 | the export as written and the corrected export write the same file when the extension checks agree on the path and no group names an icon twice |
| `ResourceCache.FindResourceById` | nefile/resource_table.py:160-168 | the lookup succeeds exactly for a present type and id; a missing type and a missing id are different errors |
| `ResourceCache.MarkGrouped` | nefile/resources/icon.py:22-23 | marking a looked-up icon changes that resource and nothing else, and keeps the cache's shape |
| `ResourceCache.FindAfterMark` | nefile/resources/icon.py:22-23 | after marking, a lookup finds the marked icon, and every other lookup is unchanged |
| `ResourceCache.MarkGroupedIdempotent` | nefile/resources/icon.py:23 | marking twice is marking once |
| `GroupIcon.EntryIds` | nefile/resources/icon.py:19-24 | every entry's id is among the group's ids |
| `GroupIcon.LinkIcons` | nefile/resources/icon.py:19-24 | linking keeps the cache's shape; a failed lookup's error propagates |
| `GroupIcon.LinkIconsImages` | nefile/resources/icon.py:19-24 | linking succeeds exactly when every entry's icon is found, and then holds each found icon's data in entry order |
| `GroupIcon.LinkIconsMarks` | nefile/resources/icon.py:19-24 | after success exactly the named icons are marked; after a failed lookup, exactly the icons named before it |
| `GroupIcon.EntryIdsCons` | nefile/resources/icon.py:19-24 | the ids of the entries are the first entry's id and the ids of the rest |
| `GroupIcon.MarkedExactlyAt` | nefile/resources/icon.py:23 | a resource is marked exactly when it is an icon whose id the group names |
| `GroupIcon.MarkThenMarkExactly` | nefile/resources/icon.py:19-24 | marking one icon then a set of them marks their union |
| `GroupIcon.DecodeGroupIcon` | nefile/resources/icon.py:10-24 | a bad directory raises first; otherwise the group succeeds exactly when every entry's icon is in the cache, and holds the directory and each icon's data |
| `Dispatch.Parsers` | nefile/resource_table.py:48-56 | the built-in registrations, with a user registration overriding the built-in one for the same key |
| `Dispatch.ParserFor` | nefile/resource_table.py:127 | a type without a registration uses the raw decoder |
| `Dispatch.BuiltinDispatch` | nefile/resource_table.py:48-55 | exactly icon, bitmap, cursor, group icon, group cursor and string table have built-in decoders |
| `Dispatch.RunDecoder` | nefile/resource_table.py:135 | what each decoder produces; cursor decoders always fail with a TypeError; only the group icon decoder changes the cache |
| `Dispatch.DecodeDeclaration` | nefile/resource_table.py:131-153 | a data offset beyond the end raises the seek error; otherwise a failed decoder is replaced by the raw read at the same offset |
| `Dispatch.DecodeAll` | nefile/resource_table.py:131-153 | one (id, resource) pair per declaration, in order, unless some declaration lies beyond the data; the first such one stops the loop with its seek error |
| `Dispatch.ParseType` | nefile/resource_table.py:125-155 | the type's dict holds the decoded pairs keyed by id; it fails only with a seek error |
| `Dispatch.CollectedValid` | nefile/resource_table.py:153 | a dict built from decoded resources holds only decoded resources |
| `Dispatch.ParseTypeIds` | nefile/resource_table.py:153 | the dict's ids are exactly the declared ids, and a repeated id keeps its last declaration's resource |
| `Dispatch.ParseTypeKeys` | nefile/resource_table.py:153 | the dict's ids are exactly the declared ids |
| `Dispatch.KnownKeys` | nefile/resource_table.py:107-111 | the first pass picks only built-in types present in the table |
| `Dispatch.OtherKeys` | nefile/resource_table.py:115-118 | the second pass picks only the types the first did not |
| `Dispatch.KnownKeysContents` | nefile/resource_table.py:107-111 | the first pass picks exactly the present built-in types |
| `Dispatch.KnownKeysAscending` | nefile/resource_table.py:107-111 | the first pass goes in ascending enum order |
| `Dispatch.OtherKeysContents` | nefile/resource_table.py:115-118 | the second pass picks exactly the present non-built-in types |
| `Dispatch.OtherKeysDistinct` | nefile/resource_table.py:115-118 | the second pass visits each type once |
| `Dispatch.MaterialisationOrderPermutes` | nefile/resource_table.py:105-118 | together the passes visit every type of the table exactly once |
| `Dispatch.MaterialisationOrderKnownFirst` | nefile/resource_table.py:105-118 | built-in types come first, in enum order |
| `Dispatch.IconsBeforeGroupIcons` | nefile/resource_table.py:83-91 | RT_ICON is materialised before RT_GROUP_ICON |
| `ResourceTable.Materialise` | nefile/resource_table.py:105-118 | the loops keep the cache valid and stop only on a seek error |
| `ResourceTable.MaterialiseUnfold` | nefile/resource_table.py:107-118 | one step: parse the next type against the cache so far, then add it at the end |
| `ResourceTable.MaterialiseOutcome` | nefile/resource_table.py:105-118 | the run finishes every type in order, or stops at the first type with a declaration beyond the data, keeping those before it |
| `ResourceTable.MaterialiseStep` | nefile/resource_table.py:110-111 | adding a parsed type keeps the loop's precondition and appends its key |
| `ResourceTable.TypeDict` | nefile/resource_table.py:75-79 | the type tables form a valid insertion-ordered dict |
| `ResourceTable.TypeDictContents` | nefile/resource_table.py:77-79 | the dict's keys are exactly the scanned keys; a repeated key keeps its last table |
| `ResourceTable.BuildTable` | nefile/resource_table.py:45-80 | the table is built exactly when the layout reads; it remembers where it started, its masked shift, its parsers and its type dict, and nothing is materialised yet |
| `ResourceTable.GetResources` | nefile/resource_table.py:95-121 | the first call materialises in the fixed order and memoises; a later call returns the memo; on a seek error the memo keeps a prefix of the order |
| `ResourceTable.OrderCanMaterialise` | nefile/resource_table.py:103-118 | the fixed order can be run from an empty cache |
| `ResourceTable.OutcomeFromEmpty` | nefile/resource_table.py:103-121 | from an empty cache: success exactly when every declaration lies within the data; the cache keys are the order, or a prefix of it after an error |
| `ResourceTable.MaterialiseFromEmpty` | nefile/resource_table.py:103-121 | the same, for the fixed order |
| `ResourceTable.GetResourcesMemoised` | nefile/resource_table.py:100-102 | a second call returns the cached map and leaves the table as it was |
| `ResourceTable.FindInTable` | nefile/resource_table.py:160-168 | `find_resource_by_id` materialises first, then looks up type and id |
| `Headers.ReadMz` | nefile/nefile.py:12-32 | the stub must start `MZ` and have a word of at least 0x40 at 0x18; the NE offset is the word at 0x3c; each failure has its own error |
| `Headers.TargetOsOf` | nefile/nefile.py:130-144 | the target OS byte converts exactly when it is one of the eight values |
| `Headers.TargetOsRoundTrip` | nefile/nefile.py:130-144 | each target OS converts back from its value |
| `Headers.ReadNeHeader` | nefile/nefile.py:146-213 | the header must start `NE`; `PE` raises its own error; the fields are read at their offsets; a bad target OS byte or a short read fails |
| `Headers.ReadFields` | nefile/nefile.py:165-213 | the fields after the signature are read at their offsets |
| `Headers.ReadMiddle` | nefile/nefile.py:184-202 | the middle fields are read at their offsets |
| `Headers.ReadTail` | nefile/nefile.py:202-213 | the last fields are read at their offsets |
| `Headers.DerivedValues` | nefile/nefile.py:223-230 | the resource table is at header start + the word at 0x24; the local heap is allocated exactly when the word at 0x10 is nonzero |
| `Headers.ExpectedWindowsVersion` | nefile/nefile.py:216-218 | the version string splits at its dot back into major and revision |
| `Headers.FirstDot` | nefile/nefile.py:218 | the position of the first dot, or the length |
| `NeFile.OpenSource` | nefile/nefile.py:41-58 | a path and a stream together raise; a path maps its file; a stream is used as it is |
| `NeFile.LoadTable` | nefile/nefile.py:69-83 | a ValueError while reading the table leaves no table; any other error escapes |
| `NeFile.OpenNe` | nefile/nefile.py:36-83 | opening succeeds exactly when the source, the stub, the header and the table load all succeed, in that order |
| `NeFile.BaseName` | nefile/nefile.py:85-87 | `os.path.split(path)[1]`: the part after the last slash |
| `NeFile.Join` | nefile/nefile.py:98 | `os.path.join`: an absolute name replaces the directory; otherwise the two are joined with at most one slash |
| `NeFile.JoinBaseName` | nefile/nefile.py:98 | the file name of a joined path is the name joined |
| `NeFile.BaseNameAfter` | nefile/nefile.py:85-87 | a slash-free name after a slash is its own file name |
| `NeFile.TypeName` | nefile/nefile.py:95 | member names start `RT_` |
| `NeFile.TypeStringDistinct` | nefile/nefile.py:95 | different numbered types have different export-name parts |
| `NeFile.DashJoinInjective` | nefile/nefile.py:97 | dash-free parts joined with dashes can be split again |
| `NeFile.TypeStringNoDash` | nefile/nefile.py:95 | a numbered type's name part has no dash |
| `NeFile.ExportNamesDistinct` | nefile/nefile.py:94-97 | two different numbered (type, id) pairs never share an export name |
| `NeFile.ExportNameTail` | nefile/nefile.py:97 | the export name is the file name, a dash, the type part, a dash and the id part |
| `NeFile.TypeItems` | nefile/nefile.py:96 | one item per id of a type, in the dict's order |
| `NeFile.Items` | nefile/nefile.py:94-96 | each item is a resource in the cache under its type and id |
| `NeFile.ItemsComplete` | nefile/nefile.py:94-96 | every cached resource is visited |
| `NeFile.ExportItem` | nefile/nefile.py:97-99 | each resource is exported, by the corrected `Resources.Export`, to the directory joined with its export name; without a file path it fails |
| `NeFile.ExportItems` | nefile/nefile.py:94-99 | the outputs are the exports of the items before the first failure, in order; that failure's error ends the loop, and without one every item is exported |
| `NeFile.ExportItemsStops` | nefile/nefile.py:94-99 | the loop ends without error exactly when every item exports |
| `NeFile.ExportResources` | nefile/nefile.py:89-99 | without a table nothing happens; otherwise the resources are materialised (or taken from the memo) and each is exported in cache order |

## Left out

- File and stream plumbing. Opening the file, the memory map itself, creating
  output files and the `with open(..., 'wb')` writes are not modelled. An
  export returns the path and the bytes it would write.
- `print` and `traceback` logging.
- nefile/resources/cursor.py is not part of this model. Its classes take
  fewer constructor arguments than the dispatcher passes, so they always
  raise a TypeError. RT_CURSOR and RT_GROUP_CURSOR therefore always take the
  raw fallback, and the model gives them just that.
- nefile/resources.py, an older duplicate of the table reader, is not part of
  this model. Nothing imports it.
- User-defined parsers: a user registration can only name one of the
  library's decoders. Arbitrary Python classes are not modelled.
- The second failure in `_parse_resources` (resource_table.py:147-151) is
  not modelled. It could only happen if the raw read failed after a seek that
  succeeded, and on the mapped data such a read never fails. So the model has
  no path where a stale `resource` is reused.
- `Resources.Export`: this is the corrected export, and `NeFile.ExportItem`
  and `NeFile.ExportResources` export through it. It uses the extension
  check the exporters evidently intend and one image per directory entry.
  The code as written is `Resources.ExportAsWritten`, and
  `Resources.ExportAsWrittenAgrees` proves the two write the same file
  except in the two cases listed under "## Findings".
- `NeFile.OpenSource`: a stream passed by the caller is modelled as a
  read-only memory map positioned at 0, like a mapped file. An arbitrary
  stream such as `io.BytesIO` behaves differently, and this is not modelled.
  There, `MZ` reads the signature from the stream's current position
  (nefile.py:15), and a seek past the end succeeds. So a resource table
  offset beyond the data leads to a `struct.error` that escapes
  `NE.__init__` instead of leaving no table (nefile.py:70-73). A data offset
  beyond the data does not abort materialisation
  (resource_table.py:133): the decoder fails and the raw fallback stores an
  empty read.
- `TypeTables.ScanRoundTrip`: the encoder partner covers only integer-keyed
  tables (numeric type codes and ids). Named types and ids are covered
  separately by `ResourceNames.NameRoundTrip`.
- `NeFile.ExportNamesDistinct`: covers only numbered types and integer ids.
  A name can contain a dash or look like a number, so named keys can collide.
- Declaration flags are kept as the raw word. The `ResourceFlags` IntFlag
  view adds nothing.
- The NE header's `ExecutableContent` flags are kept as the raw word for the
  same reason.
- Text decoding is modelled only as the all-bytes-below-0x80 check of ASCII.
- The `tests/` directory is a filesystem-driven smoke test and is not
  modelled.

## Findings

| source | as written | input that shows it | evidently intended | confidence | as-written member | corrected member |
|---|---|---|---|---|---|---|
| nefile/resources/icon.py:32 | the extension test compares `path[:-4].lower()` (everything but the last four characters) with `.ico`; bitmap.py:73 does the same with `.bmp` | `icon.ico` becomes `icon.ico.ico`; `.icodata` gets no extension | compare the last four characters, `path[-4:].lower()` | high, not executed | `Resources.ExportPathAsWritten` | `Resources.ExportPath` |
| nefile/resources/icon.py:24 | the group keeps its icons in a dict keyed by id, so two directory entries naming the same icon collapse into one; the header still counts every entry, but `zip` writes only as many entries as there are distinct images | a directory with two entries both naming icon 1: the header says 2, but the file holds one entry and one image (26 bytes) | one image per directory entry, so the count, the entries and the images agree | medium, not executed | `Icon.IcoFileAsWritten` | `Icon.IcoFile` |
