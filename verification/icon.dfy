/** Icon directories (ICONDIR / ICONDIRENTRY) as stored in RT_GROUP_ICON
    resources, and the ICO file written for a group.

    In a resource each directory entry is 14 bytes and names the RT_ICON
    resource holding its image; in an ICO file each entry is 16 bytes and
    holds the file offset of its image instead.
 */
module Icon {
  import opened Errors
  import opened Bytes
  import opened OrderedDict

  datatype DirectoryEntry = DirectoryEntry(
    width: nat, height: nat, paletteColors: nat, colorPlanes: nat, bitsPerPixel: nat,
    sizeInBytes: nat, resourceId: nat)

  datatype Directory = Directory(signature: nat, kind: nat, count: nat, entries: seq<DirectoryEntry>)

  const DIRECTORY_HEADER_LENGTH: nat := 6
  const RESOURCE_ENTRY_LENGTH: nat := 14
  const FILE_ENTRY_LENGTH: nat := 16

  /** Every field fits the width it is stored in. */
  predicate EntryFits(e: DirectoryEntry) {
    && e.width < 0x100 && e.height < 0x100 && e.paletteColors < 0x1_0000 && e.colorPlanes < 0x1_0000
    && e.bitsPerPixel < 0x1_0000 && e.sizeInBytes < 0x1_0000_0000 && e.resourceId < 0x1_0000
  }

  /** What a successfully read directory satisfies. */
  predicate WellFormed(d: Directory) {
    && d.signature == 0 && d.kind < 0x1_0000 && d.count == |d.entries| < 0x1_0000
    && forall i | 0 <= i < |d.entries| :: EntryFits(d.entries[i])
  }

  /** `IconDirectoryEntry(stream)` at `pos`: u8 width, u8 height, u16 palette
      colours, u16 planes, u16 bits per pixel, u32 image size, u16 RT_ICON id. */
  function ReadEntry(buf: bytes, pos: nat): (r: Result<(DirectoryEntry, nat)>)
    ensures r.Ok? <==> pos + RESOURCE_ENTRY_LENGTH <= |buf|
    ensures r.Err? ==> r.error == Truncated
    ensures r.Ok? ==> r.value.1 == pos + RESOURCE_ENTRY_LENGTH && EntryFits(r.value.0)
    ensures r.Ok? ==> && r.value.0.width == buf[pos] && r.value.0.height == buf[pos + 1]
                      && r.value.0.sizeInBytes == UIntAt(buf, pos + 8, 4)
                      && r.value.0.resourceId == UIntAt(buf, pos + 12, 2)
  {
    Pow256Widths();
    var width :- ReadUInt(buf, pos, 1);
    var height :- ReadUInt(buf, width.1, 1);
    var palette :- ReadUInt(buf, height.1, 2);
    var planes :- ReadUInt(buf, palette.1, 2);
    var bitsPerPixel :- ReadUInt(buf, planes.1, 2);
    var size :- ReadUInt(buf, bitsPerPixel.1, 4);
    var id :- ReadUInt(buf, size.1, 2);
    assert buf[pos..pos + 1] == [buf[pos]] && buf[pos + 1..pos + 2] == [buf[pos + 1]];
    Ok((DirectoryEntry(width.0, height.0, palette.0, planes.0, bitsPerPixel.0, size.0, id.0), id.1))
  }

  /** `count` entries, one after another, in stream order. */
  function ReadEntries(buf: bytes, pos: nat, count: nat): (r: Result<(seq<DirectoryEntry>, nat)>)
    requires pos <= |buf|
    ensures r.Ok? <==> pos + RESOURCE_ENTRY_LENGTH * count <= |buf|
    ensures r.Err? ==> r.error == Truncated
    ensures r.Ok? ==> |r.value.0| == count && r.value.1 == pos + RESOURCE_ENTRY_LENGTH * count
    ensures r.Ok? ==> forall i | 0 <= i < count :: EntryFits(r.value.0[i])
    decreases count
  {
    if count == 0 then
      Ok(([], pos))
    else
      var first :- ReadEntry(buf, pos);
      var rest :- ReadEntries(buf, first.1, count - 1);
      Ok(([first.0] + rest.0, rest.1))
  }

  /** The directory's entries are read in stream order: entry `i` is the one
      at `pos + 14 * i`. */
  lemma {:induction false} ReadEntriesInOrder(buf: bytes, pos: nat, count: nat, i: nat)
    requires pos <= |buf| && ReadEntries(buf, pos, count).Ok? && i < count
    ensures ReadEntry(buf, pos + RESOURCE_ENTRY_LENGTH * i)
            == Ok((ReadEntries(buf, pos, count).value.0[i], pos + RESOURCE_ENTRY_LENGTH * (i + 1)))
    decreases count
  {
    if i > 0 {
      ReadEntriesInOrder(buf, pos + RESOURCE_ENTRY_LENGTH, count - 1, i - 1);
    }
  }

  /** `IconDirectory(stream)` at `pos`: the signature word must be zero; then
      the type word, the entry count and that many entries. */
  function ReadDirectory(buf: bytes, pos: nat): (r: Result<(Directory, nat)>)
    ensures pos + 2 <= |buf| && UIntAt(buf, pos, 2) != 0 ==> r == Err(BadIconDirectorySignature(UIntAt(buf, pos, 2)))
    ensures r.Ok? <==> && pos + DIRECTORY_HEADER_LENGTH <= |buf| && UIntAt(buf, pos, 2) == 0
                       && pos + DIRECTORY_HEADER_LENGTH + RESOURCE_ENTRY_LENGTH * UIntAt(buf, pos + 4, 2) <= |buf|
    ensures r.Ok? ==> WellFormed(r.value.0) && r.value.0.count == UIntAt(buf, pos + 4, 2)
    ensures r.Ok? ==> r.value.1 == pos + DIRECTORY_HEADER_LENGTH + RESOURCE_ENTRY_LENGTH * r.value.0.count
    ensures r.Ok? ==> r.value.0.entries == ReadEntries(buf, pos + DIRECTORY_HEADER_LENGTH, r.value.0.count).value.0
  {
    Pow256Widths();
    var signature :- ReadUInt(buf, pos, 2);
    if signature.0 != 0 then
      Err(BadIconDirectorySignature(signature.0))
    else
      var kind :- ReadUInt(buf, signature.1, 2);
      var count :- ReadUInt(buf, kind.1, 2);
      var entries :- ReadEntries(buf, count.1, count.0);
      Ok((Directory(signature.0, kind.0, count.0, entries.0), entries.1))
  }

  /** `IconDirectory.length_in_bytes`: the directory as written to an ICO
      file, six header bytes and sixteen per entry. */
  function LengthInBytes(d: Directory): nat {
    DIRECTORY_HEADER_LENGTH + FILE_ENTRY_LENGTH * d.count
  }

  /** `IconDirectory.encode`: signature, type and count words. */
  function EncodeHeader(d: Directory): (r: Result<bytes>)
    ensures r.Ok? <==> d.signature < 0x1_0000 && d.kind < 0x1_0000 && d.count < 0x1_0000
    ensures r.Err? ==> r.error == ValueTooLarge
    ensures r.Ok? ==> |r.value| == DIRECTORY_HEADER_LENGTH
    ensures r.Ok? ==> && r.value[0..2] == ToLittleEndian(d.signature, 2)
                      && r.value[2..4] == ToLittleEndian(d.kind, 2)
                      && r.value[4..6] == ToLittleEndian(d.count, 2)
  {
    Pow256Widths();
    var signature :- Pack(d.signature, 2);
    var kind :- Pack(d.kind, 2);
    var count :- Pack(d.count, 2);
    Ok(signature + kind + count)
  }

  /** `IconDirectoryEntry.encode(stream, imageOffset)`: the fields as read,
      with a u32 image offset where the resource id was. */
  function EncodeEntry(e: DirectoryEntry, imageOffset: nat): (r: Result<bytes>)
    ensures EntryFits(e) ==> (r.Ok? <==> imageOffset < 0x1_0000_0000)
    ensures imageOffset >= 0x1_0000_0000 ==> r == Err(ValueTooLarge)
    ensures r.Ok? ==> |r.value| == FILE_ENTRY_LENGTH
    ensures r.Ok? ==> r.value[12..] == ToLittleEndian(imageOffset, 4)
  {
    Pow256Widths();
    var width :- Pack(e.width, 1);
    var height :- Pack(e.height, 1);
    var palette :- Pack(e.paletteColors, 2);
    var planes :- Pack(e.colorPlanes, 2);
    var bitsPerPixel :- Pack(e.bitsPerPixel, 2);
    var size :- Pack(e.sizeInBytes, 4);
    var offset :- Pack(imageOffset, 4);
    Ok(width + height + palette + planes + bitsPerPixel + size + offset)
  }

  /** Re-encoding a decoded entry keeps its first twelve bytes and puts the
      image offset where the two-byte resource id and the next two bytes were. */
  lemma EntryRoundTrip(buf: bytes, pos: nat, imageOffset: nat)
    requires ReadEntry(buf, pos).Ok? && imageOffset < 0x1_0000_0000
    ensures EncodeEntry(ReadEntry(buf, pos).value.0, imageOffset)
            == Ok(buf[pos..pos + 12] + ToLittleEndian(imageOffset, 4))
  {
    Pow256Widths();
    var e := ReadEntry(buf, pos).value.0;
    ToLittleEndianOfValue(buf[pos..pos + 1]);
    ToLittleEndianOfValue(buf[pos + 1..pos + 2]);
    ToLittleEndianOfValue(buf[pos + 2..pos + 4]);
    ToLittleEndianOfValue(buf[pos + 4..pos + 6]);
    ToLittleEndianOfValue(buf[pos + 6..pos + 8]);
    ToLittleEndianOfValue(buf[pos + 8..pos + 12]);
    assert buf[pos..pos + 12] == buf[pos..pos + 1] + buf[pos + 1..pos + 2] + buf[pos + 2..pos + 4]
                                + buf[pos + 4..pos + 6] + buf[pos + 6..pos + 8] + buf[pos + 8..pos + 12];
  }

  // ---- The ICO file of a group ----

  /** The images one after another. */
  function Concat(images: seq<bytes>): bytes {
    if |images| == 0 then [] else images[0] + Concat(images[1..])
  }

  /** Where each image starts when the first starts at `start` and each
      next one right after the previous. */
  function ImageOffsets(start: nat, images: seq<bytes>): (r: seq<nat>)
    ensures |r| == |images|
    decreases |images|
  {
    if |images| == 0 then [] else [start] + ImageOffsets(start + |images[0]|, images[1..])
  }

  /** The directory entries as written to the file, each with its offset. */
  function EncodeEntries(es: seq<DirectoryEntry>, offsets: seq<nat>): (r: Result<bytes>)
    requires |offsets| == |es|
    ensures r.Ok? ==> |r.value| == FILE_ENTRY_LENGTH * |es|
    ensures (forall i | 0 <= i < |es| :: EntryFits(es[i]))
            ==> (r.Ok? <==> forall i | 0 <= i < |es| :: offsets[i] < 0x1_0000_0000)
    ensures r.Err? ==> r.error == ValueTooLarge
  {
    if |es| == 0 then Ok([])
    else
      var first :- EncodeEntry(es[0], offsets[0]);
      var rest :- EncodeEntries(es[1..], offsets[1..]);
      assert forall i | 1 <= i < |es| :: es[i] == es[1..][i - 1] && offsets[i] == offsets[1..][i - 1];
      Ok(first + rest)
  }

  /** The ICO file of a group: the directory header, one entry per directory
      entry with the offset of its image, then the images in the same order,
      the first right after the directory. `images[i]` is the data of the
      RT_ICON resource entry `i` names. */
  function IcoFile(d: Directory, images: seq<bytes>): (r: Result<bytes>)
    requires |images| == |d.entries|
    ensures r.Ok? ==> WellFormed(d) ==> |r.value| == LengthInBytes(d) + |Concat(images)|
    ensures r.Err? ==> r.error == ValueTooLarge
  {
    var header :- EncodeHeader(d);
    var entries :- EncodeEntries(d.entries, ImageOffsets(LengthInBytes(d), images));
    Ok(header + entries + Concat(images))
  }

  /** Writing the ICO file of a read directory fails only when an image
      offset does not fit the 32-bit offset field. */
  lemma IcoFileFails(d: Directory, images: seq<bytes>)
    requires WellFormed(d) && |images| == |d.entries|
    ensures IcoFile(d, images).Err?
            <==> exists i | 0 <= i < |images| :: ImageOffsets(LengthInBytes(d), images)[i] >= 0x1_0000_0000
  {
    assert forall i | 0 <= i < |d.entries| :: EntryFits(d.entries[i]);
    assert EncodeHeader(d).Ok?;
  }

  lemma {:induction false} ConcatAppend(a: seq<bytes>, b: seq<bytes>)
    ensures Concat(a + b) == Concat(a) + Concat(b)
  {
    if |a| > 0 {
      assert (a + b)[1..] == a[1..] + b;
      ConcatAppend(a[1..], b);
    } else {
      assert a + b == b;
    }
  }

  /** Image `i` sits right after the images before it. */
  lemma ConcatPart(images: seq<bytes>, i: nat)
    requires i < |images|
    ensures |Concat(images[..i])| + |images[i]| <= |Concat(images)|
    ensures Concat(images)[|Concat(images[..i])|..|Concat(images[..i])| + |images[i]|] == images[i]
  {
    assert images == images[..i] + ([images[i]] + images[i + 1..]);
    ConcatAppend(images[..i], [images[i]] + images[i + 1..]);
    ConcatAppend([images[i]], images[i + 1..]);
    assert Concat([images[i]]) == images[i];
  }

  /** Offset `i` is the start plus the lengths of the images before it. */
  lemma {:induction false} ImageOffsetsArePrefixSums(start: nat, images: seq<bytes>, i: nat)
    requires i < |images|
    ensures ImageOffsets(start, images)[i] == start + |Concat(images[..i])|
    decreases i
  {
    if i > 0 {
      ImageOffsetsArePrefixSums(start + |images[0]|, images[1..], i - 1);
      assert images[..i] == [images[0]] + images[1..][..i - 1];
      ConcatAppend([images[0]], images[1..][..i - 1]);
      assert Concat([images[0]]) == images[0];
    } else {
      assert images[..0] == [];
    }
  }

  /** Entry `i` of the encoded entries is the encoding of entry `i`. */
  lemma {:induction false} EncodeEntriesPart(es: seq<DirectoryEntry>, offsets: seq<nat>, i: nat)
    requires |offsets| == |es| && i < |es| && EncodeEntries(es, offsets).Ok?
    ensures EncodeEntry(es[i], offsets[i]).Ok?
    ensures EncodeEntries(es, offsets).value[FILE_ENTRY_LENGTH * i..FILE_ENTRY_LENGTH * (i + 1)]
            == EncodeEntry(es[i], offsets[i]).value
  {
    var all := EncodeEntries(es, offsets).value;
    var first := EncodeEntry(es[0], offsets[0]).value;
    var rest := EncodeEntries(es[1..], offsets[1..]).value;
    assert all == first + rest;
    if i > 0 {
      EncodeEntriesPart(es[1..], offsets[1..], i - 1);
      assert all[FILE_ENTRY_LENGTH * i..FILE_ENTRY_LENGTH * (i + 1)]
          == rest[FILE_ENTRY_LENGTH * (i - 1)..FILE_ENTRY_LENGTH * i];
    }
  }

  /** In a written ICO file, the offset field of entry `i` holds the position
      at which image `i` begins, and image `i` is there in full. */
  lemma IcoFileLayout(d: Directory, images: seq<bytes>, i: nat)
    requires WellFormed(d) && |images| == |d.entries| && i < |images|
    requires IcoFile(d, images).Ok?
    ensures ReadUInt(IcoFile(d, images).value, DIRECTORY_HEADER_LENGTH + FILE_ENTRY_LENGTH * i + 12, 4)
            == Ok((LengthInBytes(d) + |Concat(images[..i])|, DIRECTORY_HEADER_LENGTH + FILE_ENTRY_LENGTH * (i + 1)))
    ensures LengthInBytes(d) + |Concat(images[..i])| + |images[i]| <= |IcoFile(d, images).value|
    ensures IcoFile(d, images).value[LengthInBytes(d) + |Concat(images[..i])|..][..|images[i]|] == images[i]
  {
    var header := EncodeHeader(d).value;
    var offsets := ImageOffsets(LengthInBytes(d), images);
    var entries := EncodeEntries(d.entries, offsets).value;
    assert IcoFile(d, images).value == header + entries + Concat(images);
    ImageOffsetsArePrefixSums(LengthInBytes(d), images, i);
    EncodeEntriesPart(d.entries, offsets, i);
    OffsetField(header, entries, Concat(images), i, EncodeEntry(d.entries[i], offsets[i]).value, offsets[i]);
    ConcatPart(images, i);
    ImageField(header + entries, Concat(images), |Concat(images[..i])|, images[i]);
  }

  /** A written ICO file starts with the directory's signature, type and
      entry count, each a little-endian word. */
  lemma IcoFileHeader(d: Directory, images: seq<bytes>)
    requires |images| == |d.entries| && IcoFile(d, images).Ok?
    ensures ReadUInt(IcoFile(d, images).value, 0, 2) == Ok((d.signature, 2))
    ensures ReadUInt(IcoFile(d, images).value, 2, 2) == Ok((d.kind, 4))
    ensures ReadUInt(IcoFile(d, images).value, 4, 2) == Ok((d.count, 6))
  {
    var header := EncodeHeader(d).value;
    var entries := EncodeEntries(d.entries, ImageOffsets(LengthInBytes(d), images)).value;
    HeaderWords(header, entries + Concat(images), d);
    assert IcoFile(d, images).value == header + (entries + Concat(images));
  }

  /** The three words of an encoded header read back from anything it starts. */
  lemma HeaderWords(header: bytes, rest: bytes, d: Directory)
    requires EncodeHeader(d) == Ok(header)
    ensures ReadUInt(header + rest, 0, 2) == Ok((d.signature, 2))
    ensures ReadUInt(header + rest, 2, 2) == Ok((d.kind, 4))
    ensures ReadUInt(header + rest, 4, 2) == Ok((d.count, 6))
  {
    Pow256Widths();
    var out := header + rest;
    assert out[0..2] == header[0..2] && out[2..4] == header[2..4] && out[4..6] == header[4..6];
    ReadEncoded(out, 0, 2, d.signature);
    ReadEncoded(out, 2, 2, d.kind);
    ReadEncoded(out, 4, 2, d.count);
  }

  /** The offset field of entry `i` of the entries that follow the header. */
  lemma OffsetField(header: bytes, entries: bytes, rest: bytes, i: nat, entry: bytes, offset: nat)
    requires |header| == DIRECTORY_HEADER_LENGTH && FILE_ENTRY_LENGTH * (i + 1) <= |entries|
    requires |entry| == FILE_ENTRY_LENGTH && offset < 0x1_0000_0000
    requires entries[FILE_ENTRY_LENGTH * i..FILE_ENTRY_LENGTH * (i + 1)] == entry
    requires entry[12..] == ToLittleEndian(offset, 4)
    ensures ReadUInt(header + entries + rest, DIRECTORY_HEADER_LENGTH + FILE_ENTRY_LENGTH * i + 12, 4)
            == Ok((offset, DIRECTORY_HEADER_LENGTH + FILE_ENTRY_LENGTH * (i + 1)))
  {
    Pow256Widths();
    var out := header + entries + rest;
    var at := DIRECTORY_HEADER_LENGTH + FILE_ENTRY_LENGTH * i + 12;
    var field := entries[FILE_ENTRY_LENGTH * i + 12..FILE_ENTRY_LENGTH * (i + 1)];
    assert field == entry[12..];
    assert out[at..at + 4] == field;
    ReadEncoded(out, at, 4, offset);
  }

  /** A part found at `at` in the tail is found `|front|` further on in the whole. */
  lemma ImageField(front: bytes, tail: bytes, at: nat, image: bytes)
    requires at + |image| <= |tail| && tail[at..at + |image|] == image
    ensures |front| + at + |image| <= |front + tail|
    ensures (front + tail)[|front| + at..][..|image|] == image
  {
    assert (front + tail)[|front| + at..][..|image|] == tail[at..at + |image|];
  }

  // ---- The ICO file as `GroupIcon.export` writes it ----

  /** `GroupIcon.icons`: a dict from resource id to icon, filled in entry
      order, so a repeated id keeps its first position and holds one icon. */
  function IconsById(d: Directory, images: seq<bytes>): (icons: Dict<nat, bytes>)
    requires |images| == |d.entries|
    ensures Valid(icons)
  {
    Collect(seq(|d.entries|, i requires 0 <= i < |d.entries| => (d.entries[i].resourceId, images[i])))
  }

  /** `GroupIcon.export` as written: the offsets are computed over the
      distinct icons, the header keeps the directory's count, `zip` writes only
      as many entries as there are distinct icons, and the distinct icons'
      images follow. */
  function IcoFileAsWritten(d: Directory, images: seq<bytes>): (r: Result<bytes>)
    requires |images| == |d.entries|
    ensures r.Ok? ==> |r.value| == DIRECTORY_HEADER_LENGTH
                                  + FILE_ENTRY_LENGTH * Min(|d.entries|, |IconsById(d, images).keys|)
                                  + |Concat(Values(IconsById(d, images)))|
  {
    var values := Values(IconsById(d, images));
    var offsets := ImageOffsets(LengthInBytes(d), values);
    var n := Min(|d.entries|, |values|);
    var header :- EncodeHeader(d);
    var entries :- EncodeEntries(d.entries[..n], offsets[..n]);
    Ok(header + entries + Concat(values))
  }

  /** A group whose two directory entries name the same RT_ICON resource, a
      four-byte image. */
  function TwiceTheSameIcon(): Directory {
    var e := DirectoryEntry(16, 16, 0, 1, 4, 4, 1);
    Directory(0, 1, 2, [e, e])
  }

  const IMAGE: bytes := [1, 2, 3, 4]

  /** Both entries collapse into one dict entry. */
  lemma TwiceTheSameIconCollapses()
    ensures Values(IconsById(TwiceTheSameIcon(), [IMAGE, IMAGE])) == [IMAGE]
  {
    var d := TwiceTheSameIcon();
    var pairs := seq(|d.entries|, i requires 0 <= i < |d.entries| => (d.entries[i].resourceId, [IMAGE, IMAGE][i]));
    var one: (nat, bytes) := (1, IMAGE);
    assert pairs == [one, one];
    assert pairs[..1] == [one] && [one][..0] == [];
    var first := Collect([one]);
    assert first == Put(Collect([one][..0]), 1, IMAGE) == Put(Empty(), 1, IMAGE);
    assert first == Dict([1], map[1 := IMAGE]);
    assert Collect(pairs) == Put(first, 1, IMAGE);
  }

  /** As written, that group's file is 26 bytes long and its header still
      announces two entries, yet its only entry says the image starts at
      byte 38, past the end of the file. */
  lemma DuplicateIdCounterexample()
    ensures IcoFileAsWritten(TwiceTheSameIcon(), [IMAGE, IMAGE]).Ok?
    ensures |IcoFileAsWritten(TwiceTheSameIcon(), [IMAGE, IMAGE]).value| == 26
    ensures ReadUInt(IcoFileAsWritten(TwiceTheSameIcon(), [IMAGE, IMAGE]).value, 4, 2) == Ok((2, 6))
    ensures ReadUInt(IcoFileAsWritten(TwiceTheSameIcon(), [IMAGE, IMAGE]).value, 18, 4) == Ok((38, 22))
  {
    Pow256Widths();
    var d := TwiceTheSameIcon();
    TwiceTheSameIconCollapses();
    assert Concat([IMAGE]) == IMAGE;
    assert ImageOffsets(38, [IMAGE]) == [38];
    var header := EncodeHeader(d).value;
    var entries := EncodeEntries(d.entries[..1], [38]).value;
    var out := IcoFileAsWritten(d, [IMAGE, IMAGE]).value;
    assert out == header + entries + IMAGE;
    assert header[4..6] == ToLittleEndian(2, 2);
    assert out[4..6] == header[4..6];
    ReadEncoded(out, 4, 2, 2);
    EncodeEntriesPart(d.entries[..1], [38], 0);
    OffsetField(header, entries, IMAGE, 0, EncodeEntry(d.entries[0], 38).value, 38);
  }

  /** The corrected file of the same group is 46 bytes long and its second
      entry points at byte 42, where the second copy of the image is. */
  lemma DuplicateIdCorrected()
    ensures IcoFile(TwiceTheSameIcon(), [IMAGE, IMAGE]).Ok?
    ensures |IcoFile(TwiceTheSameIcon(), [IMAGE, IMAGE]).value| == 46
    ensures ReadUInt(IcoFile(TwiceTheSameIcon(), [IMAGE, IMAGE]).value, 34, 4) == Ok((42, 38))
    ensures IcoFile(TwiceTheSameIcon(), [IMAGE, IMAGE]).value[42..46] == IMAGE
  {
    Pow256Widths();
    var d := TwiceTheSameIcon();
    assert ImageOffsets(38, [IMAGE, IMAGE]) == [38, 42];
    IcoFileFails(d, [IMAGE, IMAGE]);
    assert [IMAGE, IMAGE][..1] == [IMAGE] && Concat([IMAGE]) == IMAGE;
    assert Concat([IMAGE, IMAGE]) == IMAGE + IMAGE;
    IcoFileLayout(d, [IMAGE, IMAGE], 1);
  }

  /** No two directory entries name the same RT_ICON resource. */
  predicate DistinctIds(d: Directory) {
    forall i, j | 0 <= i < j < |d.entries| :: d.entries[i].resourceId != d.entries[j].resourceId
  }

  /** When every entry names a different icon, the id-keyed dict loses
      nothing and the file as written is the corrected one. */
  lemma IcoFileAsWrittenAgrees(d: Directory, images: seq<bytes>)
    requires |images| == |d.entries| && DistinctIds(d)
    ensures IcoFileAsWritten(d, images) == IcoFile(d, images)
  {
    IconsByIdDistinct(d, images);
    var offsets := ImageOffsets(LengthInBytes(d), images);
    assert d.entries[..|d.entries|] == d.entries && offsets[..|d.entries|] == offsets;
  }

  /** With distinct ids the dict holds every image, in entry order. */
  lemma IconsByIdDistinct(d: Directory, images: seq<bytes>)
    requires |images| == |d.entries| && DistinctIds(d)
    ensures Values(IconsById(d, images)) == images
  {
    var pairs := seq(|d.entries|, i requires 0 <= i < |d.entries| => (d.entries[i].resourceId, images[i]));
    forall i, j | 0 <= i < j < |pairs| ensures pairs[i].0 != pairs[j].0 {
      assert pairs[i].0 == d.entries[i].resourceId && pairs[j].0 == d.entries[j].resourceId;
    }
    CollectDistinctValues(pairs);
    var values := Values(IconsById(d, images));
    forall i | 0 <= i < |images| ensures values[i] == images[i] {
      assert pairs[i].1 == images[i];
    }
  }
}
