/** RT_BITMAP resources: the BITMAPINFOHEADER a resource starts with, and the
    BITMAPFILEHEADER synthesised in front of the resource bytes to make a
    Windows BMP file.
 */
module Bitmap {
  import opened Errors
  import opened Bytes

  /** BITMAPINFOHEADER, the 40-byte DIB header; width, height and the two
      resolutions are signed. */
  datatype InfoHeader = InfoHeader(
    headerLength: nat, width: int, height: int, colorPlanes: nat, bitsPerPixel: nat,
    compression: nat, imageSize: nat, horizontalResolution: int, verticalResolution: int,
    paletteColors: nat, importantColors: nat)

  const INFO_HEADER_LENGTH: nat := 40

  /** `BitmapInfoHeader(stream)` at `pos`: eleven fixed little-endian fields
      read one after another. Nothing is validated, not even `headerLength`. */
  function ReadInfoHeader(buf: bytes, pos: nat): (r: Result<InfoHeader>)
    ensures r.Ok? <==> pos + INFO_HEADER_LENGTH <= |buf|
    ensures r.Err? ==> r.error == Truncated
    ensures r.Ok? ==> && r.value.headerLength == UIntAt(buf, pos, 4)
                      && r.value.width == Signed32(UIntAt(buf, pos + 4, 4))
                      && r.value.height == Signed32(UIntAt(buf, pos + 8, 4))
                      && r.value.colorPlanes == UIntAt(buf, pos + 12, 2)
                      && r.value.bitsPerPixel == UIntAt(buf, pos + 14, 2)
                      && r.value.compression == UIntAt(buf, pos + 16, 4)
                      && r.value.imageSize == UIntAt(buf, pos + 20, 4)
                      && r.value.horizontalResolution == Signed32(UIntAt(buf, pos + 24, 4))
                      && r.value.verticalResolution == Signed32(UIntAt(buf, pos + 28, 4))
                      && r.value.paletteColors == UIntAt(buf, pos + 32, 4)
                      && r.value.importantColors == UIntAt(buf, pos + 36, 4)
  {
    Pow256Widths();
    var headerLength :- ReadUInt(buf, pos, 4);
    var width :- ReadUInt(buf, headerLength.1, 4);
    var height :- ReadUInt(buf, width.1, 4);
    var planes :- ReadUInt(buf, height.1, 2);
    var bitsPerPixel :- ReadUInt(buf, planes.1, 2);
    var compression :- ReadUInt(buf, bitsPerPixel.1, 4);
    var imageSize :- ReadUInt(buf, compression.1, 4);
    var horizontal :- ReadUInt(buf, imageSize.1, 4);
    var vertical :- ReadUInt(buf, horizontal.1, 4);
    var palette :- ReadUInt(buf, vertical.1, 4);
    var important :- ReadUInt(buf, palette.1, 4);
    Ok(InfoHeader(headerLength.0, Signed32(width.0), Signed32(height.0), planes.0, bitsPerPixel.0,
                  compression.0, imageSize.0, Signed32(horizontal.0), Signed32(vertical.0),
                  palette.0, important.0))
  }

  /** The resource as `Bitmap.__init__` keeps it. */
  datatype Picture = Picture(info: InfoHeader, data: bytes)

  /** `Bitmap(stream, declaration, ...)` with the stream at `pos`: the info
      header is read, the stream is rewound to `pos`, and `data` is a read of
      the declared length from there, so it begins with the info header
      itself; at the end of the data fewer bytes are read. */
  function DecodeBitmap(buf: bytes, pos: nat, length: nat): (r: Result<Picture>)
    requires pos <= |buf|
    ensures r.Ok? <==> pos + INFO_HEADER_LENGTH <= |buf|
    ensures r.Err? ==> r.error == Truncated
    ensures r.Ok? ==> r.value.info == ReadInfoHeader(buf, pos).value
    ensures r.Ok? ==> r.value.data == buf[pos..Min(pos + length, |buf|)]
    ensures r.Ok? && length >= INFO_HEADER_LENGTH ==> r.value.data[..INFO_HEADER_LENGTH] == buf[pos..pos + INFO_HEADER_LENGTH]
  {
    var info :- ReadInfoHeader(buf, pos);
    Ok(Picture(info, ReadBytes(buf, pos, length).0))
  }

  // ---- BITMAPFILEHEADER ----

  /** BITMAPFILEHEADER without its signature. */
  datatype FileHeader = FileHeader(fileLength: nat, reserved1: nat, reserved2: nat, pixelDataOffset: nat)

  const FILE_HEADER_LENGTH: nat := 14

  /** The signature of a Windows bitmap file, "BM". */
  const SIGNATURE: bytes := [0x42, 0x4d]

  /** `BitmapFileHeader.encode`: signature, u32 file length, two u16 reserved
      words, u32 pixel data offset. Packing a field that does not fit fails. */
  function EncodeFileHeader(h: FileHeader): (r: Result<bytes>)
    ensures r.Ok? <==> h.fileLength < 0x1_0000_0000 && h.reserved1 < 0x1_0000
                       && h.reserved2 < 0x1_0000 && h.pixelDataOffset < 0x1_0000_0000
    ensures r.Ok? ==> |r.value| == FILE_HEADER_LENGTH && r.value[..2] == SIGNATURE
    ensures r.Err? ==> r.error == ValueTooLarge
  {
    Pow256Widths();
    var length :- Pack(h.fileLength, 4);
    var reserved1 :- Pack(h.reserved1, 2);
    var reserved2 :- Pack(h.reserved2, 2);
    var offset :- Pack(h.pixelDataOffset, 4);
    Ok(SIGNATURE + length + reserved1 + reserved2 + offset)
  }

  /** `BitmapFileHeader.decode` at `pos`: the two bytes read (fewer at the end
      of the data) must be the signature; then the four fields. */
  function DecodeFileHeader(buf: bytes, pos: nat): (r: Result<(FileHeader, nat)>)
    requires pos <= |buf|
    ensures ReadBytes(buf, pos, 2).0 != SIGNATURE ==> r == Err(NotBitmapFile)
    ensures r.Ok? <==> ReadBytes(buf, pos, 2).0 == SIGNATURE && pos + FILE_HEADER_LENGTH <= |buf|
    ensures r.Ok? ==> r.value.1 == pos + FILE_HEADER_LENGTH
  {
    var signature := ReadBytes(buf, pos, 2);
    if signature.0 != SIGNATURE then
      Err(NotBitmapFile)
    else
      var length :- ReadUInt(buf, signature.1, 4);
      var reserved1 :- ReadUInt(buf, length.1, 2);
      var reserved2 :- ReadUInt(buf, reserved1.1, 2);
      var offset :- ReadUInt(buf, reserved2.1, 4);
      Ok((FileHeader(length.0, reserved1.0, reserved2.0, offset.0), offset.1))
  }

  /** Decoding an encoded file header gives back every field. */
  lemma FileHeaderRoundTrip(h: FileHeader, buf: bytes)
    requires EncodeFileHeader(h).Ok? && buf == EncodeFileHeader(h).value
    ensures DecodeFileHeader(buf, 0) == Ok((h, FILE_HEADER_LENGTH))
  {
    Pow256Widths();
    var f0, f1, f2, f3 := ToLittleEndian(h.fileLength, 4), ToLittleEndian(h.reserved1, 2),
                          ToLittleEndian(h.reserved2, 2), ToLittleEndian(h.pixelDataOffset, 4);
    assert buf == SIGNATURE + f0 + f1 + f2 + f3;
    assert buf[0..2] == SIGNATURE;
    assert buf[2..6] == f0;
    assert buf[6..8] == f1;
    assert buf[8..10] == f2;
    assert buf[10..14] == f3;
    ReadEncoded(buf, 2, 4, h.fileLength);
    ReadEncoded(buf, 6, 2, h.reserved1);
    ReadEncoded(buf, 8, 2, h.reserved2);
    ReadEncoded(buf, 10, 4, h.pixelDataOffset);
  }

  /** Encoding a decoded file header gives back the bytes it was read from. */
  lemma FileHeaderBytesRoundTrip(buf: bytes, pos: nat)
    requires pos <= |buf| && DecodeFileHeader(buf, pos).Ok?
    ensures EncodeFileHeader(DecodeFileHeader(buf, pos).value.0) == Ok(buf[pos..pos + FILE_HEADER_LENGTH])
  {
    Pow256Widths();
    var h := DecodeFileHeader(buf, pos).value.0;
    ToLittleEndianOfValue(buf[pos + 2..pos + 6]);
    ToLittleEndianOfValue(buf[pos + 6..pos + 8]);
    ToLittleEndianOfValue(buf[pos + 8..pos + 10]);
    ToLittleEndianOfValue(buf[pos + 10..pos + 14]);
    assert buf[pos..pos + FILE_HEADER_LENGTH]
        == buf[pos..pos + 2] + buf[pos + 2..pos + 6] + buf[pos + 6..pos + 8] + buf[pos + 8..pos + 10] + buf[pos + 10..pos + 14];
  }

  // ---- Synthesising the file header ----

  const BI_BITFIELDS: nat := 3
  const BI_ALPHABITFIELDS: nat := 6

  /** Bytes of colour masks between the info header and the palette. */
  function BitfieldLength(compression: nat): (r: nat)
    ensures r == 12 <==> compression == BI_BITFIELDS
    ensures r == 16 <==> compression == BI_ALPHABITFIELDS
    ensures r == 0 <==> compression != BI_BITFIELDS && compression != BI_ALPHABITFIELDS
  {
    if compression == BI_BITFIELDS then 12
    else if compression == BI_ALPHABITFIELDS then 16
    else 0
  }

  /** Four bytes per palette entry; a palette count of zero means the full
      `2^bitsPerPixel` entries. */
  function PaletteLength(info: InfoHeader): (r: nat)
    ensures r % 4 == 0
    ensures info.paletteColors > 0 ==> r == 4 * info.paletteColors
    ensures info.paletteColors == 0 ==> r == 4 * Pow2(info.bitsPerPixel) && r >= 4
  {
    var entries := if info.paletteColors == 0 then Pow2(info.bitsPerPixel) else info.paletteColors;
    4 * entries
  }

  /** `Bitmap.bitmap_file_header`. */
  function FileHeaderFor(p: Picture): (h: FileHeader)
    ensures h.fileLength == FILE_HEADER_LENGTH + |p.data|
    ensures h.reserved1 == 0 && h.reserved2 == 0
    ensures h.pixelDataOffset >= FILE_HEADER_LENGTH + p.info.headerLength + 4
  {
    FileHeader(FILE_HEADER_LENGTH + |p.data|, 0, 0,
               FILE_HEADER_LENGTH + p.info.headerLength + BitfieldLength(p.info.compression) + PaletteLength(p.info))
  }

  /** `Bitmap.write_bmp_file`: the synthesised file header, then `data`. */
  function BmpFile(p: Picture): (r: Result<bytes>)
    ensures r.Err? <==> (FILE_HEADER_LENGTH + |p.data| >= 0x1_0000_0000
                         || FileHeaderFor(p).pixelDataOffset >= 0x1_0000_0000)
    ensures r.Err? ==> r.error == ValueTooLarge
    ensures r.Ok? ==> |r.value| == FILE_HEADER_LENGTH + |p.data|
    ensures r.Ok? ==> r.value[..FILE_HEADER_LENGTH] == EncodeFileHeader(FileHeaderFor(p)).value
    ensures r.Ok? ==> r.value[FILE_HEADER_LENGTH..] == p.data
  {
    var header :- EncodeFileHeader(FileHeaderFor(p));
    Ok(header + p.data)
  }

  /** A written BMP file reads back as a bitmap file whose declared length is
      its actual length and whose pixel offset counts the file header, the
      info header as it declares its own length, the bitfield masks and the
      palette. */
  lemma BmpFileReadsBack(p: Picture)
    requires BmpFile(p).Ok?
    ensures DecodeFileHeader(BmpFile(p).value, 0).Ok?
    ensures DecodeFileHeader(BmpFile(p).value, 0).value.0.fileLength == |BmpFile(p).value|
    ensures DecodeFileHeader(BmpFile(p).value, 0).value.0.pixelDataOffset
            == FILE_HEADER_LENGTH + p.info.headerLength + BitfieldLength(p.info.compression) + PaletteLength(p.info)
  {
    var out := BmpFile(p).value;
    var header := EncodeFileHeader(FileHeaderFor(p)).value;
    FileHeaderRoundTrip(FileHeaderFor(p), header);
    assert out[..FILE_HEADER_LENGTH] == header;
    DecodePrefix(out, header);
  }

  /** Only the first fourteen bytes matter to the file header decoder. */
  lemma DecodePrefix(buf: bytes, header: bytes)
    requires |header| == FILE_HEADER_LENGTH <= |buf| && buf[..FILE_HEADER_LENGTH] == header
    ensures DecodeFileHeader(buf, 0) == DecodeFileHeader(header, 0)
  {
    assert buf[0..2] == header[0..2];
    assert buf[2..6] == header[2..6];
    assert buf[6..8] == header[6..8];
    assert buf[8..10] == header[8..10];
    assert buf[10..14] == header[10..14];
  }
}
