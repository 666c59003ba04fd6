/** Type and id words of the resource table and the length-prefixed names
    they may point to (`ResourceString`).
 */
module ResourceNames {
  import opened Errors
  import opened Bytes
  import opened ResourceTypes

  /** `buffer.find(b'\x00')`, with "not found" given as `|bs|`. */
  function FirstNul(bs: bytes): (r: nat)
    ensures r <= |bs|
    ensures forall j | 0 <= j < r :: bs[j] != 0
    ensures r < |bs| ==> bs[r] == 0
  {
    if |bs| == 0 || bs[0] == 0 then 0 else 1 + FirstNul(bs[1..])
  }

  /** `ResourceString(stream, offset).string`: seek to the absolute `offset`,
      read a length byte and that many bytes (fewer at the end of the data),
      cut them at the first NUL and decode them as ASCII. The caller's stream
      position is restored afterwards, which here means it is neither an
      input nor an output. */
  function ReadName(buf: bytes, offset: nat): (r: Result<string>)
    ensures offset > |buf| ==> r == Err(SeekOutOfRange(offset))
    ensures offset == |buf| ==> r == Err(Truncated)
    ensures r.Ok? ==> offset < |buf| && |r.value| <= buf[offset] && IsAsciiText(r.value)
    ensures r.Ok? ==> forall i | 0 <= i < |r.value| :: r.value[i] != 0 as char
  {
    var at :- Seek(buf, offset);
    var length :- ReadUInt(buf, at, 1);
    assert length.0 == buf[offset];
    if length.0 > 0 then
      var raw := ReadBytes(buf, length.1, length.0).0;
      DecodeAscii(raw[..FirstNul(raw)])
    else
      Ok("")
  }

  /** The Pascal string holding `s`: one length byte, then the characters. */
  function PascalString(s: string): (bs: bytes)
    requires IsAsciiText(s) && |s| < 0x100
    ensures |bs| == |s| + 1
  {
    [|s|] + AsciiBytes(s)
  }

  /** A name read back from where it was written is the name written, and
      any bytes after a NUL within the declared length are ignored, whatever
      they are. With `garbage == []` this is the plain round trip. */
  lemma NameRoundTrip(buf: bytes, offset: nat, s: string, garbage: bytes)
    requires IsAsciiText(s) && (forall i | 0 <= i < |s| :: s[i] != 0 as char)
    requires |s| + 1 + |garbage| < 0x100
    requires |garbage| > 0 ==> garbage[0] == 0
    requires offset + |s| + 1 + |garbage| <= |buf|
    requires buf[offset..offset + |s| + 1 + |garbage|] == [|s| + |garbage|] + AsciiBytes(s) + garbage
    ensures ReadName(buf, offset) == Ok(s)
  {
    var whole := [|s| + |garbage|] + AsciiBytes(s) + garbage;
    assert buf[offset] == whole[0];
    var raw := ReadBytes(buf, offset + 1, |s| + |garbage|).0;
    assert raw == whole[1..];
    assert raw == AsciiBytes(s) + garbage;
    NulAfterText(s, garbage);
    assert raw[..FirstNul(raw)] == AsciiBytes(s);
    AsciiRoundTrip(s);
  }

  /** The first NUL after a NUL-free text is where the text ends. */
  lemma NulAfterText(s: string, garbage: bytes)
    requires IsAsciiText(s) && (forall i | 0 <= i < |s| :: s[i] != 0 as char)
    requires |garbage| > 0 ==> garbage[0] == 0
    ensures FirstNul(AsciiBytes(s) + garbage) == |s|
  {
    var raw := AsciiBytes(s) + garbage;
    assert forall j | 0 <= j < |s| :: raw[j] == s[j] as int && raw[j] != 0;
    assert |garbage| > 0 ==> raw[|s|] == 0;
  }

  /** `raw & 0x8000`: the word holds a number rather than a name offset. */
  predicate HighBitSet(raw: nat) {
    (raw / 0x8000) % 2 == 1
  }

  /** `raw & 0x7fff`. */
  function Low15(raw: nat): nat {
    raw % 0x8000
  }

  /** A type word: with the high bit set, its low 15 bits are the type code
      (the enum member when it is one); otherwise it is the offset of the
      type's name from the start of the resource table. */
  function DecodeTypeWord(buf: bytes, tableStart: nat, raw: nat): (r: Result<TypeKey>)
    requires raw < 0x1_0000
    ensures raw >= 0x8000 ==> r == Ok(KeyOfCode(raw - 0x8000))
    ensures raw < 0x8000 ==> r == (match ReadName(buf, tableStart + raw)
                                   case Ok(s) => Ok(Named(s))
                                   case Err(e) => Err(e))
  {
    if HighBitSet(raw) then
      Ok(KeyOfCode(Low15(raw)))
    else
      var name :- ReadName(buf, tableStart + raw);
      Ok(Named(name))
  }

  /** An id word: with the high bit set, its low 15 bits are the id;
      otherwise it is the offset of the resource's name from the start of
      the resource table. */
  function DecodeIdWord(buf: bytes, tableStart: nat, raw: nat): (r: Result<ResourceId>)
    requires raw < 0x1_0000
    ensures raw >= 0x8000 ==> r == Ok(IntId(raw - 0x8000))
    ensures raw < 0x8000 ==> r == (match ReadName(buf, tableStart + raw)
                                   case Ok(s) => Ok(NameId(s))
                                   case Err(e) => Err(e))
  {
    if HighBitSet(raw) then
      Ok(IntId(Low15(raw)))
    else
      var name :- ReadName(buf, tableStart + raw);
      Ok(NameId(name))
  }
}
