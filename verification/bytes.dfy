/** The byte source and its little-endian field readers.

    The executable is a read-only memory map: seeking beyond its end fails,
    `read(n)` returns fewer than `n` bytes at the end without failing, and
    unpacking a fixed-width field from a short read fails. A stream position
    is a plain `nat` threaded through the readers, so a reader that "restores
    the cursor" simply does not return a new position.
 */
module Bytes {
  import opened Errors

  type byte = b: int | 0 <= b < 0x100
  type bytes = seq<byte>

  function Min(a: int, b: int): int {
    if a <= b then a else b
  }

  function Pow2(n: nat): (r: nat)
    ensures r >= 1
  {
    if n == 0 then 1 else 2 * Pow2(n - 1)
  }

  function Pow256(n: nat): (r: nat)
    ensures r >= 1
  {
    if n == 0 then 1 else 0x100 * Pow256(n - 1)
  }

  /** The widths of the fields the formats use. */
  lemma Pow256Widths()
    ensures Pow256(1) == 0x100 && Pow256(2) == 0x1_0000 && Pow256(4) == 0x1_0000_0000
  {
    assert Pow256(2) == 0x100 * Pow256(1);
    assert Pow256(4) == 0x100 * Pow256(3) == 0x1_0000 * Pow256(2);
  }

  /** `x << s` on Python's unbounded integers. */
  function ShiftLeft(x: nat, s: nat): nat {
    x * Pow2(s)
  }

  /** Unsigned little-endian value of `bs`. */
  function LittleEndian(bs: bytes): nat {
    if |bs| == 0 then 0 else bs[0] + 0x100 * LittleEndian(bs[1..])
  }

  /** `struct.pack` of an unsigned little-endian field `n` bytes wide. */
  function ToLittleEndian(v: nat, n: nat): (r: bytes)
    requires v < Pow256(n)
    ensures |r| == n
  {
    if n == 0 then []
    else
      assert v / 0x100 < Pow256(n - 1);
      [v % 0x100] + ToLittleEndian(v / 0x100, n - 1)
  }

  /** An `n`-byte field can hold only values below 256^n. */
  lemma {:induction false} LittleEndianBound(bs: bytes)
    ensures LittleEndian(bs) < Pow256(|bs|)
  {
    if |bs| > 0 {
      LittleEndianBound(bs[1..]);
    }
  }

  /** Packing then unpacking a field gives back the value. */
  lemma {:induction false} LittleEndianRoundTrip(v: nat, n: nat)
    requires v < Pow256(n)
    ensures LittleEndian(ToLittleEndian(v, n)) == v
  {
    if n > 0 {
      var r := ToLittleEndian(v, n);
      LittleEndianRoundTrip(v / 0x100, n - 1);
      assert r[1..] == ToLittleEndian(v / 0x100, n - 1);
    }
  }

  /** Unpacking then packing a field gives back its bytes. */
  lemma {:induction false} ToLittleEndianOfValue(bs: bytes)
    ensures LittleEndian(bs) < Pow256(|bs|)
    ensures ToLittleEndian(LittleEndian(bs), |bs|) == bs
  {
    LittleEndianBound(bs);
    if |bs| > 0 {
      ToLittleEndianOfValue(bs[1..]);
      var v := LittleEndian(bs);
      assert v % 0x100 == bs[0] && v / 0x100 == LittleEndian(bs[1..]);
    }
  }

  /** Two's-complement reading of a 32-bit field. */
  function Signed32(u: nat): (r: int)
    requires u < 0x1_0000_0000
    ensures -0x8000_0000 <= r < 0x8000_0000
    ensures (r - u) % 0x1_0000_0000 == 0
  {
    if u < 0x8000_0000 then u else u - 0x1_0000_0000
  }

  /** `struct.unpack` of an `n`-byte unsigned little-endian field at `pos`:
      the value and the position after it. */
  function ReadUInt(buf: bytes, pos: nat, n: nat): (r: Result<(nat, nat)>)
    ensures r.Ok? <==> pos + n <= |buf|
    ensures r.Ok? ==> r.value.1 == pos + n && r.value.0 < Pow256(n)
    ensures r.Err? ==> r.error == Truncated
  {
    if pos + n <= |buf| then
      LittleEndianBound(buf[pos..pos + n]);
      Ok((LittleEndian(buf[pos..pos + n]), pos + n))
    else
      Err(Truncated)
  }

  /** The value of the `n`-byte field at `pos`, when the data holds it. */
  function UIntAt(buf: bytes, pos: nat, n: nat): (v: nat)
    requires pos + n <= |buf|
    ensures v < Pow256(n)
    ensures ReadUInt(buf, pos, n) == Ok((v, pos + n))
  {
    LittleEndianBound(buf[pos..pos + n]);
    LittleEndian(buf[pos..pos + n])
  }

  /** A field written with `ToLittleEndian` reads back as its value. */
  lemma ReadEncoded(buf: bytes, pos: nat, n: nat, v: nat)
    requires v < Pow256(n)
    requires pos + n <= |buf| && buf[pos..pos + n] == ToLittleEndian(v, n)
    ensures ReadUInt(buf, pos, n) == Ok((v, pos + n))
  {
    LittleEndianRoundTrip(v, n);
  }

  /** `struct.pack` of an unsigned little-endian field `n` bytes wide, which
      fails (`struct.error`) when the value does not fit. */
  function Pack(v: nat, n: nat): (r: Result<bytes>)
    ensures r.Ok? <==> v < Pow256(n)
    ensures r.Ok? ==> r.value == ToLittleEndian(v, n) && |r.value| == n
    ensures r.Err? ==> r.error == ValueTooLarge
  {
    if v < Pow256(n) then Ok(ToLittleEndian(v, n)) else Err(ValueTooLarge)
  }

  /** `buf` holds `bs` starting at `pos`. */
  predicate HoldsAt(buf: bytes, pos: nat, bs: bytes) {
    pos + |bs| <= |buf| && buf[pos..pos + |bs|] == bs
  }

  /** `stream.read(n)`: at most `n` bytes, fewer at the end of the data. */
  function ReadBytes(buf: bytes, pos: nat, n: nat): (r: (bytes, nat))
    requires pos <= |buf|
    ensures r.1 == Min(pos + n, |buf|) && r.0 == buf[pos..r.1]
  {
    var end := Min(pos + n, |buf|);
    (buf[pos..end], end)
  }

  /** `stream.seek(offset)` on the memory map. */
  function Seek(buf: bytes, offset: nat): (r: Result<nat>)
    ensures r.Ok? <==> offset <= |buf|
    ensures r.Ok? ==> r.value == offset
    ensures r.Err? ==> r.error == SeekOutOfRange(offset)
  {
    if offset <= |buf| then Ok(offset) else Err(SeekOutOfRange(offset))
  }

  predicate IsAscii(bs: bytes) {
    forall i | 0 <= i < |bs| :: bs[i] < 0x80
  }

  predicate IsAsciiText(s: string) {
    forall i | 0 <= i < |s| :: s[i] as int < 0x80
  }

  /** The characters of ASCII bytes. */
  function AsciiText(bs: bytes): (s: string)
    requires IsAscii(bs)
    ensures |s| == |bs| && IsAsciiText(s)
    ensures forall i | 0 <= i < |bs| :: s[i] as int == bs[i]
  {
    seq(|bs|, i requires 0 <= i < |bs| => bs[i] as char)
  }

  /** The bytes of ASCII text. */
  function AsciiBytes(s: string): (bs: bytes)
    requires IsAsciiText(s)
    ensures |bs| == |s| && IsAscii(bs)
    ensures forall i | 0 <= i < |s| :: bs[i] == s[i] as int
  {
    seq(|s|, i requires 0 <= i < |s| => s[i] as int)
  }

  /** `bytes.decode('ascii')`. */
  function DecodeAscii(bs: bytes): (r: Result<string>)
    ensures r.Ok? <==> IsAscii(bs)
    ensures r.Ok? ==> |r.value| == |bs| && IsAsciiText(r.value) && AsciiBytes(r.value) == bs
    ensures r.Err? ==> r.error == NotAscii
  {
    if IsAscii(bs) then
      var s := AsciiText(bs);
      assert AsciiBytes(s) == bs;
      Ok(s)
    else
      Err(NotAscii)
  }

  lemma AsciiRoundTrip(s: string)
    requires IsAsciiText(s)
    ensures DecodeAscii(AsciiBytes(s)) == Ok(s)
  {
    assert AsciiText(AsciiBytes(s)) == s;
  }
}
