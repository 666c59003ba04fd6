/** RT_RCDATA and every type without a decoder of its own: the declared
    number of bytes from the current position, uninterpreted. It is also the
    decoder retried when another one fails.
 */
module ApplicationDefinedData {
  import opened Bytes

  /** `ApplicationDefinedData(stream, declaration, ...).data`: a read of the
      declared length, so fewer bytes at the end of the data and never an
      error. */
  function ReadRaw(buf: bytes, pos: nat, length: nat): (data: bytes)
    requires pos <= |buf|
    ensures |data| == Min(length, |buf| - pos)
    ensures forall i | 0 <= i < |data| :: data[i] == buf[pos + i]
    ensures pos + length <= |buf| ==> |data| == length
  {
    ReadBytes(buf, pos, length).0
  }
}
