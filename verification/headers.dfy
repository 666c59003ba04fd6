/** The DOS (MZ) stub and the NE header that `NE.__init__` reads before the
    resource table: signature checks, the field layout, and the values
    derived from it.
 */
module Headers {
  import opened Errors
  import opened Bytes
  import opened Decimal

  const MZ_SIGNATURE: bytes := [0x4d, 0x5a]
  const NE_SIGNATURE: bytes := [0x4e, 0x45]
  const PE_SIGNATURE: bytes := [0x50, 0x45]

  /** Where the stub says the NE header starts, and the word that says there
      is such an offset at all. */
  const HAS_OFFSET_FIELD: nat := 0x18
  const NE_OFFSET_FIELD: nat := 0x3c

  /** The `MZ` object: all it keeps is the NE header offset. */
  datatype MzStub = MzStub(neHeaderOffset: nat)

  /** `MZ(stream)` with the stream at the start of the data. The signature is
      read with a clipped `read(2)`, so data shorter than two bytes is simply
      not an MZ stub; the two words after it are seeked to and unpacked. */
  function ReadMz(buf: bytes): (r: Result<MzStub>)
    ensures r.Ok? <==> && HoldsAt(buf, 0, MZ_SIGNATURE)
                       && NE_OFFSET_FIELD + 2 <= |buf|
                       && UIntAt(buf, HAS_OFFSET_FIELD, 2) >= 0x40
    ensures r.Ok? ==> r.value.neHeaderOffset == UIntAt(buf, NE_OFFSET_FIELD, 2)
    ensures !HoldsAt(buf, 0, MZ_SIGNATURE) ==> r == Err(NotNewExecutable)
    ensures HoldsAt(buf, 0, MZ_SIGNATURE) && |buf| < HAS_OFFSET_FIELD ==>
              r == Err(SeekOutOfRange(HAS_OFFSET_FIELD))
    ensures HoldsAt(buf, 0, MZ_SIGNATURE) && HAS_OFFSET_FIELD <= |buf| < HAS_OFFSET_FIELD + 2 ==>
              r == Err(Truncated)
    ensures HAS_OFFSET_FIELD + 2 <= |buf| && UIntAt(buf, HAS_OFFSET_FIELD, 2) < 0x40 ==>
              r.Err? && r.error.NotNewExecutable?
    ensures HoldsAt(buf, 0, MZ_SIGNATURE) && HAS_OFFSET_FIELD + 2 <= |buf| && UIntAt(buf, HAS_OFFSET_FIELD, 2) >= 0x40 ==>
              (|buf| < NE_OFFSET_FIELD ==> r == Err(SeekOutOfRange(NE_OFFSET_FIELD)))
              && (NE_OFFSET_FIELD <= |buf| < NE_OFFSET_FIELD + 2 ==> r == Err(Truncated))
  {
    var signature := ReadBytes(buf, 0, 2).0;
    if signature != MZ_SIGNATURE then Err(NotNewExecutable)
    else
      var here :- Seek(buf, HAS_OFFSET_FIELD);
      var hasOffset :- ReadUInt(buf, here, 2);
      if hasOffset.0 < 0x40 then Err(NotNewExecutable)
      else
        var there :- Seek(buf, NE_OFFSET_FIELD);
        var offset :- ReadUInt(buf, there, 2);
        Ok(MzStub(offset.0))
  }

  /** `NEHeader.TargetOperatingSystem`. */
  datatype TargetOs =
    | UnknownOs | Os2 | Windows3x | MsDos4 | Windows386 | Boss
    | PharLapDosExtenderOs2 | PharLapDosExtenderWindows

  function TargetOsCode(t: TargetOs): nat {
    match t
    case UnknownOs => 0x00
    case Os2 => 0x01
    case Windows3x => 0x02
    case MsDos4 => 0x03
    case Windows386 => 0x04
    case Boss => 0x05
    case PharLapDosExtenderOs2 => 0x81
    case PharLapDosExtenderWindows => 0x82
  }

  predicate IsTargetOsCode(n: nat) {
    n <= 5 || n == 0x81 || n == 0x82
  }

  /** `TargetOperatingSystem(n)`: the member with that value, or the enum's
      ValueError. */
  function TargetOsOf(n: nat): (r: Result<TargetOs>)
    ensures r.Ok? <==> IsTargetOsCode(n)
    ensures r.Ok? ==> TargetOsCode(r.value) == n
    ensures r.Err? ==> r.error == UnknownTargetOs(n)
  {
    if n == 0x00 then Ok(UnknownOs)
    else if n == 0x01 then Ok(Os2)
    else if n == 0x02 then Ok(Windows3x)
    else if n == 0x03 then Ok(MsDos4)
    else if n == 0x04 then Ok(Windows386)
    else if n == 0x05 then Ok(Boss)
    else if n == 0x81 then Ok(PharLapDosExtenderOs2)
    else if n == 0x82 then Ok(PharLapDosExtenderWindows)
    else Err(UnknownTargetOs(n))
  }

  /** Every member converts back from its own value. */
  lemma TargetOsRoundTrip(t: TargetOs)
    ensures TargetOsOf(TargetOsCode(t)) == Ok(t)
  {
  }

  /** The fields of an `NEHeader`, in file order. Offsets marked "from the
      header" are relative to `startOffset`. */
  datatype NeHeader = NeHeader(
    startOffset: nat,
    linkerVersion: nat,
    linkerRevision: nat,
    entryTableOffset: nat,
    entryTableLength: nat,
    crc32: nat,
    executableContentFlags: nat,
    automaticDataSegment: nat,
    initialHeapSize: nat,
    initialStackSize: nat,
    csIp: nat,
    ssSp: nat,
    segmentTableEntryCount: nat,
    moduleReferenceTableCount: nat,
    nonresidentNameTableSize: nat,
    segmentTableOffsetFromHeader: nat,
    resourceTableOffsetFromHeader: nat,
    residentNameTableOffsetFromHeader: nat,
    moduleReferenceTableOffsetFromHeader: nat,
    importedNameTableOffsetFromHeader: nat,
    nonresidentNameTableOffset: nat,
    movableEntryCount: nat,
    sectorAlignmentShift: nat,
    resourceEntryCount: nat,
    targetOs: TargetOs,
    os2Flags: nat,
    thunkOffset: nat,
    segmentReferenceThunks: nat,
    minimumCodeSwapAreaSize: nat,
    expectedWindowsRevision: nat,
    expectedWindowsMajorVersion: nat)

  /** Where the target-OS byte sits, and the size of the whole header. */
  const TARGET_OS_FIELD: nat := 0x36
  const HEADER_LENGTH: nat := 0x40

  /** The header's fields are the little-endian values at their fixed
      offsets from `start`. */
  ghost predicate FieldsAt(buf: bytes, start: nat, h: NeHeader)
    requires start + HEADER_LENGTH <= |buf|
  {
    FrontAt(buf, start, h) && TailAt(buf, start, h)
  }

  /** The fields before the target-OS byte. */
  ghost predicate FrontAt(buf: bytes, start: nat, h: NeHeader)
    requires start + TARGET_OS_FIELD <= |buf|
  {
    FirstAt(buf, start, h) && MiddleAt(buf, start, h)
  }

  /** Where the segment count begins: the first and the middle stretch of
      fields meet there. */
  const MIDDLE_FIELDS: nat := 0x1c

  /** The fields from the linker version to the initial SS:SP. */
  ghost predicate FirstAt(buf: bytes, start: nat, h: NeHeader)
    requires start + MIDDLE_FIELDS <= |buf|
  {
    && h.startOffset == start
    && h.linkerVersion == buf[start + 0x02]
    && h.linkerRevision == buf[start + 0x03]
    && h.entryTableOffset == UIntAt(buf, start + 0x04, 2)
    && h.entryTableLength == UIntAt(buf, start + 0x06, 2)
    && h.crc32 == UIntAt(buf, start + 0x08, 4)
    && h.executableContentFlags == UIntAt(buf, start + 0x0c, 2)
    && h.automaticDataSegment == UIntAt(buf, start + 0x0e, 2)
    && h.initialHeapSize == UIntAt(buf, start + 0x10, 2)
    && h.initialStackSize == UIntAt(buf, start + 0x12, 2)
    && h.csIp == UIntAt(buf, start + 0x14, 4)
    && h.ssSp == UIntAt(buf, start + 0x18, 4)
  }

  /** The fields from the segment count to the resource entry count. */
  ghost predicate MiddleAt(buf: bytes, start: nat, h: NeHeader)
    requires start + TARGET_OS_FIELD <= |buf|
  {
    && h.segmentTableEntryCount == UIntAt(buf, start + 0x1c, 2)
    && h.moduleReferenceTableCount == UIntAt(buf, start + 0x1e, 2)
    && h.nonresidentNameTableSize == UIntAt(buf, start + 0x20, 2)
    && h.segmentTableOffsetFromHeader == UIntAt(buf, start + 0x22, 2)
    && h.resourceTableOffsetFromHeader == UIntAt(buf, start + 0x24, 2)
    && h.residentNameTableOffsetFromHeader == UIntAt(buf, start + 0x26, 2)
    && h.moduleReferenceTableOffsetFromHeader == UIntAt(buf, start + 0x28, 2)
    && h.importedNameTableOffsetFromHeader == UIntAt(buf, start + 0x2a, 2)
    && h.nonresidentNameTableOffset == UIntAt(buf, start + 0x2c, 4)
    && h.movableEntryCount == UIntAt(buf, start + 0x30, 2)
    && h.sectorAlignmentShift == UIntAt(buf, start + 0x32, 2)
    && h.resourceEntryCount == UIntAt(buf, start + 0x34, 2)
  }

  /** The target-OS byte and the fields after it. */
  ghost predicate TailAt(buf: bytes, start: nat, h: NeHeader)
    requires start + HEADER_LENGTH <= |buf|
  {
    && TargetOsCode(h.targetOs) == buf[start + TARGET_OS_FIELD]
    && h.os2Flags == buf[start + 0x37]
    && h.thunkOffset == UIntAt(buf, start + 0x38, 2)
    && h.segmentReferenceThunks == UIntAt(buf, start + 0x3a, 2)
    && h.minimumCodeSwapAreaSize == UIntAt(buf, start + 0x3c, 2)
    && h.expectedWindowsRevision == buf[start + 0x3e]
    && h.expectedWindowsMajorVersion == buf[start + 0x3f]
  }

  /** `NEHeader(stream)` with the stream at `start`: the signature, then
      every field unpacked in turn from the cursor. A short read of any
      field before the target-OS byte, an unknown target OS, and a short
      read of any field after it fail in that order. */
  function ReadNeHeader(buf: bytes, start: nat): (r: Result<NeHeader>)
    requires start <= |buf|
    ensures r.Ok? <==> && HoldsAt(buf, start, NE_SIGNATURE)
                       && start + HEADER_LENGTH <= |buf|
                       && IsTargetOsCode(buf[start + TARGET_OS_FIELD])
    ensures r.Ok? ==> FieldsAt(buf, start, r.value)
    ensures !HoldsAt(buf, start, NE_SIGNATURE) ==>
              r == if HoldsAt(buf, start, PE_SIGNATURE) then Err(IsPortableExecutable) else Err(NotNewExecutable)
    ensures HoldsAt(buf, start, NE_SIGNATURE) && |buf| <= start + TARGET_OS_FIELD ==> r == Err(Truncated)
    ensures HoldsAt(buf, start, NE_SIGNATURE) && start + TARGET_OS_FIELD < |buf| ==>
              (!IsTargetOsCode(buf[start + TARGET_OS_FIELD]) ==> r == Err(UnknownTargetOs(buf[start + TARGET_OS_FIELD])))
              && (IsTargetOsCode(buf[start + TARGET_OS_FIELD]) && |buf| < start + HEADER_LENGTH ==> r == Err(Truncated))
  {
    var signature := ReadBytes(buf, start, 2).0;
    if signature != NE_SIGNATURE then
      if signature == PE_SIGNATURE then Err(IsPortableExecutable) else Err(NotNewExecutable)
    else
      ReadFields(buf, start)
  }

  /** The field reads of `NEHeader.__init__` after the signature, up to the
      initial SS:SP; `ReadMiddle` and `ReadTail` read the rest into the same
      record. The cursor reads the fields back to back, so each one starts at
      the fixed offset where the one before it ended, written out here. */
  function ReadFields(buf: bytes, start: nat): (r: Result<NeHeader>)
    ensures r.Ok? <==> start + HEADER_LENGTH <= |buf| && IsTargetOsCode(buf[start + TARGET_OS_FIELD])
    ensures r.Ok? ==> FieldsAt(buf, start, r.value)
    ensures r.Err? ==> r.error == if start + TARGET_OS_FIELD < |buf| && !IsTargetOsCode(buf[start + TARGET_OS_FIELD])
                                  then UnknownTargetOs(buf[start + TARGET_OS_FIELD]) else Truncated
  {
    var linkerVersion :- ReadUInt(buf, start + 0x02, 1);
    var linkerRevision :- ReadUInt(buf, start + 0x03, 1);
    var entryTableOffset :- ReadUInt(buf, start + 0x04, 2);
    var entryTableLength :- ReadUInt(buf, start + 0x06, 2);
    var crc32 :- ReadUInt(buf, start + 0x08, 4);
    var flags :- ReadUInt(buf, start + 0x0c, 2);
    var automaticDataSegment :- ReadUInt(buf, start + 0x0e, 2);
    var heap :- ReadUInt(buf, start + 0x10, 2);
    var stack :- ReadUInt(buf, start + 0x12, 2);
    var csIp :- ReadUInt(buf, start + 0x14, 4);
    var ssSp :- ReadUInt(buf, start + 0x18, 4);
    ReadMiddle(buf, start, NeHeader(
      start, linkerVersion.0, linkerRevision.0, entryTableOffset.0, entryTableLength.0, crc32.0,
      flags.0, automaticDataSegment.0, heap.0, stack.0, csIp.0, ssSp.0,
      0, 0, 0, 0, 0, 0, 0, 0, 0, 0, 0, 0, UnknownOs, 0, 0, 0, 0, 0, 0))
  }

  /** The reads from the segment count to the resource entry count, filling
      in `h`, then the rest by `ReadTail`. */
  function ReadMiddle(buf: bytes, start: nat, h: NeHeader): (r: Result<NeHeader>)
    ensures r.Ok? <==> start + HEADER_LENGTH <= |buf| && IsTargetOsCode(buf[start + TARGET_OS_FIELD])
    ensures r.Ok? ==> && MiddleAt(buf, start, r.value) && TailAt(buf, start, r.value)
                      && (FirstAt(buf, start, h) ==> FirstAt(buf, start, r.value))
    ensures r.Err? ==> r.error == if start + TARGET_OS_FIELD < |buf| && !IsTargetOsCode(buf[start + TARGET_OS_FIELD])
                                  then UnknownTargetOs(buf[start + TARGET_OS_FIELD]) else Truncated
  {
    var segmentCount :- ReadUInt(buf, start + MIDDLE_FIELDS, 2);
    var moduleReferenceCount :- ReadUInt(buf, segmentCount.1, 2);
    var nonresidentSize :- ReadUInt(buf, moduleReferenceCount.1, 2);
    var segmentTable :- ReadUInt(buf, nonresidentSize.1, 2);
    var resourceTable :- ReadUInt(buf, segmentTable.1, 2);
    var residentNames :- ReadUInt(buf, resourceTable.1, 2);
    var moduleReferences :- ReadUInt(buf, residentNames.1, 2);
    var importedNames :- ReadUInt(buf, moduleReferences.1, 2);
    var nonresidentNames :- ReadUInt(buf, importedNames.1, 4);
    var movable :- ReadUInt(buf, nonresidentNames.1, 2);
    var shift :- ReadUInt(buf, movable.1, 2);
    var resourceCount :- ReadUInt(buf, shift.1, 2);
    ReadTail(buf, start, h.(
      segmentTableEntryCount := segmentCount.0, moduleReferenceTableCount := moduleReferenceCount.0,
      nonresidentNameTableSize := nonresidentSize.0, segmentTableOffsetFromHeader := segmentTable.0,
      resourceTableOffsetFromHeader := resourceTable.0, residentNameTableOffsetFromHeader := residentNames.0,
      moduleReferenceTableOffsetFromHeader := moduleReferences.0,
      importedNameTableOffsetFromHeader := importedNames.0, nonresidentNameTableOffset := nonresidentNames.0,
      movableEntryCount := movable.0, sectorAlignmentShift := shift.0, resourceEntryCount := resourceCount.0))
  }

  /** The reads from the target-OS byte on, filling in the rest of `h`. */
  function ReadTail(buf: bytes, start: nat, h: NeHeader): (r: Result<NeHeader>)
    ensures r.Ok? <==> start + HEADER_LENGTH <= |buf| && IsTargetOsCode(buf[start + TARGET_OS_FIELD])
    ensures r.Ok? ==> && TailAt(buf, start, r.value)
                      && (FirstAt(buf, start, h) ==> FirstAt(buf, start, r.value))
                      && (MiddleAt(buf, start, h) ==> MiddleAt(buf, start, r.value))
    ensures r.Err? ==> r.error == if start + TARGET_OS_FIELD < |buf| && !IsTargetOsCode(buf[start + TARGET_OS_FIELD])
                                  then UnknownTargetOs(buf[start + TARGET_OS_FIELD]) else Truncated
  {
    var os :- ReadUInt(buf, start + TARGET_OS_FIELD, 1);
    var targetOs :- TargetOsOf(os.0);
    var os2Flags :- ReadUInt(buf, os.1, 1);
    var thunks :- ReadUInt(buf, os2Flags.1, 2);
    var segmentThunks :- ReadUInt(buf, thunks.1, 2);
    var swapArea :- ReadUInt(buf, segmentThunks.1, 2);
    var revision :- ReadUInt(buf, swapArea.1, 1);
    var major :- ReadUInt(buf, revision.1, 1);
    Ok(h.(targetOs := targetOs, os2Flags := os2Flags.0, thunkOffset := thunks.0,
          segmentReferenceThunks := segmentThunks.0, minimumCodeSwapAreaSize := swapArea.0,
          expectedWindowsRevision := revision.0, expectedWindowsMajorVersion := major.0))
  }

  /** `resource_table_offset`: the stored offset is from the header start. */
  function ResourceTableOffset(h: NeHeader): nat {
    h.startOffset + h.resourceTableOffsetFromHeader
  }

  /** The resource table of a header read at `start` is `start` plus the
      word at 0x24 of the header; the local heap is allocated exactly when
      the word at 0x10 is nonzero. */
  lemma DerivedValues(buf: bytes, start: nat)
    requires start <= |buf| && ReadNeHeader(buf, start).Ok?
    ensures var h := ReadNeHeader(buf, start).value;
            && ResourceTableOffset(h) == start + UIntAt(buf, start + 0x24, 2)
            && ResourceTableOffset(h) < start + 0x1_0000
            && (LocalHeapAllocated(h) <==> UIntAt(buf, start + 0x10, 2) > 0)
  {
    Pow256Widths();
  }

  /** `local_heap_allocated`. */
  predicate LocalHeapAllocated(h: NeHeader) {
    h.initialHeapSize > 0
  }

  /** `expected_windows_version`: "<major>.<revision>" in decimal. It reads
      back as the two numbers it was made from. */
  function ExpectedWindowsVersion(h: NeHeader): (s: string)
    ensures SplitVersion(s) == Some((h.expectedWindowsMajorVersion, h.expectedWindowsRevision))
  {
    var major := ToDecimal(h.expectedWindowsMajorVersion);
    var revision := ToDecimal(h.expectedWindowsRevision);
    FirstDotAfterDigits(major, revision);
    assert (major + "." + revision)[|major| + 1..] == revision;
    DecimalRoundTrip(h.expectedWindowsMajorVersion);
    DecimalRoundTrip(h.expectedWindowsRevision);
    major + "." + revision
  }

  /** The index of the first '.' of `s`, or `|s|` when there is none. */
  function FirstDot(s: string): (d: nat)
    ensures d <= |s|
    ensures d < |s| ==> s[d] == '.'
    ensures forall i | 0 <= i < d :: s[i] != '.'
  {
    if |s| == 0 || s[0] == '.' then 0 else 1 + FirstDot(s[1..])
  }

  /** A version string "<major>.<revision>" read back into its numbers. */
  function SplitVersion(s: string): Option<(nat, nat)> {
    var d := FirstDot(s);
    if d == |s| then None
    else
      var major := s[..d];
      var revision := s[d + 1..];
      if |major| > 0 && |revision| > 0 && IsDigits(major) && IsDigits(revision) then
        Some((DigitsValue(major), DigitsValue(revision)))
      else
        None
  }

  /** Digits hold no '.', so the first one after them is the separator. */
  lemma FirstDotAfterDigits(a: string, b: string)
    requires IsDigits(a)
    ensures FirstDot(a + "." + b) == |a|
    ensures (a + "." + b)[..|a|] == a
  {
    var s := a + "." + b;
    assert s[|a|] == '.';
    assert forall i | 0 <= i < |a| :: s[i] == a[i] && s[i] != '.';
  }
}
