/** The resource table's layout: the alignment shift, the type entries up to
    the zero sentinel, and the declarations of each type
    (`ResourceTypeTable`, `ResourceDeclaration`). Scanning decodes no
    payload; it records where each resource's bytes are.
 */
module TypeTables {
  import opened Errors
  import opened Bytes
  import opened ResourceTypes
  import opened ResourceNames

  /** `ResourceDeclaration`: effective (already shifted) offset and length. */
  datatype Declaration = Declaration(offset: nat, length: nat, flags: nat, id: ResourceId, reserved: bytes)

  /** The flag bits; they are informational and never affect decoding. */
  const MOVEABLE: nat := 0x0010
  const PURE: nat := 0x0020
  const PRELOAD: nat := 0x0040

  /** `data_end_offset`. */
  function DataEnd(d: Declaration): nat {
    d.offset + d.length
  }

  /** `ResourceTypeTable` for a type entry that is not the sentinel. */
  datatype TypeTable = TypeTable(key: TypeKey, declarations: seq<Declaration>, reserved: bytes)

  /** What the resource table constructor reads before any payload is decoded. */
  datatype Layout = Layout(start: nat, shift: nat, tables: seq<TypeTable>)

  /** Bytes a type entry occupies: an 8-byte header and 12 bytes per declaration. */
  function EntrySize(t: TypeTable): nat {
    8 + 12 * |t.declarations|
  }

  function EntriesSize(ts: seq<TypeTable>): nat {
    if |ts| == 0 then 0 else EntrySize(ts[0]) + EntriesSize(ts[1..])
  }

  /** One 12-byte declaration at `pos`: offset, length, flags, id word, and four
      reserved bytes (a short read at the end of the data is not an error). */
  function ReadDeclaration(buf: bytes, pos: nat, shift: nat, tableStart: nat): (r: Result<(Declaration, nat)>)
    requires pos <= |buf|
    ensures r.Ok? ==> pos + 8 <= |buf| && r.value.1 == Min(pos + 12, |buf|)
    ensures r.Ok? ==> r.value.0.offset == ShiftLeft(UIntAt(buf, pos, 2), shift)
    ensures r.Ok? ==> r.value.0.length == ShiftLeft(UIntAt(buf, pos + 2, 2), shift)
    ensures pos + 8 > |buf| ==> r == Err(Truncated)
  {
    var offset :- ReadUInt(buf, pos, 2);
    var length :- ReadUInt(buf, offset.1, 2);
    var flags :- ReadUInt(buf, length.1, 2);
    var word :- ReadUInt(buf, flags.1, 2);
    var id :- DecodeIdWord(buf, tableStart, word.0);
    var reserved := ReadBytes(buf, word.1, 4);
    Ok((Declaration(ShiftLeft(offset.0, shift), ShiftLeft(length.0, shift), flags.0, id, reserved.0), reserved.1))
  }

  /** `data_end_offset`: the declared data ends at the sum of the two raw
      words shifted, so the shift scales the whole extent. */
  lemma DataEndOfRead(buf: bytes, pos: nat, shift: nat, tableStart: nat)
    requires pos <= |buf| && ReadDeclaration(buf, pos, shift, tableStart).Ok?
    ensures DataEnd(ReadDeclaration(buf, pos, shift, tableStart).value.0)
            == ShiftLeft(UIntAt(buf, pos, 2) + UIntAt(buf, pos + 2, 2), shift)
  {
    MulDistributes(UIntAt(buf, pos, 2), UIntAt(buf, pos + 2, 2), Pow2(shift));
  }

  lemma MulDistributes(a: nat, b: nat, c: nat)
    ensures a * c + b * c == (a + b) * c
  {
  }

  /** `count` declarations in stream order. */
  function ReadDeclarations(buf: bytes, pos: nat, count: nat, shift: nat, tableStart: nat)
    : (r: Result<(seq<Declaration>, nat)>)
    requires pos <= |buf|
    ensures r.Ok? ==> |r.value.0| == count && r.value.1 == Min(pos + 12 * count, |buf|)
    ensures r.Ok? && count > 0 ==> pos + 8 <= |buf|
    decreases count
  {
    if count == 0 then
      Ok(([], pos))
    else
      var first :- ReadDeclaration(buf, pos, shift, tableStart);
      var rest :- ReadDeclarations(buf, first.1, count - 1, shift, tableStart);
      Ok(([first.0] + rest.0, rest.1))
  }

  /** What follows a type word: the declaration count, four reserved bytes
      (a short read is not an error) and the declarations. */
  function ReadTypeBody(buf: bytes, pos: nat, key: TypeKey, shift: nat, tableStart: nat)
    : (r: Result<(TypeTable, nat)>)
    requires pos <= |buf|
    ensures r.Ok? ==> r.value.0.key == key && r.value.1 == Min(pos + EntrySize(r.value.0) - 2, |buf|)
    ensures r.Ok? ==> pos < r.value.1
  {
    var count :- ReadUInt(buf, pos, 2);
    var reserved := ReadBytes(buf, count.1, 4);
    var declarations :- ReadDeclarations(buf, reserved.1, count.0, shift, tableStart);
    Ok((TypeTable(key, declarations.0, reserved.0), declarations.1))
  }

  /** One type entry at `pos`: nothing for the `0x0000` sentinel, else the type
      word (a number or a name offset) and the body. */
  function ReadTypeEntry(buf: bytes, pos: nat, shift: nat, tableStart: nat)
    : (r: Result<(Option<TypeTable>, nat)>)
    requires pos <= |buf|
    ensures pos + 2 > |buf| ==> r == Err(Truncated)
    ensures r.Ok? && r.value.0.None? <==> pos + 2 <= |buf| && UIntAt(buf, pos, 2) == 0
    ensures r.Ok? && r.value.0.None? ==> r.value.1 == pos + 2
    ensures r.Ok? && r.value.0.Some? ==> r.value.1 == Min(pos + EntrySize(r.value.0.value), |buf|)
    ensures r.Ok? ==> pos < r.value.1 <= |buf|
  {
    var word :- ReadUInt(buf, pos, 2);
    if word.0 == 0 then
      Ok((None, word.1))
    else
      var key :- DecodeTypeWord(buf, tableStart, word.0);
      var body :- ReadTypeBody(buf, word.1, key, shift, tableStart);
      Ok((Some(body.0), body.1))
  }

  /** The type entries from `pos` up to, not including, the sentinel; the
      position returned is the one after the sentinel. */
  function ScanTypes(buf: bytes, pos: nat, shift: nat, tableStart: nat)
    : (r: Result<(seq<TypeTable>, nat)>)
    requires pos <= |buf|
    ensures r.Ok? ==> r.value.1 == pos + EntriesSize(r.value.0) + 2 <= |buf|
    decreases |buf| - pos
  {
    var entry :- ReadTypeEntry(buf, pos, shift, tableStart);
    match entry.0
    case None => Ok(([], entry.1))
    case Some(t) =>
      var rest :- ScanTypes(buf, entry.1, shift, tableStart);
      assert ([t] + rest.0)[1..] == rest.0;
      Ok(([t] + rest.0, rest.1))
  }

  /** The part of `ResourceTable.__init__` that reads the stream, positioned at
      `start`: the alignment shift word masked to its low byte, then the type
      entries. */
  function ReadLayout(buf: bytes, start: nat): (r: Result<Layout>)
    requires start <= |buf|
    ensures r.Ok? ==> r.value.start == start && start + 2 <= |buf| && r.value.shift == buf[start]
  {
    var word :- ReadUInt(buf, start, 2);
    var shift := word.0 % 0x100;
    assert shift == buf[start] by {
      assert buf[start..start + 2][1..] == [buf[start + 1]];
    }
    var scanned :- ScanTypes(buf, word.1, shift, start);
    Ok(Layout(start, shift, scanned.0))
  }

  // ---- An encoder for integer-keyed tables, the partner of the scanner ----

  /** A declaration as stored: raw (unshifted) offset and length, flags, id. */
  datatype DeclarationSpec = DeclarationSpec(rawOffset: nat, rawLength: nat, flags: nat, id: nat)

  /** A type entry with a numeric type code. */
  datatype TypeSpec = TypeSpec(code: nat, declarations: seq<DeclarationSpec>)

  predicate ValidDeclarationSpec(d: DeclarationSpec) {
    d.rawOffset < 0x1_0000 && d.rawLength < 0x1_0000 && d.flags < 0x1_0000 && d.id < 0x8000
  }

  predicate ValidTypeSpec(t: TypeSpec) {
    && t.code < 0x8000
    && |t.declarations| < 0x1_0000
    && forall i | 0 <= i < |t.declarations| :: ValidDeclarationSpec(t.declarations[i])
  }

  predicate ValidTypeSpecs(ts: seq<TypeSpec>) {
    forall i | 0 <= i < |ts| :: ValidTypeSpec(ts[i])
  }

  const RESERVED: bytes := [0, 0, 0, 0]

  function DeclarationBytes(d: DeclarationSpec): (bs: bytes)
    requires ValidDeclarationSpec(d)
    ensures |bs| == 12
  {
    ToLittleEndian(d.rawOffset, 2) + ToLittleEndian(d.rawLength, 2) + ToLittleEndian(d.flags, 2)
    + ToLittleEndian(0x8000 + d.id, 2) + RESERVED
  }

  function DeclarationsBytes(ds: seq<DeclarationSpec>): (bs: bytes)
    requires forall i | 0 <= i < |ds| :: ValidDeclarationSpec(ds[i])
    ensures |bs| == 12 * |ds|
  {
    if |ds| == 0 then [] else DeclarationBytes(ds[0]) + DeclarationsBytes(ds[1..])
  }

  function TypeBytes(t: TypeSpec): (bs: bytes)
    requires ValidTypeSpec(t)
    ensures |bs| == 8 + 12 * |t.declarations|
  {
    ToLittleEndian(0x8000 + t.code, 2) + ToLittleEndian(|t.declarations|, 2) + RESERVED
    + DeclarationsBytes(t.declarations)
  }

  /** Bytes the type entries of `ts` occupy, sentinel excluded. */
  function TypesSize(ts: seq<TypeSpec>): nat {
    if |ts| == 0 then 0 else 8 + 12 * |ts[0].declarations| + TypesSize(ts[1..])
  }

  function TypesBytes(ts: seq<TypeSpec>): (bs: bytes)
    requires ValidTypeSpecs(ts)
    ensures |bs| == TypesSize(ts)
  {
    if |ts| == 0 then [] else TypeBytes(ts[0]) + TypesBytes(ts[1..])
  }

  /** `buf` holds the type entries of `ts`, each valid, one after another
      from `pos`, then the sentinel. */
  predicate TypesAt(buf: bytes, pos: nat, ts: seq<TypeSpec>)
    decreases |ts|
  {
    if |ts| == 0 then HoldsAt(buf, pos, ToLittleEndian(0, 2))
    else && ValidTypeSpec(ts[0]) && HoldsAt(buf, pos, TypeBytes(ts[0]))
         && TypesAt(buf, pos + 8 + 12 * |ts[0].declarations|, ts[1..])
  }

  /** A whole resource table: shift word, type entries, sentinel. */
  function TableBytes(shiftWord: nat, ts: seq<TypeSpec>): bytes
    requires shiftWord < 0x1_0000 && ValidTypeSpecs(ts)
  {
    ToLittleEndian(shiftWord, 2) + TypesBytes(ts) + ToLittleEndian(0, 2)
  }

  /** What the scanner is expected to make of a declaration. */
  function DeclarationOf(d: DeclarationSpec, shift: nat): Declaration {
    Declaration(ShiftLeft(d.rawOffset, shift), ShiftLeft(d.rawLength, shift), d.flags, IntId(d.id), RESERVED)
  }

  function DeclarationsOf(ds: seq<DeclarationSpec>, shift: nat): (r: seq<Declaration>)
    ensures |r| == |ds|
  {
    if |ds| == 0 then [] else [DeclarationOf(ds[0], shift)] + DeclarationsOf(ds[1..], shift)
  }

  function TypeTableOf(t: TypeSpec, shift: nat): TypeTable {
    TypeTable(KeyOfCode(t.code), DeclarationsOf(t.declarations, shift), RESERVED)
  }

  function TypeTablesOf(ts: seq<TypeSpec>, shift: nat): seq<TypeTable> {
    if |ts| == 0 then [] else [TypeTableOf(ts[0], shift)] + TypeTablesOf(ts[1..], shift)
  }

  /** `buf` holds `a + b` at `pos`, so it holds `a` at `pos` and `b` right after. */
  lemma SplitAt(buf: bytes, pos: nat, a: bytes, b: bytes)
    requires pos + |a| + |b| <= |buf| && buf[pos..pos + |a| + |b|] == a + b
    ensures buf[pos..pos + |a|] == a
    ensures buf[pos + |a|..pos + |a| + |b|] == b
  {
    assert buf[pos..pos + |a|] == (a + b)[..|a|];
    assert buf[pos + |a|..pos + |a| + |b|] == (a + b)[|a|..];
  }

  lemma ReadDeclarationOfBytes(buf: bytes, pos: nat, shift: nat, tableStart: nat, d: DeclarationSpec)
    requires ValidDeclarationSpec(d)
    requires pos + 12 <= |buf| && buf[pos..pos + 12] == DeclarationBytes(d)
    ensures ReadDeclaration(buf, pos, shift, tableStart) == Ok((DeclarationOf(d, shift), pos + 12))
  {
    var f0, f1, f2, f3 := ToLittleEndian(d.rawOffset, 2), ToLittleEndian(d.rawLength, 2),
                          ToLittleEndian(d.flags, 2), ToLittleEndian(0x8000 + d.id, 2);
    SplitAt(buf, pos, f0 + f1 + f2 + f3, RESERVED);
    SplitAt(buf, pos, f0 + f1 + f2, f3);
    SplitAt(buf, pos, f0 + f1, f2);
    SplitAt(buf, pos, f0, f1);
    ReadEncoded(buf, pos, 2, d.rawOffset);
    ReadEncoded(buf, pos + 2, 2, d.rawLength);
    ReadEncoded(buf, pos + 4, 2, d.flags);
    ReadEncoded(buf, pos + 6, 2, 0x8000 + d.id);
    assert HighBitSet(0x8000 + d.id) && Low15(0x8000 + d.id) == d.id;
  }

  lemma {:induction false} ReadDeclarationsOfBytes(buf: bytes, pos: nat, shift: nat, tableStart: nat,
                                                    ds: seq<DeclarationSpec>)
    requires forall i | 0 <= i < |ds| :: ValidDeclarationSpec(ds[i])
    requires pos + 12 * |ds| <= |buf| && buf[pos..pos + 12 * |ds|] == DeclarationsBytes(ds)
    ensures ReadDeclarations(buf, pos, |ds|, shift, tableStart)
            == Ok((DeclarationsOf(ds, shift), pos + 12 * |ds|))
    decreases |ds|
  {
    if |ds| > 0 {
      SplitAt(buf, pos, DeclarationBytes(ds[0]), DeclarationsBytes(ds[1..]));
      ReadDeclarationOfBytes(buf, pos, shift, tableStart, ds[0]);
      ReadDeclarationsOfBytes(buf, pos + 12, shift, tableStart, ds[1..]);
    }
  }

  /** The fields of an encoded type entry's header read back as written. */
  lemma TypeHeaderOfBytes(buf: bytes, pos: nat, t: TypeSpec)
    requires ValidTypeSpec(t)
    requires pos + |TypeBytes(t)| <= |buf| && buf[pos..pos + |TypeBytes(t)|] == TypeBytes(t)
    ensures ReadUInt(buf, pos, 2) == Ok((0x8000 + t.code, pos + 2))
    ensures ReadUInt(buf, pos + 2, 2) == Ok((|t.declarations|, pos + 4))
    ensures buf[pos + 4..pos + 8] == RESERVED
    ensures buf[pos + 8..pos + 8 + 12 * |t.declarations|] == DeclarationsBytes(t.declarations)
  {
    var w0, w1 := ToLittleEndian(0x8000 + t.code, 2), ToLittleEndian(|t.declarations|, 2);
    SplitAt(buf, pos, w0 + w1 + RESERVED, DeclarationsBytes(t.declarations));
    SplitAt(buf, pos, w0 + w1, RESERVED);
    SplitAt(buf, pos, w0, w1);
    ReadEncoded(buf, pos, 2, 0x8000 + t.code);
    ReadEncoded(buf, pos + 2, 2, |t.declarations|);
  }

  lemma ReadTypeEntryOfBytes(buf: bytes, pos: nat, shift: nat, tableStart: nat, t: TypeSpec)
    requires ValidTypeSpec(t)
    requires pos + |TypeBytes(t)| <= |buf| && buf[pos..pos + |TypeBytes(t)|] == TypeBytes(t)
    ensures ReadTypeEntry(buf, pos, shift, tableStart)
            == Ok((Some(TypeTableOf(t, shift)), pos + |TypeBytes(t)|))
  {
    hide ReadTypeBody;
    TypeHeaderOfBytes(buf, pos, t);
    assert HighBitSet(0x8000 + t.code) && Low15(0x8000 + t.code) == t.code;
    assert DecodeTypeWord(buf, tableStart, 0x8000 + t.code) == Ok(KeyOfCode(t.code));
    ReadTypeBodyOfBytes(buf, pos, shift, tableStart, t);
  }

  lemma ReadTypeBodyOfBytes(buf: bytes, pos: nat, shift: nat, tableStart: nat, t: TypeSpec)
    requires ValidTypeSpec(t)
    requires pos + 8 + 12 * |t.declarations| <= |buf|
    requires ReadUInt(buf, pos + 2, 2) == Ok((|t.declarations|, pos + 4))
    requires buf[pos + 4..pos + 8] == RESERVED
    requires buf[pos + 8..pos + 8 + 12 * |t.declarations|] == DeclarationsBytes(t.declarations)
    ensures ReadTypeBody(buf, pos + 2, KeyOfCode(t.code), shift, tableStart)
            == Ok((TypeTableOf(t, shift), pos + 8 + 12 * |t.declarations|))
  {
    ReadDeclarationsOfBytes(buf, pos + 8, shift, tableStart, t.declarations);
  }

  /** The encoded entries followed by the sentinel, laid out as one run of
      bytes, are the entries laid out one after another. */
  lemma {:induction false} TypesAtOfBytes(buf: bytes, pos: nat, ts: seq<TypeSpec>)
    requires ValidTypeSpecs(ts)
    requires HoldsAt(buf, pos, TypesBytes(ts) + ToLittleEndian(0, 2))
    ensures TypesAt(buf, pos, ts)
    decreases |ts|
  {
    var sentinel := ToLittleEndian(0, 2);
    if |ts| == 0 {
      assert TypesBytes(ts) + sentinel == sentinel;
    } else {
      var head, rest := TypeBytes(ts[0]), TypesBytes(ts[1..]);
      assert TypesBytes(ts) + sentinel == head + (rest + sentinel);
      SplitAt(buf, pos, head, rest + sentinel);
      TypesAtOfBytes(buf, pos + |head|, ts[1..]);
    }
  }

  /** Scanning from `pos` gives `tables` and stops at `end`. */
  ghost predicate Scans(buf: bytes, pos: nat, shift: nat, tableStart: nat, tables: seq<TypeTable>, end: nat) {
    pos <= |buf| && ScanTypes(buf, pos, shift, tableStart) == Ok((tables, end))
  }

  /** Reading type entries from `pos` gives the tables of `ts` one after
      another, then the sentinel. */
  ghost predicate EntriesRead(buf: bytes, pos: nat, shift: nat, tableStart: nat, ts: seq<TypeSpec>)
    decreases |ts|
  {
    && pos <= |buf|
    && if |ts| == 0 then ReadTypeEntry(buf, pos, shift, tableStart) == Ok((None, pos + 2))
       else && ReadTypeEntry(buf, pos, shift, tableStart)
               == Ok((Some(TypeTableOf(ts[0], shift)), pos + 8 + 12 * |ts[0].declarations|))
            && EntriesRead(buf, pos + 8 + 12 * |ts[0].declarations|, shift, tableStart, ts[1..])
  }

  /** Entries laid out one after another, then the sentinel, scan back as
      their tables, and the scan stops right after the sentinel. */
  lemma ScanTypesOfBytes(buf: bytes, pos: nat, shift: nat, tableStart: nat, ts: seq<TypeSpec>)
    requires TypesAt(buf, pos, ts)
    ensures Scans(buf, pos, shift, tableStart, TypeTablesOf(ts, shift), pos + TypesSize(ts) + 2)
  {
    hide *;
    EntriesReadOfBytes(buf, pos, shift, tableStart, ts);
    ScanOfEntries(buf, pos, shift, tableStart, ts);
  }

  lemma {:induction false} EntriesReadOfBytes(buf: bytes, pos: nat, shift: nat, tableStart: nat, ts: seq<TypeSpec>)
    requires TypesAt(buf, pos, ts)
    ensures EntriesRead(buf, pos, shift, tableStart, ts)
    decreases |ts|
  {
    hide ReadTypeEntry;
    if |ts| == 0 {
      ReadEncoded(buf, pos, 2, 0);
    } else {
      TypesAtFirst(buf, pos, ts);
      ReadTypeEntryOfBytes(buf, pos, shift, tableStart, ts[0]);
      EntriesReadOfBytes(buf, pos + 8 + 12 * |ts[0].declarations|, shift, tableStart, ts[1..]);
    }
  }

  lemma {:induction false} ScanOfEntries(buf: bytes, pos: nat, shift: nat, tableStart: nat, ts: seq<TypeSpec>)
    requires EntriesRead(buf, pos, shift, tableStart, ts)
    ensures Scans(buf, pos, shift, tableStart, TypeTablesOf(ts, shift), pos + TypesSize(ts) + 2)
    decreases |ts|
  {
    hide ReadTypeEntry;
    if |ts| > 0 {
      var next := pos + 8 + 12 * |ts[0].declarations|;
      ScanOfEntries(buf, next, shift, tableStart, ts[1..]);
      ScanTypesStep(buf, pos, next, shift, tableStart, TypeTableOf(ts[0], shift),
                    TypeTablesOf(ts[1..], shift), next + TypesSize(ts[1..]) + 2);
    }
  }

  /** The first of the laid-out entries, and where the others begin. */
  lemma TypesAtFirst(buf: bytes, pos: nat, ts: seq<TypeSpec>)
    requires |ts| > 0 && TypesAt(buf, pos, ts)
    ensures ValidTypeSpec(ts[0]) && HoldsAt(buf, pos, TypeBytes(ts[0]))
    ensures TypesAt(buf, pos + 8 + 12 * |ts[0].declarations|, ts[1..])
  {
  }

  /** One unfolding of `ScanTypes` past a type entry. */
  lemma ScanTypesStep(buf: bytes, pos: nat, next: nat, shift: nat, tableStart: nat,
                      t: TypeTable, tables: seq<TypeTable>, end: nat)
    requires pos <= next <= |buf|
    requires ReadTypeEntry(buf, pos, shift, tableStart) == Ok((Some(t), next))
    requires Scans(buf, next, shift, tableStart, tables, end)
    ensures Scans(buf, pos, shift, tableStart, [t] + tables, end)
  {
  }

  /** Scanning an encoded table gives back every type entry in file order, each
      type code keyed as the enum member when it is one, every id as written,
      and every offset and length shifted left by the low byte of the shift
      word; whatever the high byte of the shift word holds is ignored. */
  lemma ScanRoundTrip(buf: bytes, start: nat, shiftWord: nat, ts: seq<TypeSpec>)
    requires shiftWord < 0x1_0000 && ValidTypeSpecs(ts)
    requires start + |TableBytes(shiftWord, ts)| <= |buf|
    requires buf[start..start + |TableBytes(shiftWord, ts)|] == TableBytes(shiftWord, ts)
    ensures ReadLayout(buf, start) == Ok(Layout(start, shiftWord % 0x100, TypeTablesOf(ts, shiftWord % 0x100)))
  {
    hide *;
    TableParts(buf, start, shiftWord, ts);
    TypesAtOfBytes(buf, start + 2, ts);
    ScanTypesOfBytes(buf, start + 2, shiftWord % 0x100, start, ts);
    LayoutOfParts(buf, start, shiftWord, TypeTablesOf(ts, shiftWord % 0x100), start + 2 + TypesSize(ts) + 2);
  }

  /** An encoded table is its shift word, then the type entries and the
      sentinel. */
  lemma TableParts(buf: bytes, start: nat, shiftWord: nat, ts: seq<TypeSpec>)
    requires shiftWord < 0x1_0000 && ValidTypeSpecs(ts)
    requires start + |TableBytes(shiftWord, ts)| <= |buf|
    requires buf[start..start + |TableBytes(shiftWord, ts)|] == TableBytes(shiftWord, ts)
    ensures start <= |buf| && ReadUInt(buf, start, 2) == Ok((shiftWord, start + 2))
    ensures HoldsAt(buf, start + 2, TypesBytes(ts) + ToLittleEndian(0, 2))
  {
    hide ScanTypes, ReadTypeEntry, ReadLayout;
    var w := ToLittleEndian(shiftWord, 2);
    var rest := TypesBytes(ts) + ToLittleEndian(0, 2);
    assert TableBytes(shiftWord, ts) == w + rest;
    SplitAt(buf, start, w, rest);
    ReadEncoded(buf, start, 2, shiftWord);
  }

  /** `ReadLayout` from its two parts: the shift word, and the scan after it. */
  lemma LayoutOfParts(buf: bytes, start: nat, shiftWord: nat, tables: seq<TypeTable>, end: nat)
    requires start <= |buf|
    requires ReadUInt(buf, start, 2) == Ok((shiftWord, start + 2))
    requires Scans(buf, start + 2, shiftWord % 0x100, start, tables, end)
    ensures ReadLayout(buf, start) == Ok(Layout(start, shiftWord % 0x100, tables))
  {
    hide ScanTypes;
  }
}
