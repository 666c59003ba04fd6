/** RT_STRING resources: a block of sixteen slots, each a one-byte length
    followed by that many ASCII characters; a zero length marks an empty
    slot. The lowest four bits of a string's id give its slot, so empty slots
    keep their place.
 */
module StringTable {
  import opened Errors
  import opened Bytes

  const SLOTS_PER_BLOCK: nat := 16

  /** One slot at `pos`: `None` for a zero length, otherwise the characters
      read (fewer at the end of the data), which must be ASCII. */
  function ReadSlot(buf: bytes, pos: nat): (r: Result<(Option<string>, nat)>)
    requires pos <= |buf|
    ensures pos == |buf| ==> r == Err(Truncated)
    ensures r.Ok? ==> pos < |buf| && pos < r.value.1 <= |buf|
    ensures r.Ok? ==> (r.value.0.None? <==> buf[pos] == 0)
    ensures r.Ok? && r.value.0.Some? ==> && r.value.1 == Min(pos + 1 + buf[pos], |buf|)
                                         && IsAsciiText(r.value.0.value) && AsciiBytes(r.value.0.value) == buf[pos + 1..r.value.1]
    ensures pos < |buf| && buf[pos] > 0 && !IsAscii(buf[pos + 1..Min(pos + 1 + buf[pos], |buf|)]) ==> r == Err(NotAscii)
  {
    var length :- ReadUInt(buf, pos, 1);
    assert buf[pos..pos + 1] == [buf[pos]];
    if length.0 > 0 then
      var raw := ReadBytes(buf, length.1, length.0);
      var s :- DecodeAscii(raw.0);
      Ok((Some(s), raw.1))
    else
      Ok((None, length.1))
  }

  /** `count` slots in stream order. */
  function ReadSlots(buf: bytes, pos: nat, count: nat): (r: Result<(seq<Option<string>>, nat)>)
    requires pos <= |buf|
    ensures r.Ok? ==> |r.value.0| == count && pos <= r.value.1 <= |buf|
    decreases count
  {
    if count == 0 then
      Ok(([], pos))
    else
      var first :- ReadSlot(buf, pos);
      var rest :- ReadSlots(buf, first.1, count - 1);
      Ok(([first.0] + rest.0, rest.1))
  }

  /** `StringTable(stream, ...)`: always sixteen slots. The declared length of
      the resource plays no part. */
  function DecodeStringTable(buf: bytes, pos: nat): (r: Result<seq<Option<string>>>)
    requires pos <= |buf|
    ensures r.Ok? ==> |r.value| == SLOTS_PER_BLOCK
  {
    var slots :- ReadSlots(buf, pos, SLOTS_PER_BLOCK);
    Ok(slots.0)
  }

  // ---- An encoder for string blocks, the partner of the decoder ----

  /** What a slot can hold so that it reads back as itself: nothing, or a
      non-empty ASCII string of at most 255 characters. */
  predicate ValidSlot(slot: Option<string>) {
    slot.Some? ==> 0 < |slot.value| < 0x100 && IsAsciiText(slot.value)
  }

  function SlotBytes(slot: Option<string>): (bs: bytes)
    requires ValidSlot(slot)
    ensures |bs| == 1 + SlotLength(slot)
  {
    match slot
    case None => [0]
    case Some(s) => [|s|] + AsciiBytes(s)
  }

  function SlotLength(slot: Option<string>): nat {
    if slot.Some? then |slot.value| else 0
  }

  /** Characters stored in a block: the block occupies sixteen length bytes
      plus this many. */
  function TextLength(slots: seq<Option<string>>): nat {
    if |slots| == 0 then 0 else SlotLength(slots[0]) + TextLength(slots[1..])
  }

  /** `buf` holds the slots, each valid, one after another from `pos`. */
  predicate SlotsAt(buf: bytes, pos: nat, slots: seq<Option<string>>)
    decreases |slots|
  {
    |slots| > 0 ==> && ValidSlot(slots[0]) && HoldsAt(buf, pos, SlotBytes(slots[0]))
                    && SlotsAt(buf, pos + 1 + SlotLength(slots[0]), slots[1..])
  }

  lemma ReadSlotOfBytes(buf: bytes, pos: nat, slot: Option<string>)
    requires ValidSlot(slot) && HoldsAt(buf, pos, SlotBytes(slot))
    ensures ReadSlot(buf, pos) == Ok((slot, pos + 1 + SlotLength(slot)))
  {
    assert buf[pos] == SlotBytes(slot)[0];
    if slot.Some? {
      assert buf[pos + 1..pos + 1 + |slot.value|] == SlotBytes(slot)[1..] == AsciiBytes(slot.value);
      AsciiRoundTrip(slot.value);
    }
  }

  /** Reading `|slots|` slots from `pos` gives them back, in order, and
      stops right after the last one. */
  ghost predicate ReadsBack(buf: bytes, pos: nat, slots: seq<Option<string>>) {
    && pos <= |buf|
    && ReadSlots(buf, pos, |slots|) == Ok((slots, pos + |slots| + TextLength(slots)))
  }

  /** Slots written one after another read back as written. */
  lemma {:induction false} ReadSlotsOfBytes(buf: bytes, pos: nat, slots: seq<Option<string>>)
    requires pos <= |buf| && SlotsAt(buf, pos, slots)
    ensures ReadsBack(buf, pos, slots)
    decreases |slots|
  {
    if |slots| > 0 {
      SlotsAtFirst(buf, pos, slots);
      ReadSlotsOfBytes(buf, pos + 1 + SlotLength(slots[0]), slots[1..]);
      ReadSlotsStep(buf, pos, slots[0], slots[1..]);
      assert [slots[0]] + slots[1..] == slots;
    }
  }

  /** The first of the written slots, and where the others begin. */
  lemma SlotsAtFirst(buf: bytes, pos: nat, slots: seq<Option<string>>)
    requires |slots| > 0 && SlotsAt(buf, pos, slots)
    ensures ValidSlot(slots[0]) && HoldsAt(buf, pos, SlotBytes(slots[0])) && pos + 1 + SlotLength(slots[0]) <= |buf|
    ensures SlotsAt(buf, pos + 1 + SlotLength(slots[0]), slots[1..])
  {
  }

  /** The slots that follow the first read back, so all of them do. */
  lemma ReadSlotsStep(buf: bytes, pos: nat, slot: Option<string>, rest: seq<Option<string>>)
    requires ValidSlot(slot) && HoldsAt(buf, pos, SlotBytes(slot))
    requires ReadsBack(buf, pos + 1 + SlotLength(slot), rest)
    ensures ReadsBack(buf, pos, [slot] + rest)
  {
    var next := pos + 1 + SlotLength(slot);
    ReadSlotOfBytes(buf, pos, slot);
    ReadSlotsCons(buf, pos, |rest|, slot, next, rest, next + |rest| + TextLength(rest));
    assert ([slot] + rest)[1..] == rest;
  }

  /** One unfolding of `ReadSlots`. */
  lemma ReadSlotsCons(buf: bytes, pos: nat, count: nat, slot: Option<string>, next: nat,
                      rest: seq<Option<string>>, end: nat)
    requires pos <= |buf| && ReadSlot(buf, pos) == Ok((slot, next))
    requires ReadSlots(buf, next, count) == Ok((rest, end))
    ensures ReadSlots(buf, pos, count + 1) == Ok(([slot] + rest, end))
  {
  }

  /** A block of sixteen slots reads back as written; it occupies sixteen
      length bytes plus its characters. */
  lemma StringTableRoundTrip(buf: bytes, pos: nat, slots: seq<Option<string>>)
    requires |slots| == SLOTS_PER_BLOCK
    requires pos <= |buf| && SlotsAt(buf, pos, slots)
    ensures DecodeStringTable(buf, pos) == Ok(slots)
    ensures ReadSlots(buf, pos, SLOTS_PER_BLOCK).value.1 == pos + SLOTS_PER_BLOCK + TextLength(slots)
  {
    ReadSlotsOfBytes(buf, pos, slots);
  }
}
