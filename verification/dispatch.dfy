/** `ResourceTable`'s decoding side: which decoder each type gets, what
    happens when a decoder fails, the order types are materialised in, and
    the memoised cache (`resources`, `_parse_resources`).
 */
module Dispatch {
  import opened Errors
  import opened Bytes
  import opened ResourceTypes
  import opened OrderedDict
  import opened TypeTables
  import opened Bitmap
  import opened StringTable
  import opened ApplicationDefinedData
  import opened Resources
  import opened ResourceCache
  import opened GroupIcon

  /** The decoder classes a type can be registered with. */
  datatype Decoder =
    | RawDecoder
    | BitmapDecoder
    | IconDecoder
    | CursorDecoder
    | GroupIconDecoder
    | GroupCursorDecoder
    | StringTableDecoder

  /** The built-in registrations. */
  const BUILTIN_PARSERS: map<TypeKey, Decoder> := map[
    Known(RtIcon) := IconDecoder,
    Known(RtBitmap) := BitmapDecoder,
    Known(RtCursor) := CursorDecoder,
    Known(RtGroupIcon) := GroupIconDecoder,
    Known(RtGroupCursor) := GroupCursorDecoder,
    Known(RtString) := StringTableDecoder
  ]

  /** `resource_parsers.update(user_defined_resource_parsers)`: a user
      registration replaces the built-in one for the same key. */
  function Parsers(user: map<TypeKey, Decoder>): (p: map<TypeKey, Decoder>)
    ensures p.Keys == BUILTIN_PARSERS.Keys + user.Keys
    ensures forall k | k in user :: p[k] == user[k]
    ensures forall k | k in BUILTIN_PARSERS && k !in user :: p[k] == BUILTIN_PARSERS[k]
  {
    BUILTIN_PARSERS + user
  }

  /** `resource_parsers.get(type_code, ApplicationDefinedData)`. */
  function ParserFor(parsers: map<TypeKey, Decoder>, key: TypeKey): (d: Decoder)
    ensures key !in parsers ==> d == RawDecoder
    ensures key in parsers ==> d == parsers[key]
  {
    if key in parsers then parsers[key] else RawDecoder
  }

  /** Without user registrations, exactly six built-in types get a decoder of
      their own; named types, unknown codes and the other eight enum members
      are read raw. */
  lemma BuiltinDispatch(key: TypeKey)
    ensures ParserFor(Parsers(map[]), key) != RawDecoder <==>
              key in {Known(RtIcon), Known(RtBitmap), Known(RtCursor), Known(RtGroupIcon),
                      Known(RtGroupCursor), Known(RtString)}
    ensures ParserFor(Parsers(map[]), Known(RtIcon)) == IconDecoder
    ensures ParserFor(Parsers(map[]), Known(RtGroupIcon)) == GroupIconDecoder
    ensures ParserFor(Parsers(map[]), Known(RtString)) == StringTableDecoder
  {
    assert Parsers(map[]) == BUILTIN_PARSERS;
  }

  /** `defined_resource_parser(stream, declaration, table)` with the stream at
      `pos`. Only a group icon reads or changes the cache. The cursor classes
      take one argument fewer than they are given and so always fail. */
  function RunDecoder(d: Decoder, buf: bytes, pos: nat, decl: Declaration, c: Cache): (r: (Result<Resource>, Cache))
    requires pos <= |buf| && ValidCache(c)
    ensures ValidCache(r.1) && SameShape(c, r.1)
    ensures d != GroupIconDecoder ==> r.1 == c
    ensures r.0.Ok? ==> ValidResource(r.0.value)
    ensures d == RawDecoder ==> r.0 == Ok(RawData(ReadRaw(buf, pos, decl.length)))
    ensures d == CursorDecoder || d == GroupCursorDecoder ==> r.0 == Err(WrongArgumentCount)
    ensures d == BitmapDecoder || d == IconDecoder ==> (r.0.Ok? <==> DecodeBitmap(buf, pos, decl.length).Ok?)
    ensures d == BitmapDecoder && r.0.Ok? ==> r.0.value == BitmapResource(decl.id, DecodeBitmap(buf, pos, decl.length).value)
    ensures d == IconDecoder && r.0.Ok? ==> r.0.value == IconResource(decl.id, DecodeBitmap(buf, pos, decl.length).value, false)
    ensures d == StringTableDecoder ==> (r.0.Ok? <==> DecodeStringTable(buf, pos).Ok?)
    ensures d == StringTableDecoder && r.0.Ok? ==> r.0.value == StringTableResource(DecodeStringTable(buf, pos).value)
    ensures d == GroupIconDecoder ==> r == DecodeGroupIcon(buf, pos, decl.id, c)
  {
    match d
    case RawDecoder => (Ok(RawData(ReadRaw(buf, pos, decl.length))), c)
    case BitmapDecoder =>
      (match DecodeBitmap(buf, pos, decl.length)
       case Ok(p) => (Ok(BitmapResource(decl.id, p)), c)
       case Err(e) => (Err(e), c))
    case IconDecoder =>
      (match DecodeBitmap(buf, pos, decl.length)
       case Ok(p) => (Ok(IconResource(decl.id, p, false)), c)
       case Err(e) => (Err(e), c))
    case CursorDecoder => (Err(WrongArgumentCount), c)
    case GroupCursorDecoder => (Err(WrongArgumentCount), c)
    case GroupIconDecoder => DecodeGroupIcon(buf, pos, decl.id, c)
    case StringTableDecoder =>
      (match DecodeStringTable(buf, pos)
       case Ok(strings) => (Ok(StringTableResource(strings)), c)
       case Err(e) => (Err(e), c))
  }

  /** One pass of the loop in `_parse_resources`. The seek to the declared
      offset is outside the `try`, so an offset beyond the data aborts the
      whole materialisation. Any exception of the decoder is caught and the
      raw bytes are read instead, from the same offset; that read cannot
      fail, so a declaration in range always yields a resource. What a
      failed group icon marked before failing stays marked. */
  function DecodeDeclaration(d: Decoder, buf: bytes, decl: Declaration, c: Cache): (r: (Result<Resource>, Cache))
    requires ValidCache(c)
    ensures ValidCache(r.1) && SameShape(c, r.1)
    ensures r.0.Err? <==> decl.offset > |buf|
    ensures r.0.Err? ==> r == (Err(SeekOutOfRange(decl.offset)), c)
    ensures r.0.Ok? ==> ValidResource(r.0.value)
    ensures decl.offset <= |buf| ==> r.1 == RunDecoder(d, buf, decl.offset, decl, c).1
    ensures decl.offset <= |buf| && RunDecoder(d, buf, decl.offset, decl, c).0.Ok? ==>
              r.0 == RunDecoder(d, buf, decl.offset, decl, c).0
    ensures decl.offset <= |buf| && RunDecoder(d, buf, decl.offset, decl, c).0.Err? ==>
              r.0 == Ok(RawData(ReadRaw(buf, decl.offset, decl.length)))
  {
    match Seek(buf, decl.offset)
    case Err(e) => (Err(e), c)
    case Ok(pos) =>
      var run := RunDecoder(d, buf, pos, decl, c);
      match run.0
      case Ok(resource) => (Ok(resource), run.1)
      case Err(_) => (Ok(RawData(ReadRaw(buf, pos, decl.length))), run.1)
  }

  /** Every declaration of a type lies within the data. */
  predicate AllInRange(buf: bytes, decls: seq<Declaration>) {
    forall i | 0 <= i < |decls| :: decls[i].offset <= |buf|
  }

  /** The declarations of one type decoded in order, as (id, resource) pairs.
      The first declaration beyond the data stops the loop with its seek
      error. */
  function DecodeAll(d: Decoder, buf: bytes, decls: seq<Declaration>, c: Cache)
    : (r: (Result<seq<(ResourceId, Resource)>>, Cache))
    requires ValidCache(c)
    ensures ValidCache(r.1) && SameShape(c, r.1)
    ensures r.0.Ok? <==> AllInRange(buf, decls)
    ensures r.0.Ok? ==> |r.0.value| == |decls|
    ensures r.0.Ok? ==> forall i | 0 <= i < |decls| :: r.0.value[i].0 == decls[i].id && ValidResource(r.0.value[i].1)
    ensures r.0.Err? ==> exists j | 0 <= j < |decls| ::
                           && decls[j].offset > |buf|
                           && (forall i | 0 <= i < j :: decls[i].offset <= |buf|)
                           && r.0.error == SeekOutOfRange(decls[j].offset)
    decreases |decls|
  {
    if |decls| == 0 then (Ok([]), c)
    else
      var first := DecodeDeclaration(d, buf, decls[0], c);
      match first.0
      case Err(e) => (Err(e), first.1)
      case Ok(resource) =>
        var rest := DecodeAll(d, buf, decls[1..], first.1);
        match rest.0
        case Err(e) =>
          assert forall j | 0 <= j < |decls[1..]| :: decls[1..][j] == decls[j + 1];
          (Err(e), rest.1)
        case Ok(pairs) => (Ok([(decls[0].id, resource)] + pairs), rest.1)
  }

  /** `_parse_resources`: the resources of one type keyed by declaration id.
      Two declarations with the same id leave one entry, holding the later
      resource in the place of the earlier. */
  function ParseType(d: Decoder, buf: bytes, decls: seq<Declaration>, c: Cache): (r: (Result<TypeResources>, Cache))
    requires ValidCache(c)
    ensures ValidCache(r.1) && SameShape(c, r.1)
    ensures r.0.Ok? <==> AllInRange(buf, decls)
    ensures r.0.Err? ==> r.0.error.SeekOutOfRange?
    ensures r.0.Ok? ==> ValidResources(r.0.value)
    ensures r.0.Ok? ==> r.0.value == Collect(DecodeAll(d, buf, decls, c).0.value)
  {
    var all := DecodeAll(d, buf, decls, c);
    match all.0
    case Err(e) => (Err(e), all.1)
    case Ok(pairs) =>
      var resources := Collect(pairs);
      CollectedValid(pairs);
      (Ok(resources), all.1)
  }

  lemma CollectedValid(pairs: seq<(ResourceId, Resource)>)
    requires forall i | 0 <= i < |pairs| :: ValidResource(pairs[i].1)
    ensures ValidResources(Collect(pairs))
  {
    forall id | id in Collect(pairs).entries ensures ValidResource(Collect(pairs).entries[id]) {
      CollectValueFrom(pairs, id);
    }
  }

  /** A type's resources are keyed by exactly its declarations' ids, and the
      resource kept for an id is the one decoded from the last declaration
      with that id. */
  lemma ParseTypeIds(d: Decoder, buf: bytes, decls: seq<Declaration>, c: Cache, id: ResourceId)
    requires ValidCache(c) && AllInRange(buf, decls)
    ensures id in ParseType(d, buf, decls, c).0.value.entries <==> exists i | 0 <= i < |decls| :: decls[i].id == id
    ensures forall i | 0 <= i < |decls| && decls[i].id == id && (forall j | i < j < |decls| :: decls[j].id != id) ::
              ParseType(d, buf, decls, c).0.value.entries[id] == DecodeAll(d, buf, decls, c).0.value[i].1
  {
    ParseTypeKeys(d, buf, decls, c, id);
    hide ParseType;
    var pairs := DecodeAll(d, buf, decls, c).0.value;
    forall i | 0 <= i < |decls| && decls[i].id == id && (forall j | i < j < |decls| :: decls[j].id != id)
      ensures Collect(pairs).entries[id] == pairs[i].1
    {
      CollectLastWins(pairs, i);
    }
  }

  /** The ids a type's resources are keyed by are its declarations' ids. */
  lemma ParseTypeKeys(d: Decoder, buf: bytes, decls: seq<Declaration>, c: Cache, id: ResourceId)
    requires ValidCache(c) && AllInRange(buf, decls)
    ensures id in ParseType(d, buf, decls, c).0.value.entries <==> exists i | 0 <= i < |decls| :: decls[i].id == id
  {
    hide ParseType;
    var pairs := DecodeAll(d, buf, decls, c).0.value;
    CollectKeys(pairs, id);
    if exists i | 0 <= i < |pairs| :: pairs[i].0 == id {
      var i :| 0 <= i < |pairs| && pairs[i].0 == id;
      assert decls[i].id == id;
    }
    if exists i | 0 <= i < |decls| :: decls[i].id == id {
      var i :| 0 <= i < |decls| && decls[i].id == id;
      assert pairs[i].0 == id;
    }
  }

  // ---- Materialisation order ----

  /** The enum members in `ts` that have a table, in the order of `ts`. */
  function KnownKeys(present: set<TypeKey>, ts: seq<ResourceType>): (r: seq<TypeKey>)
    ensures forall i | 0 <= i < |r| :: r[i].Known? && r[i] in present
  {
    if |ts| == 0 then []
    else (if Known(ts[0]) in present then [Known(ts[0])] else []) + KnownKeys(present, ts[1..])
  }

  /** The keys that are not enum members, in the order of `keys`. */
  function OtherKeys(keys: seq<TypeKey>): (r: seq<TypeKey>)
    ensures forall i | 0 <= i < |r| :: !r[i].Known? && r[i] in keys
  {
    if |keys| == 0 then []
    else (if keys[0].Known? then [] else [keys[0]]) + OtherKeys(keys[1..])
  }

  /** The order `resources` materialises types in: the enum members in
      declaration order, then every other type in file order. A table with an
      enum key is marked parsed by the first loop and skipped by the second. */
  function MaterialisationOrder(types: Dict<TypeKey, TypeTable>): seq<TypeKey> {
    KnownKeys(types.entries.Keys, AllTypes) + OtherKeys(types.keys)
  }

  lemma {:induction false} KnownKeysContents(present: set<TypeKey>, ts: seq<ResourceType>, k: TypeKey)
    ensures k in KnownKeys(present, ts) <==> k.Known? && k in present && k.rtype in ts
  {
    if |ts| > 0 {
      KnownKeysContents(present, ts[1..], k);
      assert k.Known? && k.rtype in ts && k.rtype != ts[0] ==> k.rtype in ts[1..];
    }
  }

  /** Every enum key picked comes from the list it was picked from. */
  lemma KnownKeysFromList(present: set<TypeKey>, ts: seq<ResourceType>)
    ensures forall i | 0 <= i < |KnownKeys(present, ts)| :: KnownKeys(present, ts)[i].rtype in ts
  {
    forall i | 0 <= i < |KnownKeys(present, ts)| ensures KnownKeys(present, ts)[i].rtype in ts {
      KnownKeysContents(present, ts, KnownKeys(present, ts)[i]);
    }
  }

  /** In a list whose codes increase, the first type's code is below that of
      every key picked from the rest. */
  lemma HeadBelowKnownKeys(present: set<TypeKey>, ts: seq<ResourceType>)
    requires |ts| > 0
    requires forall i, j | 0 <= i < j < |ts| :: Code(ts[i]) < Code(ts[j])
    ensures forall i | 0 <= i < |KnownKeys(present, ts[1..])| ::
              Code(ts[0]) < Code(KnownKeys(present, ts[1..])[i].rtype)
  {
    var rest := KnownKeys(present, ts[1..]);
    KnownKeysFromList(present, ts[1..]);
    forall i | 0 <= i < |rest| ensures Code(ts[0]) < Code(rest[i].rtype) {
      var t := rest[i].rtype;
      var j :| 0 <= j < |ts[1..]| && ts[1..][j] == t;
      assert ts[j + 1] == t;
    }
  }

  /** An enum key below every key of an increasing list, put in front of it,
      keeps the list increasing. */
  lemma ConsAscending(t: ResourceType, rest: seq<TypeKey>)
    requires forall i | 0 <= i < |rest| :: rest[i].Known? && Code(t) < Code(rest[i].rtype)
    requires forall i, j | 0 <= i < j < |rest| :: Code(rest[i].rtype) < Code(rest[j].rtype)
    ensures forall i, j | 0 <= i < j < |[Known(t)] + rest| ::
              Code(([Known(t)] + rest)[i].rtype) < Code(([Known(t)] + rest)[j].rtype)
  {
    var r := [Known(t)] + rest;
    forall i, j | 0 <= i < j < |r| ensures Code(r[i].rtype) < Code(r[j].rtype) {
      assert r[j] == rest[j - 1];
      if i > 0 {
        assert r[i] == rest[i - 1];
      }
    }
  }

  /** Picked from a list whose codes increase, the enum keys keep increasing. */
  lemma {:induction false} KnownKeysAscending(present: set<TypeKey>, ts: seq<ResourceType>)
    requires forall i, j | 0 <= i < j < |ts| :: Code(ts[i]) < Code(ts[j])
    ensures forall i, j | 0 <= i < j < |KnownKeys(present, ts)| ::
              Code(KnownKeys(present, ts)[i].rtype) < Code(KnownKeys(present, ts)[j].rtype)
    ensures forall i | 0 <= i < |KnownKeys(present, ts)| :: KnownKeys(present, ts)[i].rtype in ts
  {
    KnownKeysFromList(present, ts);
    if |ts| > 0 {
      KnownKeysAscending(present, ts[1..]);
      var rest := KnownKeys(present, ts[1..]);
      var r := KnownKeys(present, ts);
      if Known(ts[0]) in present {
        HeadBelowKnownKeys(present, ts);
        assert r == [Known(ts[0])] + rest;
        ConsAscending(ts[0], rest);
      } else {
        assert r == rest;
      }
    }
  }

  lemma {:induction false} OtherKeysContents(keys: seq<TypeKey>, k: TypeKey)
    ensures k in OtherKeys(keys) <==> !k.Known? && k in keys
  {
    if |keys| > 0 {
      OtherKeysContents(keys[1..], k);
      assert k in keys && k != keys[0] ==> k in keys[1..];
    }
  }

  /** Filtering a list without repeats leaves a list without repeats. */
  lemma {:induction false} OtherKeysDistinct(keys: seq<TypeKey>)
    requires Distinct(keys)
    ensures Distinct(OtherKeys(keys))
  {
    if |keys| > 0 {
      assert Distinct(keys[1..]) by {
        forall i, j | 0 <= i < j < |keys[1..]| ensures keys[1..][i] != keys[1..][j] {
          assert keys[1..][i] == keys[i + 1] && keys[1..][j] == keys[j + 1];
        }
      }
      OtherKeysDistinct(keys[1..]);
      if !keys[0].Known? {
        OtherKeysContents(keys[1..], keys[0]);
      }
    }
  }

  /** Joining two lists without repeats and with no element in common gives
      a list without repeats. */
  lemma ConcatDistinct<T>(a: seq<T>, b: seq<T>)
    requires Distinct(a) && Distinct(b)
    requires forall i, j | 0 <= i < |a| && 0 <= j < |b| :: a[i] != b[j]
    ensures Distinct(a + b)
  {
    var ab := a + b;
    forall i, j | 0 <= i < j < |ab| ensures ab[i] != ab[j] {
      if j < |a| {
        assert ab[i] == a[i] && ab[j] == a[j];
      } else if i >= |a| {
        assert ab[i] == b[i - |a|] && ab[j] == b[j - |a|];
      } else {
        assert ab[i] == a[i] && ab[j] == b[j - |a|];
      }
    }
  }

  /** Every type is materialised exactly once. */
  lemma MaterialisationOrderPermutes(types: Dict<TypeKey, TypeTable>)
    requires Valid(types)
    ensures Distinct(MaterialisationOrder(types))
    ensures forall k :: k in MaterialisationOrder(types) <==> k in types.entries
  {
    var known := KnownKeys(types.entries.Keys, AllTypes);
    var others := OtherKeys(types.keys);
    AllTypesAscending();
    KnownKeysAscending(types.entries.Keys, AllTypes);
    OtherKeysDistinct(types.keys);
    assert Distinct(known);
    ConcatDistinct(known, others);
    forall k ensures k in known + others <==> k in types.entries {
      KnownKeysContents(types.entries.Keys, AllTypes, k);
      OtherKeysContents(types.keys, k);
      if k.Known? {
        AllTypesListed(k.rtype);
      }
    }
  }

  /** The enum members come first, in ascending code order. */
  lemma MaterialisationOrderKnownFirst(types: Dict<TypeKey, TypeTable>)
    ensures forall i, j | 0 <= i < j < |MaterialisationOrder(types)| && MaterialisationOrder(types)[j].Known? ::
              && MaterialisationOrder(types)[i].Known?
              && Code(MaterialisationOrder(types)[i].rtype) < Code(MaterialisationOrder(types)[j].rtype)
  {
    var known := KnownKeys(types.entries.Keys, AllTypes);
    var others := OtherKeys(types.keys);
    var order := MaterialisationOrder(types);
    AllTypesAscending();
    KnownKeysAscending(types.entries.Keys, AllTypes);
    assert forall m | |known| <= m < |order| :: order[m] == others[m - |known|] && !order[m].Known?;
    assert forall m | 0 <= m < |known| :: order[m] == known[m];
  }

  /** So RT_ICON is materialised before RT_GROUP_ICON, and the group icons
      can find their icons. */
  lemma IconsBeforeGroupIcons(types: Dict<TypeKey, TypeTable>, i: nat, j: nat)
    requires i < |MaterialisationOrder(types)| && j < |MaterialisationOrder(types)|
    requires MaterialisationOrder(types)[i] == Known(RtIcon) && MaterialisationOrder(types)[j] == Known(RtGroupIcon)
    ensures i < j
  {
    MaterialisationOrderKnownFirst(types);
    assert Code(RtIcon) < Code(RtGroupIcon);
  }
}
