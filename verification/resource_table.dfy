/** `ResourceTable` as a whole: the type dict the constructor builds, the
    materialisation of every type into the cache, and the memo that makes
    `resources` decode each type at most once.
 */
module ResourceTable {
  import opened Errors
  import opened Bytes
  import opened ResourceTypes
  import opened OrderedDict
  import opened TypeTables
  import opened Resources
  import opened ResourceCache
  import opened Dispatch

  /** Every declaration of every type in `order` lies within the data. */
  predicate TypesInRange(buf: bytes, types: Dict<TypeKey, TypeTable>, order: seq<TypeKey>)
    requires forall i | 0 <= i < |order| :: order[i] in types.entries
  {
    forall i | 0 <= i < |order| :: AllInRange(buf, types.entries[order[i]].declarations)
  }

  /** What a materialisation over `order` may start from: types not yet in
      the cache, each listed once, each with a table. */
  ghost predicate CanMaterialise(types: Dict<TypeKey, TypeTable>, order: seq<TypeKey>, c: Cache) {
    && ValidCache(c)
    && Distinct(order)
    && (forall i | 0 <= i < |order| :: order[i] in types.entries && order[i] !in c.entries)
  }

  /** The loops of `resources`: each type of `order` is parsed with its
      decoder and then added to the cache under its key, so decoders see only
      the types finished before theirs. A seek error ends the loop, leaving
      in the cache the types finished so far. */
  function Materialise(parsers: map<TypeKey, Decoder>, buf: bytes, types: Dict<TypeKey, TypeTable>,
                       order: seq<TypeKey>, c: Cache): (r: (Option<Error>, Cache))
    requires CanMaterialise(types, order, c)
    ensures ValidCache(r.1)
    ensures r.0.Some? ==> r.0.value.SeekOutOfRange?
    decreases |order|
  {
    if |order| == 0 then (None, c)
    else
      var key := order[0];
      var parsed := ParseType(ParserFor(parsers, key), buf, types.entries[key].declarations, c);
      match parsed.0
      case Err(e) => (Some(e), parsed.1)
      case Ok(resources) =>
        MaterialiseStep(types, order, c, parsed.1, resources);
        Materialise(parsers, buf, types, order[1..], Put(parsed.1, key, resources))
  }

  /** The decoders of the first type of `order` run against the cache as it
      stands; the rest start from that cache with the first type appended.
      So every type is decoded seeing exactly the types finished before it. */
  lemma MaterialiseUnfold(parsers: map<TypeKey, Decoder>, buf: bytes, types: Dict<TypeKey, TypeTable>,
                          order: seq<TypeKey>, c: Cache)
    requires CanMaterialise(types, order, c) && |order| > 0
    ensures var parsed := ParseType(ParserFor(parsers, order[0]), buf, types.entries[order[0]].declarations, c);
            && (parsed.0.Err? ==> Materialise(parsers, buf, types, order, c) == (Some(parsed.0.error), parsed.1))
            && (parsed.0.Ok? ==>
                  && CanMaterialise(types, order[1..], Put(parsed.1, order[0], parsed.0.value))
                  && Put(parsed.1, order[0], parsed.0.value).keys == c.keys + [order[0]]
                  && Materialise(parsers, buf, types, order, c)
                     == Materialise(parsers, buf, types, order[1..], Put(parsed.1, order[0], parsed.0.value)))
  {
    var parsed := ParseType(ParserFor(parsers, order[0]), buf, types.entries[order[0]].declarations, c);
    if parsed.0.Ok? {
      MaterialiseStep(types, order, c, parsed.1, parsed.0.value);
    }
  }

  /** Materialisation fails exactly when some declaration of some type lies
      beyond the data. On success the cache holds the types in `order`
      appended in that order; on failure, those before the failing type. */
  ghost predicate Outcome(buf: bytes, types: Dict<TypeKey, TypeTable>, order: seq<TypeKey>, c: Cache,
                          r: (Option<Error>, Cache))
    requires forall i | 0 <= i < |order| :: order[i] in types.entries
  {
    && (r.0.None? <==> TypesInRange(buf, types, order))
    && (r.0.None? ==> r.1.keys == c.keys + order)
    && (r.0.Some? ==> exists n | 0 <= n < |order| :: r.1.keys == c.keys + order[..n])
  }

  lemma {:induction false} MaterialiseOutcome(parsers: map<TypeKey, Decoder>, buf: bytes,
                                              types: Dict<TypeKey, TypeTable>, order: seq<TypeKey>, c: Cache)
    requires CanMaterialise(types, order, c)
    ensures Outcome(buf, types, order, c, Materialise(parsers, buf, types, order, c))
    decreases |order|
  {
    if |order| > 0 {
      var key := order[0];
      var parsed := ParseType(ParserFor(parsers, key), buf, types.entries[key].declarations, c);
      MaterialiseUnfold(parsers, buf, types, order, c);
      if parsed.0.Err? {
        assert c.keys + order[..0] == c.keys;
        assert !AllInRange(buf, types.entries[order[0]].declarations);
      } else {
        var next := Put(parsed.1, key, parsed.0.value);
        MaterialiseOutcome(parsers, buf, types, order[1..], next);
        OutcomeCons(buf, types, order, c, next, Materialise(parsers, buf, types, order[1..], next));
      }
    }
  }

  /** The outcome over the rest of `order`, seen from the whole of it once
      its first type was added. */
  lemma OutcomeCons(buf: bytes, types: Dict<TypeKey, TypeTable>, order: seq<TypeKey>, c: Cache, next: Cache,
                    r: (Option<Error>, Cache))
    requires |order| > 0 && forall i | 0 <= i < |order| :: order[i] in types.entries
    requires AllInRange(buf, types.entries[order[0]].declarations)
    requires next.keys == c.keys + [order[0]]
    requires Outcome(buf, types, order[1..], next, r)
    ensures Outcome(buf, types, order, c, r)
  {
    assert forall i | 0 <= i < |order[1..]| :: order[1..][i] == order[i + 1];
    assert c.keys + order == next.keys + order[1..];
    if r.0.Some? {
      var n :| 0 <= n < |order[1..]| && r.1.keys == next.keys + order[1..][..n];
      assert next.keys + order[1..][..n] == c.keys + order[..n + 1];
    }
  }

  /** After the first type is added, the rest of `order` can still be
      materialised. */
  lemma MaterialiseStep(types: Dict<TypeKey, TypeTable>, order: seq<TypeKey>, c: Cache, parsed: Cache,
                        resources: TypeResources)
    requires CanMaterialise(types, order, c) && |order| > 0
    requires ValidCache(parsed) && SameShape(c, parsed) && ValidResources(resources)
    ensures CanMaterialise(types, order[1..], Put(parsed, order[0], resources))
    ensures Put(parsed, order[0], resources).keys == c.keys + [order[0]]
  {
    var next := Put(parsed, order[0], resources);
    forall i, j | 0 <= i < j < |order[1..]| ensures order[1..][i] != order[1..][j] {
      assert order[1..][i] == order[i + 1] && order[1..][j] == order[j + 1];
    }
    forall i | 0 <= i < |order[1..]| ensures order[1..][i] in types.entries && order[1..][i] !in next.entries {
      assert order[1..][i] == order[i + 1];
      assert order[0] != order[i + 1];
    }
  }

  // ---- The table object ----

  /** A constructed `ResourceTable`: where it starts, its alignment shift,
      its decoder registrations, its type dict, and `_resources`. */
  datatype Table = Table(
    start: nat, shift: nat, parsers: map<TypeKey, Decoder>,
    types: Dict<TypeKey, TypeTable>, memo: Option<Cache>)

  ghost predicate ValidTable(t: Table) {
    && Valid(t.types)
    && (t.memo.Some? ==> ValidCache(t.memo.value))
  }

  /** `resource_type_tables`: each scanned table under its key, a later table
      with the same key replacing an earlier one in its place. */
  function TypeDict(tables: seq<TypeTable>): (d: Dict<TypeKey, TypeTable>)
    ensures Valid(d)
  {
    Collect(seq(|tables|, i requires 0 <= i < |tables| => (tables[i].key, tables[i])))
  }

  /** The type dict holds exactly the scanned keys, each with the last table
      scanned under it. */
  lemma TypeDictContents(tables: seq<TypeTable>, k: TypeKey)
    ensures k in TypeDict(tables).entries <==> exists i | 0 <= i < |tables| :: tables[i].key == k
    ensures forall i | 0 <= i < |tables| && tables[i].key == k && (forall j | i < j < |tables| :: tables[j].key != k) ::
              TypeDict(tables).entries[k] == tables[i]
  {
    var pairs := seq(|tables|, i requires 0 <= i < |tables| => (tables[i].key, tables[i]));
    CollectKeys(pairs, k);
    assert forall i | 0 <= i < |tables| :: pairs[i] == (tables[i].key, tables[i]);
    forall i | 0 <= i < |tables| && tables[i].key == k && (forall j | i < j < |tables| :: tables[j].key != k)
      ensures TypeDict(tables).entries[k] == tables[i]
    {
      CollectLastWins(pairs, i);
    }
  }

  /** `ResourceTable(stream, user_defined_resource_parsers)` with the stream
      at `start`: the layout is read and nothing is decoded yet. */
  function BuildTable(buf: bytes, start: nat, user: map<TypeKey, Decoder>): (r: Result<Table>)
    requires start <= |buf|
    ensures r.Ok? <==> ReadLayout(buf, start).Ok?
    ensures r.Err? ==> r.error == ReadLayout(buf, start).error
    ensures r.Ok? ==> && ValidTable(r.value) && r.value.memo.None?
                      && r.value.start == start && r.value.shift == buf[start]
                      && r.value.parsers == Parsers(user)
                      && r.value.types == TypeDict(ReadLayout(buf, start).value.tables)
  {
    var layout :- ReadLayout(buf, start);
    Ok(Table(start, layout.shift, Parsers(user), TypeDict(layout.tables), None))
  }

  /** The `resources` property. The first call materialises every type in
      `MaterialisationOrder` and keeps the cache, even when a seek error cut
      it short; every later call returns what was kept and decodes nothing. */
  function GetResources(buf: bytes, t: Table): (r: (Result<Cache>, Table))
    requires ValidTable(t)
    ensures ValidTable(r.1) && r.1.memo.Some?
    ensures r.1 == t.(memo := r.1.memo)
    ensures t.memo.Some? ==> r == (Ok(t.memo.value), t)
    ensures r.0.Ok? ==> r.0.value == r.1.memo.value
    ensures r.0.Err? ==> r.0.error.SeekOutOfRange?
    ensures t.memo.None? ==> (r.0.Ok? <==> TypesInRange(buf, t.types, MaterialisationOrder(t.types)))
    ensures t.memo.None? && r.0.Ok? ==> r.0.value.keys == MaterialisationOrder(t.types)
    ensures t.memo.None? && r.0.Err? ==>
              exists n | 0 <= n < |MaterialisationOrder(t.types)| ::
                r.1.memo.value.keys == MaterialisationOrder(t.types)[..n]
  {
    match t.memo
    case Some(c) => (Ok(c), t)
    case None =>
      var order := MaterialisationOrder(t.types);
      MaterialiseFromEmpty(t.parsers, buf, t.types);
      var run := Materialise(t.parsers, buf, t.types, order, Empty());
      var kept := t.(memo := Some(run.1));
      match run.0
      case None => (Ok(run.1), kept)
      case Some(e) => (Err(e), kept)
  }

  /** Every type, in materialisation order, can go into an empty cache. */
  lemma OrderCanMaterialise(types: Dict<TypeKey, TypeTable>)
    requires Valid(types)
    ensures CanMaterialise(types, MaterialisationOrder(types), Empty())
  {
    MaterialisationOrderPermutes(types);
  }

  /** The outcome of materialising into an empty cache. */
  lemma OutcomeFromEmpty(buf: bytes, types: Dict<TypeKey, TypeTable>, order: seq<TypeKey>, r: (Option<Error>, Cache))
    requires forall i | 0 <= i < |order| :: order[i] in types.entries
    requires Outcome(buf, types, order, Empty(), r)
    ensures r.0.None? <==> TypesInRange(buf, types, order)
    ensures r.0.None? ==> r.1.keys == order
    ensures r.0.Some? ==> exists n | 0 <= n < |order| :: r.1.keys == order[..n]
  {
    assert [] + order == order;
    assert forall n | 0 <= n < |order| :: [] + order[..n] == order[..n];
  }

  /** Materialising every type into an empty cache. */
  lemma MaterialiseFromEmpty(parsers: map<TypeKey, Decoder>, buf: bytes, types: Dict<TypeKey, TypeTable>)
    requires Valid(types)
    ensures CanMaterialise(types, MaterialisationOrder(types), Empty())
    ensures var order := MaterialisationOrder(types);
            var run := Materialise(parsers, buf, types, order, Empty());
            && (run.0.None? <==> TypesInRange(buf, types, order))
            && (run.0.None? ==> run.1.keys == order)
            && (run.0.Some? ==> exists n | 0 <= n < |order| :: run.1.keys == order[..n])
  {
    OrderCanMaterialise(types);
    var order := MaterialisationOrder(types);
    MaterialiseOutcome(parsers, buf, types, order, Empty());
    OutcomeFromEmpty(buf, types, order, Materialise(parsers, buf, types, order, Empty()));
  }

  /** Asking again gives what the first call kept, and changes nothing. */
  lemma GetResourcesMemoised(buf: bytes, t: Table)
    requires ValidTable(t)
    ensures var after := GetResources(buf, t).1;
            GetResources(buf, after) == (Ok(after.memo.value), after)
  {
  }

  /** `find_resource_by_id` called on a table from outside: the resources
      are materialised (or taken from the memo) first. */
  function FindInTable(buf: bytes, t: Table, id: ResourceId, key: TypeKey): (r: (Result<Resource>, Table))
    requires ValidTable(t)
    ensures r.1 == GetResources(buf, t).1
    ensures GetResources(buf, t).0.Err? ==> r.0 == Err(GetResources(buf, t).0.error)
    ensures GetResources(buf, t).0.Ok? ==> r.0 == FindResourceById(GetResources(buf, t).0.value, id, key)
  {
    var got := GetResources(buf, t);
    match got.0
    case Err(e) => (Err(e), got.1)
    case Ok(c) => (FindResourceById(c, id, key), got.1)
  }
}
