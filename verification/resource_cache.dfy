/** The resource cache `ResourceTable.resources` builds: for each type key, a
    dict from resource id to decoded resource. Decoders see the cache while it
    is being built, and a group icon marks the icons it claims inside it.
 */
module ResourceCache {
  import opened Errors
  import opened ResourceTypes
  import opened OrderedDict
  import opened Resources

  type TypeResources = Dict<ResourceId, Resource>
  type Cache = Dict<TypeKey, TypeResources>

  /** Every resource of one type is one a decoder can produce. */
  ghost predicate ValidResources(d: TypeResources) {
    && Valid(d)
    && forall id | id in d.entries :: ValidResource(d.entries[id])
  }

  ghost predicate ValidCache(c: Cache) {
    && Valid(c)
    && forall k | k in c.entries :: ValidResources(c.entries[k])
  }

  /** `b` has the same type keys as `a`, in the same order, and each type the
      same ids in the same order; only resources themselves may differ. */
  ghost predicate SameShape(a: Cache, b: Cache) {
    && b.keys == a.keys
    && b.entries.Keys == a.entries.Keys
    && forall k | k in a.entries :: b.entries[k].keys == a.entries[k].keys
                                    && b.entries[k].entries.Keys == a.entries[k].entries.Keys
  }

  /** `find_resource_by_id(resource_id, type_id)`: a missing type and a
      missing id are two different errors. */
  function FindResourceById(c: Cache, id: ResourceId, key: TypeKey): (r: Result<Resource>)
    ensures r.Ok? <==> key in c.entries && id in c.entries[key].entries
    ensures key !in c.entries ==> r == Err(NoSuchType)
    ensures key in c.entries && id !in c.entries[key].entries ==> r == Err(NoSuchId)
    ensures r.Ok? ==> r.value == c.entries[key].entries[id]
  {
    match Get(c, key)
    case None => Err(NoSuchType)
    case Some(resources) =>
      match Get(resources, id)
      case None => Err(NoSuchId)
      case Some(found) => Ok(found)
  }

  /** `referenced_icon.is_in_group = True` on a resource held in the cache. */
  function MarkGrouped(c: Cache, key: TypeKey, id: ResourceId): (r: Cache)
    requires ValidCache(c) && key in c.entries && id in c.entries[key].entries
    ensures ValidCache(r) && SameShape(c, r)
    ensures r.entries[key].entries[id] == Marked(c.entries[key].entries[id])
    ensures forall k, i | k in c.entries && i in c.entries[k].entries && (k, i) != (key, id) ::
              r.entries[k].entries[i] == c.entries[k].entries[i]
  {
    var resources := c.entries[key];
    var marked := Dict(resources.keys, resources.entries[id := Marked(resources.entries[id])]);
    Dict(c.keys, c.entries[key := marked])
  }

  /** Marking changes what one lookup finds, into the marked resource, and no
      other lookup; in particular no lookup starts or stops failing. */
  lemma FindAfterMark(c: Cache, key: TypeKey, id: ResourceId, key': TypeKey, id': ResourceId)
    requires ValidCache(c) && key in c.entries && id in c.entries[key].entries
    ensures (key', id') == (key, id) ==>
              FindResourceById(MarkGrouped(c, key, id), id', key') == Ok(Marked(c.entries[key].entries[id]))
    ensures (key', id') != (key, id) ==>
              FindResourceById(MarkGrouped(c, key, id), id', key') == FindResourceById(c, id', key')
  {
  }

  /** Marking twice is marking once. */
  lemma MarkGroupedIdempotent(c: Cache, key: TypeKey, id: ResourceId)
    requires ValidCache(c) && key in c.entries && id in c.entries[key].entries
    ensures MarkGrouped(MarkGrouped(c, key, id), key, id) == MarkGrouped(c, key, id)
  {
    var once := MarkGrouped(c, key, id);
    var twice := MarkGrouped(once, key, id);
    assert twice.entries[key].entries == once.entries[key].entries;
    assert twice.entries[key] == once.entries[key];
    assert twice.entries == once.entries;
  }
}
