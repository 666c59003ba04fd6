/** `NE`: choosing the data source, reading the MZ stub and the NE header,
    loading the resource table (or deciding there is none), and
    `export_resources`, which names every cached resource after the file,
    its type and its id and exports it.
 */
module NeFile {
  import opened Errors
  import opened Bytes
  import opened Decimal
  import opened ResourceTypes
  import opened OrderedDict
  import opened Resources
  import opened ResourceCache
  import opened Dispatch
  import opened ResourceTable
  import opened Headers

  // ---- Opening ----

  /** The data `NE` reads: the file at `filepath` (its contents given as
      `fileContents`, memory-mapped read-only), or the caller's `stream`,
      never both. The stream is taken to behave like a mapped file read from
      position 0. Mapping an empty file fails. */
  function OpenSource(filepath: Option<string>, fileContents: bytes, stream: Option<bytes>): (r: Result<bytes>)
    ensures filepath.Some? && stream.Some? ==> r == Err(AmbiguousSource)
    ensures filepath.None? && stream.None? ==> r == Err(NoSource)
    ensures filepath.Some? && stream.None? ==>
              r == if |fileContents| == 0 then Err(EmptyFile) else Ok(fileContents)
    ensures filepath.None? && stream.Some? ==> r == Ok(stream.value)
  {
    if filepath.Some? && stream.Some? then Err(AmbiguousSource)
    else if filepath.Some? then
      if |fileContents| == 0 then Err(EmptyFile) else Ok(fileContents)
    else if stream.Some? then Ok(stream.value)
    else Err(NoSource)
  }

  /** The `try` around the resource table: a seek beyond the data or any
      ValueError while reading the table leaves no table; any other error
      (a short unpack) escapes. */
  function LoadTable(buf: bytes, offset: nat, user: map<TypeKey, Decoder>): (r: Result<Option<Table>>)
    ensures offset > |buf| ==> r == Ok(None)
    ensures offset <= |buf| ==>
              && (r.Err? <==> BuildTable(buf, offset, user).Err? && !IsValueError(BuildTable(buf, offset, user).error))
              && (r == Ok(None) <==> BuildTable(buf, offset, user).Err? && IsValueError(BuildTable(buf, offset, user).error))
              && (r.Err? ==> r.error == BuildTable(buf, offset, user).error)
              && (r.Ok? && r.value.Some? ==> Ok(r.value.value) == BuildTable(buf, offset, user))
    ensures r.Ok? && r.value.Some? ==> && r.value.value.memo.None? && r.value.value.start == offset
                                       && ValidTable(r.value.value)
  {
    match Seek(buf, offset)
    case Err(_) => Ok(None)
    case Ok(at) =>
      match BuildTable(buf, at, user)
      case Ok(table) => Ok(Some(table))
      case Err(e) => if IsValueError(e) then Ok(None) else Err(e)
  }

  /** A constructed `NE`. */
  datatype Ne = Ne(buf: bytes, filepath: Option<string>, mz: MzStub, header: NeHeader, table: Option<Table>)

  ghost predicate ValidNe(ne: Ne) {
    ne.table.Some? ==> ValidTable(ne.table.value)
  }

  /** `NE(filepath, stream, user_defined_resource_parsers)`. */
  function OpenNe(filepath: Option<string>, fileContents: bytes, stream: Option<bytes>,
                  user: map<TypeKey, Decoder>): (r: Result<Ne>)
    ensures r.Ok? ==> ValidNe(r.value) && r.value.filepath == filepath
    ensures OpenSource(filepath, fileContents, stream).Err? ==> r == Err(OpenSource(filepath, fileContents, stream).error)
    ensures r.Ok? ==> && OpenSource(filepath, fileContents, stream) == Ok(r.value.buf)
                      && ReadMz(r.value.buf) == Ok(r.value.mz)
                      && r.value.mz.neHeaderOffset <= |r.value.buf|
                      && ReadNeHeader(r.value.buf, r.value.mz.neHeaderOffset) == Ok(r.value.header)
                      && LoadTable(r.value.buf, ResourceTableOffset(r.value.header), user) == Ok(r.value.table)
    ensures OpenSource(filepath, fileContents, stream).Ok? ==>
              var buf := OpenSource(filepath, fileContents, stream).value;
              (r.Ok? <==> && ReadMz(buf).Ok?
                          && ReadMz(buf).value.neHeaderOffset <= |buf|
                          && ReadNeHeader(buf, ReadMz(buf).value.neHeaderOffset).Ok?
                          && LoadTable(buf, ResourceTableOffset(ReadNeHeader(buf, ReadMz(buf).value.neHeaderOffset).value), user).Ok?)
  {
    var buf :- OpenSource(filepath, fileContents, stream);
    var mz :- ReadMz(buf);
    var at :- Seek(buf, mz.neHeaderOffset);
    var header :- ReadNeHeader(buf, at);
    var table :- LoadTable(buf, ResourceTableOffset(header), user);
    Ok(Ne(buf, filepath, mz, header, table))
  }

  // ---- Names ----

  /** `os.path.split(path)[1]`: what follows the last '/'. */
  function BaseName(path: string): (name: string)
    ensures |name| <= |path| && path[|path| - |name|..] == name
    ensures forall i | 0 <= i < |name| :: name[i] != '/'
    ensures |name| == |path| || path[|path| - |name| - 1] == '/'
  {
    if |path| == 0 || path[|path| - 1] == '/' then ""
    else BaseName(path[..|path| - 1]) + [path[|path| - 1]]
  }

  /** `os.path.join(directory, name)`. */
  function Join(directory: string, name: string): (path: string)
    ensures |name| > 0 && name[0] == '/' ==> path == name
    ensures !(|name| > 0 && name[0] == '/') ==>
              exists sep: string | sep == "" || sep == "/" :: path == directory + sep + name
  {
    if |name| > 0 && name[0] == '/' then name
    else if |directory| == 0 || directory[|directory| - 1] == '/' then
      assert directory + "" + name == directory + name;
      directory + name
    else directory + "/" + name
  }

  /** A name without '/' joined under a directory is that path's base name. */
  lemma JoinBaseName(directory: string, name: string)
    requires forall i | 0 <= i < |name| :: name[i] != '/'
    ensures BaseName(Join(directory, name)) == name
  {
    if |directory| == 0 || directory[|directory| - 1] == '/' {
      BaseNameAfter(directory, name);
    } else {
      BaseNameAfter(directory + "/", name);
      assert directory + "/" + name == (directory + "/") + name;
    }
  }

  /** What follows a '/' (or the start) and holds no '/' is the base name. */
  lemma {:induction false} BaseNameAfter(prefix: string, name: string)
    requires |prefix| == 0 || prefix[|prefix| - 1] == '/'
    requires forall i | 0 <= i < |name| :: name[i] != '/'
    ensures BaseName(prefix + name) == name
    decreases |name|
  {
    if |name| == 0 {
      assert prefix + name == prefix;
    } else {
      var init := name[..|name| - 1];
      assert (prefix + name)[..|prefix + name| - 1] == prefix + init;
      BaseNameAfter(prefix, init);
      assert init + [name[|name| - 1]] == name;
    }
  }

  /** `ResourceType.name`. */
  function TypeName(t: ResourceType): (name: string)
    ensures |name| > 3 && name[..3] == "RT_"
  {
    match t
    case RtCursor => "RT_CURSOR"
    case RtBitmap => "RT_BITMAP"
    case RtIcon => "RT_ICON"
    case RtMenu => "RT_MENU"
    case RtDialog => "RT_DIALOG"
    case RtString => "RT_STRING"
    case RtFontDir => "RT_FONTDIR"
    case RtFont => "RT_FONT"
    case RtAccelerator => "RT_ACCELERATOR"
    case RtRcData => "RT_RCDATA"
    case RtMessageTable => "RT_MESSAGETABLE"
    case RtGroupCursor => "RT_GROUP_CURSOR"
    case RtGroupIcon => "RT_GROUP_ICON"
    case RtVersion => "RT_VERSION"
  }

  /** How a type key appears in an export name: the member name of a
      built-in type, the decimal code of another numbered type, the name of a
      named one. */
  function TypeString(key: TypeKey): string {
    match key
    case Known(t) => TypeName(t)
    case Numbered(n) => ToDecimal(n)
    case Named(name) => name
  }

  /** How a resource id appears in an export name. */
  function IdString(id: ResourceId): string {
    match id
    case IntId(n) => ToDecimal(n)
    case NameId(name) => name
  }

  /** Numbered type keys never share an export-name part: the member names
      are distinct and begin with a letter, the decimal codes are distinct
      and begin with a digit. */
  lemma TypeStringDistinct(a: TypeKey, b: TypeKey)
    requires !a.Named? && !b.Named? && a != b
    ensures TypeString(a) != TypeString(b)
  {
    if a.Numbered? && b.Numbered? {
      DecimalInjective(a.code, b.code);
    } else if a.Known? && b.Known? {
      assert TypeString(a) != TypeString(b);
    } else {
      assert TypeString(a)[0] != TypeString(b)[0];
    }
  }

  /** `f'{self.filename}-{resource_type_string}-{resource_id}'`. */
  function ExportName(filename: string, key: TypeKey, id: ResourceId): string {
    filename + "-" + TypeString(key) + "-" + IdString(id)
  }

  predicate NoDash(s: string) {
    forall i | 0 <= i < |s| :: s[i] != '-'
  }

  /** Two dash-free parts joined by a dash can be told apart again. */
  lemma DashJoinInjective(a: string, b: string, c: string, d: string)
    requires NoDash(a) && NoDash(b) && NoDash(c) && NoDash(d)
    requires a + "-" + b == c + "-" + d
    ensures a == c && b == d
  {
    var s := a + "-" + b;
    var t := c + "-" + d;
    FirstDash(a, b);
    FirstDash(c, d);
    assert |a| == |c|;
    assert a == s[..|a|] && c == t[..|c|];
    assert b == s[|a| + 1..] && d == t[|c| + 1..];
  }

  lemma FirstDash(a: string, b: string)
    requires NoDash(a)
    ensures (a + "-" + b)[|a|] == '-'
    ensures forall j | 0 <= j < |a| :: (a + "-" + b)[j] != '-'
  {
  }

  lemma TypeStringNoDash(key: TypeKey)
    requires !key.Named?
    ensures NoDash(TypeString(key))
  {
    if key.Known? {
      match key.rtype
      case RtCursor => case RtBitmap => case RtIcon => case RtMenu => case RtDialog =>
      case RtString => case RtFontDir => case RtFont => case RtAccelerator => case RtRcData =>
      case RtMessageTable => case RtGroupCursor => case RtGroupIcon => case RtVersion =>
    }
  }

  /** Two resources with numbered types and integer ids never get the same
      export name: their files cannot overwrite each other. */
  lemma ExportNamesDistinct(filename: string, k1: TypeKey, i1: ResourceId, k2: TypeKey, i2: ResourceId)
    requires !k1.Named? && !k2.Named? && i1.IntId? && i2.IntId?
    requires k1 != k2 || i1 != i2
    ensures ExportName(filename, k1, i1) != ExportName(filename, k2, i2)
  {
    if ExportName(filename, k1, i1) == ExportName(filename, k2, i2) {
      ExportNameTail(filename, k1, i1);
      ExportNameTail(filename, k2, i2);
      TypeStringNoDash(k1);
      TypeStringNoDash(k2);
      DashJoinInjective(TypeString(k1), IdString(i1), TypeString(k2), IdString(i2));
      if k1 != k2 {
        TypeStringDistinct(k1, k2);
      } else {
        DecimalInjective(i1.n, i2.n);
      }
    }
  }

  lemma ExportNameTail(filename: string, key: TypeKey, id: ResourceId)
    ensures |ExportName(filename, key, id)| > |filename|
    ensures ExportName(filename, key, id)[|filename| + 1..] == TypeString(key) + "-" + IdString(id)
  {
    assert ExportName(filename, key, id) == (filename + "-") + (TypeString(key) + "-" + IdString(id));
  }

  // ---- Exporting ----

  /** One resource of the cache with the keys it is filed under. */
  datatype Item = Item(key: TypeKey, id: ResourceId, resource: Resource)

  /** The resources of one type, in its dict's order. */
  function TypeItems(key: TypeKey, d: TypeResources, ids: seq<ResourceId>): (items: seq<Item>)
    requires forall i | 0 <= i < |ids| :: ids[i] in d.entries
    ensures |items| == |ids|
    ensures forall i | 0 <= i < |ids| :: items[i] == Item(key, ids[i], d.entries[ids[i]])
  {
    if |ids| == 0 then [] else [Item(key, ids[0], d.entries[ids[0]])] + TypeItems(key, d, ids[1..])
  }

  /** The nested loops of `export_resources`: every type in the cache's
      order, and within it every id in its dict's order. */
  function Items(c: Cache, keys: seq<TypeKey>): (items: seq<Item>)
    requires ValidCache(c) && forall i | 0 <= i < |keys| :: keys[i] in c.entries
    ensures forall i | 0 <= i < |items| ::
              && items[i].key in keys
              && items[i].id in c.entries[items[i].key].entries
              && items[i].resource == c.entries[items[i].key].entries[items[i].id]
              && ValidResource(items[i].resource)
  {
    if |keys| == 0 then []
    else
      var d := c.entries[keys[0]];
      TypeItems(keys[0], d, d.keys) + Items(c, keys[1..])
  }

  /** Every resource of every type among `keys` is listed. */
  lemma {:induction false} ItemsComplete(c: Cache, keys: seq<TypeKey>, k: TypeKey, id: ResourceId)
    requires ValidCache(c) && forall i | 0 <= i < |keys| :: keys[i] in c.entries
    requires k in keys && id in c.entries[k].entries
    ensures exists i | 0 <= i < |Items(c, keys)| :: Items(c, keys)[i].key == k && Items(c, keys)[i].id == id
  {
    var d := c.entries[keys[0]];
    var head := TypeItems(keys[0], d, d.keys);
    var all := Items(c, keys);
    assert all == head + Items(c, keys[1..]);
    if k == keys[0] {
      var j :| 0 <= j < |d.keys| && d.keys[j] == id;
      assert all[j] == head[j];
    } else {
      assert k in keys[1..];
      ItemsComplete(c, keys[1..], k, id);
      var rest := Items(c, keys[1..]);
      var i :| 0 <= i < |rest| && rest[i].key == k && rest[i].id == id;
      assert all[|head| + i] == rest[i];
    }
  }

  /** The export of one item: naming it needs the executable's file name,
      which a stream-backed executable does not have. */
  function ExportItem(item: Item, filepath: Option<string>, directory: string): (r: Result<Output>)
    requires ValidResource(item.resource)
    ensures filepath.None? ==> r == Err(NoFilePath)
    ensures filepath.Some? ==>
              r == Export(item.resource, Join(directory, ExportName(BaseName(filepath.value), item.key, item.id)))
  {
    match filepath
    case None => Err(NoFilePath)
    case Some(path) => Export(item.resource, Join(directory, ExportName(BaseName(path), item.key, item.id)))
  }

  /** What a run of exports leaves: every output before the error is the
      export of its item, the error is the export error of the next item, and
      without an error every item was exported. */
  ghost predicate Exported(items: seq<Item>, filepath: Option<string>, directory: string, r: (seq<Output>, Option<Error>))
    requires forall i | 0 <= i < |items| :: ValidResource(items[i].resource)
  {
    && |r.0| <= |items|
    && (forall i | 0 <= i < |r.0| :: ExportItem(items[i], filepath, directory) == Ok(r.0[i]))
    && (r.1.None? ==> |r.0| == |items|)
    && (r.1.Some? ==> |r.0| < |items| && ExportItem(items[|r.0|], filepath, directory) == Err(r.1.value))
  }

  /** Exporting items one after the other: the outputs written, and the error
      that stopped the loop, if any. */
  function ExportItems(items: seq<Item>, filepath: Option<string>, directory: string): (r: (seq<Output>, Option<Error>))
    requires forall i | 0 <= i < |items| :: ValidResource(items[i].resource)
    ensures Exported(items, filepath, directory, r)
    decreases |items|
  {
    if |items| == 0 then ([], None)
    else
      match ExportItem(items[0], filepath, directory)
      case Err(e) => ([], Some(e))
      case Ok(o) =>
        var rest := ExportItems(items[1..], filepath, directory);
        ExportedCons(items, filepath, directory, o, rest);
        ([o] + rest.0, rest.1)
  }

  lemma ExportedCons(items: seq<Item>, filepath: Option<string>, directory: string, o: Output, rest: (seq<Output>, Option<Error>))
    requires |items| > 0 && forall i | 0 <= i < |items| :: ValidResource(items[i].resource)
    requires ExportItem(items[0], filepath, directory) == Ok(o)
    requires Exported(items[1..], filepath, directory, rest)
    ensures Exported(items, filepath, directory, ([o] + rest.0, rest.1))
  {
    var outs := [o] + rest.0;
    forall i | 0 <= i < |outs|
      ensures ExportItem(items[i], filepath, directory) == Ok(outs[i])
    {
      if i > 0 {
        assert items[i] == items[1..][i - 1];
      }
    }
    if rest.1.Some? {
      assert items[|outs|] == items[1..][|rest.0|];
    }
  }

  /** The loop stops at the first item whose export fails, and only there. */
  lemma ExportItemsStops(items: seq<Item>, filepath: Option<string>, directory: string)
    requires forall i | 0 <= i < |items| :: ValidResource(items[i].resource)
    ensures ExportItems(items, filepath, directory).1.None? <==>
              forall i | 0 <= i < |items| :: ExportItem(items[i], filepath, directory).Ok?
  {
  }

  /** `export_resources(directory_path)`: nothing without a resource table;
      otherwise the resources are materialised (an error doing so escapes
      before anything is written) and every item is exported in cache order
      until one fails. The table's memo is kept either way. */
  function ExportResources(ne: Ne, directory: string): (r: (seq<Output>, Option<Error>, Ne))
    requires ValidNe(ne)
    ensures ValidNe(r.2) && r.2.table.Some? == ne.table.Some?
    ensures ne.table.None? ==> r == ([], None, ne)
    ensures ne.table.Some? ==>
              var got := GetResources(ne.buf, ne.table.value);
              && r.2 == ne.(table := Some(got.1))
              && (got.0.Err? ==> r.0 == [] && r.1 == Some(got.0.error))
              && (got.0.Ok? ==> ValidCache(got.0.value) && (r.0, r.1) == ExportItems(Items(got.0.value, got.0.value.keys), ne.filepath, directory))
  {
    match ne.table
    case None => ([], None, ne)
    case Some(t) =>
      var got := GetResources(ne.buf, t);
      var kept := ne.(table := Some(got.1));
      match got.0
      case Err(e) => ([], Some(e), kept)
      case Ok(c) =>
        var items := Items(c, c.keys);
        var exported := ExportItems(items, ne.filepath, directory);
        (exported.0, exported.1, kept)
  }
}
