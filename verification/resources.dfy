/** The decoded resources and what exporting each one produces.

    A resource is what its decoder made of the declaration: raw bytes, a
    bitmap, an icon (which remembers whether a group claimed it), a group
    icon (its directory and the data of the icons it names), or a string
    table. Exporting produces at most one file, given as its path and
    contents; writing it is left to the caller.
 */
module Resources {
  import opened Errors
  import opened Bytes
  import opened ResourceTypes
  import opened Bitmap
  import opened Icon
  import opened StringTable

  datatype Resource =
    | RawData(data: bytes)
    | BitmapResource(id: ResourceId, picture: Picture)
    | IconResource(id: ResourceId, picture: Picture, inGroup: bool)
    | GroupIconResource(id: ResourceId, directory: Directory, images: seq<Option<bytes>>)
    | StringTableResource(strings: seq<Option<string>>)

  /** The resource's `data` attribute, where it has one. */
  function DataOf(r: Resource): (d: Option<bytes>)
    ensures d.Some? <==> r.RawData? || r.BitmapResource? || r.IconResource?
  {
    match r
    case RawData(data) => Some(data)
    case BitmapResource(_, p) => Some(p.data)
    case IconResource(_, p, _) => Some(p.data)
    case _ => None
  }

  /** `resource.is_in_group = True`. Only an icon's export looks at the flag;
      on any other resource it is set and never read. */
  function Marked(r: Resource): (m: Resource)
    ensures r.IconResource? ==> m.IconResource? && m.inGroup && m.picture == r.picture && m.id == r.id
    ensures !r.IconResource? ==> m == r
    ensures DataOf(m) == DataOf(r)
  {
    match r
    case IconResource(id, p, _) => IconResource(id, p, true)
    case _ => r
  }

  /** ASCII `str.lower()`. */
  function Lower(s: string): (r: string)
    ensures |r| == |s|
    ensures forall i | 0 <= i < |s| :: r[i] == if 'A' <= s[i] <= 'Z' then (s[i] as int + 32) as char else s[i]
  {
    seq(|s|, i requires 0 <= i < |s| => if 'A' <= s[i] <= 'Z' then (s[i] as int + 32) as char else s[i])
  }

  const BMP_EXTENSION: string := ".bmp"
  const ICO_EXTENSION: string := ".ico"

  /** A four-character file extension in lower case. */
  predicate IsExtension(ext: string) {
    |ext| == 4 && Lower(ext) == ext
  }

  /** `path` already ends in the extension `ext`, ignoring case. */
  predicate HasExtension(path: string, ext: string) {
    |path| >= |ext| && Lower(path[|path| - |ext|..]) == ext
  }

  /** The file name an export writes to: `ext` is appended unless the path
      already ends with it, in any case. This is the check the exporters
      evidently intend (see `ExportPathAsWritten`). */
  function ExportPath(path: string, ext: string): (r: string)
    requires IsExtension(ext)
    ensures HasExtension(r, ext)
    ensures HasExtension(path, ext) ==> r == path
    ensures !HasExtension(path, ext) ==> r == path + ext
  {
    if HasExtension(path, ext) then path else
      assert (path + ext)[|path|..] == ext;
      path + ext
  }

  /** The extension check as the exporters write it:
      `path[:-4].lower() == ext` compares everything BUT the last four
      characters with the extension. */
  function ExportPathAsWritten(path: string, ext: string): (r: string)
    requires IsExtension(ext)
    ensures r == path || r == path + ext
    ensures r == path <==> |path| >= 4 && Lower(path[..|path| - 4]) == ext
  {
    var stem := if |path| >= 4 then path[..|path| - 4] else "";
    if Lower(stem) == ext then path else path + ext
  }

  /** As written, a path that already ends in ".ico" gets a second ".ico";
      the corrected check leaves it alone. */
  lemma ExportPathCounterexample()
    ensures ExportPathAsWritten("icon.ico", ICO_EXTENSION) == "icon.ico.ico"
    ensures ExportPath("icon.ico", ICO_EXTENSION) == "icon.ico"
  {
    LowerIco();
    assert "icon.ico"[..4] == "icon";
    assert Lower("icon")[0] == 'i';
    assert "icon.ico"[4..] == ".ico";
  }

  /** As written, a path whose last four characters are not an extension is
      left without one when what precedes them is ".ico"; the corrected check
      appends it. */
  lemma ExportPathStemCounterexample()
    ensures ExportPathAsWritten(".icodata", ICO_EXTENSION) == ".icodata"
    ensures ExportPath(".icodata", ICO_EXTENSION) == ".icodata.ico"
  {
    LowerIco();
    assert ".icodata"[..4] == ".ico";
    assert ".icodata"[4..] == "data";
    assert Lower("data")[0] == 'd';
  }

  /** The two checks name the same file exactly when they agree on whether
      the extension is present. */
  lemma ExportPathsAgree(path: string, ext: string)
    requires IsExtension(ext)
    ensures ExportPathAsWritten(path, ext) == ExportPath(path, ext)
            <==> (HasExtension(path, ext) <==> |path| >= 4 && Lower(path[..|path| - 4]) == ext)
  {
    assert |path + ext| != |path|;
  }

  lemma LowerIco()
    ensures Lower(ICO_EXTENSION) == ICO_EXTENSION && IsExtension(ICO_EXTENSION)
  {
    assert Lower(ICO_EXTENSION)[0] == '.' && Lower(ICO_EXTENSION)[1] == 'i';
    assert Lower(ICO_EXTENSION)[2] == 'c' && Lower(ICO_EXTENSION)[3] == 'o';
  }

  lemma LowerBmp()
    ensures Lower(BMP_EXTENSION) == BMP_EXTENSION && IsExtension(BMP_EXTENSION)
  {
    assert Lower(BMP_EXTENSION)[0] == '.' && Lower(BMP_EXTENSION)[1] == 'b';
    assert Lower(BMP_EXTENSION)[2] == 'm' && Lower(BMP_EXTENSION)[3] == 'p';
  }

  // ---- Exporting ----

  /** What the decoders produce: a group icon holds one image slot per entry
      of a directory that was read successfully. */
  predicate ValidResource(r: Resource) {
    r.GroupIconResource? ==> WellFormed(r.directory) && |r.images| == |r.directory.entries|
  }

  /** A file to write, or nothing. */
  datatype Output = NoOutput | File(path: string, content: bytes)

  /** The data of every icon of a group, when each has some. */
  function AllImages(images: seq<Option<bytes>>): (r: Option<seq<bytes>>)
    ensures r.Some? <==> forall i | 0 <= i < |images| :: images[i].Some?
    ensures r.Some? ==> |r.value| == |images| && forall i | 0 <= i < |images| :: r.value[i] == images[i].value
  {
    if |images| == 0 then Some([])
    else if images[0].None? then None
    else
      match AllImages(images[1..])
      case None => None
      case Some(rest) => Some([images[0].value] + rest)
  }

  /** `resource.export(path)`. Raw data is written as it is; a bitmap becomes a
      BMP file and a group icon an ICO file, each named with its extension;
      an icon writes nothing when a group claimed it and fails otherwise;
      a string table has no export and fails. */
  function Export(r: Resource, path: string): (o: Result<Output>)
    requires ValidResource(r)
    ensures r.RawData? ==> o == Ok(File(path, r.data))
    ensures r.BitmapResource? ==> (o.Ok? <==> BmpFile(r.picture).Ok?)
    ensures r.BitmapResource? && o.Ok? ==> o.value.File? && o.value.content == BmpFile(r.picture).value
                                           && HasExtension(o.value.path, BMP_EXTENSION)
    ensures r.IconResource? ==> (o.Ok? <==> r.inGroup) && (o.Ok? ==> o.value == NoOutput)
    ensures r.IconResource? && !r.inGroup ==> o == Err(NotInGroup)
    ensures r.GroupIconResource? ==> (o.Ok? <==> AllImages(r.images).Some? && IcoFile(r.directory, AllImages(r.images).value).Ok?)
    ensures r.GroupIconResource? && AllImages(r.images).None? ==> o == Err(NoData)
    ensures r.GroupIconResource? && o.Ok? ==> && o.value.File?
                                              && o.value.content == IcoFile(r.directory, AllImages(r.images).value).value
                                              && HasExtension(o.value.path, ICO_EXTENSION)
    ensures r.StringTableResource? ==> o == Err(NoExportMethod)
  {
    LowerBmp();
    LowerIco();
    match r
    case RawData(data) => Ok(File(path, data))
    case BitmapResource(_, p) =>
      var bmp :- BmpFile(p);
      Ok(File(ExportPath(path, BMP_EXTENSION), bmp))
    case IconResource(id, _, inGroup) =>
      if inGroup then Ok(NoOutput) else Err(NotInGroup)
    case GroupIconResource(_, directory, images) =>
      (match AllImages(images)
       case None => Err(NoData)
       case Some(data) =>
         var ico :- IcoFile(directory, data);
         Ok(File(ExportPath(path, ICO_EXTENSION), ico)))
    case StringTableResource(_) => Err(NoExportMethod)
  }

  /** `resource.export(path)` as the exporters write it: the extension
      check of `ExportPathAsWritten`, and for a group icon the file of
      `IcoFileAsWritten`, built from the id-keyed dict. Every other resource
      exports as in `Export`. */
  function ExportAsWritten(r: Resource, path: string): (o: Result<Output>)
    requires ValidResource(r)
    ensures !r.BitmapResource? && !r.GroupIconResource? ==> o == Export(r, path)
    ensures r.BitmapResource? ==> (o.Ok? <==> Export(r, path).Ok?)
    ensures r.BitmapResource? && o.Ok? ==> && o.value.File?
                                           && o.value.content == Export(r, path).value.content
                                           && (o.value.path == path <==> |path| >= 4 && Lower(path[..|path| - 4]) == BMP_EXTENSION)
                                           && (o.value.path != path ==> o.value.path == path + BMP_EXTENSION)
    ensures r.GroupIconResource? && AllImages(r.images).None? ==> o == Err(NoData)
    ensures r.GroupIconResource? ==> (o.Ok? <==> AllImages(r.images).Some? && IcoFileAsWritten(r.directory, AllImages(r.images).value).Ok?)
    ensures r.GroupIconResource? && o.Ok? ==> && o.value.File?
                                              && o.value.content == IcoFileAsWritten(r.directory, AllImages(r.images).value).value
                                              && (o.value.path == path <==> |path| >= 4 && Lower(path[..|path| - 4]) == ICO_EXTENSION)
                                              && (o.value.path != path ==> o.value.path == path + ICO_EXTENSION)
  {
    LowerBmp();
    LowerIco();
    match r
    case BitmapResource(_, p) =>
      var bmp :- BmpFile(p);
      Ok(File(ExportPathAsWritten(path, BMP_EXTENSION), bmp))
    case GroupIconResource(_, directory, images) =>
      (match AllImages(images)
       case None => Err(NoData)
       case Some(data) =>
         var ico :- IcoFileAsWritten(directory, data);
         Ok(File(ExportPathAsWritten(path, ICO_EXTENSION), ico)))
    case _ => Export(r, path)
  }

  /** The export as written and the corrected export write the same file
      when the two extension checks agree on the path and no two entries of
      a group name the same icon. */
  lemma ExportAsWrittenAgrees(r: Resource, path: string)
    requires ValidResource(r)
    requires r.BitmapResource? ==> ExportPathAsWritten(path, BMP_EXTENSION) == ExportPath(path, BMP_EXTENSION)
    requires r.GroupIconResource? ==> ExportPathAsWritten(path, ICO_EXTENSION) == ExportPath(path, ICO_EXTENSION)
                                      && DistinctIds(r.directory)
    ensures ExportAsWritten(r, path) == Export(r, path)
  {
    LowerBmp();
    LowerIco();
    if r.GroupIconResource? && AllImages(r.images).Some? {
      IcoFileAsWrittenAgrees(r.directory, AllImages(r.images).value);
    }
  }
}

