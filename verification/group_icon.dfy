/** RT_GROUP_ICON decoding: the group's icon directory, then, for each entry,
    the RT_ICON resource with the entry's id, looked up in the cache built so
    far and marked as belonging to a group.
 */
module GroupIcon {
  import opened Errors
  import opened Bytes
  import opened ResourceTypes
  import opened OrderedDict
  import opened Icon
  import opened Resources
  import opened ResourceCache

  const ICON_KEY: TypeKey := Known(RtIcon)

  /** The lookup an entry makes. */
  function FindIcon(c: Cache, e: DirectoryEntry): Result<Resource> {
    FindResourceById(c, IntId(e.resourceId), ICON_KEY)
  }

  /** The ids of the icons that `entries` name. */
  function EntryIds(entries: seq<DirectoryEntry>): (ids: set<ResourceId>)
    ensures forall i | 0 <= i < |entries| :: IntId(entries[i].resourceId) in ids
  {
    set i | 0 <= i < |entries| :: IntId(entries[i].resourceId)
  }

  /** `after` is `before` with exactly the icons whose ids are in `ids` marked. */
  ghost predicate MarkedExactly(before: Cache, after: Cache, ids: set<ResourceId>)
    requires ValidCache(before)
  {
    && ValidCache(after)
    && SameShape(before, after)
    && forall k, i | k in before.entries && i in before.entries[k].entries ::
         after.entries[k].entries[i] == if k == ICON_KEY && i in ids then Marked(before.entries[k].entries[i])
                                        else before.entries[k].entries[i]
  }

  /** The loop over the directory entries: each one's icon is looked up, marked
      and its data kept, in entry order. The first failed lookup ends the loop
      with its error; the icons marked before it stay marked. */
  function LinkIcons(entries: seq<DirectoryEntry>, c: Cache): (r: (Result<seq<Option<bytes>>>, Cache))
    requires ValidCache(c)
    ensures ValidCache(r.1) && SameShape(c, r.1)
    ensures r.0.Ok? ==> |r.0.value| == |entries|
    ensures r.0.Err? ==> r.0.error == NoSuchType || r.0.error == NoSuchId
    decreases |entries|
  {
    if |entries| == 0 then (Ok([]), c)
    else
      match FindIcon(c, entries[0])
      case Err(e) => (Err(e), c)
      case Ok(icon) =>
        var marked := MarkGrouped(c, ICON_KEY, IntId(entries[0].resourceId));
        var rest := LinkIcons(entries[1..], marked);
        match rest.0
        case Err(e) => (Err(e), rest.1)
        case Ok(images) => (Ok([DataOf(icon)] + images), rest.1)
  }

  /** What the loop returns: the data of every entry's icon, in entry order,
      exactly when every lookup succeeds. */
  ghost predicate Linked(entries: seq<DirectoryEntry>, c: Cache, r: Result<seq<Option<bytes>>>) {
    && (r.Ok? <==> forall i | 0 <= i < |entries| :: FindIcon(c, entries[i]).Ok?)
    && (r.Ok? ==> |r.value| == |entries| && forall i | 0 <= i < |entries| :: r.value[i] == DataOf(FindIcon(c, entries[i]).value))
  }

  lemma {:induction false} LinkIconsImages(entries: seq<DirectoryEntry>, c: Cache)
    requires ValidCache(c)
    ensures Linked(entries, c, LinkIcons(entries, c).0)
    decreases |entries|
  {
    if |entries| > 0 && FindIcon(c, entries[0]).Ok? {
      var marked := MarkGrouped(c, ICON_KEY, IntId(entries[0].resourceId));
      LinkIconsImages(entries[1..], marked);
      LinkedCons(entries, c);
    }
  }

  /** The induction step: the first icon's data in front of the rest's. */
  lemma LinkedCons(entries: seq<DirectoryEntry>, c: Cache)
    requires ValidCache(c) && |entries| > 0 && FindIcon(c, entries[0]).Ok?
    requires Linked(entries[1..], MarkGrouped(c, ICON_KEY, IntId(entries[0].resourceId)),
                    LinkIcons(entries[1..], MarkGrouped(c, ICON_KEY, IntId(entries[0].resourceId))).0)
    ensures Linked(entries, c, LinkIcons(entries, c).0)
  {
    var marked := MarkGrouped(c, ICON_KEY, IntId(entries[0].resourceId));
    LinkIconsStep(entries, c);
    FindIconsAfterMark(c, IntId(entries[0].resourceId), entries);
    LinkedShift(entries, c, marked, LinkIcons(entries[1..], marked).0, LinkIcons(entries, c).0);
  }

  lemma LinkedShift(entries: seq<DirectoryEntry>, c: Cache, marked: Cache,
                    rest: Result<seq<Option<bytes>>>, r: Result<seq<Option<bytes>>>)
    requires |entries| > 0 && FindIcon(c, entries[0]).Ok?
    requires forall i | 0 <= i < |entries| ::
               && FindIcon(marked, entries[i]).Ok? == FindIcon(c, entries[i]).Ok?
               && (FindIcon(c, entries[i]).Ok? ==> DataOf(FindIcon(marked, entries[i]).value) == DataOf(FindIcon(c, entries[i]).value))
    requires Linked(entries[1..], marked, rest)
    requires rest.Ok? ==> r == Ok([DataOf(FindIcon(c, entries[0]).value)] + rest.value)
    requires rest.Err? ==> r.Err?
    ensures Linked(entries, c, r)
  {
    assert forall i | 1 <= i < |entries| :: entries[1..][i - 1] == entries[i];
    if rest.Err? {
      var i :| 0 <= i < |entries[1..]| && FindIcon(marked, entries[1..][i]).Err?;
      assert FindIcon(c, entries[i + 1]).Err?;
    }
  }

  /** Marking one icon changes neither which entries find their icon nor the
      data of the icon each finds. */
  lemma FindIconsAfterMark(c: Cache, id: ResourceId, entries: seq<DirectoryEntry>)
    requires ValidCache(c) && ICON_KEY in c.entries && id in c.entries[ICON_KEY].entries
    ensures forall i | 0 <= i < |entries| ::
              && FindIcon(MarkGrouped(c, ICON_KEY, id), entries[i]).Ok? == FindIcon(c, entries[i]).Ok?
              && (FindIcon(c, entries[i]).Ok? ==>
                    DataOf(FindIcon(MarkGrouped(c, ICON_KEY, id), entries[i]).value) == DataOf(FindIcon(c, entries[i]).value))
  {
    forall i | 0 <= i < |entries| {
      FindAfterMark(c, ICON_KEY, id, ICON_KEY, IntId(entries[i].resourceId));
    }
  }

  /** What the loop leaves marked: every icon a successful group names, and
      nothing else; for a failed group, exactly the icons of the entries
      before the one whose lookup failed. */
  ghost predicate LinkMarks(entries: seq<DirectoryEntry>, c: Cache)
    requires ValidCache(c)
  {
    var r := LinkIcons(entries, c);
    && (r.0.Ok? ==> MarkedExactly(c, r.1, EntryIds(entries)))
    && (r.0.Err? ==>
          exists j | 0 <= j < |entries| ::
            && FindIcon(c, entries[j]).Err?
            && r.0.error == FindIcon(c, entries[j]).error
            && MarkedExactly(c, r.1, EntryIds(entries[..j])))
  }

  lemma {:induction false} LinkIconsMarks(entries: seq<DirectoryEntry>, c: Cache)
    requires ValidCache(c)
    ensures LinkMarks(entries, c)
    decreases |entries|
  {
    if |entries| == 0 || FindIcon(c, entries[0]).Err? {
      assert EntryIds(entries[..0]) == {};
      assert EntryIds(entries) == {} || FindIcon(c, entries[0]).Err?;
      assert MarkedExactly(c, c, {});
    } else {
      LinkIconsMarks(entries[1..], MarkGrouped(c, ICON_KEY, IntId(entries[0].resourceId)));
      LinkMarksCons(entries, c);
    }
  }

  /** The induction step: marking the first icon, then what the rest of the
      loop marks. */
  lemma LinkMarksCons(entries: seq<DirectoryEntry>, c: Cache)
    requires ValidCache(c) && |entries| > 0 && FindIcon(c, entries[0]).Ok?
    requires LinkMarks(entries[1..], MarkGrouped(c, ICON_KEY, IntId(entries[0].resourceId)))
    ensures LinkMarks(entries, c)
  {
    LinkIconsStep(entries, c);
    if LinkIcons(entries, c).0.Ok? {
      LinkMarksConsOk(entries, c);
    } else {
      LinkMarksConsErr(entries, c);
    }
  }

  lemma LinkMarksConsOk(entries: seq<DirectoryEntry>, c: Cache)
    requires ValidCache(c) && |entries| > 0 && FindIcon(c, entries[0]).Ok?
    requires LinkMarks(entries[1..], MarkGrouped(c, ICON_KEY, IntId(entries[0].resourceId)))
    requires LinkIcons(entries[1..], MarkGrouped(c, ICON_KEY, IntId(entries[0].resourceId))).0.Ok?
    requires LinkIcons(entries, c).1 == LinkIcons(entries[1..], MarkGrouped(c, ICON_KEY, IntId(entries[0].resourceId))).1
    ensures MarkedExactly(c, LinkIcons(entries, c).1, EntryIds(entries))
  {
    var id := IntId(entries[0].resourceId);
    var rest := LinkIcons(entries[1..], MarkGrouped(c, ICON_KEY, id));
    EntryIdsCons(entries);
    MarkThenMarkExactly(c, id, rest.1, EntryIds(entries[1..]));
  }

  lemma LinkMarksConsErr(entries: seq<DirectoryEntry>, c: Cache)
    requires ValidCache(c) && |entries| > 0 && FindIcon(c, entries[0]).Ok?
    requires LinkMarks(entries[1..], MarkGrouped(c, ICON_KEY, IntId(entries[0].resourceId)))
    requires LinkIcons(entries[1..], MarkGrouped(c, ICON_KEY, IntId(entries[0].resourceId))).0.Err?
    requires LinkIcons(entries, c).1 == LinkIcons(entries[1..], MarkGrouped(c, ICON_KEY, IntId(entries[0].resourceId))).1
    requires LinkIcons(entries, c).0 == LinkIcons(entries[1..], MarkGrouped(c, ICON_KEY, IntId(entries[0].resourceId))).0
    ensures exists j | 0 <= j < |entries| ::
              && FindIcon(c, entries[j]).Err?
              && LinkIcons(entries, c).0.error == FindIcon(c, entries[j]).error
              && MarkedExactly(c, LinkIcons(entries, c).1, EntryIds(entries[..j]))
  {
    var id := IntId(entries[0].resourceId);
    var marked := MarkGrouped(c, ICON_KEY, id);
    var rest := LinkIcons(entries[1..], marked);
    var j :| && 0 <= j < |entries[1..]|
             && FindIcon(marked, entries[1..][j]).Err?
             && rest.0.error == FindIcon(marked, entries[1..][j]).error
             && MarkedExactly(marked, rest.1, EntryIds(entries[1..][..j]));
    TailPrefix(entries, j);
    FindAfterMark(c, ICON_KEY, id, ICON_KEY, IntId(entries[j + 1].resourceId));
    EntryIdsCons(entries[..j + 1]);
    MarkThenMarkExactly(c, id, rest.1, EntryIds(entries[1..][..j]));
    assert FindIcon(c, entries[j + 1]).Err?;
  }

  lemma EntryIdsCons(entries: seq<DirectoryEntry>)
    requires |entries| > 0
    ensures EntryIds(entries) == {IntId(entries[0].resourceId)} + EntryIds(entries[1..])
  {
    var tail := entries[1..];
    forall x | x in EntryIds(entries) ensures x in {IntId(entries[0].resourceId)} + EntryIds(tail) {
      var i :| 0 <= i < |entries| && x == IntId(entries[i].resourceId);
      if i > 0 {
        assert tail[i - 1] == entries[i];
      }
    }
  }

  lemma TailPrefix<T>(s: seq<T>, j: nat)
    requires j + 1 < |s|
    ensures s[1..][j] == s[j + 1] && s[1..][..j] == s[..j + 1][1..] && s[..j + 1][0] == s[0]
  {
  }

  /** One turn of the loop when the first lookup succeeds: the rest of the
      loop runs on the cache with that icon marked. */
  lemma LinkIconsStep(entries: seq<DirectoryEntry>, c: Cache)
    requires ValidCache(c) && |entries| > 0 && FindIcon(c, entries[0]).Ok?
    ensures var rest := LinkIcons(entries[1..], MarkGrouped(c, ICON_KEY, IntId(entries[0].resourceId)));
            && LinkIcons(entries, c).1 == rest.1
            && LinkIcons(entries, c).0.Ok? == rest.0.Ok?
            && (rest.0.Err? ==> LinkIcons(entries, c).0 == rest.0)
            && (rest.0.Ok? ==> LinkIcons(entries, c).0 == Ok([DataOf(FindIcon(c, entries[0]).value)] + rest.0.value))
  {
  }

  /** One instance of `MarkedExactly`. */
  lemma MarkedExactlyAt(before: Cache, after: Cache, ids: set<ResourceId>, k: TypeKey, i: ResourceId)
    requires ValidCache(before) && MarkedExactly(before, after, ids)
    requires k in before.entries && i in before.entries[k].entries
    ensures after.entries[k].entries[i] == if k == ICON_KEY && i in ids then Marked(before.entries[k].entries[i])
                                           else before.entries[k].entries[i]
  {
  }

  /** Marking one icon, then exactly a set of icons, marks exactly the set with
      that icon added. */
  lemma MarkThenMarkExactly(c: Cache, id: ResourceId, after: Cache, ids: set<ResourceId>)
    requires ValidCache(c) && ICON_KEY in c.entries && id in c.entries[ICON_KEY].entries
    requires MarkedExactly(MarkGrouped(c, ICON_KEY, id), after, ids)
    ensures MarkedExactly(c, after, {id} + ids)
  {
    var marked := MarkGrouped(c, ICON_KEY, id);
    forall k, i | k in c.entries && i in c.entries[k].entries
      ensures after.entries[k].entries[i] == if k == ICON_KEY && i in {id} + ids then Marked(c.entries[k].entries[i])
                                             else c.entries[k].entries[i]
    {
      assert k in marked.entries && i in marked.entries[k].entries;
      MarkedExactlyAt(marked, after, ids, k, i);
      if (k, i) == (ICON_KEY, id) {
        assert marked.entries[k].entries[i] == Marked(c.entries[k].entries[i]);
        assert Marked(Marked(c.entries[k].entries[i])) == Marked(c.entries[k].entries[i]);
      } else {
        assert marked.entries[k].entries[i] == c.entries[k].entries[i];
      }
    }
  }

  /** `GroupIcon(stream, declaration, table)`: a bad directory fails before
      any lookup; otherwise the icons are linked and the group keeps the
      directory with one image slot per entry. */
  function DecodeGroupIcon(buf: bytes, pos: nat, id: ResourceId, c: Cache): (r: (Result<Resource>, Cache))
    requires ValidCache(c)
    ensures ValidCache(r.1) && SameShape(c, r.1)
    ensures ReadDirectory(buf, pos).Err? ==> r == (Err(ReadDirectory(buf, pos).error), c)
    ensures r.0.Ok? <==> (&& ReadDirectory(buf, pos).Ok?
                          && forall i | 0 <= i < |ReadDirectory(buf, pos).value.0.entries| ::
                               FindIcon(c, ReadDirectory(buf, pos).value.0.entries[i]).Ok?)
    ensures r.0.Ok? ==> && ValidResource(r.0.value) && r.0.value.GroupIconResource?
                        && r.0.value.id == id && r.0.value.directory == ReadDirectory(buf, pos).value.0
    ensures r.0.Ok? ==> forall i | 0 <= i < |r.0.value.images| ::
                          r.0.value.images[i] == DataOf(FindIcon(c, r.0.value.directory.entries[i]).value)
  {
    match ReadDirectory(buf, pos)
    case Err(e) => (Err(e), c)
    case Ok((directory, _)) =>
      var linked := LinkIcons(directory.entries, c);
      LinkIconsImages(directory.entries, c);
      match linked.0
      case Err(e) => (Err(e), linked.1)
      case Ok(images) => (Ok(GroupIconResource(id, directory, images)), linked.1)
  }
}
