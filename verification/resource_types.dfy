/** The keys resources are filed under: built-in resource types, raw type
    numbers, type names, and resource ids.
 */
module ResourceTypes {
  import opened Errors

  /** The `ResourceType` enum, members in declaration order. */
  datatype ResourceType =
    | RtCursor | RtBitmap | RtIcon | RtMenu | RtDialog | RtString | RtFontDir
    | RtFont | RtAccelerator | RtRcData | RtMessageTable | RtGroupCursor
    | RtGroupIcon | RtVersion

  /** The numeric value of each member. There are no members for 13 and 15. */
  function Code(t: ResourceType): nat {
    match t
    case RtCursor => 1
    case RtBitmap => 2
    case RtIcon => 3
    case RtMenu => 4
    case RtDialog => 5
    case RtString => 6
    case RtFontDir => 7
    case RtFont => 8
    case RtAccelerator => 9
    case RtRcData => 10
    case RtMessageTable => 11
    case RtGroupCursor => 12
    case RtGroupIcon => 14
    case RtVersion => 16
  }

  /** Iteration order of `for resource_type in ResourceType`. */
  const AllTypes: seq<ResourceType> := [
    RtCursor, RtBitmap, RtIcon, RtMenu, RtDialog, RtString, RtFontDir,
    RtFont, RtAccelerator, RtRcData, RtMessageTable, RtGroupCursor,
    RtGroupIcon, RtVersion
  ]

  /** `ResourceType(n)` when `ResourceType.has_value(n)`, else nothing. */
  function FromCode(n: nat): (r: Option<ResourceType>)
    ensures r.Some? ==> Code(r.value) == n
  {
    if n == 1 then Some(RtCursor)
    else if n == 2 then Some(RtBitmap)
    else if n == 3 then Some(RtIcon)
    else if n == 4 then Some(RtMenu)
    else if n == 5 then Some(RtDialog)
    else if n == 6 then Some(RtString)
    else if n == 7 then Some(RtFontDir)
    else if n == 8 then Some(RtFont)
    else if n == 9 then Some(RtAccelerator)
    else if n == 10 then Some(RtRcData)
    else if n == 11 then Some(RtMessageTable)
    else if n == 12 then Some(RtGroupCursor)
    else if n == 14 then Some(RtGroupIcon)
    else if n == 16 then Some(RtVersion)
    else None
  }

  /** The enum has exactly fourteen members and lists each of them. */
  lemma AllTypesListed(t: ResourceType)
    ensures |AllTypes| == 14 && t in AllTypes
  {
  }

  /** The members are listed once each, in ascending numeric order. */
  lemma AllTypesAscending()
    ensures forall i, j | 0 <= i < j < |AllTypes| :: Code(AllTypes[i]) < Code(AllTypes[j])
  {
  }

  /** `ResourceType(t.value) is t`. */
  lemma FromCodeOfCode(t: ResourceType)
    ensures FromCode(Code(t)) == Some(t)
  {
  }

  /** `has_value` holds of exactly the fourteen codes. */
  lemma FromCodeDomain(n: nat)
    ensures FromCode(n).Some? <==> (1 <= n <= 12 || n == 14 || n == 16)
  {
  }

  /** A type-table key. A numeric code that is an enum value is always stored
      as the enum member, so `Numbered` only holds other codes. */
  datatype TypeKey = Known(rtype: ResourceType) | Numbered(code: nat) | Named(name: string)

  /** A resource id: a number or a name. */
  datatype ResourceId = IntId(n: nat) | NameId(name: string)

  /** The key of a numeric type code. */
  function KeyOfCode(n: nat): (k: TypeKey)
    ensures k.Known? <==> FromCode(n).Some?
    ensures k.Known? ==> Code(k.rtype) == n
    ensures k.Numbered? ==> k.code == n
    ensures !k.Named?
  {
    match FromCode(n)
    case Some(t) => Known(t)
    case None => Numbered(n)
  }
}
