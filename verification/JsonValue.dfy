/** JSON values as json-c holds them. A NULL `json_object *` is the value null. */
module JsonValue {
  import opened Bytes

  /** A double is kept as the text that its serializer prints. */
  datatype Json =
    | JNull
    | JBool(b: bool)
    | JInt(n: int)
    | JDouble(lexeme: bytes)
    | JString(s: bytes)
    | JArray(items: seq<Json>)
    | JObject(members: seq<(bytes, Json)>)

  const INT64_MIN: int := -0x8000_0000_0000_0000
  const INT64_MAX: int := 0x7FFF_FFFF_FFFF_FFFF

  /** Nesting height: scalars and empty containers have height 0. */
  function Height(v: Json): nat
    decreases v, 1
  {
    match v
    case JArray(items) => ItemsHeight(v, items, |items|)
    case JObject(members) => MembersHeight(v, members, |members|)
    case _ => 0
  }

  /** One more than the greatest height among the first `n` items; 0 when there is none. */
  function ItemsHeight(ghost v: Json, items: seq<Json>, n: nat): nat
    requires n <= |items| && v == JArray(items)
    decreases v, 0, n
  {
    if n == 0 then 0
    else Max(ItemsHeight(v, items, n - 1), 1 + Height(items[n - 1]))
  }

  function MembersHeight(ghost v: Json, members: seq<(bytes, Json)>, n: nat): nat
    requires n <= |members| && v == JObject(members)
    decreases v, 0, n
  {
    if n == 0 then 0
    else Max(MembersHeight(v, members, n - 1), 1 + Height(members[n - 1].1))
  }

  function Max(a: nat, b: nat): nat {
    if a < b then b else a
  }
}
