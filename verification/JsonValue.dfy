/** JSON values: numbers as their literals, objects as the list of their entries. */
module JsonValue {
  import opened Wrappers

  datatype Json =
    | Null
    | Bool(b: bool)
    | Number(literal: string)
    | String(text: string)
    | Array(items: seq<Json>)
    | Object(entries: seq<Entry>)

  datatype Entry = Entry(key: string, value: Json)

  /** Length of the longest string value in a JSON value. */
  function LongestLeaf(v: Json): nat {
    match v
    case String(text) => |text|
    case Array(items) => LongestOfItems(items)
    case Object(entries) => LongestOfEntries(entries)
    case _ => 0
  }

  function LongestOfItems(items: seq<Json>): nat {
    if items == [] then 0 else Max(LongestLeaf(items[0]), LongestOfItems(items[1..]))
  }

  function LongestOfEntries(entries: seq<Entry>): nat {
    if entries == [] then 0 else Max(LongestLeaf(entries[0].value), LongestOfEntries(entries[1..]))
  }
}
