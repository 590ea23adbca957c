/** JSON values as `serde_json` holds them: an object is a list of entries with distinct keys. */
module JsonTree {
  import opened Text

  datatype Json =
    | Null
    | Bool(value: bool)
    | Num(repr: string)
    | Str(text: string)
    | Arr(items: seq<Json>)
    | Obj(entries: seq<Entry>)

  /** An object's entries, in the order the object holds them. */
  datatype Entry = Entry(key: string, child: Json)

  predicate DistinctKeys(es: seq<Entry>) {
    forall i, j :: 0 <= i < j < |es| ==> es[i].key != es[j].key
  }

  /** Keys of an object are distinct, at every depth. */
  predicate WellFormed(v: Json)
    decreases v
  {
    match v
    case Arr(items) => forall i :: 0 <= i < |items| ==> WellFormed(items[i])
    case Obj(entries) => DistinctKeys(entries) && forall i :: 0 <= i < |entries| ==> WellFormed(entries[i].child)
    case _ => true
  }

  function Get(es: seq<Entry>, key: string): Option<Json> {
    if es == [] then None else if es[0].key == key then Some(es[0].child) else Get(es[1..], key)
  }
}
