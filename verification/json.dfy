/** JSON values as the filters see them, and lookup along a chain of member names. */
module Json {
  import opened Results

  /** A JSON value. Numbers are integers; objects are maps from member name to value. */
  datatype JSON =
    | JNull
    | JBool(b: bool)
    | JNum(n: int)
    | JStr(s: string)
    | JArr(items: seq<JSON>)
    | JObj(fields: map<string, JSON>)

  /** The empty object `{}`. */
  const Empty: JSON := JObj(map[])

  /** Follows `keys` member by member from `v`. None when a name is missing or a value on the
      way is not an object (arrays and primitives have no members here). */
  function Lookup(v: JSON, keys: seq<string>): Option<JSON>
    decreases |keys|
  {
    if keys == [] then Some(v)
    else if v.JObj? && keys[0] in v.fields then Lookup(v.fields[keys[0]], keys[1..])
    else None
  }

  /** Looking up a longer chain is looking up its first name, then the rest. */
  lemma LookupCons(v: JSON, k: string, rest: seq<string>)
    ensures Lookup(v, [k] + rest)
         == if v.JObj? && k in v.fields then Lookup(v.fields[k], rest) else None
  {
    assert ([k] + rest)[0] == k;
    assert ([k] + rest)[1..] == rest;
  }

  /** Nothing but the empty chain can be found in the empty object. */
  lemma LookupInEmpty(keys: seq<string>)
    requires keys != []
    ensures Lookup(Empty, keys) == None
  {
  }
}
