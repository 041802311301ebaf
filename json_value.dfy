/** A JSON value as `JSON.parse` returns it. Parsing itself is not modelled:
    the validator starts from the parsed value. */
module JsonValue {
  import opened Optional

  datatype Json =
    | JNull
    | JBool(b: bool)
    | JNum(n: real)
    | JStr(s: string)
    | JArr(items: seq<Json>)
    | JObj(fields: seq<Field>)   // own properties, in `Object.keys` order

  datatype Field = Field(key: string, value: Json)

  /** `Object.keys` of an object built from `fields`. */
  function Keys(fields: seq<Field>): seq<string> {
    seq(|fields|, i requires 0 <= i < |fields| => fields[i].key)
  }

  /** Property access `entry[key]`: the value of the first field named `key`,
      or `None` for `undefined` when the object has no such field. */
  function Get(fields: seq<Field>, key: string): Option<Json> {
    if fields == [] then None
    else if fields[0].key == key then Some(fields[0].value)
    else Get(fields[1..], key)
  }

  /** A property is defined exactly when its key is among `Object.keys`, and
      then its value is that of the first field with the key. */
  lemma {:induction false} GetSpec(fields: seq<Field>, key: string)
    ensures Get(fields, key).Some? <==> key in Keys(fields)
    ensures Get(fields, key).Some? ==>
      exists i :: 0 <= i < |fields| && fields[i] == Field(key, Get(fields, key).value)
                  && forall j :: 0 <= j < i ==> fields[j].key != key
  {
    if fields != [] && fields[0].key != key {
      GetSpec(fields[1..], key);
      assert Keys(fields) == [fields[0].key] + Keys(fields[1..]);
      if Get(fields, key).Some? {
        var i :| 0 <= i < |fields| - 1 && fields[1..][i] == Field(key, Get(fields, key).value)
                 && forall j :: 0 <= j < i ==> fields[1..][j].key != key;
        assert fields[i + 1] == Field(key, Get(fields, key).value);
        assert forall j :: 0 <= j < i + 1 ==> fields[j].key != key by {
          forall j | 0 <= j < i + 1 ensures fields[j].key != key {
            if j > 0 { assert fields[j] == fields[1..][j - 1]; }
          }
        }
      }
    } else if fields != [] {
      assert Keys(fields)[0] == key;
    }
  }
}
