/** A raw weather snapshot as `json.load` hands it to the Transform stage, and
    Python's subscript operator `v[k]` on such a value. */
module JsonDoc {
  import opened Wrappers

  /** A decoded JSON value. An object is a Python dict (for a repeated key the last
      one wins, so a map is exact); numbers are kept abstract as reals. */
  datatype Json =
    | JObject(fields: map<string, Json>)
    | JArray(items: seq<Json>)
    | JString(text: string)
    | JNumber(num: real)
    | JNull

  /** A subscript: a dict key (`data["main"]`) or a list position (`weather[0]`). */
  datatype Key = Name(name: string) | Pos(index: nat)

  /** The exceptions a subscript on decoded JSON can raise. */
  datatype PyError = KeyError(key: Key) | IndexError | TypeError

  /** `v[k]` with Python's semantics on the values `json.load` produces: a dict raises
      KeyError for an absent key (an integer key is never present, JSON keys being
      strings); a list or a string raises IndexError past its end and TypeError for a
      string key; a number or None is not subscriptable (TypeError). */
  function Subscript(v: Json, k: Key): (r: Result<Json, PyError>)
    ensures (r.Failure? && r.error.KeyError?) <==> v.JObject? && !(k.Name? && k.name in v.fields)
    ensures r.Failure? && r.error.KeyError? ==> r.error.key == k
    ensures (r.Failure? && r.error.IndexError?) <==>
              k.Pos? && ((v.JArray? && k.index >= |v.items|) || (v.JString? && k.index >= |v.text|))
    ensures r.Success? && v.JObject? ==> k.Name? && r.value == v.fields[k.name]
    ensures r.Success? && v.JArray? ==> k.Pos? && r.value == v.items[k.index]
    ensures r.Success? && v.JString? ==> k.Pos? && r.value == JString([v.text[k.index]])
    ensures r.Success? <==> (v.JObject? && k.Name? && k.name in v.fields) ||
                            (v.JArray? && k.Pos? && k.index < |v.items|) ||
                            (v.JString? && k.Pos? && k.index < |v.text|)
  {
    match (v, k)
    case (JObject(m), Name(s)) => if s in m then Success(m[s]) else Failure(KeyError(k))
    case (JObject(_), Pos(_)) => Failure(KeyError(k))
    case (JArray(a), Pos(i)) => if i < |a| then Success(a[i]) else Failure(IndexError)
    case (JString(s), Pos(i)) => if i < |s| then Success(JString([s[i]])) else Failure(IndexError)
    case _ => Failure(TypeError)
  }

  /** `v[k0][k1]...`: the subscripts applied left to right, the first exception winning. */
  function GetPath(v: Json, path: seq<Key>): Result<Json, PyError>
    decreases |path|
  {
    if path == [] then Success(v)
    else
      var w :- Subscript(v, path[0]);
      GetPath(w, path[1..])
  }

  /** A chain of subscripts is its first subscript followed by the rest. */
  lemma GetPathStep(v: Json, k: Key, rest: seq<Key>)
    ensures GetPath(v, [k] + rest) ==
              if Subscript(v, k).Success? then GetPath(Subscript(v, k).value, rest)
              else Failure(Subscript(v, k).error)
  {
  }
}
