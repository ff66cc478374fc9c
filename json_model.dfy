/**
 * Parsed JSON values as the page's JavaScript sees them, and the handful of
 * JavaScript operations the page applies to them: truthiness, the optional
 * chaining steps `v?.key` and `v?.[0]`, `v[Object.keys(v)[0]]` and `v || d`.
 * An absent value (`undefined`) is `None`.
 */
module JsonModel {

  datatype Option<T> = None | Some(value: T)

  /** A JSON value. Object members keep their order, so the head of `members`
      is the key `Object.keys` reports first. Numbers are integers. */
  datatype Json =
    | JNull
    | JBool(b: bool)
    | JNum(n: int)
    | JStr(s: string)
    | JArr(items: seq<Json>)
    | JObj(members: seq<(string, Json)>)

  /** JavaScript truthiness of a JSON value. */
  predicate Truthy(v: Json) {
    match v
    case JNull => false
    case JBool(b) => b
    case JNum(n) => n != 0
    case JStr(s) => s != ""
    case JArr(_) => true
    case JObj(_) => true
  }

  /** The value stored under `key`: the first member with that name. */
  function Lookup(members: seq<(string, Json)>, key: string): (r: Option<Json>)
    ensures r.None? <==> forall i :: 0 <= i < |members| ==> members[i].0 != key
    ensures r.Some? ==> exists i :: 0 <= i < |members| && members[i] == (key, r.value)
  {
    if members == [] then None
    else if members[0].0 == key then Some(members[0].1)
    else Lookup(members[1..], key)
  }

  /** `v?.key`; on a defined, non-null `v` this is also plain `v.key`.
      Named properties of strings and arrays are not modelled. */
  function Member(v: Option<Json>, key: string): Option<Json> {
    match v
    case Some(JObj(ms)) => Lookup(ms, key)
    case _ => None
  }

  /** `v?.[0]`: the first element of an array, the first character of a
      string, or the member named "0" of an object. */
  function Index0(v: Option<Json>): Option<Json> {
    match v
    case Some(JArr(xs)) => if |xs| > 0 then Some(xs[0]) else None
    case Some(JStr(s)) => if |s| > 0 then Some(JStr(s[..1])) else None
    case Some(JObj(ms)) => Lookup(ms, "0")
    case _ => None
  }

  /** `v[Object.keys(v)[0]]`: the value under the first own key of `v`.
      Arrays and strings list their indices as keys; numbers and booleans
      have none, so the lookup is of the key "undefined", which `v` lacks. */
  function FirstValue(v: Json): (r: Option<Json>)
    ensures v.JObj? ==> (r.None? <==> v.members == [])
    ensures v.JObj? && v.members != [] ==> r == Some(v.members[0].1)
  {
    match v
    case JObj(ms) => if |ms| > 0 then Some(ms[0].1) else None
    case JArr(xs) => if |xs| > 0 then Some(xs[0]) else None
    case JStr(s) => if |s| > 0 then Some(JStr(s[..1])) else None
    case _ => None
  }

  /** `v || d`. */
  function Or(v: Option<Json>, d: Json): (r: Json)
    ensures Truthy(r) || r == d
    ensures v.Some? && Truthy(v.value) <==> (v.Some? && r == v.value && Truthy(r))
    ensures !(v.Some? && Truthy(v.value)) ==> r == d
  {
    if v.Some? && Truthy(v.value) then v.value else d
  }

  /** `v || ''`: the shape every extractor of the page returns. */
  function OrEmpty(v: Option<Json>): (r: Json)
    ensures r == JStr("") || (v == Some(r) && Truthy(r))
    ensures v.Some? && Truthy(v.value) ==> r == v.value
  {
    Or(v, JStr(""))
  }

  /** One link of an optional chain: `?.name` or `?.[0]`. */
  datatype Step = Field(name: string) | First

  /** Follows a whole optional chain `v?.s1?.s2...`, stopping at the first
      absent link. Used as the reference reading of the page's chains. */
  function Follow(v: Option<Json>, path: seq<Step>): (r: Option<Json>)
    ensures v.None? ==> r.None?
    decreases |path|
  {
    if path == [] then v
    else
      var next := match path[0]
        case Field(k) => Member(v, k)
        case First => Index0(v);
      Follow(next, path[1..])
  }

  /** The JSON value that holds `leaf` at the end of `path`, with nothing
      else on the way: objects with one member and arrays with one element. */
  function Nest(path: seq<Step>, leaf: Json): Json
    decreases |path|
  {
    if path == [] then leaf
    else
      var inner := Nest(path[1..], leaf);
      match path[0]
      case Field(k) => JObj([(k, inner)])
      case First => JArr([inner])
  }

  /** Following a path through the value nested along it finds the leaf:
      every chain the page reads can hold any value at its end. */
  lemma {:induction false} FollowNest(path: seq<Step>, leaf: Json)
    ensures Follow(Some(Nest(path, leaf)), path) == Some(leaf)
    decreases |path|
  {
    if path != [] {
      FollowNest(path[1..], leaf);
    }
  }
}
