/** JavaScript values as the application keeps them: in memory and, through JSON, in local storage. */
module JsValues {

  datatype Option<T> = None | Some(value: T)

  /** A JavaScript value. Numbers are integers here; objects and arrays are opaque, told apart by a tag. */
  datatype Value = Undef | Null | Bool(b: bool) | Num(n: int) | Str(s: string) | Obj(tag: nat)

  /** JavaScript truthiness: `undefined`, `null`, `false`, `0` and `''` are falsy. */
  predicate Truthy(v: Value) {
    match v
    case Undef => false
    case Null => false
    case Bool(b) => b
    case Num(n) => n != 0
    case Str(s) => s != ""
    case Obj(_) => true
  }

  /** `a || b` */
  function Or(a: Value, b: Value): (r: Value)
    ensures Truthy(a) ==> r == a
    ensures !Truthy(a) ==> r == b
  {
    if Truthy(a) then a else b
  }

  /** `a ?? b` */
  function Coalesce(a: Value, b: Value): (r: Value)
    ensures r == b <==> (a == Undef || a == Null || a == b)
  {
    if a == Undef || a == Null then b else a
  }

  /** A plain object (an example record, a form's values, an update payload). */
  type Record = map<string, Value>

  /** Property access `r.key`: an absent key reads as `undefined`. */
  function Get(r: Record, key: string): Value {
    if key in r then r[key] else Undef
  }

  /** A record with no key explicitly set to `undefined`: what `JSON.parse` can produce. */
  ghost predicate IsClean(r: Record) {
    forall k :: k in r ==> r[k] != Undef
  }

  /** `JSON.parse(JSON.stringify(r))` at the level of keys: keys holding `undefined` disappear. */
  function Clean(r: Record): (c: Record)
    ensures IsClean(c)
    ensures c.Keys <= r.Keys
    ensures forall k :: Get(c, k) == Get(r, k)
  {
    map k | k in r && r[k] != Undef :: r[k]
  }

  lemma CleanOfCleanIsIdentity(r: Record)
    requires IsClean(r)
    ensures Clean(r) == r
  {
  }

  /** `{...a, ...b}`: keys of `b` override keys of `a`. */
  function Spread(a: Record, b: Record): (r: Record)
    ensures r.Keys == a.Keys + b.Keys
    ensures forall k :: Get(r, k) == (if k in b then b[k] else Get(a, k))
  {
    a + b
  }
}
