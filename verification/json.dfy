/** JSON as the model sees it: `json.dumps` and `json.loads` are not
    modelled as syntax but as function values bundled in a `Codec`; lemmas
    state the laws they rely on (decoding what was encoded gives it back, an
    encoded object is framed by braces, the default `ensure_ascii` escaping
    produces ASCII text only) as preconditions. */
module Json {
  import opened Wrappers
  import opened Strings

  /** A table's classification axes: axis code to (value code to label). */
  type CategoryMap = map<string, map<string, string>>

  /** A decoded JSON value, as `json.loads` builds it: `None`, a bool, a
      number (ints and floats alike), a str, a list or a dict. Nothing
      checks the types of what it builds; each consumer meets whatever came. */
  datatype Value = Null | Bool(b: bool) | Number(r: real) | Text(s: string)
                 | Array(elems: seq<Value>) | Dict(m: map<string, Value>)

  type Object = map<string, Value>

  /** A str-to-str dict as a decoded value. */
  function TextMap(m: map<string, string>): Value {
    Dict(map k | k in m :: Text(m[k]))
  }

  /** The values Python's `in` can search: a str (substring), a list
      (element) and a dict (key); on any other value `in` raises
      `TypeError`. */
  predicate Searchable(v: Value) {
    v.Text? || v.Array? || v.Dict?
  }

  /** Python's `needle in v` for a str `needle`. */
  function InValue(needle: string, v: Value): (r: Result<bool>)
    ensures r.Failure? <==> !Searchable(v)
    ensures v.Text? ==> (r == Success(true) <==> Contains(v.s, needle))
    ensures v.Array? ==> (r == Success(true) <==> exists k :: 0 <= k < |v.elems| && v.elems[k] == Text(needle))
    ensures v.Dict? ==> (r == Success(true) <==> needle in v.m)
  {
    match v
    case Text(s) => Success(Contains(s, needle))
    case Array(elems) => Success(Text(needle) in elems)
    case Dict(m) => Success(needle in m)
    case _ => Failure("TypeError")
  }

  /** The number Python computes with: a bool is an int, so `True` counts
      as 1 and `False` as 0; anything else is not a number. */
  function NumberOf(v: Value): (r: Option<real>)
    ensures r.Some? <==> v.Number? || v.Bool?
    ensures v.Number? ==> r == Some(v.r)
  {
    match v
    case Number(x) => Some(x)
    case Bool(b) => Some(if b then 1.0 else 0.0)
    case _ => None
  }

  datatype Codec = Codec(
    dumpList: seq<string> -> string,
    loadList: string -> Option<seq<string>>,
    dumpCategories: CategoryMap -> string,
    loadCategories: string -> Option<CategoryMap>,
    dumpObject: Object -> string,
    loadObject: string -> Option<Object>,
    render: Value -> string)

  /** `str(v)` as an f-string shows a decoded value: a str as itself, any
      other value as Python renders it (`render`). */
  function Str(c: Codec, v: Value): (r: string)
    ensures v.Text? ==> r == v.s
  {
    if v.Text? then v.s else c.render(v)
  }

  /** `json.loads(json.dumps(v)) == v` for every shape the model stores. */
  ghost predicate RoundTrips(c: Codec) {
    && (forall xs :: c.loadList(c.dumpList(xs)) == Some(xs))
    && (forall m :: c.loadCategories(c.dumpCategories(m)) == Some(m))
    && (forall o :: c.loadObject(c.dumpObject(o)) == Some(o))
  }

  /** An encoded object starts with `{` and ends with `}`; an encoded list is
      never the empty string. */
  ghost predicate Framed(c: Codec) {
    && (forall o :: |c.dumpObject(o)| >= 2
                    && c.dumpObject(o)[0] == '{'
                    && c.dumpObject(o)[|c.dumpObject(o)| - 1] == '}')
    && (forall xs :: |c.dumpList(xs)| >= 2)
  }

  /** `json.dumps` with its default `ensure_ascii=True`: every character of
      an encoded list is ASCII (others are written as `\uXXXX`). */
  ghost predicate AsciiOnly(c: Codec) {
    forall xs, i :: 0 <= i < |c.dumpList(xs)| ==> c.dumpList(xs)[i] < '\U{80}'
  }

  ghost predicate Lawful(c: Codec) {
    RoundTrips(c) && Framed(c)
  }
}
