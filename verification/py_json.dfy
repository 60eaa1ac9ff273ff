/** Decoded JSON values and the Python operations the application applies to them:
    truthiness, `key in v`, `v[key]`, `len(v)`, `v[0]`, `v.strip()` and `set(v)`.
    Each operation returns the value Python computes or the built-in exception it raises. */
module PyJson {
  import opened PyText

  datatype Option<T> = None | Some(value: T)

  /** What `json.loads` returns: None, a bool, a number, a str, a list or a dict. */
  datatype Json =
    | JNull
    | JBool(b: bool)
    | JNum(n: real)
    | JStr(s: string)
    | JArr(items: seq<Json>)
    | JObj(fields: map<string, Json>)

  /** The built-in exceptions these operations raise. */
  datatype PyError = TypeError | KeyError | IndexError | AttributeError

  datatype Result<T> = Ok(value: T) | Raised(error: PyError)

  function ErrorName(e: PyError): string {
    match e
    case TypeError => "TypeError"
    case KeyError => "KeyError"
    case IndexError => "IndexError"
    case AttributeError => "AttributeError"
  }

  /** `bool(v)`. */
  predicate Truthy(v: Json) {
    match v
    case JNull => false
    case JBool(b) => b
    case JNum(n) => n != 0.0
    case JStr(s) => s != []
    case JArr(xs) => xs != []
    case JObj(m) => m != map[]
  }

  /** `key in v` for a str `key`: a dict tests its keys, a list its elements, a str its
      substrings; any other value raises TypeError. */
  function Contains(key: string, v: Json): Result<bool> {
    match v
    case JObj(m) => Ok(key in m)
    case JArr(xs) => Ok(JStr(key) in xs)
    case JStr(s) => Ok(IsSubstring(key, s))
    case _ => Raised(TypeError)
  }

  /** `v[key]` for a str `key`. Only a dict can be indexed by a str. */
  function GetItem(v: Json, key: string): Result<Json> {
    match v
    case JObj(m) => if key in m then Ok(m[key]) else Raised(KeyError)
    case _ => Raised(TypeError)
  }

  /** `len(v)`. */
  function Len(v: Json): Result<nat> {
    match v
    case JObj(m) => Ok(|m|)
    case JArr(xs) => Ok(|xs|)
    case JStr(s) => Ok(|s|)
    case _ => Raised(TypeError)
  }

  /** `v[0]`. A dict decoded from JSON has only str keys, so it raises KeyError. */
  function ItemZero(v: Json): Result<Json> {
    match v
    case JArr(xs) => if xs != [] then Ok(xs[0]) else Raised(IndexError)
    case JStr(s) => if s != [] then Ok(JStr([s[0]])) else Raised(IndexError)
    case JObj(_) => Raised(KeyError)
    case _ => Raised(TypeError)
  }

  /** `v.strip()`: only a str has the method. */
  function CallStrip(v: Json): Result<string> {
    match v
    case JStr(s) => Ok(Strip(s))
    case _ => Raised(AttributeError)
  }

  /** Lists and dicts cannot be put in a set. */
  predicate Hashable(v: Json) {
    !v.JArr? && !v.JObj?
  }

  /** `set(v)`: the elements of a list, the one-character strings of a str, the keys of a dict. */
  function ToSet(v: Json): (r: Result<set<Json>>)
    ensures v.JArr? && r.Ok? ==> r.value == set x | x in v.items
    ensures r.Ok? ==> forall x :: x in r.value ==> Hashable(x)
  {
    match v
    case JArr(xs) =>
      if forall x :: x in xs ==> Hashable(x) then Ok(set x | x in xs) else Raised(TypeError)
    case JStr(s) => Ok(set i | 0 <= i < |s| :: JStr([s[i]]))
    case JObj(m) => Ok(set k | k in m :: JStr(k))
    case _ => Raised(TypeError)
  }
}
