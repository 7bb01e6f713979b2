/** Values decoded from a JSON document, and the few Python operations the
    weather client applies to them: subscripting by a string key, subscripting
    by the index 0, `dict.get` with a default and `str.title()`.
    `JNull` also stands for Python's `None` where a configuration value is
    missing. Numbers are opaque: nothing in the client computes with them. */
module PyJson {
  import TitleCase

  datatype Json =
    | JNull
    | JBool(b: bool)
    | JNum(n: real)
    | JStr(s: string)
    | JArr(items: seq<Json>)
    | JObj(fields: map<string, Json>)

  /** The Python exceptions that the client's subscripts and method calls can
      raise and that the client does not catch. */
  datatype PyException = KeyError | IndexError | TypeError | AttributeError

  /** The outcome of one Python expression: a value, or an exception that
      propagates out of it. */
  datatype Eval<+T> = Value(value: T) | Raised(exception: PyException) {
    predicate IsFailure() { Raised? }

    function PropagateFailure<U>(): Eval<U>
      requires Raised?
    {
      Raised(exception)
    }

    function Extract(): T
      requires Value?
    {
      value
    }
  }

  /** `v[key]` for a string key: a dict yields its entry or raises KeyError;
      lists, strings, numbers, booleans and None raise TypeError. */
  function Member(v: Json, key: string): (r: Eval<Json>)
    ensures r.Value? <==> v.JObj? && key in v.fields
    ensures r.Value? ==> r.value == v.fields[key]
    ensures r.Raised? ==> r.exception == (if v.JObj? then KeyError else TypeError)
  {
    match v
    case JObj(fields) => if key in fields then Value(fields[key]) else Raised(KeyError)
    case _ => Raised(TypeError)
  }

  /** `v[0]`: a list or a string yields its first element (a string of length
      one for a string) or raises IndexError when empty; a dict raises KeyError,
      since decoded JSON keys are strings and never the integer 0; anything
      else raises TypeError. */
  function First(v: Json): (r: Eval<Json>)
    ensures r.Value? <==> (v.JArr? && |v.items| > 0) || (v.JStr? && |v.s| > 0)
    ensures r.Value? && v.JArr? ==> r.value == v.items[0]
    ensures r.Value? && v.JStr? ==> r.value == JStr(v.s[..1])
    ensures r.Raised? ==> r.exception == (if v.JArr? || v.JStr? then IndexError
                                          else if v.JObj? then KeyError
                                          else TypeError)
  {
    match v
    case JArr(items) => if |items| > 0 then Value(items[0]) else Raised(IndexError)
    case JStr(s) => if |s| > 0 then Value(JStr(s[..1])) else Raised(IndexError)
    case JObj(_) => Raised(KeyError)
    case _ => Raised(TypeError)
  }

  /** `v.get(key, default)`: only a dict has a `get` method. */
  function Get(v: Json, key: string, default: Json): (r: Eval<Json>)
    ensures r.Raised? <==> !v.JObj?
    ensures r.Raised? ==> r.exception == AttributeError
    ensures v.JObj? ==> r == Value(if key in v.fields then v.fields[key] else default)
  {
    match v
    case JObj(fields) => Value(if key in fields then fields[key] else default)
    case _ => Raised(AttributeError)
  }

  /** `v.title()`: only a string has a `title` method. */
  function Title(v: Json): (r: Eval<string>)
    ensures r.Raised? <==> !v.JStr?
    ensures r.Raised? ==> r.exception == AttributeError
    ensures v.JStr? ==> r == Value(TitleCase.Title(v.s))
  {
    match v
    case JStr(s) => Value(TitleCase.Title(s))
    case _ => Raised(AttributeError)
  }
}
