/** The loosely shaped values that decoding a review page's XML yields
    (an element with children becomes a map, a repeated element a list,
    text a string, an empty element None), Python's subscripting on them,
    and the exceptions the modelled code raises or catches. */
module Xml {

  /** The Python exceptions that escape from the modelled code. (The
      ValueError of `datetime.strptime` is always caught there, and is
      modelled as its `None` result.) */
  datatype Exc = KeyError | TypeError | AttributeError

  datatype Option<+T> = None | Some(value: T)

  /** A value, or the exception that computing it raised. */
  datatype Result<+T> = Ok(value: T) | Err(error: Exc) {
    predicate IsFailure() {
      Err?
    }

    function PropagateFailure<U>(): Result<U>
      requires Err?
    {
      Err(error)
    }

    function Extract(): T
      requires Ok?
    {
      value
    }
  }

  /** A decoded XML value. */
  datatype Value =
    | VStr(s: string)
    | VMap(m: map<string, Value>)
    | VList(items: seq<Value>)
    | VNone

  /** `v[key]`: a map yields the entry or raises KeyError; a string, a list
      or None indexed by a string raises TypeError. */
  function Get(v: Value, key: string): Result<Value>
  {
    match v
    case VMap(m) => if key in m then Ok(m[key]) else Err(KeyError)
    case _ => Err(TypeError)
  }

  /** The list comprehension `[x[key] for x in xs]`: the first lookup that
      raises, in list order, aborts it with that exception. */
  function Pluck(xs: seq<Value>, key: string): (r: Result<seq<Value>>)
    ensures r.Ok? <==> forall i :: 0 <= i < |xs| ==> Get(xs[i], key).Ok?
    ensures r.Ok? ==> |r.value| == |xs|
    ensures r.Ok? ==> forall i :: 0 <= i < |xs| ==> r.value[i] == Get(xs[i], key).value
    ensures r.Err? ==> exists i :: 0 <= i < |xs| && Get(xs[i], key) == Err(r.error) &&
                         forall j :: 0 <= j < i ==> Get(xs[j], key).Ok?
  {
    if xs == [] then Ok([])
    else
      var head :- Get(xs[0], key);
      var tail :- Pluck(xs[1..], key);
      Ok([head] + tail)
  }

  /** The strings of `vs`, or TypeError when one of them is not a string
      (what `str.join` raises for such an item). */
  function Strings(vs: seq<Value>): (r: Result<seq<string>>)
    ensures r.Ok? <==> forall i :: 0 <= i < |vs| ==> vs[i].VStr?
    ensures r.Ok? ==> |r.value| == |vs| && forall i :: 0 <= i < |vs| ==> vs[i] == VStr(r.value[i])
    ensures r.Err? ==> r.error == TypeError
  {
    if vs == [] then Ok([])
    else if !vs[0].VStr? then Err(TypeError)
    else
      var tail :- Strings(vs[1..]);
      Ok([vs[0].s] + tail)
  }

  /** `sep.join(parts)`. */
  function Join(parts: seq<string>, sep: string): string
  {
    if |parts| == 0 then ""
    else if |parts| == 1 then parts[0]
    else parts[0] + sep + Join(parts[1..], sep)
  }

  /** Joining one more part appends the separator and that part, so the
      parts appear in the result in list order. */
  lemma {:induction false} JoinSnoc(parts: seq<string>, last: string, sep: string)
    requires parts != []
    ensures Join(parts + [last], sep) == Join(parts, sep) + sep + last
  {
    if |parts| == 1 {
      assert parts + [last] == [parts[0], last];
    } else {
      assert (parts + [last])[1..] == parts[1..] + [last];
      JoinSnoc(parts[1..], last, sep);
    }
  }
}
