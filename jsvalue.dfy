/**
 * The JavaScript values that `JSON.parse` can produce, and the two pieces of
 * JavaScript semantics the generate handler relies on: truthiness (the `||`
 * operator) and `String(item)` conversion.
 */
module JsValue {
  import opened Wrappers

  /** A decoded JSON document. Numbers are integers in this model. */
  datatype Value =
    | Null
    | Bool(b: bool)
    | Num(n: int)
    | Str(s: string)
    | Arr(items: seq<Value>)
    | Obj(fields: map<string, Value>)

  /** What the handler's body can throw; the outer `catch` turns each into a diagnostic. */
  datatype Exception =
    | StoreRejected(message: string)   // `bucket.get` or `object.text()` rejected
    | NullPropertyRead                 // `item.question` where `item` is `null`
    | NoPrimitiveValue                 // `String(item)` on an object whose own `toString` is not callable

  /** JavaScript truthiness: `null`, `false`, `0` and `""` are falsy, every array and object is truthy. */
  predicate Truthy(v: Value)
  {
    match v
    case Null => false
    case Bool(b) => b
    case Num(n) => n != 0
    case Str(s) => s != ""
    case Arr(_) => true
    case Obj(_) => true
  }

  function DigitChar(d: nat): char
    requires d < 10
  {
    "0123456789"[d]
  }

  /** Decimal digits of a natural number, most significant first. */
  function Digits(n: nat): (r: string)
    ensures |r| > 0
  {
    if n < 10 then [DigitChar(n)] else Digits(n / 10) + [DigitChar(n % 10)]
  }

  /** The decimal text of `n`; `String(n)` agrees with it for integers a double holds exactly and below 10^21 in magnitude. */
  function Decimal(n: int): string
  {
    if n < 0 then "-" + Digits(-n) else Digits(n)
  }

  /**
   * `String(v)`. An object converts through `Object.prototype.toString` to
   * "[object Object]" unless it has an own `toString` key: a JSON value is
   * never callable, and `valueOf` then returns the object itself, so the
   * conversion throws a TypeError. An array converts with `join(",")`, in
   * which a `null` element becomes the empty string.
   */
  function Render(v: Value): Result<string, Exception>
    decreases v, 1
  {
    match v
    case Null => Ok("null")
    case Bool(b) => Ok(if b then "true" else "false")
    case Num(n) => Ok(Decimal(n))
    case Str(s) => Ok(s)
    case Arr(xs) => JoinFrom(xs, 0)
    case Obj(m) => if "toString" in m then Err(NoPrimitiveValue) else Ok("[object Object]")
  }

  /** `xs[i..].join(",")`, converting elements left to right; the first conversion that throws ends it. */
  function JoinFrom(xs: seq<Value>, i: nat): Result<string, Exception>
    requires i <= |xs|
    decreases xs, 0, |xs| - i
  {
    if i == |xs| then Ok("")
    else
      var part := if xs[i].Null? then Ok("") else Render(xs[i]);
      match part
      case Err(e) => Err(e)
      case Ok(s) =>
        if i + 1 == |xs| then Ok(s)
        else
          match JoinFrom(xs, i + 1)
          case Err(e) => Err(e)
          case Ok(rest) => Ok(s + "," + rest)
  }

  /** Holds when `v` is, or holds inside an array, an object with an own `toString` key. */
  predicate HidesToString(v: Value)
  {
    match v
    case Obj(m) => "toString" in m
    case Arr(xs) => exists i | 0 <= i < |xs| :: HidesToString(xs[i])
    case _ => false
  }

  /** `String(v)` throws exactly when `v` hides `Object.prototype.toString` somewhere it must convert. */
  lemma {:induction false} RenderThrowsIff(v: Value)
    ensures Render(v).Err? <==> HidesToString(v)
    ensures Render(v).Err? ==> Render(v).error == NoPrimitiveValue
    decreases v, 1
  {
    match v
    case Arr(xs) => JoinThrowsIff(xs, 0);
    case _ =>
  }

  lemma {:induction false} JoinThrowsIff(xs: seq<Value>, i: nat)
    requires i <= |xs|
    ensures JoinFrom(xs, i).Err? <==> exists j | i <= j < |xs| :: HidesToString(xs[j])
    ensures JoinFrom(xs, i).Err? ==> JoinFrom(xs, i).error == NoPrimitiveValue
    decreases xs, 0, |xs| - i
  {
    if i < |xs| {
      if !xs[i].Null? {
        RenderThrowsIff(xs[i]);
      }
      JoinThrowsIff(xs, i + 1);
    }
  }
}
