/** The dynamically typed values the screens receive from the remote service
    (`any` in the source), with the JavaScript operations the screens apply to
    them: truthiness, `??`, `||`, property access and `toString`. */
module Js {
  import Text

  datatype Option<T> = None | Some(value: T)

  /** A JSON-like value. Numbers are integers (see README, Left out). */
  datatype Value =
    | Undefined
    | Null
    | Bool(b: bool)
    | Num(n: int)
    | Str(s: string)
    | Arr(items: seq<Value>)
    | Obj(props: map<string, Value>)

  /** JavaScript truthiness. */
  predicate Truthy(v: Value)
  {
    match v
    case Undefined => false
    case Null => false
    case Bool(b) => b
    case Num(n) => n != 0
    case Str(s) => s != ""
    case Arr(_) => true
    case Obj(_) => true
  }

  /** `v ?? d`. */
  function Coalesce(v: Value, d: Value): Value
  {
    if v.Undefined? || v.Null? then d else v
  }

  /** `v || d`. */
  function Or(v: Value, d: Value): Value
  {
    if Truthy(v) then v else d
  }

  /** `??` replaces only `null` and `undefined`, while `||` also replaces the
      falsy values `false`, `0` and `""`; on a truthy value both keep it. */
  lemma CoalesceVersusOr(v: Value, d: Value)
    ensures v.Undefined? || v.Null? ==> Coalesce(v, d) == d && Or(v, d) == d
    ensures Truthy(v) ==> Coalesce(v, d) == v && Or(v, d) == v
    ensures Coalesce(Bool(false), d) == Bool(false) && Or(Bool(false), d) == d
    ensures Coalesce(Num(0), d) == Num(0) && Or(Num(0), d) == d
    ensures Coalesce(Str(""), d) == Str("") && Or(Str(""), d) == d
  {
  }

  /** Reading a property of `null` or `undefined` throws a TypeError. */
  predicate Readable(v: Value)
  {
    !v.Undefined? && !v.Null?
  }

  /** `v.key` on a readable value; `undefined` when the property is missing. */
  function Prop(v: Value, key: string): Value
  {
    match v
    case Obj(m) => if key in m then m[key] else Undefined
    case _ => Undefined
  }

  /** `v?.key`. */
  function OptProp(v: Value, key: string): Value
  {
    if Readable(v) then Prop(v, key) else Undefined
  }

  /** `Array.isArray(v) ? v : []`. */
  function ArrayOrEmpty(v: Value): seq<Value>
  {
    if v.Arr? then v.items else []
  }

  /** `String(v)`, and `v.toString()` on readable values; arrays join their
      elements with commas, where `null` and `undefined` elements print as nothing. */
  function ToString(v: Value): string
  {
    match v
    case Undefined => "undefined"
    case Null => "null"
    case Bool(b) => if b then "true" else "false"
    case Num(n) => Text.IntToString(n)
    case Str(s) => s
    case Arr(items) =>
      Text.Join(seq(|items|, i requires 0 <= i < |items| =>
                      if Readable(items[i]) then ToString(items[i]) else ""), ',')
    case Obj(_) => "[object Object]"
  }

  /** `(v ?? '').toString().trim() !== ''`: the "conferida" rule both summary screens share. */
  predicate TrimmedNonEmpty(v: Value)
  {
    Text.Trim(ToString(Coalesce(v, Str(""))) ) != ""
  }

  /** For a string field the rule holds exactly when some character is not whitespace,
      and a missing field never satisfies it. */
  lemma TrimmedNonEmptyString(s: string)
    ensures TrimmedNonEmpty(Str(s)) <==> exists i :: 0 <= i < |s| && !Text.IsSpace(s[i])
    ensures !TrimmedNonEmpty(Undefined) && !TrimmedNonEmpty(Null)
  {
    Text.TrimEmptyIff(s);
  }
}
