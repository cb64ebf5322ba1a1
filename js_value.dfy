/** The loosely-typed values that arrive from the message bus once parsed:
    a JSON-like bag, plus byte arrays (`Uint8Array`). The accessors give the
    JavaScript meaning of the few operators the bus client applies to them:
    truthiness, optional property access `a?.x`, nullish coalescing `a ?? b`
    and the text a template literal `${v}` produces. */
module JsValue {
  import opened Common

  /** A byte, as stored in a `Uint8Array`. */
  type Byte = x: int | 0 <= x < 256

  /** Numbers are the integers the bus delivers for every field read in
      these modules (prefixes, metrics, flags, enum codes). */
  datatype Value =
    | Undefined
    | Null
    | Bool(b: bool)
    | Num(n: int)
    | Str(s: string)
    | Arr(items: seq<Value>)
    | Obj(fields: map<string, Value>)
    | Octets(bytes: seq<Byte>)

  /** JavaScript truthiness (`!!v`). */
  predicate Truthy(v: Value)
  {
    match v
    case Undefined => false
    case Null => false
    case Bool(b) => b
    case Num(n) => n != 0
    case Str(s) => s != ""
    case _ => true
  }

  predicate Nullish(v: Value) { v.Undefined? || v.Null? }

  /** `v?.key`: a missing field, and any field of a non-object, reads as
      `undefined`. */
  function Get(v: Value, key: string): (r: Value)
    ensures !v.Obj? ==> r == Undefined
    ensures v.Obj? && key !in v.fields ==> r == Undefined
  {
    if v.Obj? && key in v.fields then v.fields[key] else Undefined
  }

  /** `a ?? b`. */
  function Coalesce(a: Value, b: Value): (r: Value)
    ensures !Nullish(a) ==> r == a
    ensures Nullish(a) ==> r == b
  {
    if Nullish(a) then b else a
  }

  /** `v?.k1 ?? v?.k2 ?? ... ?? undefined`: the first non-nullish field
      among the given spellings, and `undefined` when all are nullish (so a
      `null` never survives). */
  function FirstField(v: Value, keys: seq<string>): (r: Value)
    ensures !r.Null?
    ensures r.Undefined? <==> forall i :: 0 <= i < |keys| ==> Nullish(Get(v, keys[i]))
    ensures !r.Undefined? ==> exists i :: 0 <= i < |keys| && r == Get(v, keys[i])
    decreases |keys|
  {
    if keys == [] then Undefined
    else
      var rest := FirstField(v, keys[1..]);
      assert forall i :: 1 <= i < |keys| ==> keys[i] == keys[1..][i - 1];
      Coalesce(Get(v, keys[0]), rest)
  }

  /** The text `${v}` produces. Arrays join their elements' texts with ','
      (nullish elements print as ''); plain objects print as
      '[object Object]'. */
  function Show(v: Value): string
  {
    match v
    case Undefined => "undefined"
    case Null => "null"
    case Bool(b) => if b then "true" else "false"
    case Num(n) => IntToString(n)
    case Str(s) => s
    case Arr(items) => Join(ShowItems(items), ",")
    case Obj(_) => "[object Object]"
    case Octets(bytes) => Join(ShowBytes(bytes), ",")
  }

  function ShowItems(items: seq<Value>): (r: seq<string>)
    ensures |r| == |items|
    decreases items
  {
    if items == [] then []
    else [if Nullish(items[0]) then "" else Show(items[0])] + ShowItems(items[1..])
  }

  function ShowBytes(bytes: seq<Byte>): (r: seq<string>)
    ensures |r| == |bytes|
  {
    if bytes == [] then [] else [NatToString(bytes[0])] + ShowBytes(bytes[1..])
  }

  /** `typeof v === 'number' ? v : fallback`. */
  function NumberOr(v: Value, fallback: int): int
  {
    if v.Num? then v.n else fallback
  }

  /** `typeof v === 'string' ? v : undefined`. */
  function StringField(v: Value): Option<string>
  {
    if v.Str? then Some(v.s) else None
  }
}
