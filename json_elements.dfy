/**
 * The JSON document values the schema engine reads (System.Text.Json's
 * JsonElement), and the numeric readings it performs on them.
 *
 * `Int(i)` is a number written without fraction or exponent, `Num(r)` one
 * written with a fraction or an exponent; `r` is its exact decimal value.
 * Object members keep their document order, duplicates included; the
 * default JsonElement is `Undefined`.
 */
module JsonElements {
  import opened Wrappers

  datatype JsonValue =
    | Undefined
    | Null
    | Bool(b: bool)
    | Int(i: int)
    | Num(r: real)
    | Str(s: string)
    | Arr(items: seq<JsonValue>)
    | Obj(members: seq<(string, JsonValue)>)

  /** JsonValueKind; `true` and `false` are distinct kinds. */
  datatype ValueKind = UndefinedKind | ObjectKind | ArrayKind | StringKind | NumberKind | TrueKind | FalseKind | NullKind

  function KindOf(v: JsonValue): ValueKind
  {
    match v
    case Undefined => UndefinedKind
    case Null => NullKind
    case Bool(b) => if b then TrueKind else FalseKind
    case Int(_) => NumberKind
    case Num(_) => NumberKind
    case Str(_) => StringKind
    case Arr(_) => ArrayKind
    case Obj(_) => ObjectKind
  }

  predicate IsNumber(v: JsonValue)
  {
    v.Int? || v.Num?
  }

  /** The exact value a number literal denotes. */
  function NumberValue(v: JsonValue): real
    requires IsNumber(v)
  {
    if v.Int? then v.i as real else v.r
  }

  const Int64Min: int := -0x8000_0000_0000_0000
  const Int64Max: int := 0x7FFF_FFFF_FFFF_FFFF

  /** The largest magnitude System.Decimal holds: 2^96 - 1. */
  const DecimalMax: real := 79228162514264337593543950335.0

  predicate InInt64(i: int)
  {
    Int64Min <= i <= Int64Max
  }

  /** `TryGetInt64`: only integer literals in the 64-bit range. */
  function TryGetInt64(v: JsonValue): (r: Option<int>)
    requires IsNumber(v)
    ensures r.Some? <==> v.Int? && InInt64(v.i)
    ensures r.Some? ==> r.value as real == NumberValue(v)
  {
    if v.Int? && InInt64(v.i) then Some(v.i) else None
  }

  /** `TryGetDecimal`: any literal whose magnitude System.Decimal holds. */
  function TryGetDecimal(v: JsonValue): (r: Option<real>)
    requires IsNumber(v)
    ensures r.Some? <==> -DecimalMax <= NumberValue(v) <= DecimalMax
    ensures r.Some? ==> r.value == NumberValue(v)
  {
    var x := NumberValue(v);
    if -DecimalMax <= x <= DecimalMax then Some(x) else None
  }

  function Pow2(n: nat): (r: nat)
    ensures r >= 1
  {
    if n == 0 then 1 else 2 * Pow2(n - 1)
  }

  /**
   * The least magnitude that rounds to infinity as a double, 2^1024 - 2^970:
   * the largest finite double, 2^1024 - 2^971, plus half of its last step.
   */
  const DoubleOverflow: real := ((Pow2(54) - 1) * Pow2(970)) as real

  /**
   * `TryGetDouble`: fails on a literal whose magnitude rounds to infinity;
   * any other literal reads as its exact value, not rounded to a double.
   */
  function TryGetDouble(v: JsonValue): (r: Option<real>)
    requires IsNumber(v)
    ensures r.Some? <==> -DoubleOverflow < NumberValue(v) < DoubleOverflow
    ensures r.Some? ==> r.value == NumberValue(v)
  {
    var x := NumberValue(v);
    if -DoubleOverflow < x < DoubleOverflow then Some(x) else None
  }
}
