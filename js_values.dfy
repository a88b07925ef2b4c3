/**
 * The JavaScript values that flow through the beWork view: request payloads,
 * service rows and the plain objects produced by `valueOf`, together with the
 * few checks the code applies to them (truthiness, `_.get`, the
 * `AssertUtils` type assertions and moment's reading of a date).
 */
module JsValues {
  import opened Wrappers

  /**
   * A JavaScript value. Numbers are exact reals (NaN and the infinities do not
   * occur in a JSON payload). A string that moment reads as a date is kept as
   * `DateString(t)`, `t` being the instant it denotes in milliseconds on the
   * local wall clock; every other string is a `Str`.
   */
  datatype Value =
    | Undefined
    | Null
    | Bool(b: bool)
    | Num(n: real)
    | Str(s: string)
    | DateString(t: int)
    | Obj(fields: map<string, Value>)

  /** What the code throws. */
  datatype Error =
    | InvalidArgument(field: string)   // an AssertUtils check or a constructor check failed on `field`
    | CannotReadProperty(key: string)  // `x.key` with `x` undefined or null
    | NoCurrentPeriod                  // stop/delete without a record
    | NoCurrentPeriodId                // stop/delete with a record that has no id
    | NotDefined                       // parseValue of a falsy value
    | WrongType                        // parseValue of a value with the wrong type tag
    | NoController                     // render before a controller was bound
    | UnknownRow                       // the timecard service has no row with that id

  type Outcome<T> = Result<T, Error>

  /** JavaScript truthiness. */
  predicate Truthy(v: Value) {
    match v
    case Undefined => false
    case Null => false
    case Bool(b) => b
    case Num(n) => n != 0.0
    case Str(s) => s != ""
    case DateString(_) => true
    case Obj(_) => true
  }

  /** `_.isString` / `AssertUtils.isString`. */
  predicate IsString(v: Value) {
    v.Str? || v.DateString?
  }

  /** `v && _.isString(v)`, which is also `AssertUtils.isStringWithMinLength(v, 1)`. */
  predicate IsNonEmptyString(v: Value) {
    (v.Str? && v.s != "") || v.DateString?
  }

  /** `AssertUtils.isNumber`. */
  predicate IsNumber(v: Value) {
    v.Num?
  }

  /** `AssertUtils.isObject`. */
  predicate IsObject(v: Value) {
    v.Obj?
  }

  /** `AssertUtils.isDateString`. */
  predicate IsDateString(v: Value) {
    v.DateString?
  }

  /** A hexadecimal digit, in either case. */
  predicate IsHexDigit(c: char) {
    '0' <= c <= '9' || 'a' <= c <= 'f' || 'A' <= c <= 'F'
  }

  /** Whether position `i` of a textual UUID holds a hyphen. */
  predicate IsUuidHyphen(i: int) {
    i == 8 || i == 13 || i == 18 || i == 23
  }

  /**
   * The textual form of a UUID (section 3 of RFC 4122): 32 hexadecimal
   * digits in groups of 8, 4, 4, 4 and 12, separated by hyphens.
   */
  predicate IsUuidString(s: string) {
    |s| == 36 && forall i | 0 <= i < 36 :: if IsUuidHyphen(i) then s[i] == '-' else IsHexDigit(s[i])
  }

  /** `AssertUtils.isUuidString`: a string in the textual form of a UUID. */
  predicate IsUuid(v: Value) {
    v.Str? && IsUuidString(v.s)
  }

  /**
   * One step of lodash `_.get(v, 'key')`, which is also `v.key` when `v` is
   * neither undefined nor null: only objects have own properties here.
   */
  function Member(v: Value, key: string): (r: Value)
    ensures !v.Obj? ==> r == Undefined
    ensures v.Obj? && key !in v.fields ==> r == Undefined
  {
    if v.Obj? && key in v.fields then v.fields[key] else Undefined
  }

  /** `v.key`, which throws a TypeError when `v` is undefined or null. */
  function Property(v: Value, key: string): (r: Outcome<Value>)
    ensures r.Err? <==> v == Undefined || v == Null
    ensures r.Err? ==> r.error == CannotReadProperty(key)
    ensures r.Ok? ==> r.value == Member(v, key)
  {
    if v == Undefined || v == Null then Err(CannotReadProperty(key)) else Ok(Member(v, key))
  }

  /** Truncation toward zero, as `new Date(n)` applies to a fractional number of milliseconds. */
  function Truncate(x: real): (r: int)
    ensures x >= 0.0 ==> r as real <= x < r as real + 1.0
    ensures x < 0.0 ==> r as real - 1.0 < x <= r as real
  {
    if x >= 0.0 then x.Floor else -((-x).Floor)
  }

  /**
   * `moment(v)`: the instant it denotes, or None for an invalid moment.
   * `moment(undefined)` and `moment({})` are the current moment.
   */
  function Moment(v: Value, now: int): (r: Option<int>)
    ensures v.DateString? ==> r == Some(v.t)
    ensures v == Undefined || v == Obj(map[]) ==> r == Some(now)
    ensures v == Null || v.Str? || v.Bool? || (v.Obj? && v.fields != map[]) ==> r == None
  {
    match v
    case Undefined => Some(now)
    case DateString(t) => Some(t)
    case Num(n) => Some(Truncate(n))
    case Obj(fields) => if fields == map[] then Some(now) else None
    case _ => None
  }

  /** `m.toISOString()`: the ISO string of a valid moment, null for an invalid one. */
  function IsoString(m: Option<int>): (r: Value)
    ensures Truthy(r) <==> m.Some?
    ensures m.Some? ==> r == DateString(m.value)
  {
    if m.Some? then DateString(m.value) else Null
  }
}
