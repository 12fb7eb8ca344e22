/** The JSON value the decoders receive, with the accessors of the JSON
    library (SwiftyJSON) that the decoders call.

    The library is not part of this model. Each accessor below writes down
    the one behaviour the decoders rely on, and these definitions are the
    model's assumptions about the library:
    - `json[key]` of a missing key, or of a value that is not an object,
      is JSON null;
    - `.stringValue` is `""` for null, arrays and objects;
    - `.intValue` is `0` for null, arrays, objects and unreadable strings;
    - `.arrayValue` is `[]` and `.dictionaryValue` is empty for any value
      of the other kind;
    - `.isEmpty` is the collection test: an array or object is empty when
      it has no elements, and every other value (null, a number, a string,
      a boolean) has no elements and so counts as empty. */
module Json {
  import opened Wrappers
  import opened Dictionaries

  /** `Num` carries the number and the text the platform renders for it
      (`NSNumber.stringValue`); the rendering itself is not modelled. An
      object is the sequence of its members in iteration order. */
  datatype Json =
    | Null
    | Bool(b: bool)
    | Num(n: real, text: string)
    | Str(s: string)
    | Arr(items: seq<Json>)
    | Obj(fields: seq<(string, Json)>)

  /** `json.isEmpty`. */
  predicate IsEmpty(j: Json) {
    match j
    case Arr(items) => |items| == 0
    case Obj(fields) => |fields| == 0
    case _ => true
  }

  /** `json[key]`. */
  function Member(j: Json, key: string): Json {
    if j.Obj? then Lookup(j.fields, key).GetOr(Null) else Null
  }

  /** `json.stringValue`. */
  function StringValue(j: Json): string {
    match j
    case Str(s) => s
    case Num(_, text) => text
    case Bool(b) => if b then "true" else "false"
    case _ => ""
  }

  /** Conversion of a floating-point number to `Int`: truncation toward
      zero. */
  function Truncate(x: real): int {
    if x >= 0.0 then x.Floor else -((-x).Floor)
  }

  predicate IsDigit(c: char) {
    '0' <= c <= '9'
  }

  /** The value of a non-empty run of decimal digits. */
  function DigitsValue(s: string): int
    requires forall i :: 0 <= i < |s| ==> IsDigit(s[i])
  {
    if |s| == 0 then 0
    else 10 * DigitsValue(s[..|s| - 1]) + (s[|s| - 1] as int - '0' as int)
  }

  predicate IsDigits(s: string) {
    |s| > 0 && forall i :: 0 <= i < |s| ==> IsDigit(s[i])
  }

  /** `json.intValue`. */
  function IntValue(j: Json): int {
    match j
    case Num(n, _) => Truncate(n)
    case Bool(b) => if b then 1 else 0
    case Str(s) =>
      if IsDigits(s) then DigitsValue(s)
      else if |s| > 1 && s[0] == '-' && IsDigits(s[1..]) then -DigitsValue(s[1..])
      else 0
    case _ => 0
  }

  /** `json.arrayValue`. */
  function ArrayValue(j: Json): seq<Json> {
    if j.Arr? then j.items else []
  }

  /** `json.dictionaryValue`. */
  function DictionaryValue(j: Json): seq<(string, Json)> {
    if j.Obj? then j.fields else []
  }
}
