/**
 * The JSON-RPC 2.0 identifier that relay/relay.go carries in every response
 * (section 5 of the JSON-RPC 2.0 Specification: an id is a String, a Number or
 * Null). Go stores it as a struct with a string, an int and an `isNumber` tag;
 * the struct is kept field for field so that `UnmarshalJSON`'s in-place updates
 * can be followed exactly.
 */
module JsonRpc {
  import opened Wrappers
  import opened Ints
  import Text

  /**
   * A decoded JSON value. Number literals are split in two: `JInt` for a literal
   * without fraction or exponent (its value, of any size), `JFrac` for any other
   * number literal (kept as text, since no code here computes with it).
   */
  datatype Json =
    | JNull
    | JBool(b: bool)
    | JInt(n: int)
    | JFrac(literal: string)
    | JString(s: string)
    | JArray(items: seq<Json>)
    | JObject(members: seq<(string, Json)>)

  /** The `ID` struct of relay/relay.go; `number` is a Go `int` (64 bits). */
  datatype ID = ID(str: string, number: Int64, isNumber: bool)

  /** The zero value of `ID`, which `json.Unmarshal` decodes into. */
  const ZeroID: ID := ID("", 0, false)

  /** `IDFromString`. */
  function IDFromString(s: string): (id: ID)
    ensures !id.isNumber && id.str == s
  {
    ID(s, 0, false)
  }

  /** `IDFromInt`. */
  function IDFromInt(n: Int64): (id: ID)
    ensures id.isNumber && id.number == n
  {
    ID("", n, true)
  }

  /** Why `UnmarshalJSON` refused a value: the value itself. */
  datatype UnmarshalError = UnmarshalError(data: Json)

  /**
   * `json.Unmarshal(data, &intID)` without error: an integer literal that fits
   * in 64 bits, or `null` (which Go's decoder accepts for an int and leaves the
   * int at 0).
   */
  function AsInt(data: Json): Option<Int64>
  {
    match data
    case JNull => Some(0)
    case JInt(n) => if MinInt64 <= n <= MaxInt64 then Some(n) else None
    case _ => None
  }

  /** `json.Unmarshal(data, &stringID)` without error: a string, or `null` (left as ""). */
  function AsString(data: Json): Option<string>
  {
    match data
    case JNull => Some("")
    case JString(s) => Some(s)
    case _ => None
  }

  /**
   * `(*ID).UnmarshalJSON`: integer first, then string, else an error. It updates
   * the receiver in place, so the fields the taken branch does not assign keep
   * their old values; on error the receiver is unchanged.
   */
  function UnmarshalJSON(i: ID, data: Json): (r: Result<ID, UnmarshalError>)
    ensures r.Ok? <==> (data.JNull? || data.JString? || (data.JInt? && MinInt64 <= data.n <= MaxInt64))
    ensures r.Err? ==> r.error.data == data
    ensures data.JInt? && r.Ok? ==> r.value == i.(number := data.n, isNumber := true)
    ensures data.JString? ==> r == Ok(i.(str := data.s))
    ensures data.JNull? ==> r == Ok(i.(number := 0, isNumber := true))
  {
    match AsInt(data)
    case Some(n) => Ok(i.(number := n, isNumber := true))
    case None =>
      match AsString(data)
      case Some(s) => Ok(i.(str := s))
      case None => Err(UnmarshalError(data))
  }

  /** `ID.MarshalJSON`: a number for a numeric id, a string otherwise. */
  function MarshalJSON(i: ID): (v: Json)
    ensures i.isNumber ==> v == JInt(i.number)
    ensures !i.isNumber ==> v == JString(i.str)
  {
    if i.isNumber then JInt(i.number) else JString(i.str)
  }

  /** `ID.String`: decimal for a numeric id, the text itself otherwise. */
  function String(i: ID): (s: string)
    ensures i.isNumber ==> Text.Atoi(s) == Some(i.number)
    ensures !i.isNumber ==> s == i.str
  {
    if i.isNumber then
      Text.AtoiItoa(i.number);
      Text.Itoa(i.number)
    else i.str
  }

  /** An id keeps its wire type through marshal and unmarshal: a number stays a number, a string a string. */
  lemma RoundTrip(i: ID)
    ensures UnmarshalJSON(ZeroID, MarshalJSON(i)).Ok?
    ensures UnmarshalJSON(ZeroID, MarshalJSON(i)).value.isNumber == i.isNumber
    ensures String(UnmarshalJSON(ZeroID, MarshalJSON(i)).value) == String(i)
  {
  }

  /** The ids the constructors build come back exactly. */
  lemma ConstructorsRoundTrip(n: Int64, s: string)
    ensures MarshalJSON(IDFromInt(n)) == JInt(n)
    ensures MarshalJSON(IDFromString(s)) == JString(s)
    ensures UnmarshalJSON(ZeroID, MarshalJSON(IDFromInt(n))) == Ok(IDFromInt(n))
    ensures UnmarshalJSON(ZeroID, MarshalJSON(IDFromString(s))) == Ok(IDFromString(s))
  {
  }

  /**
   * The in-place update shows through when the receiver is reused: a string
   * decoded into an id that already holds a number leaves it a number.
   */
  lemma StringIntoNumericIdStaysNumeric(n: Int64, s: string)
    ensures UnmarshalJSON(IDFromInt(n), JString(s)).value.isNumber
    ensures String(UnmarshalJSON(IDFromInt(n), JString(s)).value) == String(IDFromInt(n))
  {
  }
}
