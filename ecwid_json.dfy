/** The JSON documents the Ecwid API answers with, the few `JsonElement` accessors the client
    uses, and the mapping of one category element to a `Category`
    (src/EcwidSync.Infrastructure/EcwidClient.cs, lines 165-204). */
module EcwidJson {
  import opened Wrappers
  import opened Text
  import opened Int32

  /** A parsed JSON value. Numbers written as integer literals keep their value; a number
      with a fraction or an exponent is `JNumber`, which no integer accessor accepts. */
  datatype Json =
    | JNull
    | JTrue
    | JFalse
    | JInt(n: int)
    | JNumber
    | JString(s: string)
    | JArray(elems: seq<Element>)
    | JObject(props: map<string, Json>)

  /** An array element together with its own source text (`GetRawText`). */
  datatype Element = Element(raw: string, value: Json)

  /** Why a JSON operation threw: the text is not JSON, an accessor met the wrong kind of
      value (`InvalidOperationException`), a number did not fit (`FormatException`), or the
      serializer rejected a payload (`JsonException`). */
  datatype JsonFault = Malformed | WrongKind | OutOfRange | BadPayload

  predicate FitsInt64(x: int) {
    -0x8000_0000_0000_0000 <= x < 0x8000_0000_0000_0000
  }

  /** `JsonElement.TryGetProperty`: only objects have properties. */
  function TryGetProperty(j: Json, name: string): Result<Option<Json>, JsonFault> {
    if !j.JObject? then Err(WrongKind)
    else if name in j.props then Ok(Some(j.props[name]))
    else Ok(None)
  }

  /** `JsonElement.TryGetInt32`: throws on a non-number, fails on a number that is not a
      32-bit integer. */
  function TryGetInt32(j: Json): Result<Option<int32>, JsonFault> {
    match j
    case JInt(n) => Ok(if FitsInt32(n) then Some(n) else None)
    case JNumber => Ok(None)
    case _ => Err(WrongKind)
  }

  /** `JsonElement.TryGetInt64`. */
  function TryGetInt64(j: Json): Result<Option<int64>, JsonFault> {
    match j
    case JInt(n) => Ok(if FitsInt64(n) then Some(n) else None)
    case JNumber => Ok(None)
    case _ => Err(WrongKind)
  }

  /** `JsonElement.GetInt32`. */
  function GetInt32(j: Json): (r: Result<int32, JsonFault>)
    ensures r.Ok? <==> j.JInt? && FitsInt32(j.n)
    ensures r.Ok? ==> r.value == j.n
  {
    match j
    case JInt(n) => if FitsInt32(n) then Ok(n) else Err(OutOfRange)
    case JNumber => Err(OutOfRange)
    case _ => Err(WrongKind)
  }

  /** `JsonElement.GetString`: a string, or null for a JSON null. */
  function GetString(j: Json): Result<Option<string>, JsonFault> {
    match j
    case JString(s) => Ok(Some(s))
    case JNull => Ok(None)
    case _ => Err(WrongKind)
  }

  /** `JsonElement.GetArrayLength`. */
  function GetArrayLength(j: Json): Result<nat, JsonFault> {
    if j.JArray? then Ok(|j.elems|) else Err(WrongKind)
  }

  // ---------- categories ----------

  /** A point in time, as the date parsers produce it. */
  datatype Instant = Instant(ticks: int)

  /** `DateTime.TryParse`, then `DateTimeOffset.TryParse` read as UTC: culture-dependent
      parsers outside this model. */
  datatype DateParsers = DateParsers(
    dateTime: string -> Option<Instant>,
    dateTimeOffsetUtc: string -> Option<Instant>)

  /** `EcwidSync.Domain.Category` as the client fills it. */
  datatype Category = Category(
    id: int32,
    parentId: Option<int32>,
    name: string,
    enabled: bool,
    updated: Option<Instant>)

  /** A 32-bit value of an integer element: the Int32 value, else the low 32 bits of the
      Int64 value, else nothing. */
  function Int32Or64(j: Json): Result<Option<int32>, JsonFault> {
    match TryGetInt32(j)
    case Err(e) => Err(e)
    case Ok(Some(i)) => Ok(Some(i))
    case Ok(None) =>
      match TryGetInt64(j)
      case Err(e) => Err(e)
      case Ok(Some(i64)) => Ok(Some(Narrow(i64)))
      case Ok(None) => Ok(None)
  }

  /** Lines 168-171: `id` defaults to 0. */
  function CategoryIdField(props: map<string, Json>): Result<int32, JsonFault> {
    if "id" !in props then Ok(0)
    else
      match Int32Or64(props["id"])
      case Err(e) => Err(e)
      case Ok(v) => Ok(v.GetOr(0))
  }

  /** Lines 173-178: `parentId` is null when absent, JSON null or not a 64-bit integer. */
  function ParentIdField(props: map<string, Json>): Result<Option<int32>, JsonFault> {
    if "parentId" !in props || props["parentId"] == JNull then Ok(None)
    else Int32Or64(props["parentId"])
  }

  /** Line 180: `name` defaults to "" when absent or null. */
  function NameField(props: map<string, Json>): Result<string, JsonFault> {
    if "name" !in props then Ok("")
    else
      match GetString(props["name"])
      case Err(e) => Err(e)
      case Ok(s) => Ok(s.GetOr(""))
  }

  /** Line 181: enabled only for a JSON `true`. */
  predicate EnabledField(props: map<string, Json>) {
    "enabled" in props && props["enabled"] == JTrue
  }

  /** Lines 184-193: a non-blank string parsed as a local time, else as an offset time. */
  function UpdatedField(props: map<string, Json>, dates: DateParsers): Option<Instant> {
    if "updated" in props && props["updated"].JString? then
      var s := props["updated"].s;
      if Blank(s) then None
      else if dates.dateTime(s).Some? then dates.dateTime(s)
      else dates.dateTimeOffsetUtc(s)
    else None
  }

  /** Lines 168-202: one category element to a `Category`, failing where `JsonElement` throws. */
  function MapCategory(el: Json, dates: DateParsers): (r: Result<Category, JsonFault>)
    ensures !el.JObject? ==> r.Err?
    ensures r.Ok? ==> (r.value.enabled <==> "enabled" in el.props && el.props["enabled"] == JTrue)
    ensures r.Ok? ==> r.value.updated == UpdatedField(el.props, dates)
  {
    if !el.JObject? then Err(WrongKind)
    else
      var props := el.props;
      match CategoryIdField(props)
      case Err(e) => Err(e)
      case Ok(id) =>
        match ParentIdField(props)
        case Err(e) => Err(e)
        case Ok(parentId) =>
          match NameField(props)
          case Err(e) => Err(e)
          case Ok(name) =>
            Ok(Category(id, parentId, name, EnabledField(props), UpdatedField(props, dates)))
  }

  /** The low 32 bits of an integer that fits in 64 bits, 0 for any other number. */
  function IdValue(j: Json): int32
    requires j.JInt? || j.JNumber?
  {
    if j.JInt? && FitsInt64(j.n) then Narrow(j.n) else 0
  }

  /** `Int32Or64` is exactly low-32-bit truncation of every 64-bit integer: a value that fits
      in 32 bits is kept, a wider one is cut to its low 32 bits, anything else is absent. */
  lemma Int32Or64Truncates(j: Json)
    ensures (j.JInt? || j.JNumber?) <==> Int32Or64(j).Ok?
    ensures j.JInt? && FitsInt64(j.n) ==> Int32Or64(j) == Ok(Some(Narrow(j.n)))
    ensures j.JInt? && FitsInt32(j.n) ==> Int32Or64(j) == Ok(Some(j.n))
    ensures (j.JNumber? || (j.JInt? && !FitsInt64(j.n))) ==> Int32Or64(j) == Ok(None)
  {
    if j.JInt? && FitsInt32(j.n) {
      NarrowFits(j.n);
    }
  }

  /** The mapped category follows the field rules of lines 168-181: the id is the low 32 bits
      of a 64-bit id (0 when absent or not an integer), the parent is absent for a missing,
      null or non-integer `parentId`, the name defaults to "". The mapping fails exactly when
      the element is not an object, or `id`/`parentId` is present and not a number, or `name`
      is present and neither a string nor null. */
  lemma MapCategoryFields(el: Json, dates: DateParsers)
    ensures MapCategory(el, dates).Err? <==>
      || !el.JObject?
      || ("id" in el.props && !(el.props["id"].JInt? || el.props["id"].JNumber?))
      || ("parentId" in el.props && !(el.props["parentId"] in {JNull, JNumber} || el.props["parentId"].JInt?))
      || ("name" in el.props && !(el.props["name"].JString? || el.props["name"].JNull?))
    ensures MapCategory(el, dates).Ok? ==>
      var c := MapCategory(el, dates).value;
      var ps := el.props;
      && c.id == (if "id" in ps then IdValue(ps["id"]) else 0)
      && (c.parentId.None? <==> "parentId" !in ps || ps["parentId"] == JNull || ps["parentId"] == JNumber
                                || !FitsInt64(ps["parentId"].n))
      && (c.parentId.Some? ==> c.parentId.value == Narrow(ps["parentId"].n))
      && c.name == (if "name" in ps && ps["name"].JString? then ps["name"].s else "")
  {
    if el.JObject? {
      var ps := el.props;
      if "id" in ps { Int32Or64Truncates(ps["id"]); }
      if "parentId" in ps { Int32Or64Truncates(ps["parentId"]); }
    }
  }
}
