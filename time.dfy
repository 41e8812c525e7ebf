/**
 * The time-tracking types: the month names and the check that a response
 * to "start a session" carries a success flag, a numeric id and a start
 * date.
 */
module Time {
  import opened Prelude

  /** A JavaScript number: a finite value, or NaN / an infinity. */
  datatype JsNumber = Finite(value: real) | NonFinite

  /** The JavaScript values a response can hold; objects map their own keys to values. */
  datatype JsValue =
    | Undefined
    | Null
    | Bool(b: bool)
    | Number(n: JsNumber)
    | Str(s: string)
    | Object(fields: map<string, JsValue>)
    | Function

  /** `!v`: the falsy values are undefined, null, false, 0, NaN and the empty string. */
  predicate Falsy(v: JsValue) {
    match v
    case Undefined => true
    case Null => true
    case Bool(b) => !b
    case Number(n) => n == NonFinite || n == Finite(0.0)
    case Str(s) => s == ""
    case Object(_) => false
    case Function => false
  }

  /** A property read: a missing key reads as `undefined`. */
  function Get(fields: map<string, JsValue>, key: string): JsValue {
    if key in fields then fields[key] else Undefined
  }

  /**
   * `isStartData`: an object whose `success` is exactly `true`, whose `id`
   * is a finite number and whose `start_date` is a non-empty string.
   */
  predicate IsStartData(data: JsValue)
    ensures IsStartData(data) ==> data.Object?
    ensures data.Object? ==> (IsStartData(data) <==>
      && Get(data.fields, "success") == Bool(true)
      && Get(data.fields, "id").Number? && Get(data.fields, "id").n.Finite?
      && Get(data.fields, "start_date").Str? && |Get(data.fields, "start_date").s| > 0)
  {
    if Falsy(data) || !data.Object? then false
    else
      var obj := data.fields;
      && Get(obj, "success") == Bool(true)
      && Get(obj, "id").Number? && Get(obj, "id").n.Finite?
      && Get(obj, "start_date").Str? && |Get(obj, "start_date").s| > 0
  }

  /** Fields other than `success`, `id` and `start_date` (a `message`, say) do not change the verdict. */
  lemma OtherFieldsIgnored(fields: map<string, JsValue>, key: string, v: JsValue)
    requires key != "success" && key != "id" && key != "start_date"
    ensures IsStartData(Object(fields[key := v])) == IsStartData(Object(fields))
  {
    var fields' := fields[key := v];
    assert Get(fields', "success") == Get(fields, "success");
    assert Get(fields', "id") == Get(fields, "id");
    assert Get(fields', "start_date") == Get(fields, "start_date");
  }

  /** A well-formed start response passes, with or without a message. */
  lemma StartResponseAccepted(id: real, startDate: string, message: Option<string>)
    requires |startDate| > 0
    ensures var base := map["success" := Bool(true), "id" := Number(Finite(id)), "start_date" := Str(startDate)];
      IsStartData(Object(if message.Some? then base["message" := Str(message.value)] else base))
  {
    var base := map["success" := Bool(true), "id" := Number(Finite(id)), "start_date" := Str(startDate)];
    assert IsStartData(Object(base));
    if message.Some? {
      OtherFieldsIgnored(base, "message", Str(message.value));
    }
  }

  const MONTH_NAMES: seq<string> := [
    "January", "February", "March", "April", "May", "June",
    "July", "August", "September", "October", "November", "December"
  ]

  /** `MONTH_NAMES[mm - 1]`: defined exactly for the months 1 .. 12. */
  function MonthName(mm: int): (r: Option<string>)
    ensures r.Some? <==> 1 <= mm <= 12
    ensures mm == 1 ==> r == Some("January")
    ensures mm == 12 ==> r == Some("December")
  {
    if 1 <= mm <= |MONTH_NAMES| then Some(MONTH_NAMES[mm - 1]) else None
  }
}
