/**
 The submit handler of the change-password form.

 The handler validates the three fields and, only when they pass, disables
 the submit button, sends one POST carrying the current and new passwords,
 shows a message chosen by how the request ended, and re-enables the button
 in a `finally` block. The request itself is not modelled: its outcome is a
 parameter, `Outcome`, and the handler's visible effects are the result.
 */
module Submit {
  import opened JsText
  import Strength
  import Validation

  datatype Option<T> = None | Some(value: T)

  // ---------------------------------------------------------------------
  // The response body, as far as the handler reads it
  // ---------------------------------------------------------------------

  /** The integers a double holds exactly and `String` prints digit for digit:
      magnitudes up to 2^53. (`-0` prints as "0" and is falsy, as 0 is.) */
  type SafeInt = n: int | -0x20_0000_0000_0000 <= n <= 0x20_0000_0000_0000

  /** A value `response.json()` can resolve to. Numbers are integers here. */
  datatype Json =
    | JNull
    | JBool(b: bool)
    | JNumber(n: SafeInt)
    | JString(s: string)
    | JArray(items: seq<Json>)
    | JObject(fields: map<string, Json>)

  /** The body of an error response: not JSON at all, or the value it parses to. */
  datatype Body = Unparseable | Parsed(data: Json)

  /** How the one request of a submit ended. */
  datatype Outcome =
    | Ok                    // a response with a success status
    | HttpError(body: Body) // a response with any other status
    | NetworkError          // `fetch` rejected: no response at all

  /** `data?.message`: the `message` property of an object, `undefined` (`None`)
      for every other value. */
  function MessageOf(data: Json): (r: Option<Json>)
    ensures r.Some? <==> data.JObject? && "message" in data.fields
    ensures r.Some? ==> r.value == data.fields["message"]
  {
    match data
    case JObject(fields) => if "message" in fields then Some(fields["message"]) else None
    case _ => None
  }

  /** JavaScript truthiness of a JSON value: exactly `null`, `false`, `0` and
      the empty string are falsy; every array and object is truthy. */
  predicate Truthy(v: Json): (b: bool)
    ensures b <==> !(v == JNull || v == JBool(false) || v == JNumber(0) || v == JString([]))
  {
    match v
    case JNull => false
    case JBool(b) => b
    case JNumber(n) => n != 0
    case JString(s) => s != []
    case JArray(_) => true
    case JObject(_) => true
  }

  /** The character of a decimal digit. */
  function DigitChar(d: nat): (c: char)
    requires d < 10
    ensures IsAsciiDigit(c)
  {
    ('0' as int + d) as char
  }

  /** The decimal numeral of `n`, without leading zeros. */
  function NatText(n: nat): (s: string)
    ensures s != [] && forall i :: 0 <= i < |s| ==> IsAsciiDigit(s[i])
    ensures |s| > 1 ==> s[0] != '0'
    decreases n
  {
    if n < 10 then [DigitChar(n)]
    else
      var s := NatText(n / 10) + [DigitChar(n % 10)];
      assert s[0] == NatText(n / 10)[0];
      s
  }

  /** The value of a decimal digit character. */
  function DigitValue(c: char): nat
    requires IsAsciiDigit(c)
  {
    c as int - '0' as int
  }

  /** The number a string of decimal digits denotes. */
  function DecimalValue(s: string): nat
    requires forall i :: 0 <= i < |s| ==> IsAsciiDigit(s[i])
  {
    if s == [] then 0
    else DecimalValue(s[..|s| - 1]) * 10 + DigitValue(s[|s| - 1])
  }

  /** Reading back the numeral gives the number. */
  lemma {:induction false} NatTextRoundTrip(n: nat)
    ensures DecimalValue(NatText(n)) == n
    decreases n
  {
    var s := NatText(n);
    if n >= 10 {
      NatTextRoundTrip(n / 10);
      assert s[..|s| - 1] == NatText(n / 10);
    }
  }

  /** `String(n)` for an integer number. */
  function IntText(n: int): string {
    if n < 0 then "-" + NatText(-n) else NatText(n)
  }

  /** `String(v)` throws a `TypeError` for an object with its own `toString`
      key: JSON can only bind it to a non-function, so the conversion falls
      back to `Object.prototype.valueOf`, which returns the object itself and
      not a primitive. An array throws when one of its elements does. Such
      a value is always truthy, so `data?.message || ...` always reaches it. */
  predicate ConversionThrows(v: Json): (b: bool)
    ensures b ==> Truthy(v)
  {
    match v
    case JObject(fields) => "toString" in fields
    case JArray(items) => exists i :: 0 <= i < |items| && ConversionThrows(items[i])
    case _ => false
  }

  /** `String(v)`, as assigning `v` to `textContent` converts it, or `None`
      when the conversion throws: strings as they are, integers in decimal,
      arrays joined with commas (a null element as the empty string), and
      every other object as "[object Object]". */
  function ToText(v: Json): (t: Option<string>)
    ensures t.None? <==> ConversionThrows(v)
    ensures v.JString? ==> t == Some(v.s)
    decreases v
  {
    match v
    case JNull => Some("null")
    case JBool(b) => Some(if b then "true" else "false")
    case JNumber(n) => Some(IntText(n))
    case JString(s) => Some(s)
    case JArray(items) =>
      var parts := seq(|items|, i requires 0 <= i < |items| =>
        if items[i] == JNull then Some("") else ToText(items[i]));
      if exists i :: 0 <= i < |parts| && parts[i].None? then None
      else
        assert forall i :: 0 <= i < |items| ==> !ConversionThrows(items[i]) by {
          forall i | 0 <= i < |items| ensures !ConversionThrows(items[i]) {
            assert parts[i].Some?;
            if items[i] != JNull {
              assert parts[i] == ToText(items[i]);
            }
          }
        }
        Some(Join(seq(|parts|, i requires 0 <= i < |parts| => parts[i].value)))
    case JObject(fields) =>
      if "toString" in fields then None else Some("[object Object]")
  }

  /** `parts.join(',')`. */
  function Join(parts: seq<string>): string {
    if parts == [] then ""
    else if |parts| == 1 then parts[0]
    else parts[0] + "," + Join(parts[1..])
  }

  // ---------------------------------------------------------------------
  // Messages and effects
  // ---------------------------------------------------------------------

  const SuccessText: string := "Password changed successfully."
  const ParseFailureText: string := "Unable to parse server response."
  const GenericFailureText: string := "Failed to change password. Check current password and try again."
  const NetworkFailureText: string := "Network error. Please try again."

  /** `await resp.json().catch(() => ({message: ParseFailureText}))`: an
      unparseable body is replaced by an object carrying the parse-failure
      message, and a parsed body is used as it is. */
  function ErrorData(body: Body): (data: Json)
    ensures body.Unparseable? ==> MessageOf(data) == Some(JString(ParseFailureText))
    ensures body.Parsed? ==> data == body.data
  {
    match body
    case Unparseable => JObject(map["message" := JString(ParseFailureText)])
    case Parsed(data) => data
  }

  /** `data?.message || GenericFailureText`, converted to text as it is
      assigned; `None` when that conversion throws. */
  function RejectionText(data: Json): (r: Option<string>)
    ensures MessageOf(data).None? || !Truthy(MessageOf(data).value) ==>
      r == Some(GenericFailureText)
    ensures MessageOf(data).Some? && Truthy(MessageOf(data).value) ==>
      r == ToText(MessageOf(data).value)
    ensures r.None? <==> MessageOf(data).Some? && ConversionThrows(MessageOf(data).value)
  {
    match MessageOf(data)
    case Some(m) => if Truthy(m) then ToText(m) else Some(GenericFailureText)
    case None => Some(GenericFailureText)
  }

  /** The colour the handler gives the result line. */
  datatype Colour =
    | Unchanged  // not written in this submit
    | Default    // `style.color = ''`
    | BadColour  // `style.color = 'var(--bad)'`

  datatype ButtonOp = Disable | Enable

  /** The request body `{currentPassword, newPassword}`. */
  datatype Payload = Payload(currentPassword: string, newPassword: string)

  /** How the `try` block ended: normally, with the result line and whether
      the form was reset, or by throwing to the `catch` block. */
  datatype Completion = Normal(text: string, colour: Colour, reset: bool) | Threw

  /** The `try` block after `fetch`, on each outcome. A rejection message
      whose conversion to text throws leaves the `try` block like a failed
      `fetch` does. */
  function TryBlock(o: Outcome): (c: Completion)
    ensures c.Threw? <==>
      (o == NetworkError
       || (o.HttpError? && MessageOf(ErrorData(o.body)).Some?
           && ConversionThrows(MessageOf(ErrorData(o.body)).value)))
    ensures c.Normal? ==> (c.reset <==> o == Ok) && (c.colour == Default <==> o == Ok)
    ensures c.Normal? ==> c.colour != Unchanged
    ensures o == Ok ==> c.Normal? && c.text == SuccessText
    ensures o.HttpError? && c.Normal? ==> RejectionText(ErrorData(o.body)) == Some(c.text)
  {
    match o
    case Ok => Normal(SuccessText, Default, true)
    case HttpError(body) =>
      (match RejectionText(ErrorData(body))
       case Some(text) => Normal(text, BadColour, false)
       case None => Threw)
    case NetworkError => Threw
  }

  /** The `catch` block: a thrown completion becomes the network-error line. */
  function Caught(c: Completion): (r: Completion)
    ensures r.Normal?
    ensures c.Normal? ==> r == c
    ensures c.Threw? ==> r == Normal(NetworkFailureText, BadColour, false)
  {
    match c
    case Normal(_, _, _) => c
    case Threw => Normal(NetworkFailureText, BadColour, false)
  }

  /** Everything one submit shows or does. */
  datatype Effects = Effects(
    errors: seq<Validation.Violation>,   // the rules listed in the error region
    request: Option<Payload>,            // the POST issued, if any
    resultText: string,                  // the result line
    resultColour: Colour,                // the colour given to the result line
    button: seq<ButtonOp>,               // writes to the submit button, in order
    formReset: bool,                     // whether `form.reset()` ran
    indicator: Option<Strength.Indicator>) // the strength indicator, when recomputed

  /** The submit button is usable after these writes, given that it was
      usable before. */
  predicate EndsEnabled(ops: seq<ButtonOp>) {
    ops == [] || ops[|ops| - 1] == Enable
  }

  /** The handler once validation has passed: the button is disabled, one
      request carries the fields as typed, the `try` and `catch` blocks pick
      the result line, and the `finally` block re-enables the button. */
  function Respond(current: string, newPw: string, o: Outcome): (e: Effects)
    ensures e.errors == [] && e.request == Some(Payload(current, newPw))
    ensures e.button == [Disable, Enable]
    ensures e.formReset <==> o == Ok
    ensures e.resultColour != Unchanged
    ensures e.indicator == if o == Ok then Some(Strength.UpdateStrength("")) else None
  {
    var disabled := [Disable];
    var done := Caught(TryBlock(o));
    var indicator := if done.reset then Some(Strength.UpdateStrength("")) else None;
    Effects([], Some(Payload(current, newPw)), done.text, done.colour,
            disabled + [Enable], done.reset, indicator)
  }

  /** The submit handler. The result line is cleared first; on a validation
      failure the violations are listed and nothing else happens, otherwise
      the handler goes on as `Respond`. */
  function OnSubmit(current: string, newPw: string, confirm: string, o: Outcome): (e: Effects)
    ensures e.errors == Validation.Validate(current, newPw, confirm)
    ensures e.request.Some? <==> Validation.Accepts(current, newPw, confirm)
    ensures e.request.Some? ==> e == Respond(current, newPw, o)
    ensures e.request.None? ==>
      e.resultText == [] && e.resultColour == Unchanged && e.button == [] && !e.formReset
      && e.indicator == None
    ensures EndsEnabled(e.button)
  {
    var errs := Validation.Validate(current, newPw, confirm);
    if errs != [] then
      Effects(errs, None, "", Unchanged, [], false, None)
    else
      Respond(current, newPw, o)
  }

  // ---------------------------------------------------------------------
  // Properties of the handler
  // ---------------------------------------------------------------------

  /** When validation fails no request is made, and nothing the handler does
      depends on what the request would have returned. */
  lemma NoRequestWhenInvalid(current: string, newPw: string, confirm: string, o1: Outcome, o2: Outcome)
    requires !Validation.Accepts(current, newPw, confirm)
    ensures OnSubmit(current, newPw, confirm, o1).request == None
    ensures OnSubmit(current, newPw, confirm, o1) == OnSubmit(current, newPw, confirm, o2)
    ensures OnSubmit(current, newPw, confirm, o1).button == []
  {
  }

  /** When a request is made the button is disabled before it and enabled
      exactly once after it, on every outcome. */
  lemma ButtonReenabledOnEveryPath(current: string, newPw: string, confirm: string, o: Outcome)
    requires Validation.Accepts(current, newPw, confirm)
    ensures OnSubmit(current, newPw, confirm, o).button == [Disable, Enable]
  {
  }

  /** The message shown for each outcome of a request. */
  lemma OutcomeMessages(current: string, newPw: string, o: Outcome)
    ensures o == Ok ==> Respond(current, newPw, o).resultText == SuccessText
    ensures o == HttpError(Unparseable) ==>
      Respond(current, newPw, o).resultText == ParseFailureText
    ensures o == NetworkError ==> Respond(current, newPw, o).resultText == NetworkFailureText
    ensures o.HttpError? && o.body.Parsed? && MessageOf(o.body.data).Some?
            && Truthy(MessageOf(o.body.data).value)
            && !ConversionThrows(MessageOf(o.body.data).value) ==>
      Respond(current, newPw, o).resultText == ToText(MessageOf(o.body.data).value).value
    ensures o.HttpError? && o.body.Parsed? && MessageOf(o.body.data).Some?
            && ConversionThrows(MessageOf(o.body.data).value) ==>
      Respond(current, newPw, o).resultText == NetworkFailureText
    ensures o.HttpError? && o.body.Parsed?
            && (MessageOf(o.body.data).None? || !Truthy(MessageOf(o.body.data).value)) ==>
      Respond(current, newPw, o).resultText == GenericFailureText
    ensures Respond(current, newPw, o).resultColour == Default <==> o == Ok
  {
  }

  /** The generic failure line appears only for a response that parses but
      carries no truthy `message`, unless the server's own message happens
      to be that very text. */
  lemma GenericOnlyWithoutServerMessage(current: string, newPw: string, o: Outcome)
    requires Respond(current, newPw, o).resultText == GenericFailureText
    ensures o.HttpError? && o.body.Parsed?
    ensures MessageOf(o.body.data).None?
            || !Truthy(MessageOf(o.body.data).value)
            || ToText(MessageOf(o.body.data).value) == Some(GenericFailureText)
  {
  }

  /** A non-empty string `message` from the server is shown as sent, in the
      `--bad` colour. */
  lemma ServerMessageShownVerbatim(current: string, newPw: string, m: string)
    requires m != []
    ensures Respond(current, newPw, HttpError(Parsed(JObject(map["message" := JString(m)])))).resultText == m
    ensures Respond(current, newPw, HttpError(Parsed(JObject(map["message" := JString(m)])))).resultColour
            == BadColour
  {
  }

  /** A `message` that is present but falsy (empty, null, false or 0) falls
      back to the generic line, while a truthy non-string is converted. */
  lemma FalsyMessageFallsBack()
    ensures RejectionText(JObject(map["message" := JString("")])) == Some(GenericFailureText)
    ensures RejectionText(JObject(map["message" := JNull])) == Some(GenericFailureText)
    ensures RejectionText(JObject(map["message" := JBool(false)])) == Some(GenericFailureText)
    ensures RejectionText(JObject(map["message" := JNumber(0)])) == Some(GenericFailureText)
    ensures RejectionText(JObject(map["message" := JNumber(42)])) == Some("42")
    ensures RejectionText(JArray([JString("message")])) == Some(GenericFailureText)
  {
    assert NatText(42) == "42" by {
      assert NatText(4) == "4";
    }
  }

  /** An object `message` is shown as "[object Object]", unless it has its own
      `toString` key: then converting it throws inside the `try` block, and
      the page shows the network-error line. A `valueOf` key alone changes
      nothing, since `toString` is tried first. */
  lemma ObjectMessages(current: string, newPw: string, f: map<string, Json>)
    ensures "toString" in f ==>
      Respond(current, newPw, HttpError(Parsed(JObject(map["message" := JObject(f)]))))
      == Respond(current, newPw, NetworkError)
    ensures "toString" !in f ==>
      Respond(current, newPw, HttpError(Parsed(JObject(map["message" := JObject(f)])))).resultText
      == "[object Object]"
  {
  }

  /** After a successful change the form is reset and the indicator is
      recomputed for the now-empty field: no fill, the `--bad` colour and the
      placeholder label. */
  lemma SuccessResetsIndicator(current: string, newPw: string)
    ensures Respond(current, newPw, Ok).formReset
    ensures Respond(current, newPw, Ok).indicator
            == Some(Strength.Indicator(0, Strength.Bad, "Strength: \U{2014}"))
  {
    assert Caught(TryBlock(Ok)).reset;
  }

  /** The request carries the current password as typed, not trimmed, even
      though validation trimmed it: a current password with a leading space
      passes validation and is sent with the space. */
  lemma PayloadIsUntrimmed(p: string, newPw: string)
    requires p != [] && !IsTrimmable(p[0]) && !IsTrimmable(p[|p| - 1])
    requires Validation.Accepts(p, newPw, [])
    ensures Validation.Accepts([' '] + p, newPw, [])
    ensures OnSubmit([' '] + p, newPw, [], Ok).request == Some(Payload([' '] + p, newPw))
  {
    var cur := [' '] + p;
    assert cur[1..] == p;
    assert TrimStart(cur) == TrimStart(p);
    TrimUnpadded(p);
    assert Trim(cur) == Trim(p);
    Validation.AcceptsIff(p, newPw, []);
    Validation.AcceptsIff(cur, newPw, []);
  }
}
