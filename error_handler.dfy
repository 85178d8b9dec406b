/**
 * The error classification of composables/useErrorHandler.ts: the message shown for an
 * error and the kind of error it is. The error may be any JavaScript value; reading a
 * property of a value that is not an object gives `undefined`, as `?.` does on `null`
 * and `undefined`.
 */
module ErrorHandler {
  import opened Wrappers
  import opened Strings
  import opened Js

  /** `v.k` and `v?.k`: an object's own property, `undefined` on any other value. */
  function Get(v: JsValue, k: string): JsValue
  {
    if v.Object? then Lookup(v.fields, k) else Undefined
  }

  const UnexpectedText := "An unexpected error occurred"
  const NetworkText := "Network error - please check your connection and try again"
  const TimeoutText := "Request timed out - please try again"
  const FallbackText := "An unexpected error occurred. Please try again."
  const TypeErrorText := "TypeError: error.message.includes is not a function"
  /** What a template literal throws on a symbol. */
  const SymbolToStringText := "TypeError: Cannot convert a Symbol value to a string"
  /** What `>=` throws on a symbol. */
  const SymbolToNumberText := "TypeError: Cannot convert a Symbol value to a number"

  /** The `switch` on the status code: a fixed text for seven codes. */
  function StatusTableText(code: int): Option<string>
  {
    if code == 400 then Some("Invalid request - please check your input")
    else if code == 401 then Some("Unauthorized - please log in")
    else if code == 403 then Some("Forbidden - you don't have permission")
    else if code == 404 then Some("Resource not found")
    else if code == 409 then Some("Conflict - this resource already exists")
    else if code == 500 then Some("Server error - please try again later")
    else if code == 503 then Some("Service unavailable - please try again later")
    else None
  }

  /** `String(v)` for a number or a string; any other value goes through `toText`, the
      host's own conversion. */
  function TextOf(v: JsValue, toText: JsValue -> string): string
  {
    match v
    case Num(n) => IntText(n)
    case Str(s) => s
    case _ => toText(v)
  }

  /** The text for a truthy status code: `case` compares with `===`, so only a number
      can hit the table; anything else gets `Error <code> - please try again`, whose
      template literal throws on a symbol. */
  function StatusText(code: JsValue, toText: JsValue -> string): (r: Result<string, string>)
    ensures r.Failure? <==> code.Symbol?
    ensures r.Failure? ==> r.error == SymbolToStringText
    ensures r.Success? ==> r.value != ""
  {
    if code.Symbol? then Failure(SymbolToStringText)
    else if code.Num? && StatusTableText(code.n).Some? then Success(StatusTableText(code.n).value)
    else Success("Error " + TextOf(code, toText) + " - please try again")
  }

  /** `message.includes(needle)`: a substring test on a string, an element test on an
      array; no other value has `includes`, and calling it throws. */
  function MessageIncludes(message: JsValue, needle: string): Option<bool>
  {
    match message
    case Str(s) => Some(Includes(s, needle))
    case Array(items) => Some(Str(needle) in items)
    case _ => None
  }

  /** Neither a message nor a status code on the error's `data`. */
  predicate NoDataMessage(error: JsValue)
  {
    !Truthy(Get(Get(error, "data"), "statusMessage")) && !Truthy(Get(Get(error, "data"), "message"))
  }

  /** `getErrorMessage`. The message it shows is never empty. It throws only when the
      top-level message is consulted and is neither a string nor an array, or when,
      without any message, the status code is a symbol. */
  function GetErrorMessage(error: JsValue, toText: JsValue -> string): (r: Result<JsValue, string>)
    ensures r.Success? ==> Truthy(r.value)
    ensures r.Failure? <==>
      Truthy(error) && NoDataMessage(error)
      && (if Truthy(Get(error, "message")) then !Get(error, "message").Str? && !Get(error, "message").Array?
          else Get(error, "statusCode").Symbol?)
    ensures r.Failure? ==> r.error == (if Truthy(Get(error, "message")) then TypeErrorText else SymbolToStringText)
  {
    if !Truthy(error) then Success(Str(UnexpectedText))
    else
      var data := Get(error, "data");
      var statusMessage := Get(data, "statusMessage");
      var dataMessage := Get(data, "message");
      var message := Get(error, "message");
      var statusCode := Get(error, "statusCode");
      if Truthy(statusMessage) then Success(statusMessage)
      else if Truthy(dataMessage) then Success(dataMessage)
      else if Truthy(message) then
        match MessageIncludes(message, "fetch")
        case None => Failure(TypeErrorText)
        case Some(hasFetch) =>
          if hasFetch then Success(Str(NetworkText))
          else if MessageIncludes(message, "timeout") == Some(true) then Success(Str(TimeoutText))
          else Success(message)
      else if Truthy(statusCode) then
        match StatusText(statusCode, toText)
        case Success(t) => Success(Str(t))
        case Failure(e) => Failure(e)
      else Success(Str(FallbackText))
  }

  /** A falsy error (`null`, `undefined`, `0`, `''`, …) gets the generic text and the
      `unknown` type. */
  lemma FalsyError(error: JsValue, toText: JsValue -> string)
    requires !Truthy(error)
    ensures GetErrorMessage(error, toText) == Success(Str("An unexpected error occurred"))
    ensures GetErrorType(error, toText) == Success(Unknown)
  {
  }

  /** `data.statusMessage` comes first: two errors carrying the same truthy one get the
      same message, whatever else they hold. */
  lemma StatusMessageFirst(e1: JsValue, e2: JsValue, toText: JsValue -> string)
    requires Truthy(e1) && Truthy(e2)
    requires Get(Get(e1, "data"), "statusMessage") == Get(Get(e2, "data"), "statusMessage")
    requires Truthy(Get(Get(e1, "data"), "statusMessage"))
    ensures GetErrorMessage(e1, toText) == GetErrorMessage(e2, toText) == Success(Get(Get(e1, "data"), "statusMessage"))
  {
  }

  /** Then `data.message`: without a `statusMessage`, two errors carrying the same truthy
      `data.message` get the same message, whatever else they hold. */
  lemma DataMessageSecond(e1: JsValue, e2: JsValue, toText: JsValue -> string)
    requires Truthy(e1) && Truthy(e2)
    requires !Truthy(Get(Get(e1, "data"), "statusMessage")) && !Truthy(Get(Get(e2, "data"), "statusMessage"))
    requires Get(Get(e1, "data"), "message") == Get(Get(e2, "data"), "message")
    requires Truthy(Get(Get(e1, "data"), "message"))
    ensures GetErrorMessage(e1, toText) == GetErrorMessage(e2, toText) == Success(Get(Get(e1, "data"), "message"))
  {
  }

  /** A top-level message mentioning `fetch` reads as a network error, even when it also
      mentions `timeout`; one mentioning `timeout` only reads as a timeout; any other is
      shown as it is. The test is case-sensitive. */
  lemma TopLevelMessage(error: JsValue, s: string, toText: JsValue -> string)
    requires Truthy(error) && NoDataMessage(error) && Get(error, "message") == Str(s) && s != ""
    ensures Contains(s, "fetch") ==> GetErrorMessage(error, toText) == Success(Str(NetworkText))
    ensures !Contains(s, "fetch") && Contains(s, "timeout") ==> GetErrorMessage(error, toText) == Success(Str(TimeoutText))
    ensures !Contains(s, "fetch") && !Contains(s, "timeout") ==> GetErrorMessage(error, toText) == Success(Str(s))
  {
  }

  /** Without any message, a truthy status code picks the text; a symbol throws. */
  lemma StatusCodeMessage(error: JsValue, toText: JsValue -> string)
    requires Truthy(error) && NoDataMessage(error) && !Truthy(Get(error, "message"))
    ensures Truthy(Get(error, "statusCode")) && !Get(error, "statusCode").Symbol? ==>
      GetErrorMessage(error, toText) == Success(Str(StatusText(Get(error, "statusCode"), toText).value))
    ensures Get(error, "statusCode").Symbol? ==> GetErrorMessage(error, toText) == Failure(SymbolToStringText)
    ensures !Truthy(Get(error, "statusCode")) ==>
      GetErrorMessage(error, toText) == Success(Str("An unexpected error occurred. Please try again."))
  {
  }

  /** Any other number gets the generic text with its decimal form. */
  lemma StatusTextOtherNumber(n: int, toText: JsValue -> string)
    requires n != 400 && n != 401 && n != 403 && n != 404 && n != 409 && n != 500 && n != 503
    ensures StatusText(Num(n), toText) == Success("Error " + IntText(n) + " - please try again")
  {
  }

  /** The `switch` compares with `===`: a status code that is the string `404` misses
      the table. */
  lemma StatusTextOfString(toText: JsValue -> string)
    ensures StatusText(Str("404"), toText) == Success("Error 404 - please try again")
  {
    assert TextOf(Str("404"), toText) == "404";
    assert "Error " + "404" + " - please try again" == "Error 404 - please try again";
  }

  /** The text names the code: two different numeric status codes never share a text. */
  lemma StatusTextIdentifiesCode(m: int, n: int, toText: JsValue -> string)
    requires m != n
    ensures StatusText(Num(m), toText) != StatusText(Num(n), toText)
  {
    if StatusTableText(m).Some? && StatusTableText(n).Some? {
      TableTextsDistinct(m, n);
    } else if StatusTableText(m).Some? {
      TableTextNotGeneric(m, n);
    } else if StatusTableText(n).Some? {
      TableTextNotGeneric(n, m);
    } else {
      GenericTextInjective(m, n);
    }
  }

  lemma TableTextsDistinct(m: int, n: int)
    requires m != n && StatusTableText(m).Some? && StatusTableText(n).Some?
    ensures StatusTableText(m).value != StatusTableText(n).value
  {
  }

  lemma TableTextNotGeneric(m: int, n: int)
    requires StatusTableText(m).Some?
    ensures StatusTableText(m).value != "Error " + IntText(n) + " - please try again"
  {
    var t := StatusTableText(m).value;
    var g := "Error " + IntText(n) + " - please try again";
    assert g[0] == 'E';
    if m == 400 || m == 404 {
      assert t[0] == 'I' || t[0] == 'R';
    } else if m == 401 || m == 403 || m == 409 {
      assert t[0] == 'U' || t[0] == 'F' || t[0] == 'C';
    } else if m == 500 {
      assert t[0] == 'S';
    } else {
      assert t == "Service unavailable - please try again later";
    }
  }

  lemma GenericTextInjective(m: int, n: int)
    requires m != n
    ensures "Error " + IntText(m) + " - please try again" != "Error " + IntText(n) + " - please try again"
  {
    var tail := " - please try again";
    var a, b := "Error " + IntText(m) + tail, "Error " + IntText(n) + tail;
    if a == b {
      assert a[6..|a| - |tail|] == IntText(m);
      assert b[6..|b| - |tail|] == IntText(n);
      IntTextInjective(m, n);
    }
  }

  /** Different integers have different decimal texts. */
  lemma IntTextInjective(m: int, n: int)
    requires IntText(m) == IntText(n)
    ensures m == n
  {
    IntTextSign(m);
    IntTextSign(n);
    if m < 0 {
      assert IntText(m)[1..] == NatText(-m) && IntText(n)[1..] == NatText(-n);
      NatTextRoundTrip(-m);
      NatTextRoundTrip(-n);
    } else {
      NatTextRoundTrip(m);
      NatTextRoundTrip(n);
    }
  }

  /** Only a negative integer's text starts with a minus sign. */
  lemma IntTextSign(n: int)
    ensures IntText(n) != [] && (IntText(n)[0] == '-' <==> n < 0)
  {
    if n >= 0 {
      assert IsDigit(NatText(n)[0]);
    }
  }

  datatype ErrorType = Network | Server | Validation | NotFound | Unknown

  /** `String(error.message || '').toLowerCase()`. */
  function LoweredMessage(error: JsValue, toText: JsValue -> string): string
  {
    var m := Get(error, "message");
    ToLower(if Truthy(m) then TextOf(m, toText) else "")
  }

  /** `error.statusCode || error.data?.statusCode`. */
  function StatusCodeOf(error: JsValue): JsValue
  {
    var c := Get(error, "statusCode");
    if Truthy(c) then c else Get(Get(error, "data"), "statusCode")
  }

  predicate AllDigits(t: string)
  {
    forall i | 0 <= i < |t| :: IsDigit(t[i])
  }

  /** The number `v >= 500` compares, when it is one: numbers, big integers, booleans,
      `null`, and strings of decimal digits with an optional sign (blank strings read
      as 0). */
  function NumericValue(v: JsValue): Option<int>
  {
    match v
    case Num(n) => Some(n)
    case BigInt(n) => Some(n)
    case Bool(b) => Some(if b then 1 else 0)
    case Null => Some(0)
    case Str(s) =>
      var t := Trim(s);
      if t == "" then Some(0)
      else if t[0] == '+' || t[0] == '-' then
        if |t| >= 2 && AllDigits(t[1..]) then
          var magnitude: int := DigitsValue(t[1..]);
          Some(if t[0] == '-' then -magnitude else magnitude)
        else None
      else if AllDigits(t) then Some(DigitsValue(t))
      else None
    case _ => None
  }

  /** A signed digit string compares by its value: `"+503" >= 500` holds. */
  lemma SignedCodeCompares()
    ensures NumericValue(Str("+503")) == Some(503)
  {
    assert !IsWhitespace('+') && !IsWhitespace('3');
    assert TrimEnd("+503") == "+503";
    assert Trim("+503") == "+503";
    assert "+503"[1..] == "503";
    assert DigitsValue("503") == 503 by {
      assert "503"[..2] == "50" && "50"[..1] == "5" && "5"[..0] == "";
    }
  }

  /** The three message tests of `getErrorType`. */
  predicate MentionsNetwork(message: string)
  {
    Includes(message, "fetch") || Includes(message, "network") || Includes(message, "failed to fetch")
  }

  /** `getErrorType`. It throws only when a symbol status code reaches `>= 500`. */
  function GetErrorType(error: JsValue, toText: JsValue -> string): (r: Result<ErrorType, string>)
    ensures r.Failure? <==> Truthy(error) && !MentionsNetwork(LoweredMessage(error, toText)) && StatusCodeOf(error).Symbol?
    ensures r.Failure? ==> r.error == SymbolToNumberText
  {
    if !Truthy(error) then Success(Unknown)
    else
      var message := LoweredMessage(error, toText);
      var statusCode := StatusCodeOf(error);
      if MentionsNetwork(message) then Success(Network)
      else if StrictEquals(statusCode, Num(404)) then Success(NotFound)
      else if StrictEquals(statusCode, Num(400)) || StrictEquals(statusCode, Num(422)) then Success(Validation)
      else if statusCode.Symbol? then Failure(SymbolToNumberText)
      else if NumericValue(statusCode).Some? && NumericValue(statusCode).value >= 500 then Success(Server)
      else Success(Unknown)
  }

  /** The type is `network` exactly when the lower-cased message mentions `fetch` or
      `network`, whatever the status code; the third test, `failed to fetch`, adds nothing. */
  lemma NetworkIff(error: JsValue, toText: JsValue -> string)
    ensures GetErrorType(error, toText) == Success(Network) <==>
      Truthy(error) && (Contains(LoweredMessage(error, toText), "fetch") || Contains(LoweredMessage(error, toText), "network"))
  {
    FailedToFetchMentionsFetch(LoweredMessage(error, toText));
  }

  lemma FailedToFetchMentionsFetch(message: string)
    ensures Contains(message, "failed to fetch") ==> Contains(message, "fetch")
  {
    if Contains(message, "failed to fetch") {
      var i :| OccursAt(message, "failed to fetch", i);
      assert message[i + 10..i + 15] == "failed to fetch"[10..15] == "fetch";
      assert OccursAt(message, "fetch", i + 10);
    }
  }

  /** Otherwise the status code decides: 404 is `not-found`, 400 and 422 are
      `validation`, 500 and above `server`, and anything else `unknown`. */
  lemma StatusCodeType(error: JsValue, toText: JsValue -> string)
    requires Truthy(error) && GetErrorType(error, toText) != Success(Network)
    ensures StatusCodeOf(error) == Num(404) ==> GetErrorType(error, toText) == Success(NotFound)
    ensures StatusCodeOf(error) == Num(400) || StatusCodeOf(error) == Num(422) ==> GetErrorType(error, toText) == Success(Validation)
    ensures forall n | n >= 500 :: StatusCodeOf(error) == Num(n) ==> GetErrorType(error, toText) == Success(Server)
    ensures forall n | n < 500 && n != 400 && n != 404 && n != 422 :: StatusCodeOf(error) == Num(n) ==> GetErrorType(error, toText) == Success(Unknown)
    ensures StatusCodeOf(error).Symbol? ==> GetErrorType(error, toText) == Failure(SymbolToNumberText)
  {
  }

  /** `{statusCode: Symbol()}`: no message, so both the text and the type reach the symbol,
      and both throw. */
  lemma SymbolStatusCodeThrows(toText: JsValue -> string)
    ensures var error := Object(0, [Field("statusCode", Symbol)], None);
      GetErrorMessage(error, toText) == Failure(SymbolToStringText)
      && GetErrorType(error, toText) == Failure(SymbolToNumberText)
  {
    var error := Object(0, [Field("statusCode", Symbol)], None);
    assert Get(error, "message") == Undefined;
    assert LoweredMessage(error, toText) == "";
    assert !MentionsNetwork("");
  }

  /** The error's own `statusCode` wins when truthy; a `0` or missing one falls back to
      `data.statusCode`. */
  lemma StatusCodeSource(error: JsValue)
    ensures Truthy(Get(error, "statusCode")) ==> StatusCodeOf(error) == Get(error, "statusCode")
    ensures !Truthy(Get(error, "statusCode")) ==> StatusCodeOf(error) == Get(Get(error, "data"), "statusCode")
  {
  }

  /** Lower-casing keeps every occurrence of a lower-case needle. */
  lemma {:induction false} LowerKeepsNeedle(s: string, needle: string)
    requires forall k | 0 <= k < |needle| :: !('A' <= needle[k] <= 'Z')
    requires Contains(s, needle)
    ensures Contains(ToLower(s), needle)
  {
    var i :| OccursAt(s, needle, i);
    var t := ToLower(s);
    forall k | 0 <= k < |needle| ensures t[i..i + |needle|][k] == needle[k] {
      assert s[i..i + |needle|][k] == s[i + k];
    }
    assert t[i..i + |needle|] == needle;
    assert OccursAt(t, needle, i);
  }

  /** The two classifications agree on `fetch`: a message that the text calls a network
      error is typed `network` too. */
  lemma FetchMessageIsNetwork(error: JsValue, s: string, toText: JsValue -> string)
    requires Truthy(error) && NoDataMessage(error) && Get(error, "message") == Str(s) && Contains(s, "fetch")
    ensures GetErrorMessage(error, toText) == Success(Str(NetworkText))
    ensures GetErrorType(error, toText) == Success(Network)
  {
    LowerKeepsNeedle(s, "fetch");
    NetworkIff(error, toText);
  }

  /** The converse fails: the type test ignores case and also looks for `network`,
      while the text test looks for `fetch` only, so a message such as
      `Network` is typed `network` but shown as it is. */
  lemma NetworkTypeShownVerbatim(error: JsValue, s: string, toText: JsValue -> string)
    requires Truthy(error) && NoDataMessage(error) && Get(error, "message") == Str(s) && s != ""
    requires Contains(ToLower(s), "network") && !Contains(s, "fetch") && !Contains(s, "timeout")
    ensures GetErrorType(error, toText) == Success(Network)
    ensures GetErrorMessage(error, toText) == Success(Str(s))
  {
    NetworkIff(error, toText);
  }

  /** `Network` is such a message: lower-cased it is `network`; it has no `f`, so no
      `fetch`, and no `i`, so no `timeout`. */
  lemma NetworkWordLowered()
    ensures Contains(ToLower("Network"), "network")
  {
    assert ToLower("Network") == "network";
    assert OccursAt(ToLower("Network"), "network", 0);
  }

  lemma NetworkWordHasNoFetch()
    ensures !Contains("Network", "fetch")
  {
    MissingCharMissingNeedle("Network", "fetch", 0);
  }

  lemma NetworkWordHasNoTimeout()
    ensures !Contains("Network", "timeout")
  {
    MissingCharMissingNeedle("Network", "timeout", 1);
  }

  /** A string lacking one of the needle's characters does not contain the needle. */
  lemma MissingCharMissingNeedle(s: string, needle: string, k: int)
    requires 0 <= k < |needle| && forall i | 0 <= i < |s| :: s[i] != needle[k]
    ensures !Contains(s, needle)
  {
    forall i | 0 <= i && i + |needle| <= |s| ensures !OccursAt(s, needle, i) {
      assert s[i..i + |needle|][k] == s[i + k];
    }
  }
}
