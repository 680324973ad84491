/**
 * The analysis form of frontend/src/app/page.tsx: its pure rules (form
 * validation, the submit gate, the request body, the error message and the
 * score rendering) as functions, and its React state as the class `Home`,
 * one method per event handler.
 */
module Page {
  import opened Wrappers
  import Text
  import Api

  /** The `inputType` toggle: `'url'` or `'text'`. */
  datatype InputType = UrlInput | TextInput

  /** The response shape the page renders; `scores` lists `Object.entries(results.scores)` in order. */
  datatype AnalyzeResponse = AnalyzeResponse(
    whatItIs: string, whoItIsFor: string, valueProp: string, scores: seq<(string, int)>)

  const GENERIC_ERROR: string := "An error occurred"
  const SCORE_MAX: int := 5

  /** The field the active mode reads. */
  function ActiveField(mode: InputType, url: string, rawText: string): string
  {
    if mode == UrlInput then url else rawText
  }

  /** `isFormValid`: the active field is non-empty once trimmed. */
  function FormValid(mode: InputType, url: string, rawText: string): (valid: bool)
    ensures valid <==> !Text.AllIn(ActiveField(mode, url, rawText), Text.JsWhitespace)
  {
    if mode == UrlInput then |Text.Trim(url, Text.JsWhitespace)| > 0
    else |Text.Trim(rawText, Text.JsWhitespace)| > 0
  }

  /** The form is valid exactly when the active field holds a character that `trim()` keeps. */
  lemma FormValidIff(mode: InputType, url: string, rawText: string)
    ensures FormValid(mode, url, rawText) <==>
      exists i :: 0 <= i < |ActiveField(mode, url, rawText)| && !Text.IsSpace(Text.JsWhitespace, ActiveField(mode, url, rawText)[i])
  {
    var field := ActiveField(mode, url, rawText);
    assert FormValid(mode, url, rawText) == (Text.Trim(field, Text.JsWhitespace) != []);
  }

  /** The inactive field has no say in validity. */
  lemma FormValidIgnoresInactive(url: string, rawText: string, other1: string, other2: string)
    ensures FormValid(UrlInput, url, other1) == FormValid(UrlInput, url, other2)
    ensures FormValid(TextInput, other1, rawText) == FormValid(TextInput, other2, rawText)
  {
  }

  /** `disabled={!isFormValid || loading}` on the submit button. */
  function SubmitDisabled(mode: InputType, url: string, rawText: string, loading: bool): (d: bool)
    ensures !d <==> FormValid(mode, url, rawText) && !loading
    ensures loading ==> d
  {
    !FormValid(mode, url, rawText) || loading
  }

  /** The key the request body carries for a mode. */
  function RequestKey(mode: InputType): string
  {
    if mode == UrlInput then "url" else "raw_text"
  }

  /** The object passed to `analyzeContent`: `{ url: url.trim() }` or `{ raw_text: rawText.trim() }`. */
  function RequestData(mode: InputType, url: string, rawText: string): (data: map<string, string>)
    ensures |data| == 1
    ensures mode == UrlInput ==> data.Keys == {"url"} && data["url"] == Text.Trim(url, Text.JsWhitespace)
    ensures mode == TextInput ==> data.Keys == {"raw_text"} && data["raw_text"] == Text.Trim(rawText, Text.JsWhitespace)
  {
    map[RequestKey(mode) := Text.Trim(ActiveField(mode, url, rawText), Text.JsWhitespace)]
  }

  /**
   * The request's one value is the active field trimmed: it is empty exactly when the
   * form is invalid, and it is its own trim.
   */
  lemma {:induction false} RequestDataValue(mode: InputType, url: string, rawText: string)
    ensures var data := RequestData(mode, url, rawText);
      && RequestKey(mode) in data
      && (data[RequestKey(mode)] != [] <==> FormValid(mode, url, rawText))
      && Text.Trim(data[RequestKey(mode)], Text.JsWhitespace) == data[RequestKey(mode)]
  {
    var field := ActiveField(mode, url, rawText);
    var trimmed := Text.Trim(field, Text.JsWhitespace);
    assert RequestData(mode, url, rawText) == map[RequestKey(mode) := trimmed];
    Text.TrimIdempotent(field, Text.JsWhitespace);
  }

  /** The inactive field does not reach the request. */
  lemma RequestDataIgnoresInactive(url: string, rawText: string, other: string)
    ensures RequestData(UrlInput, url, rawText) == RequestData(UrlInput, url, other)
    ensures RequestData(TextInput, url, rawText) == RequestData(TextInput, other, rawText)
  {
    var u, t := Text.Trim(url, Text.JsWhitespace), Text.Trim(rawText, Text.JsWhitespace);
    assert RequestData(UrlInput, url, rawText) == map["url" := u] == RequestData(UrlInput, url, other);
    assert RequestData(TextInput, url, rawText) == map["raw_text" := t] == RequestData(TextInput, other, rawText);
  }

  /** `err instanceof Error ? err.message : 'An error occurred'`. */
  function ErrorMessage(t: Api.Thrown): (m: string)
    ensures t.ErrorObject? ==> m == t.message
    ensures t.NonErrorValue? ==> m == GENERIC_ERROR
  {
    match t
    case ErrorObject(message) => message
    case NonErrorValue => GENERIC_ERROR
  }

  /** `{error && ...}`: the error panel appears for a non-empty message only. */
  predicate ErrorPanelShown(error: Option<string>)
  {
    error.Some? && error.value != []
  }

  /** After a rejection the error panel appears, unless what was thrown is an `Error` whose message is empty. */
  lemma ErrorPanelOnRejection(reason: Api.Thrown)
    ensures ErrorPanelShown(Some(ErrorMessage(reason))) <==> !(reason.ErrorObject? && reason.message == [])
  {
  }

  /** `key.replace('_', ' ')`: with a string pattern, `replace` rewrites the first occurrence only. */
  function ScoreLabel(key: string): (caption: string)
    ensures |caption| == |key|
  {
    if key == [] then []
    else if key[0] == '_' then [' '] + key[1..]
    else [key[0]] + ScoreLabel(key[1..])
  }

  /** A key without `_` is its own caption. */
  lemma {:induction false} ScoreLabelNoUnderscore(key: string)
    requires '_' !in key
    ensures ScoreLabel(key) == key
  {
    if key != [] {
      assert key == [key[0]] + key[1..];
      ScoreLabelNoUnderscore(key[1..]);
    }
  }

  /** The first `_` of a key becomes a space; everything before and after it is kept, later `_` included. */
  lemma {:induction false} ScoreLabelFirstUnderscore(before: string, after: string)
    requires '_' !in before
    ensures ScoreLabel(before + "_" + after) == before + " " + after
  {
    var key := before + "_" + after;
    if before == [] {
      assert key == "_" + after;
      assert key[1..] == after;
    } else {
      assert key[0] == before[0];
      assert key[1..] == before[1..] + "_" + after;
      ScoreLabelFirstUnderscore(before[1..], after);
      assert before + " " + after == [before[0]] + (before[1..] + " " + after);
    }
  }

  /** The score key `cta_strength` is shown as `cta strength`; the other three keys as they are. */
  lemma ScoreLabelKeys()
    ensures ScoreLabel("cta_strength") == "cta strength"
    ensures ScoreLabel("clarity") == "clarity"
    ensures ScoreLabel("focus") == "focus"
    ensures ScoreLabel("differentiation") == "differentiation"
  {
    assert '_' !in "cta";
    ScoreLabelFirstUnderscore("cta", "strength");
    assert "cta" + "_" + "strength" == "cta_strength";
    assert "cta" + " " + "strength" == "cta strength";
    var clarity, focus, differentiation := "clarity", "focus", "differentiation";
    assert '_' !in clarity && '_' !in focus && '_' !in differentiation;
    ScoreLabelNoUnderscore(clarity);
    ScoreLabelNoUnderscore(focus);
    ScoreLabelNoUnderscore(differentiation);
  }

  /** Only the first underscore becomes a space. */
  lemma ScoreLabelFirstOnly()
    ensures ScoreLabel("a_b_c") == "a b_c"
  {
    ScoreLabelFirstUnderscore("a", "b_c");
    assert "a" + "_" + "b_c" == "a_b_c";
    assert "a" + " " + "b_c" == "a b_c";
  }

  /** The bar width `(value / 5) * 100` percent, in exact arithmetic. */
  function BarWidth(value: int): (w: real)
    ensures w == (20 * value) as real
    ensures 0 <= value <= SCORE_MAX ==> 0.0 <= w <= 100.0
    ensures value > SCORE_MAX ==> w > 100.0
  {
    (value as real / 5.0) * 100.0
  }

  /** The score text `{value}/5`. */
  function ScoreText(value: int): (t: string)
    ensures |t| >= 3 && t[|t| - 2..] == "/5"
  {
    Text.IntToString(value) + "/5"
  }

  /** The score text ends in `/5` and its prefix reads back as the score. */
  lemma {:induction false} ScoreTextValue(value: int)
    ensures var t := ScoreText(value);
      && |t| >= 3 && t[|t| - 2..] == "/5"
      && var n := t[..|t| - 2];
      && (n[0] == '-' ==> Text.IsDigits(n[1..])) && (n[0] != '-' ==> Text.IsDigits(n))
      && Text.IntValue(n) == value
  {
    Text.IntToStringValue(value);
    var t := ScoreText(value);
    assert t[..|t| - 2] == Text.IntToString(value);
  }

  /** One rendered row of the score list. */
  datatype ScoreRow = ScoreRow(caption: string, width: real, text: string)

  /** The rows `Object.entries(results.scores).map(...)` renders, in entry order. */
  function ScoreRows(scores: seq<(string, int)>): (rows: seq<ScoreRow>)
    ensures |rows| == |scores|
  {
    seq(|scores|, i requires 0 <= i < |scores| =>
      ScoreRow(ScoreLabel(scores[i].0), BarWidth(scores[i].1), ScoreText(scores[i].1)))
  }

  /** A one-digit score reads as that digit over 5. */
  lemma ScoreTextDigit(value: nat)
    requires value < 10
    ensures ScoreText(value) == [Text.DigitChar(value)] + "/5"
  {
  }

  /** Rows are rendered entry by entry, in entry order. */
  lemma ScoreRowsConcat(a: seq<(string, int)>, b: seq<(string, int)>)
    ensures ScoreRows(a + b) == ScoreRows(a) + ScoreRows(b)
  {
  }

  /** The row of a score in 0..5: a bar of 20 percent per point and the digit over 5. */
  lemma ScoreRowOfScore(key: string, value: nat)
    requires value <= SCORE_MAX
    ensures ScoreRows([(key, value)]) ==
      [ScoreRow(ScoreLabel(key), (20 * value) as real, [Text.DigitChar(value)] + "/5")]
  {
    ScoreTextDigit(value);
  }

  /**
   * Scores of 4, 5, 3 and 2 draw bars of 80%, 100%, 60% and 40% with the texts
   * `4/5`, `5/5`, `3/5` and `2/5`, each captioned with its key's label.
   */
  lemma ScoreRowsExample(clarity: string, focus: string, differentiation: string, ctaStrength: string)
    ensures ScoreRows([(clarity, 4), (focus, 5), (differentiation, 3), (ctaStrength, 2)]) ==
      [ ScoreRow(ScoreLabel(clarity), 80.0, "4/5"), ScoreRow(ScoreLabel(focus), 100.0, "5/5"),
        ScoreRow(ScoreLabel(differentiation), 60.0, "3/5"), ScoreRow(ScoreLabel(ctaStrength), 40.0, "2/5") ]
  {
    var a, b, c, d := [(clarity, 4)], [(focus, 5)], [(differentiation, 3)], [(ctaStrength, 2)];
    ScoreRowOfScore(clarity, 4);
    ScoreRowOfScore(focus, 5);
    ScoreRowOfScore(differentiation, 3);
    ScoreRowOfScore(ctaStrength, 2);
    assert [(clarity, 4), (focus, 5), (differentiation, 3), (ctaStrength, 2)] == a + b + c + d;
    ScoreRowsConcat(a, b);
    ScoreRowsConcat(a + b, c);
    ScoreRowsConcat(a + b + c, d);
    assert Text.DigitChar(4) == '4' && Text.DigitChar(5) == '5';
    assert Text.DigitChar(3) == '3' && Text.DigitChar(2) == '2';
    assert ['4'] + "/5" == "4/5" && ['5'] + "/5" == "5/5";
    assert ['3'] + "/5" == "3/5" && ['2'] + "/5" == "2/5";
  }

  /** The page's state: one field per `useState` hook. */
  class Home {
    var inputType: InputType
    var url: string
    var rawText: string
    var loading: bool
    var results: Option<AnalyzeResponse>
    var error: Option<string>

    /** A result and an error are never both held, and neither is while a submission is pending. */
    ghost predicate Valid()
      reads this
    {
      && (results.None? || error.None?)
      && (loading ==> results.None? && error.None?)
    }

    /** The initial state: URL mode, empty fields, nothing pending, shown or failed. */
    constructor ()
      ensures Valid()
      ensures inputType == UrlInput && url == [] && rawText == []
      ensures !loading && results.None? && error.None?
    {
      inputType := UrlInput;
      url, rawText := [], [];
      loading := false;
      results, error := None, None;
    }

    function IsSubmitDisabled(): bool
      reads this
    {
      SubmitDisabled(inputType, url, rawText, loading)
    }

    /** The "URL" toggle button. */
    method SelectUrl()
      requires Valid()
      modifies this`inputType
      ensures Valid() && inputType == UrlInput
      ensures url == old(url) && rawText == old(rawText)
      ensures loading == old(loading) && results == old(results) && error == old(error)
    {
      inputType := UrlInput;
    }

    /** The "Raw Text" toggle button. */
    method SelectText()
      requires Valid()
      modifies this`inputType
      ensures Valid() && inputType == TextInput
      ensures url == old(url) && rawText == old(rawText)
      ensures loading == old(loading) && results == old(results) && error == old(error)
    {
      inputType := TextInput;
    }

    /** `onChange` of the URL input, which is rendered in URL mode only. */
    method EditUrl(value: string)
      requires Valid() && inputType == UrlInput
      modifies this`url
      ensures Valid() && url == value
      ensures inputType == old(inputType) && rawText == old(rawText)
      ensures loading == old(loading) && results == old(results) && error == old(error)
    {
      url := value;
    }

    /** `onChange` of the raw-text area, which is rendered in text mode only. */
    method EditRawText(value: string)
      requires Valid() && inputType == TextInput
      modifies this`rawText
      ensures Valid() && rawText == value
      ensures inputType == old(inputType) && url == old(url)
      ensures loading == old(loading) && results == old(results) && error == old(error)
    {
      rawText := value;
    }

    /**
     * The start of `handleSubmit`: mark the submission pending, clear the previous
     * error and result, and build the request body from the active mode.
     */
    method BeginSubmit() returns (data: map<string, string>)
      requires Valid()
      modifies this`loading, this`error, this`results
      ensures Valid() && loading && error.None? && results.None?
      ensures inputType == old(inputType) && url == old(url) && rawText == old(rawText)
      ensures data == RequestData(inputType, url, rawText)
    {
      loading := true;
      error := None;
      results := None;
      data := RequestData(inputType, url, rawText);
    }

    /** The pending submission resolved with `response`: `setResults`, then `setLoading(false)`. */
    method Succeed(response: AnalyzeResponse)
      requires Valid() && loading
      modifies this`results, this`loading
      ensures Valid() && !loading && results == Some(response) && error.None?
      ensures inputType == old(inputType) && url == old(url) && rawText == old(rawText)
    {
      results := Some(response);
      loading := false;
    }

    /** The pending submission rejected with `reason`: `setError(...)`, then `setLoading(false)`. */
    method Fail(reason: Api.Thrown)
      requires Valid() && loading
      modifies this`error, this`loading
      ensures Valid() && !loading && error == Some(ErrorMessage(reason)) && results.None?
      ensures inputType == old(inputType) && url == old(url) && rawText == old(rawText)
    {
      error := Some(ErrorMessage(reason));
      loading := false;
    }

    /** The `try`/`catch`/`finally` around the awaited call. */
    method Settle(outcome: Api.Outcome<AnalyzeResponse>)
      requires Valid() && loading
      modifies this`results, this`error, this`loading
      ensures Valid() && !loading
      ensures outcome.Resolved? ==> results == Some(outcome.value) && error.None?
      ensures outcome.Rejected? ==> error == Some(ErrorMessage(outcome.reason)) && results.None?
      ensures inputType == old(inputType) && url == old(url) && rawText == old(rawText)
    {
      match outcome
      case Resolved(response) => Succeed(response);
      case Rejected(reason) => Fail(reason);
    }

    /**
     * `handleSubmit` as a whole, with the network exchange given: the request sent
     * is the active field's body POSTed to `/analyze`, and the page ends up holding
     * either the response or the message of what went wrong.
     */
    method HandleSubmit(env: Option<string>, exchange: Api.Exchange<AnalyzeResponse>) returns (request: Api.HttpRequest)
      requires Valid()
      modifies this`loading, this`error, this`results
      ensures Valid() && !loading
      ensures inputType == old(inputType) && url == old(url) && rawText == old(rawText)
      ensures request == Api.AnalyzeRequest(env, RequestData(inputType, url, rawText))
      ensures Api.AnalyzeContent(exchange).Resolved? <==> results.Some?
      ensures results.Some? ==> results.value == exchange.response.body.value && error.None?
      ensures exchange.Delivered? && !exchange.response.ok ==>
        && error == Some(Api.FAILURE_PREFIX + exchange.response.statusText)
        && ErrorPanelShown(error) && results.None?
      ensures exchange.TransportFailed? ==> error == Some(ErrorMessage(exchange.reason)) && results.None?
      ensures Api.AnalyzeContent(exchange).Rejected? ==>
        error == Some(ErrorMessage(Api.AnalyzeContent(exchange).reason)) && results.None?
      ensures results.Some? != error.Some?
    {
      var data := BeginSubmit();
      request := Api.AnalyzeRequest(env, data);
      Api.ResolvedIff(exchange);
      Settle(Api.AnalyzeContent(exchange));
    }

    /**
     * A press of the submit button. Nothing happens while it is disabled. The
     * URL input has `type="url"` and the form does not set `noValidate`, so in
     * URL mode the browser fires `submit` only when it accepts the value as a
     * URL; `urlAccepted` is that verdict. Otherwise the submission starts and
     * the request body is sent.
     */
    method Click(urlAccepted: bool) returns (sent: Option<map<string, string>>)
      requires Valid()
      modifies this`loading, this`error, this`results
      ensures Valid()
      ensures inputType == old(inputType) && url == old(url) && rawText == old(rawText)
      ensures old(IsSubmitDisabled()) || (inputType == UrlInput && !urlAccepted) ==> sent.None? && unchanged(this)
      ensures !old(IsSubmitDisabled()) && (inputType == TextInput || urlAccepted) ==>
        && sent == Some(RequestData(inputType, url, rawText))
        && loading && error.None? && results.None?
    {
      if IsSubmitDisabled() || (inputType == UrlInput && !urlAccepted) {
        sent := None;
      } else {
        var data := BeginSubmit();
        sent := Some(data);
      }
    }
  }

  /** While a submission is pending, a second press sends nothing and changes nothing. */
  method SecondClickIgnored(h: Home, accepted1: bool, accepted2: bool)
    returns (first: Option<map<string, string>>, second: Option<map<string, string>>)
    requires h.Valid()
    modifies h
    ensures first.Some? ==> second.None? && h.loading
    ensures first.Some? ==> FormValid(h.inputType, h.url, h.rawText)
  {
    first := h.Click(accepted1);
    second := h.Click(accepted2);
  }

  /** Typing a URL, switching to text mode and back, gets the URL back untouched. */
  method SwitchBackRestores(h: Home, u: string, t: string)
    requires h.Valid()
    modifies h
    ensures h.inputType == UrlInput && h.url == u && h.rawText == t
    ensures h.results == old(h.results) && h.error == old(h.error) && h.loading == old(h.loading)
  {
    h.SelectUrl();
    h.EditUrl(u);
    h.SelectText();
    h.EditRawText(t);
    h.SelectUrl();
  }
}
