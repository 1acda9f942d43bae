/**
 * The part of `generatePalette` that runs after the generative API answers:
 * trim the response text, reject an empty one, parse it as JSON, require an
 * array whose every element has truthy `hex`, `name` and `description`, and
 * replace every failure by one fixed message. The API call and `JSON.parse`
 * are parameters: the model sees only what they return.
 */
module PaletteService {
  import opened Wrappers
  import opened JsString

  /** A value `JSON.parse` can produce; an object is its own properties, duplicates already resolved. */
  datatype Json =
    | JNull
    | JBool(b: bool)
    | JNumber(n: real)
    | JString(s: string)
    | JArray(elems: seq<Json>)
    | JObject(fields: map<string, Json>)

  /** JavaScript truthiness: null, false, 0 and "" are falsy; every array and object is truthy. */
  predicate Truthy(v: Json) {
    match v
    case JNull => false
    case JBool(b) => b
    case JNumber(n) => n != 0.0
    case JString(s) => s != []
    case JArray(_) => true
    case JObject(_) => true
  }

  /** Truthiness of `v[key]` for a value that is not null: an own property of
      an object, or `undefined`. None of the prototypes a parsed JSON value
      can have (Object, Array, String, Number, Boolean) has a property named
      `hex`, `name` or `description`. */
  predicate TruthyProperty(v: Json, key: string)
    requires !v.JNull?
  {
    v.JObject? && key in v.fields && Truthy(v.fields[key])
  }

  /** What the validation accepts as one color entry. */
  predicate IsColorEntry(c: Json) {
    && c.JObject?
    && (forall key | key in ["hex", "name", "description"] :: key in c.fields && Truthy(c.fields[key]))
  }

  /** Why the validation threw, before the error is replaced by FailureMessage. */
  datatype ValidationError =
    | TextUndefined    // `response.text` was undefined, so `.trim()` threw
    | EmptyResponse    // "Received an empty response from the API."
    | InvalidJson      // `JSON.parse` threw
    | PropertyOfNull   // the check read a property of a null element
    | UnexpectedFormat // "API returned data in an unexpected format."

  /** The `.some` callback `c => !c.hex || !c.name || !c.description`. */
  function IsMalformed(c: Json): (r: Result<bool, ValidationError>)
    ensures r.Failure? <==> c.JNull?
    ensures r == Success(false) <==> IsColorEntry(c)
  {
    if c.JNull? then Failure(PropertyOfNull)
    else Success(!TruthyProperty(c, "hex") || !TruthyProperty(c, "name") || !TruthyProperty(c, "description"))
  }

  /** `Array.prototype.some`: the callback runs on each element in order, the
      first `true` stops the scan, and a throw propagates. */
  function ArraySome<T, E>(xs: seq<T>, callback: T -> Result<bool, E>): (r: Result<bool, E>)
    ensures r == Success(false) <==> forall i :: 0 <= i < |xs| ==> callback(xs[i]) == Success(false)
    ensures r.Success? && r.value ==> exists i :: 0 <= i < |xs| && callback(xs[i]) == Success(true)
    ensures r.Failure? ==> exists i :: 0 <= i < |xs| && callback(xs[i]) == Failure(r.error)
  {
    if xs == [] then Success(false)
    else
      match callback(xs[0])
      case Failure(e) => Failure(e)
      case Success(true) => Success(true)
      case Success(false) =>
        var rest := ArraySome(xs[1..], callback);
        assert forall i :: 1 <= i < |xs| ==> xs[i] == xs[1..][i - 1];
        rest
  }

  /** What a response must be for the validation to accept it. */
  predicate Acceptable(responseText: Option<string>, parse: string -> Option<Json>) {
    && responseText.Some?
    && Trim(responseText.value) != []
    && parse(Trim(responseText.value)).Some?
    && parse(Trim(responseText.value)).value.JArray?
    && (forall i :: 0 <= i < |parse(Trim(responseText.value)).value.elems| ==>
          IsColorEntry(parse(Trim(responseText.value)).value.elems[i]))
  }

  /** The checks inside the `try` block that follow the API call. */
  function ValidateResponse(responseText: Option<string>, parse: string -> Option<Json>): (r: Result<seq<Json>, ValidationError>)
    ensures r.Success? <==> Acceptable(responseText, parse)
    ensures r.Success? ==> parse(Trim(responseText.value)) == Some(JArray(r.value))
  {
    match responseText
    case None => Failure(TextUndefined)
    case Some(text) =>
      var jsonText := Trim(text);
      if jsonText == [] then Failure(EmptyResponse)
      else
        match parse(jsonText)
        case None => Failure(InvalidJson)
        case Some(palette) =>
          if !palette.JArray? then Failure(UnexpectedFormat)
          else
            match ArraySome(palette.elems, IsMalformed)
            case Failure(e) => Failure(e)
            case Success(true) => Failure(UnexpectedFormat)
            case Success(false) => Success(palette.elems)
  }

  const FailureMessage: string :=
    "Failed to generate color palette. The model may be unable to process this request. Please try a different theme."

  const PromptPrefix: string := "Create a color palette with 5-6 colors for the theme: "
  const PromptSuffix: string :=
    ". For each color, provide a name and a short description of its mood or use case. The hex code must be a valid 6-digit hex string starting with #."

  /** The prompt sent to the model: the theme verbatim, between double quotes. */
  function Prompt(theme: string): (p: string)
    ensures |p| == |PromptPrefix| + |theme| + 2 + |PromptSuffix|
    ensures p[..|PromptPrefix|] == PromptPrefix
    ensures p[|PromptPrefix|..|PromptPrefix| + |theme| + 2] == "\"" + theme + "\""
    ensures p[|PromptPrefix| + |theme| + 2..] == PromptSuffix
  {
    var p := PromptPrefix + "\"" + theme + "\"" + PromptSuffix;
    assert p[..|PromptPrefix|] == PromptPrefix;
    assert p[|PromptPrefix|..|PromptPrefix| + |theme| + 2] == "\"" + theme + "\"";
    assert p[|PromptPrefix| + |theme| + 2..] == PromptSuffix;
    p
  }

  /** Recovers the theme from a prompt, when the text has the prompt's shape. */
  function ThemeOf(prompt: string): (t: Option<string>)
    ensures t.Some? ==> Prompt(t.value) == prompt
  {
    var head, tail := PromptPrefix + "\"", "\"" + PromptSuffix;
    if |prompt| >= |head| + |tail| && prompt[..|head|] == head && prompt[|prompt| - |tail|..] == tail
    then
      var theme := prompt[|head|..|prompt| - |tail|];
      assert prompt == prompt[..|head|] + theme + prompt[|prompt| - |tail|..];
      Some(theme)
    else None
  }

  lemma PromptRoundTrip(theme: string)
    ensures ThemeOf(Prompt(theme)) == Some(theme)
  {
    var head, tail := PromptPrefix + "\"", "\"" + PromptSuffix;
    var p := Prompt(theme);
    assert p == head + theme + tail;
    assert p[..|head|] == head;
    assert p[|p| - |tail|..] == tail;
    assert p[|head|..|p| - |tail|] == theme;
  }

  /** Different themes give different prompts. */
  lemma PromptInjective(a: string, b: string)
    requires Prompt(a) == Prompt(b)
    ensures a == b
  {
    PromptRoundTrip(a);
    PromptRoundTrip(b);
  }

  /** What the generative API did with the request: answered with a `text`
      field (undefined is `None`), or rejected. */
  datatype ApiOutcome = Responded(text: Option<string>) | Rejected

  /** `generatePalette(theme)`: resolves with the parsed array, or rejects
      with an `Error` whose message is FailureMessage. */
  function GeneratePalette(theme: string, generateContent: string -> ApiOutcome, parse: string -> Option<Json>)
    : (r: Result<seq<Json>, string>)
    ensures r.Failure? ==> r.error == FailureMessage
    ensures r.Success? <==>
      generateContent(Prompt(theme)).Responded? && Acceptable(generateContent(Prompt(theme)).text, parse)
    ensures r.Success? ==>
      parse(Trim(generateContent(Prompt(theme)).text.value)) == Some(JArray(r.value))
      && forall i :: 0 <= i < |r.value| ==> IsColorEntry(r.value[i])
  {
    match generateContent(Prompt(theme))
    case Rejected => Failure(FailureMessage)
    case Responded(text) =>
      match ValidateResponse(text, parse)
      case Success(palette) => Success(palette)
      case Failure(_) => Failure(FailureMessage)
  }

  /** An empty or all-whitespace response never yields a palette. */
  lemma BlankResponseFails(theme: string, generateContent: string -> ApiOutcome, parse: string -> Option<Json>, text: string)
    requires generateContent(Prompt(theme)) == Responded(Some(text))
    requires AllWhitespace(text)
    ensures GeneratePalette(theme, generateContent, parse) == Failure(FailureMessage)
  {
    TrimEmptyIffAllWhitespace(text);
  }

  /** Parsed JSON that is not an array is refused. */
  lemma NonArrayFails(theme: string, generateContent: string -> ApiOutcome, parse: string -> Option<Json>, text: string)
    requires generateContent(Prompt(theme)) == Responded(Some(text))
    requires parse(Trim(text)).Some? && !parse(Trim(text)).value.JArray?
    ensures GeneratePalette(theme, generateContent, parse) == Failure(FailureMessage)
  {
  }

  /** One element with a missing or falsy `hex`, `name` or `description`, or a
      null element, makes the whole response fail. */
  lemma BadElementFails(theme: string, generateContent: string -> ApiOutcome, parse: string -> Option<Json>,
                        text: string, elems: seq<Json>, i: nat)
    requires generateContent(Prompt(theme)) == Responded(Some(text))
    requires parse(Trim(text)) == Some(JArray(elems))
    requires i < |elems|
    requires elems[i].JNull? || (elems[i].JObject? &&
      exists key | key in ["hex", "name", "description"] :: key !in elems[i].fields || !Truthy(elems[i].fields[key]))
    ensures GeneratePalette(theme, generateContent, parse) == Failure(FailureMessage)
  {
    assert !IsColorEntry(elems[i]);
  }

  /** Neither the number of colors nor the hex format is checked: `[]` is a palette. */
  lemma EmptyArrayAccepted(theme: string, generateContent: string -> ApiOutcome, parse: string -> Option<Json>, text: string)
    requires generateContent(Prompt(theme)) == Responded(Some(text))
    requires Trim(text) != [] && parse(Trim(text)) == Some(JArray([]))
    ensures GeneratePalette(theme, generateContent, parse) == Success([])
  {
  }
}
