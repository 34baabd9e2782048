/** The answering side of the pipeline (`app/model.py`): the prompt is assembled from the
    system prompt, the question and the scraped snippets, sent to the generation backend, and
    the reply is parsed into an answer number and a reasoning text. The backend call
    (`requests.post`) is an oracle passed in as a function. */
module Model {
  import opened PyText
  import opened Search

  /** A parsed JSON document, as `response.json()` returns it. */
  datatype Json =
    | JNull
    | JBool(b: bool)
    | JNumber(n: int)
    | JString(s: string)
    | JArray(items: seq<Json>)
    | JObject(fields: map<string, Json>)

  /** What is sent to the backend: the URL, the headers and the `inputs` field of the body. */
  datatype PostRequest = PostRequest(url: string, headers: map<string, string>, inputs: string)

  /** What `requests.post(...)` followed by `raise_for_status()` and `.json()` gives: the parsed
      body, or a `RequestException` (connection failure, error status, or a body that is not
      JSON, since `requests` raises its JSON decoding error as a `RequestException`). */
  datatype PostOutcome = Reply(body: Json) | RequestException

  /** The `api` section of the configuration. */
  datatype ApiConfig = ApiConfig(modelName: string, url: string, key: string, systemPrompt: string)

  /** The `answer` field of the final JSON: an integer, the string `"null"`, or `None`. */
  datatype AnswerField = Number(n: nat) | NullString | NoneValue

  /** The dictionary `form_answer` builds. */
  datatype FinalAnswer = FinalAnswer(answer: AnswerField, reasoning: string, sources: seq<string>)

  const ADDITIONAL_INFORMATION: string := "Дополнительная информация:\n"
  const GENERATED_TEXT: string := "generated_text"
  const ANSWER_LABEL: string := "Правильный ответ:"
  const REASONING_LABEL: string := "Рассуждения:"
  /** The attribution prefix, misspelling included. */
  const ATTRIBUTION_PREFIX: string := "Ответ сгененирован моделью "

  /* ---------- The additional-information block ---------- */

  /** The URL of one snippet. */
  function SnippetUrl(snippet: Snippet): string {
    snippet.url
  }

  /** The URLs `get_additional_sources` collects, one per snippet, in order. */
  function Urls(data: seq<Snippet>): seq<string> {
    Appended(SnippetUrl, data)
  }

  /** Each snippet's text followed by a line break, in order. */
  function Block(data: seq<Snippet>): string {
    if data == [] then [] else data[0].text + "\n" + Block(data[1..])
  }

  lemma {:induction false} BlockSnoc(data: seq<Snippet>, last: Snippet)
    ensures Block(data + [last]) == Block(data) + last.text + "\n"
    decreases |data|
  {
    if data == [] {
      assert data + [last] == [last];
    } else {
      var t := data[1..];
      SnocTail(data, last);
      BlockSnoc(t, last);
      var h := data[0].text + "\n";
      AppendAssoc(h, Block(t) + last.text, "\n");
      AppendAssoc(h, Block(t), last.text);
    }
  }

  /** The text `get_additional_sources` accumulates: the header, then each snippet's text and
      a line break, appended in scrape order. */
  function AdditionalText(data: seq<Snippet>): string {
    if data == [] then ADDITIONAL_INFORMATION
    else AdditionalText(data[..|data| - 1]) + data[|data| - 1].text + "\n"
  }

  /** One more turn of the loop appends the next snippet's line. */
  lemma AdditionalTextNext(data: seq<Snippet>, i: int)
    requires 0 <= i < |data|
    ensures AdditionalText(data[..i + 1]) == AdditionalText(data[..i]) + data[i].text + "\n"
  {
    assert data[..i + 1][..i] == data[..i];
  }

  /** The accumulated text is the header followed by the block of snippet lines. */
  lemma {:induction false} AdditionalTextBlock(data: seq<Snippet>)
    ensures AdditionalText(data) == ADDITIONAL_INFORMATION + Block(data)
    decreases |data|
  {
    if data != [] {
      var init := data[..|data| - 1];
      var last := data[|data| - 1];
      calc {
        AdditionalText(data);
        AdditionalText(init) + last.text + "\n";
        { AdditionalTextBlock(init); }
        ADDITIONAL_INFORMATION + Block(init) + last.text + "\n";
        ADDITIONAL_INFORMATION + (Block(init) + last.text + "\n");
        { BlockSnoc(init, last); assert init + [last] == data; }
        ADDITIONAL_INFORMATION + Block(data);
      }
    }
  }

  /** The texts of the snippets, in order. */
  function Texts(data: seq<Snippet>): seq<string> {
    seq(|data|, k requires 0 <= k < |data| => data[k].text)
  }

  /** Index of the first line break of `s` at or after `from`, or `|s|`. */
  function LineEnd(s: string, from: nat): (n: nat)
    requires from <= |s|
    ensures from <= n <= |s|
    ensures forall i :: from <= i < n ==> s[i] != '\n'
    ensures n == |s| || s[n] == '\n'
    decreases |s| - from
  {
    if from == |s| || s[from] == '\n' then from else LineEnd(s, from + 1)
  }

  /** The lines of `s`, each line break ending the line before it. */
  function Lines(s: string): seq<string>
    decreases |s|
  {
    if s == [] then []
    else
      var n := LineEnd(s, 0);
      if n == |s| then [s] else [s[..n]] + Lines(s[n + 1..])
  }

  /** The block can be read back line by line when no snippet text holds a line break. */
  lemma {:induction false} LinesOfBlock(data: seq<Snippet>)
    requires forall k :: 0 <= k < |data| ==> '\n' !in data[k].text
    ensures Lines(Block(data)) == Texts(data)
    decreases |data|
  {
    if data != [] {
      var t := data[0].text;
      var s := Block(data);
      assert s == t + "\n" + Block(data[1..]);
      assert s[|t|] == '\n';
      assert forall i :: 0 <= i < |t| ==> s[i] == t[i];
      assert LineEnd(s, 0) == |t|;
      assert s[..|t|] == t;
      assert s[|t| + 1..] == Block(data[1..]);
      LinesOfBlock(data[1..]);
    }
  }

  /** The accumulated text reads back as the header line followed by one line per snippet
      text, in scrape order, when no snippet text holds a line break. */
  lemma AdditionalTextLines(data: seq<Snippet>)
    requires forall k :: 0 <= k < |data| ==> '\n' !in data[k].text
    ensures Lines(AdditionalText(data)) == [ADDITIONAL_INFORMATION[..|ADDITIONAL_INFORMATION| - 1]] + Texts(data)
  {
    var h := ADDITIONAL_INFORMATION;
    var s := AdditionalText(data);
    AdditionalTextBlock(data);
    HeaderLine(Block(data));
    LinesOfBlock(data);
  }

  /** The header is one line: the first line break of the text it starts ends it. */
  lemma HeaderLine(rest: string)
    ensures Lines(ADDITIONAL_INFORMATION + rest) == [ADDITIONAL_INFORMATION[..|ADDITIONAL_INFORMATION| - 1]] + Lines(rest)
  {
    var h := ADDITIONAL_INFORMATION;
    var s := h + rest;
    assert forall i :: 0 <= i < |h| ==> s[i] == h[i];
    assert forall i :: 0 <= i < |h| - 1 ==> h[i] != '\n';
    assert s[|h| - 1] == '\n';
    assert LineEnd(s, 0) == |h| - 1;
    assert s[..|h| - 1] == h[..|h| - 1];
    assert s[|h|..] == rest;
  }

  /** Every reply shape the code handles without raising: a non-empty list whose first
      element supports `in` and, when it holds `generated_text`, is a dictionary mapping it
      to a string; or a dictionary mapping `generated_text`, if present, to a string; or any
      other JSON value, which the code turns into "". An empty list (`IndexError`), a first
      element that is a number, a boolean or `null` (`TypeError`), and a string or list first
      element holding `generated_text` (`TypeError` on indexing) all raise outside the
      `try` handler, and a non-string `generated_text` breaks `clean_response`. */
  predicate Handled(body: Json) {
    match body
    case JArray(items) =>
      && items != []
      && (match items[0]
          case JObject(fields) => GENERATED_TEXT in fields ==> fields[GENERATED_TEXT].JString?
          case JString(s) => FindFrom(s, GENERATED_TEXT, 0).None?
          case JArray(xs) => JString(GENERATED_TEXT) !in xs
          case _ => false)
    case JObject(fields) => GENERATED_TEXT in fields ==> fields[GENERATED_TEXT].JString?
    case _ => true
  }

  /** The `generated_text` a handled reply carries where the code looks for it. */
  predicate Carries(body: Json, text: string) {
    || (body.JArray? && body.items != [] && body.items[0].JObject?
        && GENERATED_TEXT in body.items[0].fields
        && body.items[0].fields[GENERATED_TEXT] == JString(text))
    || (body.JObject? && GENERATED_TEXT in body.fields && body.fields[GENERATED_TEXT] == JString(text))
  }

  /** The text `generate_response` takes from a parsed reply. */
  function ResponseText(body: Json): (text: string)
    requires Handled(body)
    ensures Carries(body, text) || (text == [] && forall t :: !Carries(body, t))
  {
    match body
    case JArray(items) =>
      if items[0].JObject? && GENERATED_TEXT in items[0].fields then items[0].fields[GENERATED_TEXT].s else []
    case JObject(fields) =>
      if GENERATED_TEXT in fields then fields[GENERATED_TEXT].s else []
    case _ => []
  }

  /** The text of a backend outcome: non-empty only when a reply carries it, and the text a
      reply carries whenever it carries one; "" when the request failed. */
  function OutcomeText(outcome: PostOutcome): (text: string)
    requires outcome.Reply? ==> Handled(outcome.body)
    ensures text != [] ==> outcome.Reply? && Carries(outcome.body, text)
    ensures forall t :: outcome.Reply? && Carries(outcome.body, t) ==> text == t
  {
    match outcome
    case RequestException => []
    case Reply(body) => ResponseText(body)
  }

  /* ---------- Parsing the generated text ---------- */

  /** `Правильный ответ:\s*(\d+)` matches at `p`: the label, then whitespace, then a digit. */
  predicate AnswerAt(s: string, p: int) {
    && OccursAt(s, ANSWER_LABEL, p)
    && var d := SkipSpaces(s, p + |ANSWER_LABEL|);
       d < |s| && IsDigit(s[d])
  }

  /** The first position at or after `from` where the answer pattern matches. */
  function AnswerFrom(s: string, from: nat): (r: Option<nat>)
    requires from <= |s|
    ensures r.None? ==> forall p :: from <= p ==> !AnswerAt(s, p)
    ensures r.Some? ==> from <= r.value && AnswerAt(s, r.value)
    ensures r.Some? ==> forall p :: from <= p < r.value ==> !AnswerAt(s, p)
    decreases |s| - from
  {
    if from == |s| then None
    else if AnswerAt(s, from) then Some(from)
    else AnswerFrom(s, from + 1)
  }

  /** The digits the pattern captures when it matches at `p`: the maximal run after the
      label and the whitespace. */
  function AnswerDigits(s: string, p: nat): (ds: string)
    requires AnswerAt(s, p)
    ensures ds != [] && AllDigits(ds)
    ensures var d := SkipSpaces(s, p + |ANSWER_LABEL|);
      && d + |ds| <= |s| && s[d..d + |ds|] == ds
      && (d + |ds| == |s| || !IsDigit(s[d + |ds|]))
  {
    var d := SkipSpaces(s, p + |ANSWER_LABEL|);
    DigitRun(s, d)
  }

  /** The maximal run of digits of `s` starting at `d`. */
  function DigitRun(s: string, d: nat): (ds: string)
    requires d <= |s|
    ensures d + |ds| <= |s| && s[d..d + |ds|] == ds && AllDigits(ds)
    ensures d + |ds| == |s| || !IsDigit(s[d + |ds|])
    ensures d < |s| && IsDigit(s[d]) ==> ds != []
  {
    var e := SkipDigits(s, d);
    assert forall i :: 0 <= i < e - d ==> s[d..e][i] == s[d + i];
    s[d..e]
  }

  /** `int(answer_match.group(1))` for the first match of the answer pattern, or `None`. */
  function ExtractAnswer(text: string): (answer: Option<nat>)
    ensures answer.None? <==> forall p :: !AnswerAt(text, p)
    ensures answer.Some? ==> exists p :: FirstAnswer(text, p) && answer.value == DigitsValue(AnswerDigits(text, p))
  {
    match AnswerFrom(text, 0)
    case None => None
    case Some(p) =>
      assert FirstAnswer(text, p);
      Some(DigitsValue(AnswerDigits(text, p)))
  }

  /** `p` is the first match of the answer pattern. */
  predicate FirstAnswer(s: string, p: int) {
    AnswerAt(s, p) && forall q :: 0 <= q < p ==> !AnswerAt(s, q)
  }

  /** `reasoning_match.group(1).strip()` for the first `Рассуждения:` label, or "": the
      group starts after the label and the whitespace that follows it, and runs to the end of
      the text, line breaks included. */
  function ExtractReasoning(text: string): (reasoning: string)
    ensures Stripped(reasoning)
    ensures FindFrom(text, REASONING_LABEL, 0).None? ==> reasoning == []
  {
    match FindFrom(text, REASONING_LABEL, 0)
    case None => []
    case Some(q) => ReasoningGroup(text, q)
  }

  /** `group(1).strip()` for the label found at `q`: the group starts after the whitespace
      that follows the label, and that whitespace would be stripped anyway, so the reasoning
      is the whole rest of the text after the label, stripped. */
  function ReasoningGroup(text: string, q: nat): (reasoning: string)
    requires q + |REASONING_LABEL| <= |text|
    ensures Stripped(reasoning)
    ensures reasoning == Strip(text[q + |REASONING_LABEL|..])
  {
    StripAfterSpaces(text, q + |REASONING_LABEL|);
    Strip(text[SkipSpaces(text, q + |REASONING_LABEL|)..])
  }

  /** With the label first found at `q`, the reasoning is everything after it, stripped. */
  lemma ReasoningAfterLabel(text: string, q: nat)
    requires FindFrom(text, REASONING_LABEL, 0) == Some(q)
    ensures ExtractReasoning(text) == Strip(text[q + |REASONING_LABEL|..])
  {
    ReasoningAt(text, q);
  }

  lemma ReasoningAt(text: string, q: nat)
    requires FindFrom(text, REASONING_LABEL, 0) == Some(q)
    ensures ExtractReasoning(text) == ReasoningGroup(text, q)
  {
  }

  /** Skipping the whitespace at `k` before stripping changes nothing. */
  lemma StripAfterSpaces(s: string, k: nat)
    requires k <= |s|
    ensures Strip(s[SkipSpaces(s, k)..]) == Strip(s[k..])
  {
    var after := s[k..];
    var n := SpaceRun(after);
    SkipSpacesShift(s, k);
    SuffixOfSuffix(s, k, n);
    assert TrimStart(after) == s[k + n..];
    StripTrimStart(after);
  }

  /** Scanning for whitespace from `k` is scanning the suffix from its start. */
  lemma SkipSpacesShift(s: string, k: nat)
    requires k <= |s|
    ensures SkipSpaces(s, k) == k + SpaceRun(s[k..])
  {
    var n := SkipSpaces(s, k);
    var m := SpaceRun(s[k..]);
    assert forall i :: 0 <= i < |s| - k ==> s[k..][i] == s[k + i];
  }

  /** The labels the system prompt asks the model to answer with, as `(answer, reasoning)`. */
  function Formatted(n: nat, body: string): string {
    ANSWER_LABEL + " " + Decimal(n) + "\n" + REASONING_LABEL + " " + body
  }

  /** The answer pattern matches at the very start of a formatted reply and captures the
      decimal digits of the number. */
  lemma FormattedAnswerAt(n: nat, body: string)
    ensures AnswerAt(Formatted(n, body), 0)
    ensures AnswerDigits(Formatted(n, body), 0) == Decimal(n)
  {
    var text := Formatted(n, body);
    var digits := Decimal(n);
    var l := |ANSWER_LABEL|;
    var d := l + 1;
    var e := d + |digits|;
    FormattedAnswerLine(n, body);
    assert SkipSpaces(text, d) == d;
    assert SkipSpaces(text, l) == d;
    SkipDigitsTo(text, d, e);
  }

  /** Where the answer label, the space, the digits and the line break sit in a formatted reply. */
  lemma FormattedAnswerLine(n: nat, body: string)
    ensures var text, l := Formatted(n, body), |ANSWER_LABEL|;
      && l + 1 + |Decimal(n)| < |text|
      && text[..l] == ANSWER_LABEL && text[l] == ' '
      && text[l + 1..l + 1 + |Decimal(n)|] == Decimal(n)
      && text[l + 1 + |Decimal(n)|] == '\n'
  {
    var text := Formatted(n, body);
    var digits := Decimal(n);
    var rest := "\n" + REASONING_LABEL + " " + body;
    var l := |ANSWER_LABEL|;
    assert text == ANSWER_LABEL + " " + digits + rest;
    assert text[..l] == ANSWER_LABEL;
    assert text[l + 1..l + 1 + |digits|] == digits;
  }

  /** Scanning digits from `d` stops at `e` when exactly the characters before `e` are digits. */
  lemma {:induction false} SkipDigitsTo(s: string, d: nat, e: nat)
    requires d <= e <= |s|
    requires forall i :: d <= i < e ==> IsDigit(s[i])
    requires e == |s| || !IsDigit(s[e])
    ensures SkipDigits(s, d) == e
    decreases e - d
  {
    if d < e {
      SkipDigitsTo(s, d + 1, e);
    }
  }

  /** The reasoning label of a formatted reply is first found right after the number's line. */
  lemma FormattedReasoningAt(n: nat, body: string)
    ensures FindFrom(Formatted(n, body), REASONING_LABEL, 0) == Some(|ANSWER_LABEL| + |Decimal(n)| + 2)
    ensures Formatted(n, body)[|ANSWER_LABEL| + |Decimal(n)| + 2 + |REASONING_LABEL|..] == " " + body
  {
    var head := ANSWER_LABEL + " " + Decimal(n) + "\n";
    var c := REASONING_LABEL[0];
    assert c !in ANSWER_LABEL;
    assert !IsDigit(c);
    assert c !in Decimal(n);
    assert Formatted(n, body) == head + REASONING_LABEL + (" " + body);
    FindAfterHead(head, REASONING_LABEL, " " + body);
  }

  /** A formatted reply with a stripped, non-empty body is itself stripped. */
  lemma FormattedStripped(n: nat, body: string)
    requires Stripped(body) && body != []
    ensures Stripped(Formatted(n, body))
  {
    var text := Formatted(n, body);
    assert text == ANSWER_LABEL + (" " + Decimal(n) + "\n" + REASONING_LABEL + " " + body);
    assert text[0] == ANSWER_LABEL[0];
    assert text[|text| - 1] == body[|body| - 1];
  }

  /** Parsing a reply in the requested format gives back the number and the stripped body. */
  lemma ParseFormatted(n: nat, body: string)
    ensures ExtractAnswer(Formatted(n, body)) == Some(n)
    ensures ExtractReasoning(Formatted(n, body)) == Strip(body)
  {
    ParseFormattedAnswer(n, body);
    ParseFormattedReasoning(n, body);
  }

  lemma ParseFormattedAnswer(n: nat, body: string)
    ensures ExtractAnswer(Formatted(n, body)) == Some(n)
  {
    FormattedAnswerAt(n, body);
    assert AnswerFrom(Formatted(n, body), 0) == Some(0);
    DecimalValue(n);
  }

  lemma ParseFormattedReasoning(n: nat, body: string)
    ensures ExtractReasoning(Formatted(n, body)) == Strip(body)
  {
    var text := Formatted(n, body);
    var q := |ANSWER_LABEL| + |Decimal(n)| + 2;
    FormattedReasoningAt(n, body);
    ReasoningAfterSpace(text, q, body);
  }

  /** A label followed by a space and `body` gives the stripped `body`. */
  lemma ReasoningAfterSpace(text: string, q: nat, body: string)
    requires FindFrom(text, REASONING_LABEL, 0) == Some(q)
    requires text[q + |REASONING_LABEL|..] == " " + body
    ensures ExtractReasoning(text) == Strip(body)
  {
    ReasoningAfterLabel(text, q);
    StripLeadingSpace(body);
  }

  /** A leading space does not change `strip()`. */
  lemma StripLeadingSpace(body: string)
    ensures Strip(" " + body) == Strip(body)
  {
    var after := " " + body;
    SkipSpacesShift(after, 1);
    assert after[1..] == body;
    assert TrimStart(after) == TrimStart(body);
    StripTrimStart(after);
    StripTrimStart(body);
  }

  /* ---------- Building the final answer ---------- */

  /** The answer number a final `answer` field stands for: `"null"` reads as 0. */
  function AnswerNumber(field: AnswerField): Option<nat> {
    match field
    case Number(n) => Some(n)
    case NullString => Some(0)
    case NoneValue => None
  }

  /** A freshly parsed answer put into the `answer` field before the 0 check. */
  function AsField(answerNum: Option<nat>): AnswerField {
    match answerNum
    case None => NoneValue
    case Some(n) => Number(n)
  }

  /** The configuration of the chat model, its search engine, and the answering pipeline. */
  class ChatModel {
    const name: string
    const apiUrl: string
    const headers: map<string, string>
    const systemPrompt: string
    const searchEngine: SearchEngine

    constructor (api: ApiConfig, search: SearchConfig)
      ensures name == api.modelName && apiUrl == api.url && systemPrompt == api.systemPrompt
      ensures headers == map["Authorization" := "Bearer " + api.key]
      ensures searchEngine.numCites == search.numCites && searchEngine.numParagraphs == search.numParagraphs
    {
      name := api.modelName;
      apiUrl := api.url;
      headers := map["Authorization" := "Bearer " + api.key];
      systemPrompt := api.systemPrompt;
      searchEngine := new SearchEngine(search);
    }

    /** The snippets the search engine returns for `query`. */
    function SearchData(query: string, ddg: (string, int) -> SearchOutcome, fetch: string -> FetchOutcome): seq<Snippet> {
      searchEngine.Scraped(searchEngine.SearchDuckDuckGo(query, ddg), fetch)
    }

    /** `get_additional_sources`: the header line followed by one line per snippet, and the
        snippets' URLs, both in scrape order. */
    method GetAdditionalSources(query: string, ddg: (string, int) -> SearchOutcome, fetch: string -> FetchOutcome)
      returns (additionalText: string, urls: seq<string>)
      ensures additionalText == AdditionalText(SearchData(query, ddg, fetch))
      ensures urls == Urls(SearchData(query, ddg, fetch))
    {
      var extractedData := searchEngine.SearchAndScrape(query, ddg, fetch);
      urls := [];
      additionalText := ADDITIONAL_INFORMATION;
      for i := 0 to |extractedData|
        invariant urls == Urls(extractedData[..i])
        invariant additionalText == AdditionalText(extractedData[..i])
      {
        AppendedNext(SnippetUrl, extractedData, i);
        AdditionalTextNext(extractedData, i);
        urls := urls + [extractedData[i].url];
        additionalText := additionalText + extractedData[i].text + "\n";
      }
      TakeAll(extractedData);
    }

    /** The `inputs` of the request: system prompt, question and additional text, one per line. */
    function Payload(query: string, additionalText: string): (inputs: string)
      ensures |inputs| == |systemPrompt| + |query| + |additionalText| + 2
      ensures inputs[..|systemPrompt|] == systemPrompt && inputs[|systemPrompt|] == '\n'
      ensures inputs[|systemPrompt| + 1..|systemPrompt| + 1 + |query|] == query
      ensures inputs[|systemPrompt| + 1 + |query|] == '\n'
      ensures inputs[|systemPrompt| + |query| + 2..] == additionalText
    {
      systemPrompt + "\n" + query + "\n" + additionalText
    }

    /** The request `generate_response` sends for `query`. */
    function Request(query: string, ddg: (string, int) -> SearchOutcome, fetch: string -> FetchOutcome): PostRequest {
      var data := SearchData(query, ddg, fetch);
      PostRequest(apiUrl, headers, Payload(query, AdditionalText(data)))
    }

    /** `generate_response`: the text of the backend's reply to the assembled prompt, or ""
        for an unexpected shape or a failed request; the URLs are returned in every case. */
    method GenerateResponse(query: string, ddg: (string, int) -> SearchOutcome, fetch: string -> FetchOutcome,
                            post: PostRequest -> PostOutcome)
      returns (response: string, urls: seq<string>)
      requires post(Request(query, ddg, fetch)).Reply? ==> Handled(post(Request(query, ddg, fetch)).body)
      ensures response == OutcomeText(post(Request(query, ddg, fetch)))
      ensures urls == Urls(SearchData(query, ddg, fetch))
    {
      var additionalText;
      additionalText, urls := GetAdditionalSources(query, ddg, fetch);
      var payload := Payload(query, additionalText);
      var outcome := post(PostRequest(apiUrl, headers, payload));
      match outcome {
        case RequestException =>
          response := [];
        case Reply(responseJson) =>
          if responseJson.JArray? && (
               match responseJson.items[0]
               case JObject(fields) => GENERATED_TEXT in fields
               case _ => false) {
            response := responseJson.items[0].fields[GENERATED_TEXT].s;
          } else if responseJson.JObject? && GENERATED_TEXT in responseJson.fields {
            response := responseJson.fields[GENERATED_TEXT].s;
          } else {
            response := [];
          }
      }
    }

    /** `clean_response`: every occurrence of the system prompt is deleted, then the text is
        stripped. */
    function CleanResponse(response: string): (generatedText: string)
      ensures Stripped(generatedText)
      ensures |generatedText| <= |response|
    {
      var removed := RemoveAll(response, systemPrompt);
      var r := Strip(removed);
      assert |r| <= |removed|;
      r
    }

    /** The first occurrence of the prompt is cut out, the rest of the reply is cleaned the
        same way, and the result is shorter than the reply by at least the prompt's length. */
    lemma CleanResponseRemovesPrompt(response: string, i: nat)
      requires systemPrompt != [] && FindFrom(response, systemPrompt, 0) == Some(i)
      ensures CleanResponse(response)
        == Strip(response[..i] + RemoveAll(response[i + |systemPrompt|..], systemPrompt))
      ensures |CleanResponse(response)| <= |response| - |systemPrompt|
    {
      RemoveAllAtFirst(response, systemPrompt, i);
      RemoveAllShortens(response, systemPrompt);
    }

    /** A reply that does not contain the system prompt is only stripped. */
    lemma CleanResponseNoPrompt(response: string)
      requires !Occurs(response, systemPrompt)
      ensures CleanResponse(response) == Strip(response)
    {
      RemoveAllAbsent(response, systemPrompt);
    }

    /** Deleting the occurrences of the prompt can join its pieces into a new occurrence, so
        the cleaned reply may still hold the prompt. */
    lemma CleanResponseCanLeavePrompt()
      requires systemPrompt == "xy"
      ensures CleanResponse("xxyy") == "xy"
      ensures Occurs(CleanResponse("xxyy"), systemPrompt)
    {
      RemoveAllCanLeaveOccurrence();
      StripStripped("xy");
    }

    /** `reasoning_header`: the attribution line, from which the model name can be read back. */
    function ReasoningHeader(): (header: string)
      ensures |header| == |ATTRIBUTION_PREFIX| + |name| + 2
      ensures header[..|ATTRIBUTION_PREFIX|] == ATTRIBUTION_PREFIX
      ensures header[|ATTRIBUTION_PREFIX|..|header| - 2] == name
      ensures header[|header| - 2..] == ". "
    {
      ATTRIBUTION_PREFIX + name + ". "
    }

    /** `form_answer`: the answer, reasoning and sources as a dictionary, the answer 0 then
        overwritten with the string `"null"`. */
    method FormAnswer(answerNum: Option<nat>, reasoning: string, urls: seq<string>)
      returns (jsonAnswer: FinalAnswer)
      ensures AnswerNumber(jsonAnswer.answer) == answerNum
      ensures jsonAnswer.answer.NullString? <==> answerNum == Some(0)
      ensures jsonAnswer.reasoning == reasoning && jsonAnswer.sources == urls
    {
      jsonAnswer := FinalAnswer(AsField(answerNum), reasoning, urls);
      if answerNum == Some(0) {
        jsonAnswer := jsonAnswer.(answer := NullString);
      }
    }

    /** The cleaned text of the backend's reply to `query`. */
    function GeneratedText(query: string, ddg: (string, int) -> SearchOutcome, fetch: string -> FetchOutcome,
                           post: PostRequest -> PostOutcome): string
      requires post(Request(query, ddg, fetch)).Reply? ==> Handled(post(Request(query, ddg, fetch)).body)
    {
      CleanResponse(OutcomeText(post(Request(query, ddg, fetch))))
    }

    /** `get_answer`: the full pipeline. The answer is the first number after the answer label
        of the cleaned reply ("null" for 0, `None` when there is none), the reasoning is the
        attribution header followed by the text after the reasoning label, and the sources are
        the URLs of the scraped results. */
    method GetAnswer(query: string, ddg: (string, int) -> SearchOutcome, fetch: string -> FetchOutcome,
                     post: PostRequest -> PostOutcome)
      returns (jsonAnswer: FinalAnswer)
      requires post(Request(query, ddg, fetch)).Reply? ==> Handled(post(Request(query, ddg, fetch)).body)
      ensures AnswerNumber(jsonAnswer.answer) == ExtractAnswer(GeneratedText(query, ddg, fetch, post))
      ensures jsonAnswer.answer.NullString? <==> ExtractAnswer(GeneratedText(query, ddg, fetch, post)) == Some(0)
      ensures jsonAnswer.reasoning == ReasoningHeader() + ExtractReasoning(GeneratedText(query, ddg, fetch, post))
      ensures jsonAnswer.sources == Urls(SearchData(query, ddg, fetch))
    {
      var response, urls := GenerateResponse(query, ddg, fetch, post);
      var generatedText := CleanResponse(response);
      var answerNum := ExtractAnswer(generatedText);
      var reasoning := ExtractReasoning(generatedText);
      reasoning := ReasoningHeader() + reasoning;
      jsonAnswer := FormAnswer(answerNum, reasoning, urls);
    }

    /** A reply in the requested format that does not mention the system prompt yields its
        number and its stripped reasoning. */
    lemma AnswerOfFormattedReply(n: nat, body: string)
      requires Stripped(body) && body != []
      requires !Occurs(Formatted(n, body), systemPrompt)
      ensures ExtractAnswer(CleanResponse(Formatted(n, body))) == Some(n)
      ensures ExtractReasoning(CleanResponse(Formatted(n, body))) == body
    {
      var text := Formatted(n, body);
      CleanResponseNoPrompt(text);
      FormattedStripped(n, body);
      StripStripped(text);
      ParseFormatted(n, body);
      StripStripped(body);
    }
  }

  /** Every snippet text of the search data is a single line, so the additional information
      sent to the backend reads back as its header and the snippet texts. */
  lemma SearchDataLines(model: ChatModel, query: string, ddg: (string, int) -> SearchOutcome,
                        fetch: string -> FetchOutcome)
    ensures var data := model.SearchData(query, ddg, fetch);
      Lines(AdditionalText(data)) == [ADDITIONAL_INFORMATION[..|ADDITIONAL_INFORMATION| - 1]] + Texts(data)
  {
    var engine := model.searchEngine;
    var results := engine.SearchDuckDuckGo(query, ddg);
    var data := model.SearchData(query, ddg, fetch);
    ScrapedEntries(engine, results, fetch);
    forall k | 0 <= k < |data|
      ensures '\n' !in data[k].text
    {
      CleanTextSingleLine(engine.ExtractTextFromUrl(results[k].href, fetch));
    }
    AdditionalTextLines(data);
  }

  lemma TakeAll<T>(s: seq<T>)
    ensures s[..|s|] == s
  {
  }

  /** The URLs come one per snippet, each that snippet's own. */
  lemma UrlsOfData(data: seq<Snippet>)
    ensures |Urls(data)| == |data|
    ensures forall k :: 0 <= k < |data| ==> Urls(data)[k] == data[k].url
  {
    AppendedEntries(SnippetUrl, data);
  }


}
