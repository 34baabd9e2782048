# Retrieval-augmented question answering: the answering pipeline

This project models the core of a small question-answering service written in Python. The
service answers a multiple-choice question in four steps:

1. It searches DuckDuckGo for the question.
2. It scrapes and cleans the text of the result pages.
3. It sends the system prompt, the question and that "additional information" to a text
   generation backend.
4. It parses the number of the right answer and the reasoning out of the generated text, and
   assembles the final JSON answer.

The model has three modules:

- `PyText` (`py_text.dfy`) holds the Python string built-ins the core relies on. Most carry a
  contract or lemmas of their own; `Join`, `DigitsValue` and `Without` are plain definitions
  that the lemmas about them use. The built-ins are:
  - `str.isspace` and the `\s` class;
  - `str.strip`, and `str.replace(pat, "")`;
  - slicing with `[:n]`, including a negative `n`;
  - `str.join`, `int()` and `str()` of a natural number;
  - a left-to-right first-occurrence search.
- `Search` (`search.dfy`) models `SearchEngine` as a class:
  - the configuration values `num_cites` and `num_paragraphs` are its constants;
  - `clean_text` is a chain of pure functions;
  - `search_and_scrape` is a method whose loop appends one snippet per search result. It is
    proved against a specification function.
- `Model` (`model.dfy`) models `ChatModel` as a class:
  - the model name, API URL, headers, system prompt and search engine are constants set by
    the constructor;
  - `get_additional_sources` is a loop that accumulates the text and the URL list;
  - `form_answer` builds the answer record and, for answer 0, rebinds its local variable to a
    copy whose `answer` is "null" (the dictionary assignment of the code; the record is a
    value here);
  - the reply-shape handling of `generate_response` is a match over a JSON datatype;
  - the two regular expressions of `extract_answer_and_reasoning` are explicit scanners.

The DuckDuckGo client, `requests.get` and `requests.post` are not modelled. They are function
parameters (oracles) that return either a value or a failure tag:
- `ddg(query, max_results)` returns a result list or a `DuckDuckGoSearchException`;
- `fetch(url)` returns the page's paragraph texts or a `RequestException`;
- `post(request)` returns the parsed JSON reply or a `RequestException`.

The reply labels and the sentinels are the exact Cyrillic strings of the code. That includes
the misspelt attribution prefix "Ответ сгененирован моделью ".

Four behaviours of the code that a reader might not expect are kept as written:
- a missing answer stays `None`, and only 0 becomes the string "null";
- `clean_text` is not idempotent;
- a scraped snippet can still be empty after cleaning, even though the sentinel rules out an
  empty extraction;
- `clean_response` can leave an occurrence of the system prompt in its result.

The first is proved for every input by the contract of `Model.ChatModel.FormAnswer`; each
of the other three is proved on a concrete input (rows below).

## Model

| member | source | states |
|---|---|---|
| PyText.Strip | app/search.py:47 | `str.strip()`: the result has no leading or trailing whitespace, and it is the input with its leading whitespace run removed and only whitespace removed after it |
| PyText.StripUnique | app/model.py:63 | any stripped text obtained by cutting whitespace off both ends is exactly what `strip()` returns |
| PyText.StripKeepsText | app/search.py:47 | stripping removes whitespace only: the non-whitespace characters stay, in order |
| PyText.RemoveAllAbsent | app/model.py:63 | `replace(pat, "")` leaves text without an occurrence of `pat` unchanged |
| PyText.RemoveAllAtFirst | app/model.py:63 | `replace(pat, "")` keeps the text before the first occurrence, deletes that occurrence and continues after it |
| PyText.RemoveAll | app/model.py:63 | `replace(pat, "")` never lengthens the text, and an empty pattern changes nothing; RemoveAllAbsent and RemoveAllAtFirst fix the rest |
| PyText.RemoveAllShortens | app/model.py:63 | text holding a non-empty pattern loses at least the pattern's length |
| PyText.RemoveAllCanLeaveOccurrence | app/model.py:63 | one left-to-right deletion pass can create a new occurrence: deleting "xy" from "xxyy" leaves "xy" |
| PyText.FindFrom | app/model.py:74 | the search finds the first occurrence of the pattern at or after the start, or reports that there is none |
| PyText.PyPrefix | app/search.py:21 | Python `s[:n]`: a prefix of `s`; for `n >= 0` of length at most `n`, and all of `s` when it is shorter; for `n < 0`, `s` without its last `-n` items |
| PyText.DecimalValue | app/model.py:76 | `int(str(n)) == n` for every natural number |
| PyText.JoinEmpty | app/search.py:36-37 | a join with a non-empty separator is "" only when nothing is joined, or only one empty part is |
| Search.CollapseShape | app/search.py:45 | after `re.sub(r'\s+', ' ', ...)` every whitespace character is a plain space, no two are adjacent, and the text is no longer than before |
| Search.CollapseClean | app/search.py:45 | text whose whitespace already consists of single plain spaces is unchanged by collapsing |
| Search.CollapseKeepsText | app/search.py:45 | collapsing rewrites whitespace only: the other characters stay, in order |
| Search.MarkerLength | app/search.py:46 | the length of the `\[\d+\]` match at the start: 0 exactly when no `[`, digits, `]` prefix exists, and otherwise the length of the only such prefix |
| Search.CollapseAppend | app/search.py:45 | text ending in a non-space collapses independently of what follows it |
| Search.CollapseSpaceRun | app/search.py:45 | a whitespace run followed by a non-space (or the end) becomes exactly one space |
| Search.CollapseRun | app/search.py:45 | any non-empty whitespace run, line breaks and tabs included, collapses to " " |
| Search.RemoveMarkersAfter | app/search.py:46 | text in front of a suffix, at none of whose positions a marker starts (a stray `[` included), is kept as it is, and the suffix is processed on its own |
| Search.RemoveMarkersDeletes | app/search.py:46 | a `[digits]` marker after text in which no marker starts is deleted, and the rest is processed on its own |
| Search.RemoveMarkersHead | app/search.py:46 | a character at which no marker starts, `[` included, is kept and removal goes on after it |
| Search.MarkerDeleted | app/search.py:46 | a `[digits]` marker at the start is deleted and removal goes on after it |
| Search.BracketFreeNoMarker | app/search.py:46 | no marker starts inside text without `[`, whatever follows it |
| Search.StrayBracketKept | app/search.py:46 | a `[` that opens no marker stays and a later marker is still deleted: "[a[1]" becomes "[a" |
| Search.RemoveMarkersShape | app/search.py:46 | deleting markers never lengthens the text or introduces a character |
| Search.RemoveMarkersNoBracket | app/search.py:46 | text without `[` has no marker to delete |
| Search.RemoveMarkersKeepsText | app/search.py:46 | marker deletion removes only brackets and digits: every other character stays, in order |
| Search.CleanText | app/search.py:41-47 | `clean_text`: the result has no leading or trailing whitespace, every whitespace character in it is a plain space, and it is never longer than the input |
| Search.CleanTextOfClean | app/search.py:41-47 | text that is stripped, has single plain spaces and no `[` is returned unchanged |
| Search.CleanTextUnchanged | app/search.py:41-47 | input with no whitespace and no `[` is returned unchanged |
| Search.CleanTextKeepsText | app/search.py:41-47 | cleaning deletes or rewrites only whitespace, brackets and digits: every other character stays, in order |
| Search.CleanTextNotIdempotent | app/search.py:45-46 | "x [1] y" cleans to "x  y", and a second cleaning turns that into "x y" |
| Search.CollapseJoin | app/search.py:45 | two words around any non-empty whitespace run collapse to the words joined by one space |
| Search.CleanTextJoinsWords | app/search.py:41-47 | for any words `a`, `b` (no whitespace, no `[`) and any non-empty whitespace run `w`, `a + w + b` cleans to `a + " " + b` |
| Search.CleanTextDeletesMarker | app/search.py:41-47 | for any such words and any non-empty digit string `ds`, `a + "[" + ds + "]" + b` cleans to `a + b` |
| Search.CleanTextDropsMarker | app/search.py:46 | "a[12]b" cleans to "ab" |
| Search.AppendedEntries | app/search.py:56-60 | an append loop yields one entry per element, and the `k`-th entry is made from the `k`-th element |
| Search.SearchEngine.constructor | app/search.py:10-12 | the engine keeps `num_cites` and `num_paragraphs` from its configuration |
| Search.SearchEngine.SearchDuckDuckGo | app/search.py:14-24 | a prefix of the client's list of exactly `min(len(hits), num_cites)` results (for a negative `num_cites`, all but the last `-num_cites`); a search exception gives no results |
| Search.SearchEngine.ExtractTextFromUrl | app/search.py:27-39 | never "": a failed request gives "Ошибка загрузки страницы"; a page gives the joined text of its first `num_paragraphs` stripped paragraphs, or "Нет дополнительной информации" when that is empty |
| Search.ExtractTextSentinel | app/search.py:36-37 | the "no information" sentinel replaces the page text when no paragraph is taken or the single one taken is blank, and in every other case the page text is the joined paragraphs |
| Search.SearchEngine.SearchAndScrape | app/search.py:49-62 | the loop's result is the specification list: one snippet per search result, in order, including results whose fetch failed |
| Search.ScrapedEntries | app/search.py:53-62 | entry `k` holds the `k`-th result's `href` and the cleaned text extracted from it |
| Search.ScrapedTextCanBeEmpty | app/search.py:36-59 | two blank paragraphs join to a non-empty blank line that cleaning empties, so a snippet's text can be "" |
| Model.BlockSnoc | app/model.py:28-30 | appending a snippet appends its text and a line break to the block of snippet lines |
| Model.AdditionalTextBlock | app/model.py:27-30 | the additional text is the header "Дополнительная информация:\n" followed by each snippet's text and "\n", in scrape order |
| Model.LinesOfBlock | app/model.py:28-30 | when no snippet text holds a line break, the block splits back into exactly the snippet texts |
| Model.AdditionalTextLines | app/model.py:27-30 | the additional text reads back line by line as the header and then the snippet texts |
| Model.SearchDataLines | app/model.py:25-30 | for scraped data this holds unconditionally, because cleaned text has no line break |
| Model.UrlsOfData | app/model.py:26-29 | the URL list has one entry per snippet, in order, each that snippet's URL |
| Model.ChatModel.constructor | app/model.py:12-22 | the name, URL, system prompt and search configuration are taken from the configuration, and the headers carry "Bearer " and the key |
| Model.ChatModel.GetAdditionalSources | app/model.py:24-32 | the loop returns the specified additional text and the URLs of the scraped snippets |
| Model.ChatModel.Payload | app/model.py:41 | the inputs are the system prompt, a line break, the question, a line break and the additional text, each recoverable at its position |
| Model.ResponseText | app/model.py:48-54 | a handled reply yields the `generated_text` of its first list element or of the dictionary, and "" when it carries none |
| Model.OutcomeText | app/model.py:43-57 | the text is non-empty only for a reply that carries it as its `generated_text` where the code looks, and it is the carried text whenever the reply carries one; so a failed request gives "" |
| Model.ChatModel.GenerateResponse | app/model.py:35-57 | the response is the text of the backend's reply to the assembled request, and the URLs are returned unchanged on every path |
| Model.ChatModel.CleanResponse | app/model.py:59-64 | the result has no leading or trailing whitespace and is no longer than the reply |
| Model.ChatModel.CleanResponseRemovesPrompt | app/model.py:59-64 | with a non-empty prompt first found at `i`, the cleaned reply is `strip()` of the text before `i` followed by the text after that occurrence with every later occurrence deleted, and it is at least the prompt's length shorter than the reply |
| Model.ChatModel.CleanResponseNoPrompt | app/model.py:63 | a reply with no occurrence of the system prompt is only stripped |
| Model.ChatModel.CleanResponseCanLeavePrompt | app/model.py:63 | with prompt "xy", the reply "xxyy" cleans to "xy", which still holds the prompt |
| Model.AnswerFrom | app/model.py:73 | the scan finds the first position where the answer label, optional whitespace and a digit match, or reports that none exists |
| Model.AnswerDigits | app/model.py:73 | the captured group is the maximal non-empty run of digits that starts right after the label and the whitespace following it |
| Model.ExtractAnswer | app/model.py:73-76 | `None` exactly when the answer pattern matches nowhere; otherwise the value of the digit run after the first match |
| Model.ExtractReasoning | app/model.py:74-77 | the reasoning is stripped, and "" when the reasoning label is absent |
| Model.ReasoningGroup | app/model.py:74-77 | the captured group after the label, stripped, is the whole rest of the text after the label, stripped: the `\s*` before the group changes nothing |
| Model.ReasoningAfterLabel | app/model.py:74-77 | with the label first found at `q`, the reasoning is all of the text after the label, line breaks included, stripped |
| Model.ParseFormatted | app/model.py:66-79 | for a reply in the documented format with number `n` and body `b`, the answer is `n` and the reasoning is `b` stripped |
| Model.ChatModel.ReasoningHeader | app/model.py:95-100 | the header is "Ответ сгененирован моделью ", the model name and ". ", each recoverable |
| Model.ChatModel.FormAnswer | app/model.py:81-93 | the answer field reads back as the given answer; it is "null" exactly for 0 and `None` stays `None`; reasoning and sources pass through |
| Model.ChatModel.GetAnswer | app/model.py:102-112 | the answer is the parsed number of the cleaned reply ("null" for 0), the reasoning is the header followed by the parsed reasoning, and the sources are the scraped URLs |
| Model.ChatModel.AnswerOfFormattedReply | app/model.py:59-79 | a formatted reply that does not contain the system prompt yields its number and its reasoning body |

## Left out

- Network access is not modelled. The DuckDuckGo client, `requests.get` and `requests.post`
  are function parameters returning a value or a failure tag. The `timeout=5` of the page
  request and the HTTP status check are folded into that failure tag.
- A page fetch is a function of its URL, so the same URL yields the same outcome within one
  run.
- HTML parsing with BeautifulSoup is not modelled. A fetched page is given directly as the
  list of its `<p>` texts.
- Text holding a lone surrogate code point (which Python allows in a `str`, for example from
  a JSON `"\ud800"` escape in a reply or a page) is outside the model: a Dafny `char` is a
  Unicode scalar value.
- `\d` and `int()` accept any Unicode decimal digit in Python. The model accepts only ASCII
  `0`–`9`.
- Some reply shapes make the pipeline raise, and the model excludes them by a precondition
  (`Handled`). The first three raise inside the `try` block of `generate_response`, but only
  a `RequestException` is caught there, so the error escapes:
  - an empty list (`IndexError`);
  - a first element that is a number, boolean or null (`TypeError` from `in`);
  - a first element that is a string or list containing `generated_text` (`TypeError` from
    the indexing that follows).
- A `generated_text` that is not a string is returned by `generate_response` without error
  and only fails later, at the `.replace` call of `clean_response` (`app/model.py:63`). The
  model's response is a string, so `Handled` excludes this shape as well.
- A reply body that is not JSON raises a decoding error, which `requests` reports as a
  `RequestException`. It is modelled as the failure tag.
- Logging, the OmegaConf configuration loading and the `__main__` demonstration blocks are
  not modelled. The configuration is a record passed to the constructors.
- The FastAPI layer is not part of this model (`app/main.py`, `app/containers.py`,
  `app/api/`).
- Model.ExtractAnswer: the answer is the value of the digit run however long it is. Python
  3.11 and later (and security releases of earlier versions) make `int()` raise `ValueError`
  for a string of more than 4300 digits, and `extract_answer_and_reasoning` does not catch
  it; the model does not have that limit.
- Search.SearchEngine.ParagraphText: stated as a definition only, the join with a blank line
  of the stripped first `num_paragraphs` paragraph texts. No lemma splits the joined text
  back into paragraphs.
- Search.SearchEngine.ScrapeEntry: the body of one loop turn, with no contract of its own.
  What it produces is stated by Search.ScrapedEntries.
- The following are plain definitions with no contract of their own. Each one is
  pinned down by the lemmas named after it, which have rows in the table:
  - PyText.IsSpace: Python's `str.isspace()` set, used for `\s` (`app/search.py:45`) and for
    `strip()`; Strip, StripKeepsText, CollapseShape and CollapseRun.
  - PyText.Join: `str.join` (`app/search.py:36`); JoinEmpty and ExtractTextSentinel.
  - PyText.DigitsValue: `int()` of a digit string (`app/model.py:76`); DecimalValue and
    ExtractAnswer.
  - Search.CollapseSpaces: `re.sub(r'\s+', ' ', ...)` (`app/search.py:45`); CollapseShape,
    CollapseClean, CollapseKeepsText, CollapseAppend, CollapseSpaceRun and CollapseRun.
  - Search.RemoveMarkers: `re.sub(r'\[\d+\]', '', ...)` (`app/search.py:46`);
    RemoveMarkersHead, MarkerDeleted, RemoveMarkersAfter, RemoveMarkersDeletes,
    RemoveMarkersShape and RemoveMarkersKeepsText.
  - Search.SearchEngine.Scraped: the list `search_and_scrape` builds (`app/search.py:55-62`);
    SearchAndScrape and ScrapedEntries.
  - Model.Handled: the reply shapes `generate_response` handles without raising
    (`app/model.py:48-57`); ResponseText and GenerateResponse.
  - Model.AdditionalText: the text `get_additional_sources` accumulates
    (`app/model.py:26-30`); AdditionalTextBlock, AdditionalTextLines and GetAdditionalSources.
  - Model.Urls: the URL list of the same loop (`app/model.py:26-30`); UrlsOfData and
    GetAdditionalSources.
  - Model.ChatModel.Request: the request `generate_response` posts (`app/model.py:41-44`);
    Payload and GenerateResponse.
