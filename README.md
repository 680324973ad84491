# Landing Page Clarity Grader — a Dafny model of its form, client and text cleaner

Landing Page Clarity Grader asks a language model how clear a landing page is
to a first-time visitor. The user gives either a URL or the page copy as raw
text. A web form posts that to a backend, which answers with a description of
the page and four integer scores out of 5: clarity, focus, differentiation and
CTA strength. This project models three deterministic parts of that system and
proves properties about them:

* **The analysis form** (`frontend/src/app/page.tsx`), module `Page`.
  * Its React state is the class `Page.Home`, with one field per `useState` hook.
  * Each event handler is one method: the two mode toggles, the two field
    edits, the start and the two ends of `handleSubmit`, and a press of the
    submit button.
  * Its pure rules are functions with lemmas: form validation, the submit
    gate, the request body, the error message and the score rendering.
* **The API client** (`frontend/utils/api.ts`), module `Api`.
  * Base-URL selection, the request that is sent, and how the returned
    promise settles for each way the `fetch` call can end.
  * The environment variable and the network exchange are inputs to it.
* **The scraper's line cleaner** (`backend/scraper_test.py`, lines 26–28),
  module `Scraper`.
  * It splits the extracted text into lines, strips each line, drops the
    empty ones, and joins the rest with newlines.

The shared module `Text` defines, once each:

* JavaScript's `String.prototype.trim` and Python's `str.strip`. These are
  one `Trim` parameterised by a `Whitespace` choice, because the two languages
  disagree about which characters count as whitespace.
* Splitting and joining on a separator character, with their round trips.
* The decimal rendering of an integer and its read-back.

`Wrappers` holds `Option`, the model's `null`.

## Model

| member | source | states |
|---|---|---|
| Api.BaseUrl | frontend/utils/api.ts:18 | The base URL is the environment override when it is a non-empty string, and `http://localhost:8000` when it is absent or empty; it is never empty |
| Api.AnalyzeRequest | frontend/utils/api.ts:21-27 | The request is a POST with JSON content type to the base URL followed by `/analyze`, and its body has exactly the caller's keys with the caller's values |
| Api.AnalyzeContent | frontend/utils/api.ts:21-33 | A failing `fetch` and a body that `response.json()` rejects both reject the client's promise with the same thrown value; `ResolvedIff` and `NonOkIgnoresBody` state the other cases |
| Api.ResolvedIff | frontend/utils/api.ts:29-33 | The client's promise resolves exactly when an ok response with a parsable body arrives, and then resolves with that body unchanged |
| Api.NonOkIgnoresBody | frontend/utils/api.ts:29-30 | A non-ok response rejects with an `Error` whose message is `Analysis failed: ` plus the status text, whatever its body |
| Api.FailureMessageStatus | frontend/utils/api.ts:30 | The rejection message of a non-ok response is an `Error` message that starts with `Analysis failed: ` and whose remainder is exactly the status text |
| Page.FormValidIff | frontend/src/app/page.tsx:34-36 | The form is valid exactly when the active mode's field contains a character that JavaScript's trim does not remove |
| Page.FormValidIgnoresInactive | frontend/src/app/page.tsx:34-36 | Validity never depends on the field of the inactive mode |
| Page.FormValid | frontend/src/app/page.tsx:34-36 | The form is valid exactly when the active mode's field is not made up of whitespace alone |
| Page.SubmitDisabled | frontend/src/app/page.tsx:115 | The submit button is enabled exactly when the form is valid and no submission is pending; it is always disabled while one is pending |
| Page.RequestData | frontend/src/app/page.tsx:21-23 | The request body has exactly one key: `url` with the trimmed URL in URL mode, or `raw_text` with the trimmed text in text mode |
| Page.RequestDataValue | frontend/src/app/page.tsx:21-23 | The body's one value is empty exactly when the form is invalid, and it is its own trim |
| Page.RequestDataIgnoresInactive | frontend/src/app/page.tsx:21-23 | The inactive mode's field never reaches the request |
| Page.ErrorMessage | frontend/src/app/page.tsx:28 | An `Error` shows its own message; any other thrown value shows `An error occurred` |
| Page.ErrorPanelOnRejection | frontend/src/app/page.tsx:123 | After a rejected call the error panel is shown, except when what was thrown is an `Error` with an empty message, since an empty string is falsy |
| Page.ScoreLabel | frontend/src/app/page.tsx:166 | The caption of a score key has the key's length |
| Page.ScoreLabelNoUnderscore | frontend/src/app/page.tsx:166 | A key without an underscore is shown as it is |
| Page.ScoreLabelFirstUnderscore | frontend/src/app/page.tsx:166 | The first underscore of a key becomes a space, and everything before and after it is kept, later underscores included |
| Page.ScoreLabelKeys | frontend/src/app/page.tsx:166 | `cta_strength` is shown as `cta strength`; `clarity`, `focus` and `differentiation` are shown unchanged |
| Page.ScoreLabelFirstOnly | frontend/src/app/page.tsx:166 | Only the first underscore is replaced: `a_b_c` is shown as `a b_c` |
| Page.BarWidth | frontend/src/app/page.tsx:172 | The bar width is 20 percent per point; it lies within 0–100 percent for scores 0..5 and exceeds 100 percent above 5 |
| Page.ScoreText | frontend/src/app/page.tsx:176 | The score text is at least three characters long and ends in `/5`; `ScoreTextValue` states that its prefix reads back as the score |
| Page.ScoreTextValue | frontend/src/app/page.tsx:176 | The score text ends in `/5`, and what precedes it is a decimal numeral, optionally signed, that reads back as the score |
| Page.ScoreTextDigit | frontend/src/app/page.tsx:176 | A one-digit score is shown as that digit followed by `/5` |
| Page.ScoreRows | frontend/src/app/page.tsx:163-180 | One row is rendered per score entry |
| Page.ScoreRowsConcat | frontend/src/app/page.tsx:163-180 | Rows are rendered entry by entry and keep the entries' order |
| Page.ScoreRowOfScore | frontend/src/app/page.tsx:163-180 | A score v in 0..5 renders as its key's caption, a bar of 20·v percent and the text `v/5` |
| Page.ScoreRowsExample | frontend/src/app/page.tsx:163-180 | Scores 4, 5, 3 and 2 render bars of 80, 100, 60 and 40 percent with the texts `4/5`, `5/5`, `3/5` and `2/5` |
| Page.Home.constructor | frontend/src/app/page.tsx:7-12 | The page starts in URL mode with both fields empty, nothing pending, and no result or error |
| Page.Home.SelectUrl | frontend/src/app/page.tsx:57 | The URL toggle sets URL mode and changes nothing else |
| Page.Home.SelectText | frontend/src/app/page.tsx:68 | The text toggle sets text mode and changes nothing else |
| Page.Home.EditUrl | frontend/src/app/page.tsx:80-89 | Editing the URL input, which exists in URL mode only, replaces the URL and changes nothing else |
| Page.Home.EditRawText | frontend/src/app/page.tsx:96-105 | Editing the text area, which exists in text mode only, replaces the raw text and changes nothing else |
| Page.Home.BeginSubmit | frontend/src/app/page.tsx:16-23 | Starting a submission sets it pending, clears the error and the result, keeps mode and fields, and yields the active mode's request body |
| Page.Home.Succeed | frontend/src/app/page.tsx:25-30 | A resolved submission stores the response, ends the pending state and leaves no error |
| Page.Home.Fail | frontend/src/app/page.tsx:27-30 | A rejected submission stores the error message, ends the pending state and leaves no result |
| Page.Home.Settle | frontend/src/app/page.tsx:20-31 | After the call settles, exactly one of a result or an error is held, according to the outcome, and nothing is pending |
| Page.Home.HandleSubmit | frontend/src/app/page.tsx:14-32 | A submission sends the active body to `/analyze`; afterwards exactly one of a result or an error is held: the response when the client resolves, and otherwise the message of what the client rejected with, which for a non-ok response is `Analysis failed: ` plus the status text |
| Page.Home.Click | frontend/src/app/page.tsx:52-115 | Pressing a disabled button, or an enabled one in URL mode when the browser rejects the value of the `type="url"` input, changes nothing and sends nothing; otherwise the press starts the submission with the active mode's body |
| Page.SecondClickIgnored | frontend/src/app/page.tsx:115 | When a press starts a submission, a second press while it is pending sends nothing, and the form was valid |
| Page.SwitchBackRestores | frontend/src/app/page.tsx:57-105 | Typing into both fields and switching modes back and forth keeps both fields' text and leaves result, error and pending state alone |
| Text.Trim | frontend/src/app/page.tsx:35 | The trimmed string has no whitespace at either end, is no longer than the input, and is empty exactly when the input is all whitespace |
| Text.TrimUnique | backend/scraper_test.py:26 | Trimming whitespace, then a trimmed core, then whitespace gives back exactly that core |
| Text.TrimIdempotent | backend/scraper_test.py:26 | Trimming twice gives the same result as trimming once |
| Text.TrimFixedPoint | backend/scraper_test.py:26 | A string equals its own trim exactly when it has no whitespace at either end |
| Text.IndexOf | backend/scraper_test.py:26 | The index found holds the first occurrence of the character |
| Text.Split | backend/scraper_test.py:26 | Splitting yields at least one piece, and no piece contains the separator |
| Text.JoinSplit | backend/scraper_test.py:26-28 | Joining the pieces of a split with the separator gives back the string |
| Text.SplitJoin | backend/scraper_test.py:26-28 | Splitting the join of separator-free pieces gives back the pieces |
| Text.JoinSnoc | backend/scraper_test.py:28 | Joining with one more piece appends the separator and that piece |
| Text.SplitAllIn | backend/scraper_test.py:26 | When the separator is whitespace, a string is all whitespace exactly when each of its pieces is |
| Text.TrimExcludes | backend/scraper_test.py:26 | Trimming introduces no character that was not in the string |
| Text.Join | backend/scraper_test.py:28 | A join of one or more pieces is as long as the pieces together plus one separator between each two neighbours |
| Text.JoinSeparated | backend/scraper_test.py:28 | Joining non-empty separator-free pieces gives a string that is empty only for no pieces, never has two separators in a row, and starts and ends with a piece's character |
| Text.NatToString | frontend/src/app/page.tsx:176 | A natural number renders as a non-empty run of digits without a leading zero, except for 0 itself |
| Text.NatToStringValue | frontend/src/app/page.tsx:176 | The digits of a natural number read back as that number |
| Text.IntToString | frontend/src/app/page.tsx:176 | The rendering of an integer is non-empty and starts with `-` exactly when the integer is negative |
| Text.IntToStringValue | frontend/src/app/page.tsx:176 | An integer renders as its digits, after a `-` when negative, and reads back as itself |
| Scraper.SplitLines | backend/scraper_test.py:26 | Non-empty text has at least one line, and no line produced by the split contains a newline |
| Scraper.JoinSplitLines | backend/scraper_test.py:26 | Empty text has no lines, and joining the lines gives back the text less one final newline |
| Scraper.StripAll | backend/scraper_test.py:26 | Stripping keeps one line per line, each without whitespace at either end |
| Scraper.DropBlank | backend/scraper_test.py:27 | The kept lines are all non-empty, are exactly the non-empty input lines, and are no more than the input |
| Scraper.DropBlankConcat | backend/scraper_test.py:27 | Dropping blanks works line by line and keeps the input order |
| Scraper.CleanLinesShape | backend/scraper_test.py:26-27 | Each kept line is non-empty and its own strip, and the kept lines are exactly the non-empty stripped input lines |
| Scraper.CleanLinesConcat | backend/scraper_test.py:26-27 | Cleaning works line by line, so the kept lines keep their relative input order |
| Scraper.CleanLinesSingle | backend/scraper_test.py:26-27 | A single line cleans to its strip, or to nothing when the strip is empty |
| Scraper.CleanLinesOfClean | backend/scraper_test.py:26-27 | Lines that are already non-empty, newline-free and stripped come through unchanged |
| Scraper.CleanLinesClean | backend/scraper_test.py:26-27 | The lines the cleaner keeps are non-empty, newline-free and stripped |
| Scraper.CleanLinesEmpty | backend/scraper_test.py:26-27 | The cleaner keeps no line exactly when every input line is whitespace |
| Scraper.CleanLines | backend/scraper_test.py:26-27 | The cleaner keeps no more lines than it is given, and each kept line is non-empty with no whitespace at either end |
| Scraper.SplitLinesAllIn | backend/scraper_test.py:26 | Every line is whitespace exactly when the whole text is whitespace |
| Scraper.CleanText | backend/scraper_test.py:26-28 | The cleaned text never has two newlines in a row, neither starts nor ends with a newline, and has no whitespace at either end |
| Scraper.CleanTextIdempotent | backend/scraper_test.py:26-28 | Cleaning the cleaned text again changes nothing |
| Scraper.CleanTextBlank | backend/scraper_test.py:26-28 | The cleaned text is empty exactly when the input is nothing but whitespace and newlines |

## Left out

- `backend/Analyzer.py` is not part of this model. It reads environment variables and calls a foreign language-model client, and has no logic of its own.
- The scraper's browser session (`async_playwright`, `page.goto`, `page.content()`) is not modelled: it is browser and network I/O.
- The scraper's HTML parsing is not modelled: the BeautifulSoup parse, the removal of `script`/`style`/`nav`/`footer`/`header` tags, and `get_text`. These are calls into a library; the text they produce is the cleaner's input.
- The scraper's `main()` console input and output, and `asyncio.run`, are not modelled: they are I/O.
- The `fetch` call is an input to the client, given as an `Exchange`. HTTP headers other than the content type are not modelled.
- JSON serialisation of the request and JSON parsing of the response are not modelled. The body is the object that is serialised, and parsing is given as `Parsed` or `Unparsable`.
- `process.env` is an input to the client, given as an `Option<string>`.
- `Page.AnalyzeResponse`: the response is taken to have the expected shape. A body of another shape, `null` for example, that `response.json()` accepts and the page then fails to render is not modelled, because the component does not validate it.
- React rendering is not modelled: JSX, class names, layout, the `capitalize` text transform (CSS), and the three text sections at page.tsx lines 144–157, which only display strings.
- `e.preventDefault()` is not modelled: it has no effect on the page's state.
- Page.Home.HandleSubmit: does not model the asynchronous interleaving of events while the request is awaited. A submission is the three discrete steps `BeginSubmit`, the exchange, and `Settle`, which the other event methods can be called between (`Succeed` and `Fail` require a pending submission).
- Page.Home.Click: the browser's check of the `type="url"` input (page.tsx line 86, in a form without `noValidate`) is an input, `urlAccepted`; which strings a browser accepts as a URL is not modelled. The button gate is modelled here. `handleSubmit` itself does not check validity or the pending state, which is why `HandleSubmit` requires neither.
- Page.BarWidth: computed in exact rational arithmetic, not IEEE doubles, and without the browser's formatting of the width percentage.
- Page.ScoreText: renders integer scores the way JavaScript prints an integer of magnitude at most 2^53 (a safe integer). Larger magnitudes print with rounded digits or in exponent notation, and non-integer scores print with a fraction; neither is modelled.
- Page.AnalyzeResponse: `scores` is modelled as the sequence that `Object.entries` yields, in the server's key order.
- Scraper.SplitLines: takes `"\n"` as the only line boundary. Python's `splitlines` also breaks at `\r`, `\r\n`, `\v`, `\f`, `\x1c`–`\x1e`, `\x85`, U+2028 and U+2029.
- Text.Trim: the whitespace sets follow ECMAScript's WhiteSpace and LineTerminator for JavaScript. For Python they follow the characters `str.isspace` accepts; the Unicode space characters are listed explicitly rather than derived from the Unicode database.
