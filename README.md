# Learnova study tools — a verified model of the backend text pipeline and two UI state machines

Learnova is a study application. A user pastes text and gets back a summary, a multiple-choice quiz
or a deck of flashcards. The text is produced by Hugging Face inference models, with Google's Gemini
as a last resort. This project models the logic around those calls and proves what that logic does.

- **Model-output pipeline** (`apps/backend/src/services/hf.ts`). This covers:
  - the candidate-model list and the `tryModels` fallback loop;
  - `redactSensitive`, which masks URLs, `www.` tokens and e-mail addresses;
  - `parseModelOutput`, with its precedence over response shapes;
  - the echoed-prompt stripper inside `summarizeText`, and the payload choice for summarisation models;
  - the `Q:`/`A)`…`D)`/`Answer:` quiz parser, and both copies of the `Flashcard N`/`Front:`/`Back:` parser;
  - the escalation ladders of `generateQuiz` and `generateFlashcards`: `JSON.parse`, then coercion, then the flashcard text parser, then Gemini, then the raw text.
- **Gemini client** (`apps/backend/src/services/gemini.ts`): the request it builds, its error message and how it extracts the reply text.
- **ML routes** (`apps/backend/src/routes/ml.ts`). This covers:
  - the route file's own copy of `parseModelOutput`, which differs from the other copy;
  - the `text`/`question` presence checks and the `count` defaults;
  - re-parsing string results, and the status, upload and Q&A handlers.
- **User model** (`apps/backend/src/models/User.ts`):
  - the schema defaults, the trimming and lower-casing of name and e-mail, and the rule that makes a password hash required;
  - the activity streak that `updateLastActive` keeps, and `calculateConsecutiveDays`. `User` is a class whose methods update its fields in place.
- **Auth routes** (`apps/backend/src/routes/auth.ts`):
  - how the Google and GitHub callback URLs are derived from the environment and the forwarded headers;
  - where the handlers redirect after the provider answers;
  - the redirect from the misspelled `oauh` path, which keeps the query string;
  - registration validation and its responses.
- **QuizView and FlashcardsView** (`apps/frontend/src/components`): the state the components keep, as classes. This covers:
  - answer selection, the score and the results flag;
  - flashcard navigation with clamping, the front/back toggle and the empty deck.

Remote calls are parameters. They include `hfRequest` and `fetch`, the Gemini endpoint, `JSON.parse`, the database lookup and save, and the document processor. A Hugging Face call is a function from (model, payload, attempt number) to an outcome, where the attempt number is the request's position in its retry sequence, so two attempts with the same model may differ. `JSON.parse` is a function from text to an optional value. Every proved property holds for every such function; what the model cannot express is listed under "## Left out". JSON values are a closed datatype: numbers are integers and `undefined` is an absent field.

Files:

| file | module | models |
|---|---|---|
| outcome.dfy | Outcome | `Option`, `Result` (a value or a thrown error) |
| text.dfy | Text | whitespace, trimming, ASCII case folding, `indexOf`, split/join, number formatting, UTF-16 length |
| json.dfy | Json | the JSON datatype, JavaScript truthiness, field lookup, `JSON.stringify`, `String(v)` |
| environment.dfy | Environment | `process.env` lookups and `a \|\| b` on environment values |
| http.dfy | Http | JSON responses with a status |
| uri.dfy | Uri | `encodeURIComponent` and `URLSearchParams` form encoding with its decoding |
| redact.dfy | GlobalReplace, Redact | a global regular-expression replace over a matcher, and `redactSensitive` |
| model_output.dfy | ModelOutput | `parseModelOutput` of hf.ts |
| echo.dfy | Echo | `stripEchoedPrompt`, as written and corrected |
| line_split.dfy | LineSplit | `split(/\r?\n/).map(trim).filter(Boolean)` |
| quiz_parser.dfy | QuizParser | `parseQAFormat` as a loop, and a reference reading of it |
| flashcard_parser.dfy | FlashcardParser | both `parseFlashcardFormat` loops, and a reference reading of them |
| fallback.dfy | ModelFallback | the candidate list and `tryModels` |
| gemini.dfy | Gemini | `generateWithGemini` |
| tasks.dfy | Tasks | `summarizeText`, `coerceJson`, `generateQuiz`, `generateFlashcards` |
| ml_routes.dfy | MlRoutes | the ML route handlers and their `parseModelOutput` |
| user_model.dfy | UserModel | the `User` schema and its methods |
| auth_routes.dfy | AuthRoutes | OAuth URL choice, redirects, registration |
| quiz_view.dfy | QuizView | the `QuizView` component state |
| flashcards_view.dfy | FlashcardsView | the `FlashcardsView` component state |

Two behaviours of the code worth knowing:

- `[configured, …defaults].filter(Boolean)` keeps duplicates: a configured model equal to a default is tried twice (`ModelFallback.DuplicatesKept`).
- `stripEchoedPrompt` can miss a verbatim echo of a prompt that holds a blank line, such as the summary instruction prompt: it looks for the normalised prompt in the raw output. `Tasks.SummarizeText` models the code as written; see "Findings".

## Model

| member | source | states |
|---|---|---|
| ModelFallback.CandidatesAreConfiguredThenDefaults | apps/backend/src/services/hf.ts:131-134 | The candidate list is the configured model (HF_INSTRUCT_MODEL, else HF_MODEL) followed by the three defaults when one is set, and the three defaults alone otherwise. |
| ModelFallback.DuplicatesKept | apps/backend/src/services/hf.ts:206-208 | A configured model equal to the first default appears twice, and the list has four entries. |
| ModelFallback.PresentOnly | apps/backend/src/services/hf.ts:134 | `filter(Boolean)` keeps only non-empty names and never lengthens the list. |
| ModelFallback.TryModels | apps/backend/src/services/hf.ts:28-48 | The loop's result equals `FirstSuccess`: it tries the candidates in order and returns the first success with its model. |
| ModelFallback.FirstOk | apps/backend/src/services/hf.ts:30-34 | The index found is a success, and every candidate before it failed. When no index is found, every candidate failed. |
| ModelFallback.FirstSuccessMeaning | apps/backend/src/services/hf.ts:28-47 | It gives the first success as `{out, model}`. Otherwise it rethrows the last candidate's error. For an empty list it throws 'All model attempts failed'. |
| ModelFallback.ErrorsOnlyReachTheEnd | apps/backend/src/services/hf.ts:35-44 | A 404 and any other error are treated alike: two services that agree on which calls succeed, and on their values, give the same outcome whatever their errors. |
| Redact.RedactSensitive | apps/backend/src/services/hf.ts:50-57 | Text in which no URL, `www.` token or e-mail matches, the empty text included, is returned unchanged. |
| Redact.UrlRedacted | apps/backend/src/services/hf.ts:50-57 | `http://` or `https://` followed by a non-space run is redacted to `[LINK]`. |
| Redact.WwwRedacted | apps/backend/src/services/hf.ts:50-57 | `www.` followed by any non-space run is redacted to `[LINK]`, also when an `http(s)://` link inside the run was replaced first. |
| Redact.RedactLeavesNoMatch | apps/backend/src/services/hf.ts:50-57 | After the three passes, none of the three patterns matches anywhere in the result. |
| Redact.RedactIdempotent | apps/backend/src/services/hf.ts:50-57 | Redacting already redacted text changes nothing: `redactSensitive` twice is `redactSensitive` once. |
| GlobalReplace.PassLeavesNoMatch | apps/backend/src/services/hf.ts:53-56 | After a global replace, a pattern matches nowhere if the placeholder is inert for it and no match of it is created before a placeholder, and wherever it matched in the input the replaced pattern matched too. |
| GlobalReplace.KeepPrefix | apps/backend/src/services/hf.ts:56 | A prefix at none of whose positions the pattern matches is kept as it is by a global replace. |
| Redact.EmailRedacted | apps/backend/src/services/hf.ts:50-57 | `local@domain.tld`, with a 2-to-6-letter top-level domain and no `www.` match in it, is redacted to `[EMAIL]`. |
| Redact.WwwAddressIsLink | apps/backend/src/services/hf.ts:54-55 | The `www.` pass runs before the e-mail pass, so `www.me@site.org` is redacted to `[LINK]`, not `[EMAIL]`. |
| Redact.RedactSplits | apps/backend/src/services/hf.ts:50-57 | Text cut before a whitespace character is redacted as its two parts are: no pattern matches across whitespace. |
| Redact.RedactKeepsSpace | apps/backend/src/services/hf.ts:50-57 | A leading whitespace character is kept and the rest is redacted. |
| Redact.RedactWordInText | apps/backend/src/services/hf.ts:50-57 | In `pre + " " + w + " " + post`, the word `w` and the texts around it are redacted independently. |
| Redact.UrlInText | apps/backend/src/services/hf.ts:50-57 | A link between spaces becomes `[LINK]` in place, with the text around it redacted on its own. |
| Redact.LinkIsInert | apps/backend/src/services/hf.ts:54-55 | Neither the `www.` pattern nor the e-mail pattern matches anywhere in `[LINK]`. |
| Redact.LinkSurvives | apps/backend/src/services/hf.ts:54-56 | `[LINK]` goes through the second and third passes unchanged. |
| Redact.MatchersStopAtSpace | apps/backend/src/services/hf.ts:53-55 | Each of the three matchers is bounded by the text left, and what it matches does not depend on text after a whitespace character. |
| Redact.ReplaceAllSplits | apps/backend/src/services/hf.ts:56 | For such a matcher, a global replace over `a + b`, with `b` starting with whitespace, is the replace over `a` followed by the replace over `b`. |
| Redact.NoColonNoUrl | apps/backend/src/services/hf.ts:53 | Text without a colon holds no `http(s)://` match. |
| Redact.UrlMatch | apps/backend/src/services/hf.ts:53 | A match starts exactly where `http://` or `https://`, in any case, is followed by a non-space character. |
| Redact.WwwMatch | apps/backend/src/services/hf.ts:54 | A match starts exactly where `www.`, in any case, is followed by a non-space character. |
| Redact.UrlMatchesWhole | apps/backend/src/services/hf.ts:53 | `http://` or `https://` followed by a non-space run is matched to its end. |
| Redact.UrlBecomesLink | apps/backend/src/services/hf.ts:53-56 | Such a URL is replaced by a single `[LINK]`. |
| Redact.WwwBecomesLink | apps/backend/src/services/hf.ts:54-56 | `www.` followed by a non-space run is replaced by a single `[LINK]`. |
| Redact.EmailMatched | apps/backend/src/services/hf.ts:55 | `local@domain.tld`, where local and domain are word, dot or dash runs and the top-level domain has 2 to 6 letters, is matched whole. |
| Redact.DomainSplit | apps/backend/src/services/hf.ts:55 | In `domain.tld` the whole text is domain characters, and the backtracking split falls on the dot before the top-level domain. |
| Redact.DomainDotIsLast | apps/backend/src/services/hf.ts:55 | Backtracking settles on the last dot followed by at least two letters: no later dot in the run qualifies. |
| Redact.DomainDotFinds | apps/backend/src/services/hf.ts:55 | When the only qualifying dot is at `k` and no dot follows it, the split is at `k`. |
| GlobalReplace.ReplaceAllFirstMatch | apps/backend/src/services/hf.ts:56 | A global replace keeps the text before the leftmost match, puts the placeholder in place of the match and goes on after it. |
| GlobalReplace.ReplaceAllNoMatch | apps/backend/src/services/hf.ts:56 | A global replace leaves text with no match unchanged. |
| GlobalReplace.WholeMatch | apps/backend/src/services/hf.ts:56 | Text that is one match becomes the placeholder alone. |
| GlobalReplace.ReplaceAllSplitsAt | apps/backend/src/services/hf.ts:56 | Suppose no match of the matcher ever reaches into `b`. Then a global replace over `a + b` is the replace over `a` followed by the replace over `b`. |
| ModelOutput.TextField | apps/backend/src/services/hf.ts:67-68 | A truthy `generated_text` wins, then a truthy `summary_text`; there is no result when neither is truthy. |
| ModelOutput.ParseModelOutput | apps/backend/src/services/hf.ts:59-78 | The result is a string, or a truthy value taken from a text field. |
| ModelOutput.ParseModelOutputCases | apps/backend/src/services/hf.ts:59-78 | Each branch for every input: `null` gives `''`; a string is itself; an array with no or a falsy first element gives its JSON text; a string first element is returned; a first record gives its text field, else its string values joined by newlines, else its JSON text; an object gives its text field, else its JSON text; a boolean or number gives `String(raw)`. |
| ModelOutput.ResultIsStringOrTextField | apps/backend/src/services/hf.ts:59-78 | The result is a string, or the truthy text field of the object or of the array's first record (which may be a non-string). |
| ModelOutput.EmptyResult | apps/backend/src/services/hf.ts:60-61 | The result is `''` exactly for `null` and for the empty string. |
| ModelOutput.ParseModelOutputIdempotent | apps/backend/src/services/hf.ts:61 | A string result parses to itself. |
| ModelOutput.OnlyFirstRecordCounts | apps/backend/src/services/hf.ts:64-70 | For an array whose first element is a truthy non-string record with a text field or string fields, the elements after the first do not matter. |
| ModelOutput.GeneratedTextWins | apps/backend/src/services/hf.ts:67-74 | With both fields truthy, `generated_text` is returned, for an object and for an array of one record. |
| Echo.StripEchoedPrompt | apps/backend/src/services/hf.ts:86-100 | The result is trimmed and no longer than the output. It is the trimmed output unless a prompt is given whose normalised form starts the normalised output. |
| Echo.StripResultTrimmed | apps/backend/src/services/hf.ts:86-100 | The helper returns a string with no whitespace at either end, as written and corrected. |
| Echo.CutEchoTrimmed | apps/backend/src/services/hf.ts:92-99 | Both branches of the comparison return a trimmed string, no longer than the output. |
| Echo.NoPromptOnlyTrims | apps/backend/src/services/hf.ts:88 | Without a prompt, the output is only trimmed. |
| Echo.NormalizeShape | apps/backend/src/services/hf.ts:89 | `normalize` leaves only single spaces between non-space characters, and no whitespace at either end. |
| Echo.CollapseSpacesCollapsed | apps/backend/src/services/hf.ts:89 | After `replace(/\s+/g, ' ')`, every whitespace character is a space and no two spaces are adjacent. |
| Echo.StripLead | apps/backend/src/services/hf.ts:96 | `replace(/^[:\s"']+/, '')` removes exactly the leading run of colons, whitespace and quotes, and keeps a suffix of the input. |
| Echo.FlatEchoStripped | apps/backend/src/services/hf.ts:92-96 | For a prompt that is already normalised, a verbatim echo is removed, and the rest has its lead characters stripped and is trimmed. |
| Echo.CutVerbatimEcho | apps/backend/src/services/hf.ts:92-96 | When the raw output holds the normalised prompt as a prefix, the prefix is cut and the rest is cleaned. |
| Echo.FixedAgreesElsewhere | apps/backend/src/services/hf.ts:86-100 | The correction changes nothing for outputs that do not start with the prompt verbatim. |
| Echo.VerbatimEchoMissed | apps/backend/src/services/hf.ts:92-99 | As written, the output `"a\n\nb c"` echoing the prompt `"a\n\nb"` is returned whole. |
| Echo.FixedStripsVerbatimEcho | apps/backend/src/services/hf.ts:92-96 | The corrected helper removes a verbatim echo of any non-empty prompt. |
| Echo.NormalizeExampleOutput | apps/backend/src/services/hf.ts:89-91 | Normalising the output `"a\n\nb c"` gives `"a b c"`. |
| Echo.IndexOfExample | apps/backend/src/services/hf.ts:94 | The normalised prompt `"a b"` does not occur in the raw output `"a\n\nb c"`. |
| Tasks.SummarizeText | apps/backend/src/services/hf.ts:80-120 | The summary, with the echo stripper as written, is a string with no whitespace at either end. A failed inference call (primary and fallback) is rethrown unchanged. |
| Tasks.SummarizeTextFixed | apps/backend/src/services/hf.ts:80-120 | The same pipeline with the corrected echo stripper keeps both guarantees. |
| Tasks.SummaryOfText | apps/backend/src/services/hf.ts:112-118 | A non-empty string response is handed to the echo stripper with the prompt used. The as-written pipeline uses `stripEchoedPrompt`, the corrected one `StripEchoedPromptFixed`. |
| Tasks.FixedSummaryDropsEcho | apps/backend/src/services/hf.ts:102-118 | With the corrected stripper, a response that repeats the instruction prompt verbatim is cut after it, whatever text was summarised. |
| Tasks.SummaryModels | apps/backend/src/services/hf.ts:81-115 | The model is HF_SUMMARY_MODEL, else HF_MODEL, else `facebook/bart-large-cnn`. A failed primary call (attempt 0) is retried once on the fallback model (attempt 1) with the same payload. |
| Tasks.DefaultModelGetsRawText | apps/backend/src/services/hf.ts:105-110 | The default model matches `/bart\|pegasus\|summar/i`, so it gets the redacted text raw and no prompt is stripped. |
| Tasks.StrippedPromptIsSentPrompt | apps/backend/src/services/hf.ts:102-110 | The prompt stripped from the output is exactly the instruction prompt sent. A summarisation model gets the raw text and nothing to strip. The payload asks for 200 new tokens. |
| Tasks.SummaryIsTrimmed | apps/backend/src/services/hf.ts:112-119 | A failed call propagates its error, and a successful summary is always a string with no whitespace at either end. |
| Tasks.CoerceJson | apps/backend/src/services/hf.ts:122-128 | `coerceJson` throws exactly when its inference request throws. Otherwise its result is a string or a truthy text field. |
| Tasks.GenerateQuiz | apps/backend/src/services/hf.ts:130-203 | The prompt carries the redacted text and `count` (default 5). When every candidate fails, that error is thrown. Once one answers, a value is returned. |
| Tasks.GenerateFlashcards | apps/backend/src/services/hf.ts:205-292 | The prompt carries the redacted text and `count` (default 10). When every candidate fails, that error is thrown. Once one answers, a value is returned. |
| Tasks.QuizLadder | apps/backend/src/services/hf.ts:141-201 | A failure of every candidate model is rethrown unchanged, since nothing catches it. Once a model has answered, the quiz ladder always returns a value: the parsed JSON, the coerced JSON, Gemini's answer or the raw text. |
| Tasks.FlashcardLadder | apps/backend/src/services/hf.ts:215-290 | The same holds for the flashcard ladder. |
| Tasks.AnsweredTasksSucceed | apps/backend/src/services/hf.ts:145-290 | Once a model answers, Hugging Face output that parses as JSON is returned parsed by both ladders. |
| Tasks.NoGeminiGivesRaw | apps/backend/src/services/hf.ts:153-289 | Without GEMINI_API_KEY, or when the Gemini call throws, the Gemini rung returns the raw HF text. |
| Tasks.GeminiTextReturned | apps/backend/src/services/hf.ts:155-283 | A Gemini text that does not parse as JSON goes to the text parser: its items are returned, or else the Gemini text itself. |
| Tasks.QuizFormatOnlyFromGemini | apps/backend/src/services/hf.ts:145-200 | For quizzes, HF text that is neither JSON nor coercible is returned raw without Gemini, even when it is in Q:/Answer: form. The text parser runs only on Gemini output. |
| Tasks.FlashcardFormatFromHf | apps/backend/src/services/hf.ts:218-250 | For flashcards, HF text in Front:/Back: form is parsed into cards before any coercion. |
| QuizParser.ParseQAFormat | apps/backend/src/services/hf.ts:160-188 | The loop returns `ParseQA` of its input. |
| QuizParser.ReadItems | apps/backend/src/services/hf.ts:165-186 | The outer loop computes the scan of the line tags. |
| QuizParser.ReadBlock | apps/backend/src/services/hf.ts:166-182 | One question block is the question, the choice lines after it and the answer line after those. |
| QuizParser.ReadChoices | apps/backend/src/services/hf.ts:170-175 | The inner loop takes at most four consecutive choice lines. |
| QuizParser.ScanIsPerQuestion | apps/backend/src/services/hf.ts:165-186 | The loop neither skips nor repeats a question: it yields one item per accepted `Q:` line. |
| QuizParser.ParseQAIsPerQuestion | apps/backend/src/services/hf.ts:160-188 | Empty text gives null. Otherwise the result is the accepted blocks in input order, or null when there are none. |
| QuizParser.ParseQA | apps/backend/src/services/hf.ts:160-188 | Empty text gives null. Every item returned has a non-empty question, four choices and an answer index of 0 to 3, and there are at most as many items as `Q:` lines. |
| QuizParser.PerQuestionShape | apps/backend/src/services/hf.ts:183-185 | Every accepted item meets the acceptance test, and there is at most one per question line. |
| QuizParser.BlockSpan | apps/backend/src/services/hf.ts:168-182 | A block's choices are the choice lines right after its `Q:` line. Its answer comes from the line right after them. No line inside the block is a question line. |
| QuizParser.ChoicesRun | apps/backend/src/services/hf.ts:171-174 | The choices are the texts of consecutive choice lines, stopping at four, at the end or at the first other line. |
| QuizParser.LetterIndex | apps/backend/src/services/hf.ts:178-180 | The answer letter A to D, in any case, gives its index, and anything else gives -1. |
| QuizParser.LineKindsDisjoint | apps/backend/src/services/hf.ts:167-177 | A choice line is neither a `Q:` line nor an `Answer:` line, and an answer line is not a `Q:` line. |
| QuizParser.ClassifyAgrees | apps/backend/src/services/hf.ts:167-177 | Each tag is given exactly when its line pattern matches. |
| FlashcardParser.ParseFlashcardFormatFirst | apps/backend/src/services/hf.ts:223-247 | The first copy's loop returns `ParseFirst` of its input. |
| FlashcardParser.ReadCardsFirst | apps/backend/src/services/hf.ts:228-245 | The first copy's loop computes its scan. |
| FlashcardParser.ParseFlashcardFormatSecond | apps/backend/src/services/hf.ts:261-279 | The second copy's loop returns `ParseSecond` of its input. |
| FlashcardParser.ReadCardsSecond | apps/backend/src/services/hf.ts:266-277 | The second copy's loop computes its scan. |
| FlashcardParser.ReadCard | apps/backend/src/services/hf.ts:235-241 | A `Front:` line gives a card, with the text of a `Back:` line right after it as the answer or `''` when there is none. |
| FlashcardParser.CopiesAgree | apps/backend/src/services/hf.ts:223-279 | The two copies return the same result for every input. |
| FlashcardParser.ScanFirstIsPerFront | apps/backend/src/services/hf.ts:228-245 | The first copy's scan yields one card per `Front:` line with a non-empty front. |
| FlashcardParser.ScanSecondIsPerFront | apps/backend/src/services/hf.ts:266-277 | The second copy's scan yields the same cards. |
| FlashcardParser.ParsedCardsAreReference | apps/backend/src/services/hf.ts:223-247 | Empty text gives null, and no cards give null. Every card has a non-empty question, and there are at most as many cards as `Front:` lines. |
| FlashcardParser.PerFrontShape | apps/backend/src/services/hf.ts:240 | Every card has a non-empty question, and there is at most one per `Front:` line. |
| FlashcardParser.PerFrontAtCard | apps/backend/src/services/hf.ts:235-241 | At a `Front:` line, the reading takes that card and goes on after its `Back:` line, if any. |
| FlashcardParser.LineKindsDisjoint | apps/backend/src/services/hf.ts:231-239 | `Flashcard N`, `Front:` and `Back:` lines are mutually exclusive. |
| FlashcardParser.ClassifyAgrees | apps/backend/src/services/hf.ts:231-239 | Each tag is given exactly when its line pattern matches. |
| LineSplit.Lines | apps/backend/src/services/hf.ts:162-263 | Every line kept is non-empty, holds no newline and is trimmed. |
| Gemini.KeyDecidesTheRequest | apps/backend/src/services/gemini.ts:3-7 | Without GEMINI_API_KEY the call throws 'GEMINI_API_KEY not configured' before any request. With the key, the outcome depends only on the answer to the request built. |
| Gemini.GenerateWithGemini | apps/backend/src/services/gemini.ts:3-38 | Without GEMINI_API_KEY it throws 'GEMINI_API_KEY not configured'. It succeeds only when the request it built got an ok reply, and then the value is truthy. |
| Gemini.UrlCarriesKey | apps/backend/src/services/gemini.ts:7 | The URL is `base/model:generateText?key=`, followed by the encoded key, which holds no `& = # ? /`, space or `+`. |
| Gemini.DefaultBody | apps/backend/src/services/gemini.ts:3-13 | The defaults are 600 output tokens and temperature 0.7, and the body is `{prompt: {text}, temperature, maxOutputTokens}`. |
| Gemini.NotOkThrows | apps/backend/src/services/gemini.ts:21-24 | A non-ok response throws `Gemini <status> <statusText> - <text>`, with an empty text when reading the body fails. |
| Gemini.UnauthorizedMessage | apps/backend/src/services/gemini.ts:23 | A 401 'Unauthorized' with body 'Invalid API key' gives 'Gemini 401 Unauthorized - Invalid API key'. |
| Gemini.ExtractIsTruthy | apps/backend/src/services/gemini.ts:29-37 | The extracted reply is always truthy. |
| Gemini.CandidatesFirst | apps/backend/src/services/gemini.ts:29-30 | A truthy `candidates[0].content` is returned. |
| Gemini.OutputSecond | apps/backend/src/services/gemini.ts:32 | Without candidates, a truthy `output[0].content` is returned. |
| Gemini.UnknownShapeStringified | apps/backend/src/services/gemini.ts:37 | Any other shape is returned as `JSON.stringify(data)`. |
| Gemini.InvalidJsonGivesNull | apps/backend/src/services/gemini.ts:26-37 | A body that is not JSON gives the string 'null'. |
| Uri.EncodedIsQuerySafe | apps/backend/src/services/gemini.ts:7 | `encodeURIComponent` output holds no `& = # ? /`, space or `+`. |
| Uri.UnreservedUnchanged | apps/backend/src/services/gemini.ts:7 | A key made of unreserved characters is sent as is. |
| Uri.AsciiEscapeRoundTrip | apps/backend/src/services/gemini.ts:7 | Every other ASCII character becomes `%XY` with the upper-case hex of its code. |
| MlRoutes.MlParseModelOutput | apps/backend/src/routes/ml.ts:14-28 | A falsy input gives null, and only a falsy input does. An empty array, or one whose first element is null, throws reading `generated_text`. Any other result is truthy, or the empty first string of an array. |
| MlRoutes.MlParseModelOutputCases | apps/backend/src/routes/ml.ts:14-28 | Each branch for every truthy input: a string is itself; an array's string first element is returned; any other first element gives its text field, else the JSON text of the whole array; any other value gives its text field, else its JSON text. |
| MlRoutes.CopiesAgreeOnTexts | apps/backend/src/routes/ml.ts:14-28 | On non-empty strings, and on records with a truthy text field (alone or first in an array), the two `parseModelOutput` copies agree. |
| MlRoutes.CopiesDiffer | apps/backend/src/routes/ml.ts:16-23 | The copies differ: null gives null here but `''` in hf.ts. A record without text is stringified as the whole array here, but alone in hf.ts. `['']` is handled differently too. |
| MlRoutes.Status | apps/backend/src/routes/ml.ts:10-12 | The status route always answers 200 with one boolean field, `hfConfigured`, true exactly when HF_API_KEY is set and non-empty. |
| MlRoutes.Summarize | apps/backend/src/routes/ml.ts:30-42 | 400 exactly for a falsy `text`. 200 exactly for a string `text` that the service summarises, with a string `summary`. Every other answer is 500 with a non-empty error. |
| MlRoutes.Quiz | apps/backend/src/routes/ml.ts:44-63 | 400 exactly for a falsy `text`. 200 exactly for a string `text` whose quiz, asked with `count \|\| 5`, is generated, under `quiz`. Every other answer is 500 with a non-empty error. |
| MlRoutes.Flashcards | apps/backend/src/routes/ml.ts:65-83 | 400 exactly for a falsy `text`. 200 exactly for a string `text` whose cards, asked with `count \|\| 10`, are generated, under `flashcards`. Every other answer is 500 with a non-empty error. |
| MlRoutes.Qa | apps/backend/src/routes/ml.ts:96-107 | 200 exactly when `text` and `question` are truthy and `qa` answers, under `answer`. Every other answer is 400 or 500 with a non-empty error. |
| MlRoutes.TextRequired | apps/backend/src/routes/ml.ts:33-68 | Summarize, quiz and flashcards answer 400 'text required' exactly when `text` is falsy. |
| MlRoutes.QaInputsRequired | apps/backend/src/routes/ml.ts:99 | Q&A answers 400 exactly when `text` or `question` is falsy, and then with 'text and question required'. |
| MlRoutes.RouteCount | apps/backend/src/routes/ml.ts:48-69 | `count \|\| fallback` is always truthy, and is the given count whenever that is truthy. |
| MlRoutes.FalsyCountsAlike | apps/backend/src/routes/ml.ts:48-69 | Any falsy count, including 0, behaves as an absent one, giving 5 questions or 10 cards. |
| MlRoutes.ReparseRecoversJson | apps/backend/src/routes/ml.ts:50-58 | A string holding the JSON text of a value, which `JSON.parse` reads back, is answered as that value. A non-string result is answered verbatim. |
| MlRoutes.GenerationAnswer | apps/backend/src/routes/ml.ts:44-83 | A generated result is answered 200 under `quiz` or `flashcards`, after re-parsing. An error gives 500 with its message or the route's fallback message. |
| MlRoutes.SummaryIsString | apps/backend/src/routes/ml.ts:34-37 | A successful summary response always carries a string. |
| MlRoutes.NonStringText | apps/backend/src/routes/ml.ts:31-41 | A truthy non-string `text` makes all three services throw on `replace`, so each route answers 500. |
| MlRoutes.ServerError | apps/backend/src/routes/ml.ts:40-105 | Every caught error is answered 500 with a non-empty `error`: the thrown message when it is non-empty, else the route's fallback. |
| MlRoutes.Upload | apps/backend/src/routes/ml.ts:85-94 | 400 exactly when no file is uploaded. 200 exactly when the document is processed, carrying its content. Every other answer is 500 with a non-empty error. |
| UserModel.User.constructor | apps/backend/src/models/User.ts:28-70 | A new user has a trimmed name and a trimmed lower-case e-mail, role free, an empty avatar, streak 0 and both dates now. It is valid exactly when the trimmed name and e-mail are non-empty and the password rule holds. |
| UserModel.PasswordRequiredExactly | apps/backend/src/models/User.ts:40-45 | A password hash is required exactly when neither Google nor GitHub is linked. Then a document is valid exactly when it has a non-empty hash. |
| UserModel.User.UpdateLastActive | apps/backend/src/models/User.ts:94-116 | `lastActiveAt` becomes now and the streak becomes `NextStreak` of the old state. Nothing else changes. |
| UserModel.User.CalculateConsecutiveDays | apps/backend/src/models/User.ts:119-122 | It returns the streak after the update. |
| UserModel.StaleVisitResets | apps/backend/src/models/User.ts:99-100 | A last visit more than 24 hours ago resets the streak to 1. |
| UserModel.RecentVisit | apps/backend/src/models/User.ts:102-111 | Within 24 hours, the streak grows by one exactly when the last visit's day is yesterday (or it is 0 and that day is earlier). A visit on the same day leaves it unchanged, and one whose day is earlier than yesterday resets it to 1. |
| UserModel.WholeDayStreak | apps/backend/src/models/User.ts:103-111 | With whole-day midnights, a visit within 24 hours is on the same day or yesterday, and the streak is kept or grows by one. |
| UserModel.FirstDayNotCounted | apps/backend/src/models/User.ts:67-116 | For a user created today, a login on the same day leaves the streak at 0, and a login the next day makes it 1. |
| UserModel.LowerString | apps/backend/src/models/User.ts:37 | `lowercase: true` on ASCII letters: the length is kept, no upper-case ASCII letter is left, and every other character stays in place. |
| UserModel.LowerStringIdempotent | apps/backend/src/models/User.ts:37 | Lower-casing a lower-cased e-mail changes nothing. |
| UserModel.NextStreak | apps/backend/src/models/User.ts:94-116 | The streak becomes 1, stays, or grows by one. It grows from a non-zero value only for a visit within 24 hours whose day is yesterday. A visit within 24 hours on the same day keeps it, and one within 24 hours whose day is earlier than yesterday resets it to 1. |
| AuthRoutes.GoogleBaseChoice | apps/backend/src/routes/auth.ts:122-126 | The trimmed BACKEND_URL is used exactly when it is non-empty and free of 'localhost' in any case. Otherwise the base comes from the headers. |
| AuthRoutes.DerivedBaseParts | apps/backend/src/routes/auth.ts:123-125 | For every request, the derived base is the scheme from `x-forwarded-proto` (else the request protocol), then `://`, then `x-forwarded-host` (else `host`, else nothing). |
| AuthRoutes.GoogleCallbackChoice | apps/backend/src/routes/auth.ts:127-129 | GOOGLE_CALLBACK_URL is used when it is set and free of 'localhost'. Otherwise the callback is the base plus `/api/auth/oauth/google/callback`. |
| AuthRoutes.GoogleCallbackUrl | apps/backend/src/routes/auth.ts:119-134 | The Google callback is GOOGLE_CALLBACK_URL only when that is set and free of 'localhost'. Any other callback ends in `/api/auth/oauth/google/callback`. |
| AuthRoutes.GoogleStepsAgree | apps/backend/src/routes/auth.ts:119-158 | The initiation and callback handlers use the same Google strategy and callback URL. |
| AuthRoutes.GitHubBaseChoice | apps/backend/src/routes/auth.ts:175-184 | The GitHub base is `(BACKEND_URL \|\| protocol://host)` trimmed, with an absent host rendered as "undefined" and no localhost filter. The callback is GITHUB_CALLBACK_URL or the base plus the path. Both handlers agree. |
| AuthRoutes.GitHubCallbackUrl | apps/backend/src/routes/auth.ts:174-178 | A set GITHUB_CALLBACK_URL is used as it is, even when it names localhost. Otherwise the callback ends in `/api/auth/oauth/github/callback`. |
| AuthRoutes.GitHubIgnoresForwarding | apps/backend/src/routes/auth.ts:174-178 | Unlike Google's, the GitHub callback never reads the forwarded headers: requests with the same protocol and `Host` get the same callback. |
| AuthRoutes.GitHubBlankBackend | apps/backend/src/routes/auth.ts:175-176 | A whitespace-only BACKEND_URL gives an empty base, and the callback is the bare path. |
| AuthRoutes.UnsetFrontend | apps/backend/src/routes/auth.ts:147-168 | With FRONTEND_URL unset, the failure redirect falls back to `http://localhost:5174`, but the landing redirects go to `undefined/dashboard` and `undefined/login?...`. |
| AuthRoutes.Landing | apps/backend/src/routes/auth.ts:160-170 | Both landing redirects are under FRONTEND_URL. The redirect ends in `/dashboard` exactly when recording the visit succeeded, and in `/login?error=oauth_callback_failed` exactly when it threw. |
| AuthRoutes.OauhRedirect | apps/backend/src/routes/auth.ts:139-143 | The redirect starts with `baseUrl/oauth/google/callback`, and is exactly that path when the query is empty. |
| AuthRoutes.OauhKeepsQuery | apps/backend/src/routes/auth.ts:139-143 | The `oauh` path redirects to `baseUrl/oauth/google/callback`. `?` and the form-encoded query are appended only for a non-empty query. Every key and value decodes back. |
| Uri.FormRoundTrip | apps/backend/src/routes/auth.ts:140 | Form-decoding a form-encoded string gives its UTF-8 bytes. |
| Uri.FormEncodedIsDelimiterFree | apps/backend/src/routes/auth.ts:140 | An encoded key or value holds no `&`, `=`, `?` or `#`. |
| AuthRoutes.FieldIssues | apps/backend/src/routes/auth.ts:9-13 | A field yields at most one issue, and none exactly when it is a string that passes its check. |
| AuthRoutes.RegisterValidation | apps/backend/src/routes/auth.ts:9-23 | The register schema passes exactly when name is a non-empty string, email a valid e-mail string and password at least 6 UTF-16 units long. |
| AuthRoutes.Register | apps/backend/src/routes/auth.ts:21-63 | The answer is 200, 400 or 500. An invalid body gets 400. A 200 only follows a valid body, a free e-mail, a name and e-mail that are non-blank once trimmed, and a successful save. |
| AuthRoutes.BlankNameRefused | apps/backend/src/routes/auth.ts:21-63 | A name of white space only passes the request schema, but the user schema's `required` fails on the trimmed name, so the answer is 500 'Registration failed'. |
| AuthRoutes.InvalidBodyRefused | apps/backend/src/routes/auth.ts:53-57 | A body failing the schema gets 400 'Validation failed'. |
| AuthRoutes.DuplicateEmailRefused | apps/backend/src/routes/auth.ts:26-29 | An e-mail already in use gets 400 'User already exists with this email'. |
| AuthRoutes.NewUserRegistered | apps/backend/src/routes/auth.ts:32-51 | A new user with a non-blank name and e-mail gets 200 with its id, its trimmed name, its trimmed lower-case e-mail, role free and streak 0. |
| QuizView.View.constructor | apps/frontend/src/components/QuizView.tsx:11-12 | `answers` starts as one -1 per question, and the results are hidden. |
| QuizView.View.Click | apps/frontend/src/components/QuizView.tsx:14-33 | Selecting stores the choice for that question only, and does nothing once the results are shown. |
| QuizView.SelectTouchesOne | apps/frontend/src/components/QuizView.tsx:14-18 | The copy differs from `answers` only at the chosen question. |
| QuizView.View.ShowResults | apps/frontend/src/components/QuizView.tsx:48 | Showing results sets the flag and keeps the answers. No method clears the flag. |
| QuizView.Score | apps/frontend/src/components/QuizView.tsx:20 | The score never exceeds the number of answers counted. |
| QuizView.ScoreCountsCorrect | apps/frontend/src/components/QuizView.tsx:20 | The `reduce` counts exactly the questions whose answer equals `answerIndex`. |
| QuizView.View.CurrentScore | apps/frontend/src/components/QuizView.tsx:20 | The score is the number of correct answers, at most the quiz length. |
| QuizView.InitialScoreZero | apps/frontend/src/components/QuizView.tsx:11-20 | Before any click, the score is 0 when every answer index is a real choice. |
| QuizView.LabelsMatchAnswers | apps/frontend/src/components/QuizView.tsx:35-41 | Choice labels are A to D, and each reads back as its own index under the `Answer:` rule. An unknown answer (-1) is shown as '@'. |
| QuizView.View.ScoreLine | apps/frontend/src/components/QuizView.tsx:49 | Once results are shown, the line is the number of correct answers ` / ` the number of questions. Before that, it is the placeholder as the source file holds it. |
| FlashcardsView.Step | apps/frontend/src/components/FlashcardsView.tsx:23-25 | A press keeps the index in the deck. Toggle flips the face and keeps the index, and Prev and Next show the front. |
| FlashcardsView.StepStaysInDeck | apps/frontend/src/components/FlashcardsView.tsx:23-25 | Toggle flips the face and keeps the index. Prev and Next clamp, stay put at the ends and show the front. The index stays in the deck. |
| FlashcardsView.RunStaysInDeck | apps/frontend/src/components/FlashcardsView.tsx:6-25 | Any sequence of presses keeps the index inside a non-empty deck. |
| FlashcardsView.View.constructor | apps/frontend/src/components/FlashcardsView.tsx:6-7 | The view starts at the first card, front up. |
| FlashcardsView.View.Press | apps/frontend/src/components/FlashcardsView.tsx:23-25 | One press changes the state as `Step` says, and the state stays valid. |
| FlashcardsView.View.PressAll | apps/frontend/src/components/FlashcardsView.tsx:23-25 | Presses one at a time reach the state `Run` gives. |
| FlashcardsView.Show | apps/frontend/src/components/FlashcardsView.tsx:9-20 | 'No flashcards' is shown exactly for an empty deck. Otherwise the counter is in 1..len, and the face shown follows `showBack`. |

## Left out

- Network transport is left out: `hfRequest`'s `fetch`, its HF_API_KEY check and its error text (hf.ts:6-26), and Gemini's `fetch`. Each is a service parameter that returns an outcome.
- `JSON.parse` is an oracle parameter, because no JSON grammar is modelled. `JSON.stringify` is concrete, with simplified string escaping.
- Temperatures and the other float payload parameters are left out, as floating point. The Gemini temperature is carried as a `real` value only.
- The serialisation of Hugging Face payloads and the Gemini request body as HTTP text is left out. The body is a record.
- `console.*` logging is left out.
- The `qa` function is an oracle: it is imported by ml.ts but not defined in hf.ts.
- `processDocument` is an oracle: document.ts is not part of this model.
- The bcrypt pre-save hook and `comparePassword` are left out, as foreign cryptographic calls. Registration passes the plain password to the user factory.
- Mongoose `save`, `findOne` and `_id` generation are oracle parameters.
- `User.findOne({ email })` is given the e-mail as submitted. Whether the database lower-cases it in the query is not modelled.
- Passport strategies, sessions, the login and logout routes and `req.login` are left out. The OAuth routes are modelled up to the options they pass to `passport.authenticate` and the redirects they issue.
- Local-time calendar arithmetic is left out: `new Date(y, m, d)` is a `midnight` parameter, and DST and time zones are not modelled.
- zod's e-mail regular expression is an `isEmail` parameter.
- zod's issue list is modelled as the path and message of each failing field. Zod's other issue fields are left out.
- `URLSearchParams` over a parsed query is modelled for flat, distinct string keys. Nested and array query values are left out.
- Strings are sequences of Unicode scalar values. Lone surrogates are left out, and UTF-16 length is computed from the scalar values.
- Regular expressions with the `i` flag fold ASCII letters only, which is what JavaScript does for these patterns without the `u` flag.
- UserModel.LowerString: it folds ASCII letters only. Mongoose's `lowercase` calls `toLowerCase`, which folds all of Unicode ('É' to 'é') and can lengthen a string ('İ' becomes two UTF-16 units). The stored e-mail of `User.constructor` and the e-mail `Register` reports are therefore modelled for ASCII case only.
- An inference request's outcome is a function of model, payload and attempt number. So two separate invocations of a route with the same input and environment are taken to behave alike. State the services keep between invocations, such as rate limits or load, is not modelled.
- React rendering and the other frontend pages are left out. Only the state kept by QuizView and FlashcardsView is modelled.
- Redact.EmailMatched: it covers the well-formed case only. The general leftmost-match behaviour is given by `EmailMatch`, with the regex's backtracking written out.
- Tasks.GeminiTextReturned: it covers a non-empty Gemini text that is not JSON. A falsy or non-string Gemini result is handled in the definition of the rung and not restated as a lemma.

## Findings

| source | as written | input that shows it | evidently intended | confidence | as-written member | corrected member |
|---|---|---|---|---|---|---|
| apps/backend/src/services/hf.ts:92-97 | The echo is looked for with `output.indexOf(nPrompt)`, where `nPrompt` is the normalised prompt, in the raw output. Take a prompt with a newline or a whitespace run that does not normalise to `''`. A verbatim echo of it at the start of the output is not found at that position. Unless the normalised prompt also occurs later in the raw output, the output is returned whole. The instruction prompt sent ends in `Text:\n\n…`, so this is the common case. | output `"a\n\nb c"`, prompt `"a\n\nb"`: the normalised output `"a b c"` starts with `"a b"`, but `"a b"` is not in the raw output | a verbatim echo of the prompt is removed, leaving `"c"` | not executed | Echo.VerbatimEchoMissed | Echo.FixedStripsVerbatimEcho |

`Tasks.SummarizeText`, and through it the summarize route, follows the code as written, with `Echo.StripEchoedPrompt`. `Tasks.SummarizeTextFixed` is the same pipeline with the corrected helper, `Echo.StripEchoedPromptFixed`. `Tasks.FixedSummaryDropsEcho` shows that the corrected pipeline removes a verbatim echo of the instruction prompt. `Echo.FixedAgreesElsewhere` shows that the corrected helper agrees with the code as written wherever the output does not start with the prompt verbatim.
