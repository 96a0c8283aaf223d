# E-mail triage pipeline, modelled in Dafny

This project models the core of an e-mail triage back end. The back end has three parts:

- **Text preprocessing (`NLPProcessor`).**
  - `clean_text` lowercases the text, strips accents, deletes URLs and e-mail-like words, blanks out disallowed characters, and collapses whitespace.
  - `remove_stopwords` drops Portuguese stop-words from the tokens.
  - `apply_stemming` stems every token.
  - `preprocess` chains the three, with two flags.
- **Classification (`GeminiService`).**
  - The constructor builds an ordered, duplicate-free list of candidate models: an optional override first, then the seven defaults without it (six when the override is itself a default).
  - `analyze_email` builds one prompt and tries the candidates in order until one answers with a JSON object.
  - If no key is configured, or every candidate fails, it returns an error result.
- **The endpoint `process_email`.**
  - It validates the request body and runs the three stages in order.
  - It classifies the stemmed text together with the original text.
  - It hands a record to persistence and answers with a six-key JSON object.
  - The filename checks of `process_file` are modelled too.

## Modules

- **`Values`**: optional values, Python truthiness, and the JSON value type.
- **`Text`**: Python's whitespace set, `str.split()`, `' '.join`, and the "tidy" shape of normalised text. It proves the lemmas that relate these.
- **`TextCleaning`**: the six steps of `clean_text`. Each regular-expression substitution is written as the left-to-right scan that `re.sub` performs.
  - URL body characters are `{'!'} ∪ ['$'..'_'] ∪ ['a'..'z']` once the text is lowercased.
  - `\S+@\S+` deletes exactly the non-whitespace runs that have an '@' in an inner position.
  - On ASCII, `\w` means letters, digits and '_'.
- **`CleanTextProperties`**: what the output of `clean_text` satisfies, including the conditions under which it is idempotent.
- **`NlpProcessor`**: the stop-word set, stop-word removal, stemming and `preprocess`.
- **`GeminiService`**: the candidate list, the prompt and the fallback loop.
  - The class `GeminiService` holds the key, the client flag and the candidates.
  - Its constructor builds the candidate list with a loop.
  - `AnalyzeEmail` is the fallback loop, proved against the specification function `Classify`.
  - The prompt text is a constant of the object; it is the same f-string for every call.
- **`App`**: `process_email` as a method, proved against the specification function `Outcome`, with lemmas about validation, the stage order, the saved record and the response.

Foreign code becomes parameters:

- The Unicode tables of `str.lower` and NFKD are a `CharTables` value.
- The NLTK tokenizer and the RSLP stemmer are functions stored in the `Processor`.
- The Gemini call followed by `json.loads` is an oracle `generate(model, prompt)`. It returns either a raised error message or a decoded JSON value.
- The request body and `EMAIL_USER` are inputs.
- The record passed to `save_analysis` is an output.

## Code versus stated design

Where the code and its stated design differ, the model follows the code:

- **Idempotence of `clean_text`.** It holds only when the Unicode tables never produce an ASCII capital (`CleanTextIdempotent`). Lowercasing runs before the decomposition, so a character such as U+2122 (™, no lowercase, NFKD "TM") cleans to "TM", and "TM" cleans to "tm" (`CleanTextNotIdempotentOnCapitalDecomposition`).
- **The failure result.** When every candidate fails, only `suggested_response` names the tried models and the last error. `reasoning` is the fixed text "Falha de conexão com múltiplos modelos IA".
- **Unreadable body.** A request body that `request.get_json()` cannot read makes it raise, and the outer `except` answers 500, not 400 "No text provided" (`Validate` maps the input `None` to `ServerError`).
- **Unvalidated classification.** A successful payload is returned unvalidated (`ClassificationNotValidated`). It may carry any `classification`, "erro" included, and need not have the other keys.

## Model

| member | source | states |
|---|---|---|
| TextCleaning.Lower | src/nlp_processor.py:85 | On ASCII text, character i of the result is character i of the input with 'A'..'Z' mapped to 'a'..'z' and everything else kept, so text already lowercase is unchanged; with tables that never yield a capital, no capital comes out |
| TextCleaning.AsciiPart | src/nlp_processor.py:88 | The ASCII filter yields only ASCII and only characters of its input, and leaves ASCII text unchanged; `AsciiPartCounts` and `AsciiPartAppend` state which characters it keeps and in what order |
| TextCleaning.StripAccents | src/nlp_processor.py:88 | NFKD plus the ASCII filter yields ASCII, leaves ASCII text unchanged, and adds no capital when the decomposition table yields none |
| TextCleaning.LowerCharwise | src/nlp_processor.py:85 | `lower()` maps a concatenation to the concatenation of the results, and one character to its `LowerChar` image |
| TextCleaning.AsciiPartAppend | src/nlp_processor.py:88 | The ASCII filter maps a concatenation to the concatenation of the results, so the ASCII characters are kept in order |
| TextCleaning.AsciiPartCounts | src/nlp_processor.py:88 | The ASCII filter keeps every ASCII character exactly as often as it occurs in its input |
| TextCleaning.StripAccentsCharwise | src/nlp_processor.py:88 | Accent stripping maps a concatenation to the concatenation of the results, and one character to `FoldChar`: itself when ASCII, else the ASCII part of its decomposition |
| TextCleaning.StripAccentsInContext | src/nlp_processor.py:88 | Inside any text, an ASCII character survives as it is and any other character becomes the ASCII part of its decomposition, the rest of the text being stripped independently |
| TextCleaning.SchemeLen | src/nlp_processor.py:91 | A positive length means the text starts with exactly "http://" or "https://" (at least 7 characters, 'h' first, '/' at index 6); `SchemeRecognised` gives the converse |
| TextCleaning.UrlMatchLen | src/nlp_processor.py:91 | A positive match is a recognised scheme followed by a non-empty run of URL characters that stops at the end of the text or before a non-URL character; `UrlMatchCovers` gives the converse |
| TextCleaning.RemoveUrls | src/nlp_processor.py:91 | URL removal only deletes characters, and text without '/' passes unchanged; `UrlDeletedAfterAnyText`, `UrlDeletedAfterUnmatchedText` and `RemoveUrlsKeepsUnmatchedPrefix` state which characters go |
| TextCleaning.EmailMatchLen | src/nlp_processor.py:94 | An e-mail match lies inside the text and needs an '@' |
| TextCleaning.RemoveEmails | src/nlp_processor.py:94 | E-mail removal only deletes characters, and text without '@' passes unchanged |
| TextCleaning.ReplaceDisallowed | src/nlp_processor.py:97 | Same length; each character is kept when it is a word character, whitespace or one of `. , ! ? ; :`, and otherwise becomes a space |
| TextCleaning.Normalize | src/nlp_processor.py:100 | Collapsing whitespace runs then stripping equals joining the whitespace-separated words with single spaces, and the result is tidy |
| TextCleaning.CollapseSpaces | src/nlp_processor.py:100 | Definition of `re.sub(r'\s+', ' ', text)`; characterised with `Strip` by `Normalize` |
| TextCleaning.Strip | src/nlp_processor.py:100 | Definition of `str.strip()`; characterised with `CollapseSpaces` by `Normalize` |
| TextCleaning.CleanText | src/nlp_processor.py:85-102 | Every output character is an ASCII letter, a digit, '_', one of `. , ! ? ; :` or a space; no leading or trailing space, no double space, no other whitespace |
| Text.Split | app.py:151 | Definition of `str.split()`; characterised by `SplitWords`, `SplitJoin` and `TidyIsJoinOfSplit` |
| Text.Join | src/nlp_processor.py:116 | Definition of `' '.join`; characterised by `SplitJoin` and `JoinTidy` |
| Text.SplitWords | app.py:151 | `str.split()` yields only non-empty pieces without whitespace |
| Text.SplitJoin | src/nlp_processor.py:116 | Splitting the single-space join of words gives back exactly those words |
| Text.JoinTidy | src/nlp_processor.py:116 | The single-space join of words is tidy |
| Text.TidyIsJoinOfSplit | src/nlp_processor.py:100 | A tidy string is the single-space join of its own words |
| CleanTextProperties.RemoveUrlsCopiesPrefix | src/nlp_processor.py:91 | Text before a URL that contains no 'h' is copied unchanged |
| CleanTextProperties.UrlDeletedWhole | src/nlp_processor.py:91 | "http://" or "https://" plus a maximal run of URL characters is deleted entirely, with no word boundary needed before it, and text before it without an 'h' is kept exactly (for "xhttp://a.b c", p = "x", body = "a.b", q = " c" gives "x c") |
| CleanTextProperties.MatchDeletedAfterAnyText | src/nlp_processor.py:91 | A URL match followed by a character that cannot extend it is deleted whole after any text; what the scan keeps of the text before it is drawn from that text alone |
| CleanTextProperties.UrlDeletedAfterAnyText | src/nlp_processor.py:91 | "http://" or "https://" plus a maximal run of URL characters is deleted entirely whatever precedes it (for "tenho http://x.com y" the URL goes): the output is some characters of the text before it followed by the scan of the text after it |
| CleanTextProperties.RemoveUrlsKeepsUnmatched | src/nlp_processor.py:91 | A whole text in which no position starts a URL match comes out unchanged (so "a/b" stays "a/b") |
| CleanTextProperties.RemoveUrlsKeepsUnmatchedPrefix | src/nlp_processor.py:91 | Only URL matches are deleted: text in which no position starts a match is copied unchanged, whatever follows it, and the scan goes on after it |
| CleanTextProperties.UrlDeletedAfterUnmatchedText | src/nlp_processor.py:91 | "http://" or "https://" plus a maximal run of URL characters is deleted entirely and text before it in which no match starts is kept exactly, 'h' included (for "tenho http://x.com y" the output is "tenho " followed by the scan of " y") |
| CleanTextProperties.EmailRunsDeletedWhole | src/nlp_processor.py:94 | The `\S+@\S+` scanner equals deleting every maximal non-whitespace run with an inner '@' as a whole and keeping every other run |
| CleanTextProperties.BlankCleansToEmpty | src/nlp_processor.py:100 | Any text of ASCII whitespace, "" and "   \n" included, cleans to "" |
| CleanTextProperties.CleanTextIsAscii | src/nlp_processor.py:88-100 | The output of `clean_text` is ASCII |
| CleanTextProperties.CleanTextLowercase | src/nlp_processor.py:85-100 | With tables that never yield an ASCII capital, the output has no capital |
| CleanTextProperties.LaterStepsFix | src/nlp_processor.py:91-100 | On tidy clean text, URL removal, e-mail removal, replacement and normalisation each change nothing |
| CleanTextProperties.CleanTextFixesCleaned | src/nlp_processor.py:85-100 | Every step of `clean_text` fixes a tidy string of clean lowercase characters |
| CleanTextProperties.CleanTextIdempotent | src/nlp_processor.py:85-100 | `clean_text(clean_text(x)) == clean_text(x)` whenever the tables never yield an ASCII capital |
| CleanTextProperties.CleanTextNotIdempotentOnCapitalDecomposition | src/nlp_processor.py:85-88 | A non-ASCII character with no lowercase form whose decomposition is "TM" cleans to "TM", which cleans to "tm" |
| NlpProcessor.LoadStopwords | src/nlp_processor.py:62-72 | The stop-words are the corpus words when the corpus loads, and the 29-word built-in set otherwise |
| NlpProcessor.NewProcessor | src/nlp_processor.py:56-60 | A new processor's stop-words are the corpus words when the corpus loads, and the built-in set otherwise |
| NlpProcessor.KeepTokens | src/nlp_processor.py:115 | The kept tokens are no more than the input, and none is a stop-word after lowercasing |
| NlpProcessor.KeepTokensCounts | src/nlp_processor.py:115 | Each token whose lowercase is not a stop-word is kept exactly as often as it occurs; stop-words never are |
| NlpProcessor.KeepTokensInOrder | src/nlp_processor.py:115 | The kept tokens are a subsequence of the input, in their original order |
| NlpProcessor.KeepTokensAppend | src/nlp_processor.py:115 | Filtering a concatenation filters each part: the filter is a token-by-token decision |
| NlpProcessor.RemoveStopwordsSplits | src/nlp_processor.py:114-116 | When the tokenizer yields words, `remove_stopwords` output splits back into exactly the kept tokens |
| NlpProcessor.RemoveStopwords | src/nlp_processor.py:114-116 | Definition: the single-space join of the kept tokens; characterised by `KeepTokensCounts`, `KeepTokensInOrder` and `RemoveStopwordsSplits` |
| NlpProcessor.AccentedStopWordsNeverMatch | src/nlp_processor.py:68-72 | Against ASCII tokens the built-in set filters exactly like the set without 'é' and 'são' |
| NlpProcessor.StemTokens | src/nlp_processor.py:129 | One stem per token: output token i is the stem of input token i |
| NlpProcessor.StemTokensAppend | src/nlp_processor.py:129 | Stemming a concatenation stems each part |
| NlpProcessor.ApplyStemmingSplits | src/nlp_processor.py:128-130 | When the stems are words, `apply_stemming` output splits back into the stems of the tokens, in order |
| NlpProcessor.ApplyStemming | src/nlp_processor.py:128-130 | Definition: the single-space join of the stems; characterised by `StemTokens` and `ApplyStemmingSplits` |
| NlpProcessor.Preprocess | src/nlp_processor.py:132-155 | With both flags off, `preprocess` is `clean_text`; both flags default to true, as in the source's signature |
| NlpProcessor.PreprocessStages | src/nlp_processor.py:144-155 | With stop-word removal, stemming or both, each stage receives the output of the one before, starting from `clean_text` |
| GeminiService.Without | src/gemini_service.py:37-39 | The list without x holds exactly the other elements, never x |
| GeminiService.Candidates | src/gemini_service.py:18-39 | Definition: the override (when set) followed by the defaults without it; characterised by `CandidatesShape` and computed by `BuildCandidates` |
| GeminiService.DefaultModelsDistinct | src/gemini_service.py:27-35 | The seven default names are distinct |
| GeminiService.WithoutDistinct | src/gemini_service.py:37-39 | Removing an element keeps a list duplicate-free and shortens it by one exactly when the element was there |
| GeminiService.CandidatesShape | src/gemini_service.py:18-39 | Candidates have no duplicates and include every default; the override comes first; there are 8 when the override is set and not a default, else 7 |
| GeminiService.CandidatesStep | src/gemini_service.py:37-39 | One loop step appends the default exactly when it is not yet in the list |
| GeminiService.BuildCandidates | src/gemini_service.py:18-39 | The append loop with its membership test builds exactly the candidate list |
| GeminiService.GeminiService.constructor | src/gemini_service.py:12-42 | The key is the argument if truthy, else `GEMINI_API_KEY`; with a truthy key there is a client and the candidate list, otherwise no client and no candidates |
| GeminiService.PromptEmbedsTexts | src/gemini_service.py:51-72 | The prompt is the head, the original text, the middle, the processed text and the tail, each found verbatim at its place |
| GeminiService.Prompt | src/gemini_service.py:51-72 | Definition of the f-string over a template; characterised by `PromptEmbedsTexts` |
| GeminiService.Tagged | src/gemini_service.py:94 | A successful payload gets `model_used` set to the candidate, replacing any such key; every other key is kept |
| GeminiService.TryModel | src/gemini_service.py:78-98 | One attempt succeeds exactly when the reply decodes to an object, then returning it tagged; otherwise it yields the raised message or the item-assignment error |
| GeminiService.FirstSuccess | src/gemini_service.py:77-95 | The index of the first candidate that succeeds: every earlier one fails |
| GeminiService.Classify | src/gemini_service.py:44-111 | Definition of the result of `analyze_email`; characterised by `NotConfiguredResult`, `FirstSuccessWins`, `AllCandidatesFail` and `AllFailedShape`, and computed by `AnalyzeEmail` |
| GeminiService.GeminiService.AnalyzeEmail | src/gemini_service.py:44-111 | The result is `Classify`; generation calls go to candidates 0, 1, … in order, each with the same prompt, up to and including the first success, or to all of them; with distinct candidates, as the constructor guarantees (`Valid`), no model is called twice |
| GeminiService.NotConfiguredResult | src/gemini_service.py:45-49 | Without a client the result is exactly `classification` "erro" and the fixed message, and no call is made |
| GeminiService.FirstSuccessWins | src/gemini_service.py:91-95 | The first candidate returning an object wins: its payload with `model_used` set to it; later candidates are not called |
| GeminiService.ClassificationNotValidated | src/gemini_service.py:91-95 | Whatever `classification` the winning payload holds is returned unchanged |
| GeminiService.NonObjectFails | src/gemini_service.py:91-98 | JSON that is not an object fails the attempt with Python's item-assignment error message |
| GeminiService.AssignmentError | src/gemini_service.py:94 | Definition of the TypeError text `result['model_used'] = ...` raises on non-object JSON; used by `NonObjectFails` |
| GeminiService.AllCandidatesFail | src/gemini_service.py:97-111 | When all candidates fail, all are called in order and the summary names the whole list and the error of the last one |
| GeminiService.AllFailedShape | src/gemini_service.py:103-111 | The summary has exactly `classification` "erro", the message "Falha em todos os modelos tentados (m1, m2, …). Último erro: e", and the fixed `reasoning` |
| GeminiService.AllFailed | src/gemini_service.py:103-111 | Definition of the all-failed summary; characterised by `AllFailedShape` and `AllCandidatesFail` |
| App.RecordToSave | app.py:139-143 | The saved record is the analysis plus `subject` and `sender`, which replace same-named keys; other keys are kept |
| App.Validate | app.py:117-128 | Definition of the checks before processing; characterised by `NoTextRejected`, `NoUserRejected`, `UserTruthy` and `DefaultsApplied` |
| App.RunStages | app.py:131-133 | Definition of the three stage texts; characterised by `StagesArePreprocess` |
| App.Outcome | app.py:115-157 | Definition of the reply and the saved record; characterised by `BadRequestOnlyFromValidation`, `SuccessIff`, `AcceptedRequest` and `ResponseBodyShape`, and computed by `ProcessEmail` |
| App.ProcessEmail | app.py:115-157 | The reply and the saved record are `Outcome`; nothing is classified unless a record is saved, no model is called twice, and the classifier gets the prompt built from the original text and the fully preprocessed text |
| App.BadRequestOnlyFromValidation | app.py:117-157 | A 400 reply comes only from validation, and a rejected request saves nothing |
| App.NoTextRejected | app.py:118-120 | 400 "No text provided" exactly when the body is falsy or has no 'text'; nothing is saved |
| App.HasTextKey | app.py:119 | Definition of `'text' in data` on an object, a list or a string, raising otherwise; characterised through `Validate` by `NoTextRejected` |
| App.UserTruthy | app.py:125 | The user is truthy exactly when the body's `email_user` or `EMAIL_USER` is |
| App.NoUserRejected | app.py:125-128 | 400 with the unidentified-user message exactly when a body with 'text' has neither a truthy `email_user` nor `EMAIL_USER`; nothing is saved |
| App.DefaultsApplied | app.py:122-125 | `subject` defaults to 'Manual Input' and `sender` to 'User'; the user is the body's `email_user` when truthy, else `EMAIL_USER` |
| App.StagesArePreprocess | app.py:131-133 | The three stage texts are `preprocess` with no flag, with stop-word removal only, and with both flags |
| App.AcceptedRequest | app.py:131-155 | A valid request with a string text is answered 200, whatever the analysis; the analysis is the classification of the original and fully preprocessed texts; the record is saved under the user |
| App.ResponseBodyShape | app.py:146-153 | The reply has exactly the six keys, with the original text, the three stage texts and the analysis |
| App.ResponseBody | app.py:146-153 | Definition of the success reply; characterised by `ResponseBodyShape` and `StemsAreWords` |
| App.SuccessIff | app.py:117-157 | A 200 reply exactly when validation passes and the text is a string, and a record is saved exactly then |
| App.StemsAreWords | app.py:151 | `stems` is `stemmed_text.split()`: its words in order, none empty |
| App.StemsAreStemmedTokens | app.py:151 | When the stems are words, `stems` lists the stem of each token of the stop-word-free text |
| App.CheckUpload | app.py:95-110 | The upload goes on to the PDF reader exactly when there is a file part and its name ends in ".pdf" |
| App.UploadMessages | app.py:95-110 | A missing part, an empty filename and another extension each get their own 400 message; the test is case-sensitive, so ".PDF" is rejected |

## Left out

- Flask routing, CORS and `jsonify` are not modelled. Neither are the module-level service objects, which are parameters here, nor the other routes (`/`, `/health`, e-mail fetching, history): they are outside the pipeline.
- JSON key order in replies is not modelled; objects are maps.
- The Supabase client is not modelled. `save_analysis` catches its own errors, so the model stops at the arguments passed to it (`App.Saved`).
- Reading the PDF and extracting its text (app.py:103-108) is library I/O and is not modelled; `App.CheckUpload` stops at "read the PDF".
- NLTK resource downloads, the SSL patch and directory creation are environment set-up. The tokenizer and the RSLP stemmer are foreign code and are function parameters.
- The Unicode tables of `str.lower` and NFKD are parameters (`CharTables`).
- TextCleaning.Lower: lowercasing is character by character, so Python's context-dependent rule for the Greek final sigma is not modelled.
- The Gemini client, `GenerateContentConfig`, `json.loads` and logging are not modelled. The call plus decoding is the oracle `generate`, which yields a raised message or a JSON value. A failing `genai.Client` construction is not modelled.
- App.ProcessEmail: a 500 reply is `ServerError` without the text `str(e)` of the exception. A body that `request.get_json()` cannot read is the input `None`, and the model answers it with `ServerError` (500), not with 400 "No text provided".
- NlpProcessor.LoadStopwords: the built-in set is written out with its 29 words, but its size is not stated as a lemma.
- The concrete examples "xhttp://a.b c", "" and "   \n" are not stated as lemmas of their own. They are instances of `CleanTextProperties.UrlDeletedWhole`, `CleanTextProperties.UrlDeletedAfterAnyText` and `CleanTextProperties.BlankCleansToEmpty`.
- Concurrency and timeouts are not modelled. The pipeline is sequential and the model has no clock.
