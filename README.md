# Verifika analysis session, modelled in Dafny

The web client lets a user paste a news article, send it with three
analysis options to a remote classifier, see the verdict, and keep a
session-only history of past verdicts. All of its behaviour beyond rendering
lives in the event handlers of the `App` component. This project models those
handlers and the state cells they update:

- `TextStats` (`text_stats.dfy`): the character and word counters of
  `handleTextChange`. It covers JavaScript's `trim()`, `split(/\s+/)` and the
  non-empty filter, and a reference scanner that counts maximal
  non-whitespace runs. Whitespace is ECMAScript's WhiteSpace and
  LineTerminator set, which both `\s` and `trim()` use.
- `AnalysisOptions` (`analysis_options.dfy`): the three request toggles, their
  all-true default and the single-flag toggle.
- `History` (`history.dfy`): the history entry, the 100-character preview,
  the newest-first prepend and deletion by id. It also shows that ids drawn
  from an increasing clock keep the ledger strictly descending.
- `Session` (`session.dfy`): class `App` with the component's state cells
  (`text`, `charCount`, `wordCount`, `loading`, `error`, `result`,
  `options`, `history`) and one method per handler. The invariant `Valid`
  says four things. The counters describe the text. A captured request
  is present exactly while loading. Result and error are
  never both shown. Neither is shown while a request is in flight. A
  submission is two atomic steps. `Submit` is the click on the submit button
  together with the synchronous start of `handleSubmit`. `Complete` applies
  the settled outcome of the request. The text and options that the pending
  call captured are kept in the field `inFlight`. `Clear` is likewise a click on the clear button,
  which is disabled while the text is blank. Each method's `modifies`
  clause names the fields it updates, so every other field is unchanged.
- `Scenarios` (`scenarios.dfy`): complete sessions driven through the
  handlers. One is a "Fake News" verdict with political bias switched off.
  One is an HTTP 500 response. One clears the input while a request is in
  flight.

The network outcome, the clock reading used as the entry id, and the
formatted timestamp are parameters of `App.Complete`.

Three behaviours of the code worth noting:

- Deleting an id removes every entry carrying it (a `filter`), not "exactly
  one entry". `History.DeleteOne` shows that the two agree when ids are
  distinct.
- The old error is not cleared when a result is recorded. It is cleared
  when the submission starts. `Valid` shows that no error can be present
  when a result is recorded.
- The preview always ends in `"..."`, even when the text was not cut.

## Model

| member | source | states |
|---|---|---|
| TextStats.IsSpace | src/App.js:224 | the whitespace of `\s` and `trim()`; among ASCII characters exactly tab, line feed, vertical tab, form feed, carriage return and space |
| TextStats.TrimStart | src/App.js:224 | the leading part of `trim()`: the rest is empty or starts with a non-space, and something is dropped whenever the text starts with whitespace |
| TextStats.TrimStartDropsBlank | src/App.js:224 | what survives the leading trim is a suffix of the text and all that was dropped is whitespace |
| TextStats.TrimEnd | src/App.js:224 | the trailing part of `trim()`: the rest is empty or ends with a non-space |
| TextStats.TrimEndDropsBlank | src/App.js:224 | what survives the trailing trim is a prefix of the text and all that was dropped is whitespace |
| TextStats.Trim | src/App.js:224 | `trim()` yields a text that neither starts nor ends with whitespace and is no longer than the input |
| TextStats.TrimIsBlankFramedSlice | src/App.js:224 | `trim()` keeps one contiguous slice of the text and drops only whitespace before and after it |
| TextStats.Split | src/App.js:224 | `split(/\s+/)` yields at least one fragment, no fragment contains whitespace, and the first fragment is empty exactly when the text is empty or starts with whitespace |
| TextStats.NonEmpty | src/App.js:224 | the `filter(word => word.length > 0)` keeps exactly the non-empty fragments and nothing else |
| TextStats.NonEmptyConcat | src/App.js:224 | the filter acts on each part of the fragment list independently, so it keeps the order and repetitions of the fragments it keeps |
| TextStats.Words | src/App.js:224 | every counted word is non-empty and free of whitespace |
| TextStats.SplitCountsRuns | src/App.js:224 | the non-empty fragments of the split are as many as the maximal non-whitespace runs counted by the reference scanner |
| TextStats.RunsTrim | src/App.js:224 | trimming before the split does not change the number of runs |
| TextStats.WordCount | src/App.js:224 | the `.length` of the filtered split of the trimmed text equals the number of maximal non-whitespace runs of the raw text |
| TextStats.WordCountZeroIffBlank | src/App.js:224 | the word count is 0 if and only if the text is empty or all whitespace |
| TextStats.TrimEmptyIffBlank | src/App.js:842 | `!text.trim()` holds if and only if the text is empty or all whitespace |
| AnalysisOptions.Toggle | src/App.js:246-251 | the toggled option is negated and the other two are unchanged |
| AnalysisOptions.ToggleTwice | src/App.js:246-251 | toggling the same option twice restores the original options |
| AnalysisOptions.ToggleCommutes | src/App.js:246-251 | toggles of two options give the same options in either order |
| AnalysisOptions.Defaults | src/App.js:171-175 | every option starts switched on |
| History.Preview | src/App.js:209 | the preview is at most the first 100 characters of the text followed by `"..."`, and the whole text plus `"..."` when it has at most 100 characters |
| History.Record | src/App.js:207-212 | the new entry is first and the older entries follow in their old order |
| History.RecordKeepsDescending | src/App.js:207-212 | with a clock reading later than the newest id, the ledger stays strictly newest-first by id |
| History.DeleteById | src/App.js:242-244 | no remaining entry has the id, exactly the entries carrying it are removed, and an absent id leaves the ledger unchanged |
| History.DeleteMembership | src/App.js:243 | an entry remains after deletion if and only if it was in the ledger with a different id |
| History.DeleteConcat | src/App.js:243 | deletion acts on every part of the ledger independently, so the remaining entries keep their order |
| History.DeleteIdempotent | src/App.js:243 | deleting the same id twice is the same as deleting it once |
| History.DeleteOne | src/App.js:243 | with distinct ids, deleting a present id leaves one entry fewer and none with that id |
| History.DeleteKeepsDescending | src/App.js:243 | deletion keeps a newest-first ledger newest-first |
| Session.ClearEnabled | src/App.js:813 | the clear button is enabled exactly when the text has at least one word |
| Session.SubmitEnabled | src/App.js:842 | the submit button is enabled exactly when nothing is loading and the text has at least one word |
| Session.SubmitEnabledIffNonBlank | src/App.js:842 | the submit button is enabled exactly when nothing is loading and the text has a non-whitespace character |
| Session.App.constructor | src/App.js:163-175 | the initial state: empty text, zero counts, not loading, no result or error, all options on, empty history |
| Session.App.SetText | src/App.js:220-225 | the raw text is stored, the character count is its length without trimming, and the word count is its number of maximal non-whitespace runs |
| Session.App.ToggleOption | src/App.js:246-251 | exactly the named option flips |
| Session.App.Submit | src/App.js:179-184 | a click while the button is disabled changes nothing; otherwise loading starts, result and error are cleared, and the text and options are captured for the request |
| Session.App.Complete | src/App.js:185-217 | on success the result holds the data and one entry previewing the submitted text is prepended; a response that is not ok sets the error "Failed to analyze text"; a thrown error sets its message; on failure the result stays empty and the history is unchanged; loading always ends |
| Session.App.Clear | src/App.js:234-240 | a click while the clear button is disabled (blank text) changes nothing; otherwise the text, result, error and both counts are reset; history, options and a pending request are untouched |
| Session.App.DeleteHistory | src/App.js:242-244 | the history becomes the deletion of the id from the old history |
| Session.App.ClearHistory | src/App.js:261-264 | the history is empty afterwards |
| Scenarios.SuccessfulAnalysis | src/App.js:179-218 | with political bias off, the request carries the text and `{sentiment: true, political_bias: false, clickbait: true}`, and a "Fake News" verdict is shown and recorded once in history, in an entry holding that verdict |
| Scenarios.FailedAnalysis | src/App.js:199-201 | an HTTP 500 response shows "Failed to analyze text", with no result and no history entry |
| Scenarios.ClearDuringFlight | src/App.js:179-218 | clearing the input while a request is in flight does not stop its response from being shown and recorded in history, holding that response and the preview of the text that was sent |

## Left out

- Rendering, theme, layout, icons and animations: these are presentation only.
- The `fetch` call, the JSON encoding of the request, JSON decoding of the response and the artificial 3-second delay: network I/O and timers. The settled request is the `Outcome` parameter of `App.Complete`.
- Interleaving of other events with a pending request is limited to what the two atomic steps allow. Any handler may run between `Submit` and `Complete`. A second `Submit` cannot start because `loading` is true.
- `Date.now()` and `toLocaleString()`: the clock and the locale are the `now` and `stamp` parameters of `App.Complete`.
- The copy-to-clipboard handler, its `copied` flag, and every `toFixed` formatting of scores: a browser API and floating-point formatting.
- The history menu's anchor element: UI-only state.
- Everything in the response besides `data.prediction` and `data.confidence`, such as `additional_analysis`: the handlers never inspect it.
- Character counts are counts of Unicode scalar values, while JavaScript's `length` and `substring` count UTF-16 code units. They differ only for characters outside the Basic Multilingual Plane.
