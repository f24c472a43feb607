# Socio.io content filter — a Dafny model

This project models the Socio.io content filter. The filter has three parts:

- **The content script.** It scans a page's text nodes and `img` elements in batches. A fixed list of explicit words is masked locally. Longer unmatched text, and substantial images, go to a backend. Explicit images are blurred inside a wrapper. Every redaction is recorded for undo and reported to the background script. A mutation observer rescans when elements are added.
- **The background script.** It keeps the stored configuration, the statistics counters and the per-domain history.
- **The backend.** It is an Express router with a text verdict (local word filter plus an AI prediction) and an image verdict (AI scores against thresholds).

Everything is pure functions over immutable data.

- **The page** (`Page`). Text nodes and images are identified by their position in document order. An image sits in a slot of a page element or of a filter-made wrapper. Wrappers are kept in a list, and removing one leaves `None` in its place.
- **The content script's state** (`Client`). It is the configuration copy, the document, the recovery ledger `filteredElements`, and the reports queued for the background script.
- **The backend as the content script sees it** (`Backend`). It is a function from text to reply, and from image position to outcome.

The asynchronous replies are applied at the point where the request is made. The `Interplay` module connects these outcomes to the router's responses, and the queued reports to the background store.

Modules, in dependency order:

- `Common`: optional values and JavaScript's `x || d`.
- `Settings`: the configuration object and `Object.assign`.
- `Lexical`: the whole-word, case-insensitive `\bword\b` replacement shared by `applyBasicFilter` and `applyBasicTextFilter`.
- `TextBackend` and `ImageBackend`: the two backend verdicts.
- `Router`: the routes of `app.js`.
- `Background`: the background store.
- `Page` and `Redaction`: the document, the two redactions and their recovery.
- `Batching`: the batch recursion shared by both scans.
- `TextScan` and `ImageScan`: the two scans.
- `Content`: `init`, `startFiltering`, the observer and the message listener.
- `Interplay`: the pieces composed.

Details of the code that the model keeps:

- A second recovery of the same image restores the class and style and then throws, because the wrapper has no parent any more.
- The image result carries no `method` field.
- When the text request fails, the text is left as it is. Only images fall back to a local rule, the aspect-ratio rule.
- A reply is applied to its node without checking that the node is still in the page. Nodes are never removed in this model.

Behaviours of the code that the proofs make explicit:

- An image the server says to filter is reported twice: once as `blurred-image` and once as `filtered-image`. When the background handles the two messages one after the other, it counts the image twice.
- The page recovers images under the type `image`. The history stores them under `images`. So one `recoverContent` message can never both restore an image and mark its history entry.
- `refreshFilters` checks only `enabled`, never `isConfigured`.
- Turning filtering off does not disconnect the mutation observer. `startFiltering` returns before it would set up a new one, and the callback checks `filterText` and `filterImages` but never `enabled`. So text added to the page later is still masked.
- The page's ledger starts empty at every `startFiltering`, while the history only grows. After a refresh, a history entry's index no longer names the redaction the page would undo, and a masked node can no longer be restored.
- With no method chosen, the content script asks for `deepai`. A server configured with Google credentials only answers 400, so the page falls back to the local aspect-ratio rule.
- An explicit AI text verdict without detected terms changes nothing.
- A safe score of exactly 0 reads as 1.0.

## Model

| member | source | states |
|---|---|---|
| Common.NumberOr | backend/image_filteration.js:74-78 | the or-default of a number: a missing or zero value gives the default, any other value is kept |
| Settings.Merge | browser-extension/background.js:119-126 | `Object.assign`: the keys are the union, the patch's values win, every other key keeps its value |
| Settings.MergeIdempotent | browser-extension/background.js:123 | applying the same patch twice equals applying it once; an empty patch changes nothing |
| Background.OnInstalled | browser-extension/background.js:18-23 | the defaults are written exactly when nothing is stored; a stored configuration is never overwritten |
| Background.UpdateStats | browser-extension/background.js:30-39 | `text` raises `textFiltered` by one and `image` raises `imagesFiltered` by one; any other type, or a store without stats, is left unchanged; no other key changes |
| Background.AddToHistory | browser-extension/background.js:43-66 | the domain's bucket is created if missing and the entry (`recovered` false) is appended to the list of its kind; other domains and other keys are unchanged; the type `image` goes to the `images` list |
| Background.MarkRecovered | browser-extension/background.js:106-113 | the entry `history[domain][type][i]` becomes recovered when it exists and nothing is written otherwise; every other entry is unchanged |
| Background.UpdateConfig | browser-extension/background.js:119-128 | a stored configuration is shallow-merged with the patch; with nothing stored nothing is written |
| Background.AddToHistoryKeepsRecovered | browser-extension/background.js:43-66 | appending to the history never clears or drops a recovered flag |
| Background.MarkRecoveredKeepsRecovered | browser-extension/background.js:106-113 | marking one entry keeps every other recovered flag |
| Background.UpdateStatsKeepsRecovered | browser-extension/background.js:30-39 | counting never touches a recovered flag |
| Background.UpdateConfigKeepsRecovered | browser-extension/background.js:119-126 | a patch without a `history` key keeps every recovered flag |
| Page.Utf16Len | browser-extension/content.js:147 | `length` in UTF-16 code units: a single character counts 1 inside the Basic Multilingual Plane and 2 outside it; a text counts between its number of characters and twice that, exactly its number when no character lies outside the plane |
| Page.Utf16LenAppend | browser-extension/content.js:147 | code units add up over concatenation, so with the single-character case every text counts 2 per character outside the Basic Multilingual Plane and 1 per other character |
| Lexical.Stars | browser-extension/content.js:165 | `'*'.repeat(n)`: n characters, all the mask |
| Lexical.ReplaceFromAt | browser-extension/content.js:164-165 | one global replace of `\bw\b` masks exactly the positions covered by a whole-word match found by the left-to-right scan |
| Lexical.ReplaceWordMasks | browser-extension/content.js:164-165 | for a lower-case word of word characters, a global replace masks exactly the positions inside its whole-word, case-insensitive matches |
| Lexical.ReplaceWordOnlyMasks | backend/text_content_filteration.js:72-73 | replacing a plain term changes characters only to the mask, keeps masks, and changes nothing when the term does not occur |
| Lexical.MaskWordsOnlyMasks | backend/text_content_filteration.js:70-76 | replacing any list of plain terms one after another only turns characters into the mask |
| Lexical.MaskWordsMasks | browser-extension/content.js:161-168 | applying a list of distinct lower-case words in order masks exactly the positions covered by a match of some word in the original text; an earlier word's masking never creates or hides a later word's match |
| Lexical.OccursUnchanged | browser-extension/content.js:163-166 | masking other listed words leaves a word's whole-word occurrences exactly as they were |
| Lexical.MaskedHasNoOccurrence | browser-extension/content.js:161-168 | after masking, no listed word occurs any more |
| Lexical.BasicFilterMasks | browser-extension/content.js:154-169 | `applyBasicFilter` masks exactly the characters inside whole-word matches of the five listed words |
| Lexical.BasicFilterIdentity | browser-extension/content.js:126-128 | `applyBasicFilter` returns its input unchanged exactly when none of the listed words occurs as a whole word |
| Lexical.BasicFilterShape | browser-extension/content.js:154-169 | the filtered text has the input's length, and each character is the input's or the mask |
| Lexical.BasicFilterIdempotent | browser-extension/content.js:154-169 | filtering a filtered text changes nothing |
| Lexical.NoWordCharNoWord | browser-extension/content.js:161-168 | a text without word characters holds no listed word |
| Lexical.ExplicitIsMasked | browser-extension/content.js:154-169 | the word "explicit" alone occurs and is masked to eight asterisks |
| TextBackend.FoundWordsMembers | backend/text_content_filteration.js:12-16 | the found list holds exactly the listed words occurring in the text, each once, in list order |
| TextBackend.OccursAfterPrefix | backend/text_content_filteration.js:14-15 | `regex.test` on the text already masked for the earlier words answers as it would on the original text |
| TextBackend.BasicTextFilter | backend/text_content_filteration.js:9-18 | `applyBasicTextFilter` returns the content script's mask of the text and exactly the listed words that occur in it, without repeats; `found` is empty exactly when nothing was masked |
| TextBackend.FoldString | backend/text_content_filteration.js:51 | ASCII letters are folded to lower case and every other character is kept, position by position (see the `TextBackend.ExplicitCategory` line under "Left out" for how this compares with `toLowerCase`) |
| TextBackend.AnalyzeText | backend/text_content_filteration.js:20-53 | unconfigured or failing AI gives the empty non-explicit verdict; otherwise missing fields default to 0 and empty lists; explicit exactly when the confidence exceeds 0.7 or some category, lower-cased, is adult, violence, hate_speech or harassment |
| TextBackend.FilterText | backend/text_content_filteration.js:55-84 | the local mask, then the AI terms are masked only when the AI is explicit and names terms; `hasExplicitContent` exactly when a listed word occurs or the AI masks; only masks are introduced, every local match is masked, and a changed text is always flagged explicit |
| TextBackend.ExplicitWithoutTermsIsIgnored | backend/text_content_filteration.js:70-76 | an explicit AI verdict with an empty term list leaves both the filtered text and the flag to the local filter |
| TextBackend.NoAiMeansLocalOnly | backend/text_content_filteration.js:61-67 | without a working AI the result is the local filter's, flagged exactly when it changed the text |
| ImageBackend.Max | backend/image_filteration.js:96 | `Math.max`: no smaller than either argument and equal to one |
| ImageBackend.Categories | backend/image_filteration.js:89-93 | each category is listed exactly when its score exceeds its threshold (0.7, or 0.8 for racy), in the order adult, violence, medical, racy |
| ImageBackend.AnalyzeImage | backend/image_filteration.js:38-126 | scores default to 0 and the safe score to 1.0; explicit exactly when adult > 0.7, violence > 0.7, racy > 0.8 or safe < 0.5; the confidence is the largest of adult, violence and racy; a failure gives the non-explicit, safe 1.0 result |
| ImageBackend.FilterImage | backend/image_filteration.js:10-31 | the result copies the analysis' verdict, confidence, categories and safe score; a failure outside the analysis gives `shouldFilter` false with safe score 0 |
| ImageBackend.MedicalNeverDecides | backend/image_filteration.js:77-96 | changing the medical score never changes the verdict or the confidence |
| ImageBackend.ZeroSafeScoreIsSafe | backend/image_filteration.js:74 | a safe score of exactly 0 is read as 1.0, the same as a missing one |
| ImageBackend.FailureNeverFilters | backend/image_filteration.js:110-125 | a failed analysis never asks to filter and reports no category |
| ImageBackend.AdultOnly | backend/image_filteration.js:74-109 | a prediction holding only `adult: 0.9` gives filter, confidence 0.9, category adult, safe score 1.0 |
| Router.AvailableMethods | backend/app.js:29-31 | `vertex` is listed exactly when credentials are set and `deepai` exactly when the key is set, in that order |
| Router.MethodError | backend/app.js:73-93 | the method passes validation exactly when it is `auto`, or `vertex` with credentials, or `deepai` with the key |
| Router.WelcomeBody | backend/app.js:27-46 | the welcome body lists the available methods; the default is `auto` exactly when one is available, `none` otherwise |
| Router.HealthBody | backend/app.js:105-124 | image filtering is reported available exactly when some method is; text filtering exactly when credentials are set |
| Router.Route | backend/app.js:9-124 | no API configured gives 500 on every route; a falsy `text` gives 400 "No text provided", a non-empty string gives 200 with `filterText`'s result and a truthy non-string gives 500; an upload over 5 MB is rejected by the upload middleware; a missing file gives 400 "No image provided"; an accepted file gives 400 with the validation message when the method fails validation and otherwise 200 with `filterImage`'s result for its bytes; welcome and health give their bodies; any other path is passed on |
| Router.ConfiguredRoutesAdvertiseImages | backend/app.js:16-24 | past the middleware, the welcome default is always `auto` and health always reports image filtering available |
| Router.MissingFileFirst | backend/app.js:68-70 | a missing file is answered 400 whatever method is asked for |
| Redaction.ApplyTextRedaction | browser-extension/content.js:128-143 | the node gets the masked value and nothing else in the document changes; a ledger record with the old value at the next index and one `text` report are added |
| Redaction.ApplyImageFilter | browser-extension/content.js:404-487 | an already-filtered image is left alone; otherwise a new wrapper takes the image's place, the image moves into it with the filtered class and the blur, and the record and one `blurred-image` report are added |
| Redaction.Recover | browser-extension/content.js:569-584 | only `text` and `image` with an existing record act; text gets its original value back; an image gets its class and style back and returns to the wrapper's place, which is removed; a wrapper already gone makes the call throw after restoring class and style |
| Redaction.TextRoundTrip | browser-extension/content.js:128-143 | recovering the record a text redaction just made restores the document exactly |
| Redaction.ImageRoundTrip | browser-extension/content.js:404-487 | recovering the record an image filter just made restores every image exactly; only the detached wrapper remains |
| Redaction.TextRecoverIdempotent | browser-extension/content.js:570-572 | recovering a text record twice is recovering it once |
| Redaction.SecondImageRecoveryFails | browser-extension/content.js:573-583 | recovering an image record a second time throws and leaves the document as the first recovery left it |
| Batching.Min | browser-extension/content.js:96 | `Math.min`: no larger than either argument and equal to one |
| Batching.BatchesAreSequential | browser-extension/content.js:93-118 | whatever the batch size, the batches hand every id to the step exactly once, in order |
| TextScan.CollectTextNodes | browser-extension/content.js:76-86 | the walker yields exactly the non-blank nodes, each once, in document order |
| TextScan.RouteText | browser-extension/content.js:121-151 | blank text is skipped; a listed word gives the local mask at once; otherwise only text longer than 10 UTF-16 code units, with `apiUrl` set, goes to the backend; a local mask keeps the length and changes the text |
| TextScan.AstralTextGoesToBackend | browser-extension/content.js:147 | six characters outside the Basic Multilingual Plane count as twelve code units, so such text goes to the backend |
| TextScan.CheckAndFilterText | browser-extension/content.js:121-207 | a node changes exactly when its resulting value differs from its text, and then by one recorded redaction to that value |
| TextScan.ProcessTextNode | browser-extension/content.js:99-112 | text under SCRIPT, STYLE or NOSCRIPT is left alone |
| TextScan.TextStepEffect | browser-extension/content.js:99-112 | one batch item sets exactly that node to its resulting value and only adds to the ledger |
| TextScan.TextPass | browser-extension/content.js:93-118 | a pass over distinct nodes leaves each listed node with its resulting value and every other node as it was; when no listed node would change, the state is unchanged |
| TextScan.FilterTextContent | browser-extension/content.js:74-90 | after the text scan every node holds its resulting value, images and wrappers are untouched, the ledger only grows, and a page with nothing to mask is left exactly as it was |
| TextScan.BlankHasNoWord | browser-extension/content.js:123 | blank text holds no listed word |
| TextScan.LocalNodeValue | browser-extension/content.js:126-151 | without `apiUrl` a node's resulting value is exactly the local mask of its text |
| TextScan.ExplicitNodeMasked | browser-extension/content.js:121-128 | a node outside SCRIPT, STYLE and NOSCRIPT holding just "explicit" ends as eight asterisks, whatever the backend and the configuration |
| TextScan.ScannedIsQuiet | browser-extension/content.js:74-151 | without `apiUrl`, every node a text scan leaves is already its own resulting value |
| TextScan.TextRescanQuiet | browser-extension/content.js:74-151 | without `apiUrl` a second text scan changes nothing and queues no report |
| ImageScan.ShouldFilterLocally | browser-extension/content.js:392-401 | filter exactly when the width-to-height ratio is over 3 or under 0.3 and a side exceeds 300; a zero height counts as an infinite ratio |
| ImageScan.RatioIsCrossProduct | browser-extension/content.js:396-400 | the ratio comparisons agree with the integer cross-multiplications |
| ImageScan.CheckImageWithBackend | browser-extension/content.js:264-340 | no `apiUrl`, a canvas error, no blob or a negative verdict change nothing; a positive verdict blurs the image and queues one more `filtered-image` report; a failed request applies the aspect-ratio fallback; the image ends blurred exactly when the server says to filter or the failed request falls back to filtering |
| ImageScan.CheckAndFilterImage | browser-extension/content.js:240-254 | a bad source or a processed image is left alone; otherwise the image is marked processed first, and only a substantial image goes on to the backend check |
| ImageScan.ProcessImage | browser-extension/content.js:224-231 | images under 50 on a side, or already filtered, are skipped |
| ImageScan.ProcessImageEffect | browser-extension/content.js:224-254 | with `apiUrl` set, an eligible, unprocessed, substantial image that the server condemns, or whose request fails while its aspect ratio is extreme, ends blurred inside a wrapper; any other image is only marked processed when eligible; no other node changes |
| ImageScan.ProcessImageTwice | browser-extension/content.js:245-246 | checking an image again does nothing, whatever the backend answers the second time |
| ImageScan.BackendOnlyForSubstantial | browser-extension/content.js:249-265 | for an image that is not substantial, or without `apiUrl`, the backend's answer makes no difference |
| ImageScan.Upto | browser-extension/content.js:211 | `querySelectorAll('img')` lists every image position once, in order |
| ImageScan.ImagePass | browser-extension/content.js:218-237 | a pass over distinct images leaves every listed image blurred exactly when the backend condemns it and processed exactly when eligible, and leaves text and unlisted images alone |
| ImageScan.FilterImageContent | browser-extension/content.js:210-215 | after the image scan an image carries the filtered class exactly when it did before or the backend condemned it, each image ends as one batch item leaves it, and the text is untouched |
| Content.Scans | browser-extension/content.js:60-67 | each scan runs only when its switch is on; with text on every node holds its resulting value; with images on every image ends blurred or only marked processed as the backend decides |
| Content.StartFiltering | browser-extension/content.js:53-71 | disabled does nothing; otherwise the ledger is emptied and the enabled scans run, every node holds its resulting value and every image ends as the backend decides; a kind that is switched off is untouched |
| Content.StartFilteringForgetsLedger | browser-extension/content.js:56-58 | a rescan's result does not depend on the ledger it started with |
| Content.AddedTriggers | browser-extension/content.js:504-518 | an added node asks for text when it is an element with non-blank text and text filtering is on, and for images when it is an element with an `img` below it and image filtering is on |
| Content.ObserverTriggers | browser-extension/content.js:497-530 | the callback rescans text exactly when text filtering is on and some childList mutation added such an element, and likewise for images |
| Content.BareImageIgnored | browser-extension/content.js:507-511 | an `img` added on its own never triggers an image rescan |
| Content.ObserverCallback | browser-extension/content.js:497-530 | a triggered text rescan leaves every old and added node with its resulting value, a triggered image rescan leaves every image as the backend decides, an untriggered kind is untouched, and every ledger record made before is kept |
| Content.Init | browser-extension/content.js:20-31 | with nothing stored the defaults stay; a stored configuration is adopted; filtering starts, from an empty ledger, exactly when it is both configured and enabled |
| Content.HandleMessage | browser-extension/content.js:34-49 | `refreshFilters` restarts filtering; `updateConfig` merges the patch and restarts; `recoverContent` recovers and answers unless the recovery throws; anything else only answers |
| Content.RefreshIgnoresSetup | browser-extension/content.js:27-36 | a stored configuration that is enabled but not configured is not scanned at start, yet is scanned on the next refresh |
| Content.DisableKeepsPage | browser-extension/content.js:39-54 | disabling through `updateConfig` leaves the page, ledger and reports as they were |
| Content.ObserverIgnoresEnabled | browser-extension/content.js:497-530 | with filtering off but text filtering on, an added element holding "explicit" is still masked to eight asterisks |
| Interplay.TextReplyOf | browser-extension/content.js:184-186 | the content script reads a reply only from a filter result; an error body acts as no reply |
| Interplay.ImageOutcomeOf | browser-extension/content.js:296-301 | any response other than a 2xx counts as a failed request; a 2xx image result gives its `shouldFilter` |
| Interplay.NatString | browser-extension/content.js:285 | `String(n)` for a non-negative integer: a non-empty string of decimal digits that denotes n, with a leading zero only for 0 |
| Interplay.RequestedMethod | browser-extension/content.js:284-285 | with no method set the request asks for `deepai`; a valid method name is sent only when the setting is that string |
| Interplay.DefaultMethodFallsBack | browser-extension/content.js:284-301 | with no method set and a server that has Google credentials but no DeepAI key, the image request fails and the page falls back |
| Interplay.ImageVerdictReachesPage | browser-extension/content.js:296-317 | when the requested method is available, the page acts on exactly the server's explicitness verdict |
| Interplay.NodeValueMasks | browser-extension/content.js:186-189 | with replies from the router, a node's text only ever has characters turned into the mask |
| Interplay.TextScanOnlyMasks | browser-extension/content.js:74-207 | with replies from the router, a whole text scan only masks characters of the page's text |
| Interplay.Count | browser-extension/content.js:541-562 | the count of a kind is zero exactly when no report is of that kind, and equals the number of reports exactly when all are |
| Interplay.CountAppend | browser-extension/content.js:541-562 | counting splits over consecutive runs of reports |
| Interplay.DeliverCounts | browser-extension/content.js:541-562 | delivering reports raises each counter by the number of reports of its kind |
| Interplay.ServerFilteredImageCountedTwice | browser-extension/content.js:310-317 | an image the server says to filter adds two to `imagesFiltered` |
| Interplay.ImageRecoveryMismatch | browser-extension/content.js:573 | a request that restores an image never marks a history entry, and one that marks an image entry restores nothing |
| Interplay.TextRecoveryMatches | browser-extension/content.js:570-572 | for a text index with both a ledger record and a history entry, one request restores that ledger record and marks that history entry |
| Interplay.RefreshForgetsMaskedText | browser-extension/content.js:53-58 | without `apiUrl`, a second start leaves the page and the reports as the first left them but empties the ledger, so no text index restores anything |

## Left out

- Chrome APIs (`chrome.storage`, `chrome.runtime` and `chrome.tabs` messaging, opening `setup.html`) are left out. The store is a value, and a message is a function call.
- `fetch`, the canvas, `toBlob` and the AI clients are left out. Their results are parameters: `Backend` for the content script, and `TextPrediction`/`ImagePrediction` for the backend.
- The order of asynchronous events is left out. Each reply is applied as soon as its request is made, and each batch runs straight after the previous one, without the `setTimeout`. So ledger indices follow scan order, not completion order.
- The mutation observer's registration is left out: the model lets the callback run whenever it is given mutations, which matches the code once any enabled start has set it up. Nodes the page inserts are modelled as appended to the document.
- The loading indicator, the overlay markup, the confidence percentage and the "View Image" button are left out.
- The filter's own DOM changes are not fed back to the observer. Inserting a wrapper with its overlay adds an element with an `img` below it and non-blank text. In the code this starts both rescans again, and the overlay's text then takes part in later text scans. The model applies only the changes it is given as `ObserverCallback` arguments.
- CSS is reduced to the `style` attribute. `Blurred` appends the blur, and wrapper styling is dropped.
- The `checkConfig` and `getHistory` handlers of the background script only read, so they are left out. So is the `tabs.onUpdated` listener that sends `refreshFilters`.
- Timestamps are parameters.
- Hostname parsing is left out. The domain is a parameter.
- The background's `updateStats` and `addToHistory` each read the store and then write it back, with nothing in between to serialise them. Two messages handled at the same time can lose an increment or a history entry. The model handles messages one at a time, so `Interplay.DeliverCounts` counts every report.
- `server.js`, `popup.js` and `setup.js` are not part of this model. `server.js` registers its own `GET /` before it mounts the router, so that handler answers `GET /` and the router's welcome route is modelled but not reached through that server. Its `/health` is registered after the router, so the router's `/health` is the one that answers.
- The `method` argument that `app.js` passes to `filterImage` is left out. `filterImage` ignores it.
- Image outcomes are keyed by position. The same `src` may get different outcomes.
- NaN and floating-point rounding are left out. Scores and confidences are reals.
- TextBackend.FilterText: requires that AI-detected terms are plain words (`[A-Za-z0-9_]`). A term with regular-expression metacharacters would be a different pattern, and the model does not interpret it.
- Router.Route: requires the same plain-word terms as `FilterText`.
- ImageScan.ShouldFilterLocally: compares the ratio exactly rather than in double precision. The two can differ only where `w / h` rounds onto 3 or 0.3.
- TextBackend.ExplicitCategory: folds ASCII letters only. On the four category names this agrees with `toLowerCase`. The only characters outside ASCII that lower-case to an ASCII letter are U+212A (KELVIN SIGN, to `k`, which none of the names contains) and U+0130 (to `i` followed by a combining dot, which no name contains either).
- Unicode-aware matching is left out. The patterns have no `u` flag, so word characters and case folding are ASCII only, as modelled.
