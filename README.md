# Mystic Magic Studio: verified model of the edit session and the image-edit client

The application is a single browser screen. The user uploads an image, types an instruction,
and a remote generative model returns the image recomposed to a 4:5 frame. This project models
the two pieces of local logic in it:

- **The edit session** (`App.tsx`). One `ImageState` record holds the uploaded image, the edited
  image, the instruction, the processing flag and the last error. Seven updates change it: the
  file reader finishing, edit started, edit succeeded, edit failed, instruction typed, retry and
  full reset. Each is a record copy that changes some fields and keeps the others.
  Module `App` has one function per update, an `Event` type with a `Step` function, and `Run`
  over a sequence of events. Class `App.Session` holds the mutable state cell. Each handler
  method is proved to leave the cell holding the matching update of its previous value. The main property is an invariant,
  `Consistent`, that holds in every reachable state:
  - no request is in flight between events;
  - an edited image is always a PNG data URI and only appears beside a usable original;
  - an error message is never empty.
- **The image-edit client** (`services/geminiService.ts`, module `GeminiService`).
  - Check the API key.
  - Split the data URI with the anchored pattern `data:(image/[a-zA-Z]+);base64,`.
  - Compose the instruction: protocol block, marker, then the trimmed request or the default.
  - Send one request.
  - Take the first reply part that carries inline data and wrap it as `data:image/png;base64,`.
  - Rethrow errors with their message, or a fallback message when that is empty.

  The generative service is a parameter of type `Request -> Reply`. The reply either resolves
  with a response or throws. `EditImage` is a method. Its scan over the parts is a loop that
  stops at the first part with inline data. It is proved equal to the function `EditOutcome`,
  and it also returns the request the service received, or `None` when the service was not
  called.

Supporting modules: `Wrappers` has `Option` and `Result`. `Types` has the `ImageState` record
(`types.ts`). `JsText` has JavaScript's `trim`, with its white-space set written out: the
ECMAScript WhiteSpace and LineTerminator code points, including every Unicode `Zs` space.

## Model

| member | source | states |
|---|---|---|
| `JsText.TrimIsMaximalSlice` | services/geminiService.ts:32 | `prompt.trim()` returns a contiguous slice of the input. Everything cut from either end is white space, and the slice neither starts nor ends with white space. |
| `JsText.TrimEmptyIff` | services/geminiService.ts:32 | The trimmed text is empty exactly when the input is all white space. This decides when the default instruction is used. |
| `JsText.SurroundingWhiteSpaceIgnored` | services/geminiService.ts:32 | White space added before or after an instruction does not change its trimmed form. |
| `JsText.TrimIdempotent` | services/geminiService.ts:32 | Trimming twice gives the same result as trimming once. |
| `GeminiService.LetterRun` | services/geminiService.ts:13 | The greedy `[a-zA-Z]+` takes the whole run of ASCII letters. The run stops at the first non-letter. |
| `GeminiService.MatchedSubtype` | services/geminiService.ts:13 | A captured subtype is a non-empty run of ASCII letters, and the input starts with `data:image/<subtype>;base64,`. |
| `GeminiService.LetterRunStopsAt` | services/geminiService.ts:13 | A letter run followed by a non-letter (the `;` of `;base64,`) is matched exactly to its end. |
| `GeminiService.PrefixedImageSplits` | services/geminiService.ts:13-15 | Every input of the form `data:image/<letters>;base64,<payload>` is recognised. The MIME type is `image/<letters>` and the payload is exactly what follows the prefix. |
| `GeminiService.SplitReassembles` | services/geminiService.ts:13-15 | A recognised input equals `data:` + MIME type + `;base64,` + payload. An unrecognised input is sent as `image/png` with the input unchanged as payload. |
| `GeminiService.NonLetterSubtypeNotRecognised` | services/geminiService.ts:13-15 | When the subtype's letter run ends at a character that is neither a letter nor `;`, the input falls back to `image/png` and the whole input is the payload. |
| `GeminiService.SvgIsNotRecognised` | services/geminiService.ts:13-15 | The subtype `svg+xml` in particular falls back to `image/png`, and the whole input is the payload. |
| `GeminiService.UserRequestCases` | services/geminiService.ts:32 | A blank instruction is replaced by the fixed default instruction. Any other instruction is sent trimmed. Either way the request part is non-empty and has no white space at either end. |
| `GeminiService.FinalPrompt` | services/geminiService.ts:23-32 | The composed instruction always starts with the protocol block followed by `\n\nUSER MAGIC REQUEST: `. |
| `GeminiService.FinalPromptSplits` | services/geminiService.ts:32 | The composed instruction is exactly the protocol block, then the marker, then the user request. The request can be read back from it. |
| `GeminiService.FinalPromptIgnoresSurroundingSpace` | services/geminiService.ts:32 | Instructions that differ only in surrounding white space produce the same composed instruction. |
| `GeminiService.BuildRequest` | services/geminiService.ts:13-32 | For a recognised image, `data:` + MIME type + `;base64,` + payload gives the image back. An unrecognised image is sent whole as `image/png`. The text is the protocol block, the marker, and the default instruction for a blank prompt or else the trimmed prompt. |
| `GeminiService.BuildRequestForPrefixedImage` | services/geminiService.ts:13-32 | For `data:image/<letters>;base64,<payload>`, the request is exactly `image/<letters>`, that payload, and the composed instruction. |
| `GeminiService.FirstInlineIndex` | services/geminiService.ts:54-60 | Returns the index of a part that carries inline data, with no inline data in any earlier part. Returns `None` only when no part carries inline data. |
| `GeminiService.ErrorMessage` | services/geminiService.ts:65-68 | The rethrown message is never empty. A non-empty message is kept. An absent or empty message becomes "An error occurred during creation." |
| `GeminiService.FirstInlineImage` | services/geminiService.ts:54-60 | The loop with `break` returns the PNG data URI of the first part with inline data. It returns the empty string when no part has inline data. |
| `GeminiService.SettleReply` | services/geminiService.ts:50-68 | Returns exactly `ReplyOutcome`: a thrown error is rethrown with `ErrorMessage`, a reply without parts and a reply without an image fail with their messages, and otherwise the first inline image is returned. |
| `GeminiService.EditImage` | services/geminiService.ts:6-68 | Returns exactly `EditOutcome`. The service receives the built request when the key is present, and is not called otherwise. |
| `GeminiService.MissingKeyFails` | services/geminiService.ts:7-9 | An absent or empty API key fails with "API Key is missing.", whatever the image, the instruction and the service. |
| `GeminiService.ExtractionFailures` | services/geminiService.ts:50-62 | A reply with no `candidates[0].content.parts` fails with "The magic failed to manifest. Please try again.". A reply whose parts carry no inline data fails with "Result extraction failed.". The catch keeps both messages unchanged. |
| `GeminiService.SuccessIsFirstInlinePart` | services/geminiService.ts:54-64 | When part `k` is the first with inline data, the result is `data:image/png;base64,` followed by that part's payload. |
| `GeminiService.SucceedsIffSomeInlinePart` | services/geminiService.ts:50-64 | A reply succeeds exactly when it has parts and at least one of them carries inline data. |
| `GeminiService.LaterPartsIgnored` | services/geminiService.ts:55-59 | Appending parts after the first inline-data part does not change which part is taken. |
| `GeminiService.ReplyOutcomeShape` | services/geminiService.ts:50-68 | Whatever the service replies, a success is a `data:image/png;base64,` URI and a failure has a non-empty message. |
| `GeminiService.OutcomeShape` | services/geminiService.ts:50-68 | Every success is a `data:image/png;base64,` URI, and every failure has a non-empty message. |
| `GeminiService.ResultReparses` | services/geminiService.ts:57 | A returned image, when submitted again, is parsed as `image/png` with exactly the payload the service returned, whatever MIME type was sent. |
| `App.Initial` | App.tsx:7-13 | The initial state has no images, an empty instruction, no request in flight and no error. |
| `App.FileLoaded` | App.tsx:21-27 | `original` becomes what the reader produced: the data URI, or null after a failed or aborted read. `edited` and `error` are cleared. `prompt` and `isProcessing` are kept. |
| `App.PromptTyped` | App.tsx:123 | The instruction is stored verbatim, and every other field is kept. |
| `App.EditStarted` | App.tsx:35 | Sets `isProcessing` and clears `error`. `original`, `edited` and `prompt` are kept. |
| `App.EditSucceeded` | App.tsx:38 | `edited` becomes the returned URI and `isProcessing` is cleared. `original`, `prompt` and `error` are kept. |
| `App.EditFailed` | App.tsx:40 | `error` becomes the thrown message and `isProcessing` is cleared. `original`, `edited` and `prompt` are kept. |
| `App.Retry` | App.tsx:164 | Only `edited` is cleared. `original`, `prompt`, `isProcessing` and `error` are kept. |
| `App.Reset` | App.tsx:165 | Every field returns to its initial value, whatever the previous state. |
| `App.ResetIsInitial` | App.tsx:165 | The reset event yields the initial state. That state is consistent, and its submit button is disabled. |
| `App.SubmitWithoutImageIsNoOp` | App.tsx:34 | With no image, or an empty one, `handleEdit` leaves the state unchanged. |
| `App.SubmitOutcome` | App.tsx:33-42 | After a submission, the image and instruction are kept and processing has ended. On success the returned image is shown and the error is cleared. On failure the earlier edited image is kept and the message is stored. |
| `App.SubmitWithoutKey` | App.tsx:37-40 | Without an API key, a submission stores "API Key is missing." and no new edited image appears. |
| `App.SubmitGuard` | App.tsx:142 | Between events, the submit button is enabled exactly when there is a usable image, and when it is disabled a submission would change nothing. Once an edit has started, the button is disabled. |
| `App.RetryResubmits` | App.tsx:164 | A successful submission followed by retry returns the screen to its state before the submission. The same image and instruction can then be sent again. |
| `App.StepKeepsConsistent` | App.tsx:21-165 | Every event preserves `Consistent`: no request in flight, edited image only a PNG data URI beside a usable original, and no empty error. |
| `App.RunKeepsConsistent` | App.tsx:21-165 | Any sequence of events preserves `Consistent`. |
| `App.ReachableIsConsistent` | App.tsx:7-165 | Every state reachable from the initial state is consistent. |
| `App.Session.constructor` | App.tsx:7-13 | The state cell starts in the initial state. |
| `App.Session.LoadFile` | App.tsx:21-27 | The cell holds the file-loaded update of its previous value, for a data URI or for a failed read. |
| `App.Session.TypePrompt` | App.tsx:123 | The cell holds the prompt update of its previous value. |
| `App.Session.BeginEdit` | App.tsx:34-35 | Proceeds exactly when there is a usable image. If it proceeds, the state becomes the edit-started update and submitting is disabled. Otherwise nothing changes. |
| `App.Session.CompleteEdit` | App.tsx:38-40 | The state becomes the success or failure update for the outcome. |
| `App.Session.HandleEdit` | App.tsx:33-42 | The state becomes the `Submit` update of its previous value. The service receives the request built from the image and instruction only when there is an image and a key. |
| `App.Session.RetryEdit` | App.tsx:164 | The state becomes the retry update of its previous value. |
| `App.Session.ResetAll` | App.tsx:165 | The state becomes the initial state. |

## Left out

- Rendering, styling, animation, the random particle background and the download link (App.tsx:44-222): presentation only.
- `FileReader.readAsDataURL` (App.tsx:20-29) is asynchronous browser I/O. Only its completion is modelled, as an event that carries the reader's result: an arbitrary string, or null when the read failed or was aborted.
- The `GoogleGenAI` client, the model name and the `aspectRatio: "3:4"` setting (services/geminiService.ts:2-4, 11, 35-48) belong to a foreign network library. The service is a function parameter from the request to its reply.
- `process.env.API_KEY` is ambient configuration. It is an `Option<string>` parameter.
- `console.error` (services/geminiService.ts:66) only logs.
- Asynchronous interleaving is not modelled. Events form a sequential trace, and `HandleEdit` runs begin, call and completion without other events in between. So overlapping submissions are not modelled. Nor is the difference between the closure's `state.original` and the updaters' `prev`.
- Events in a trace are not restricted to what the screen shows. For example, the submit button is hidden while an edited image is displayed (App.tsx:84), but traces may still submit then. The invariant holds anyway.
- `HistoryItem` (types.ts:10-16) is declared but never used.
- GeminiService.PartsOf: only the path `candidates[0].content.parts` is modelled. `null` entries inside the candidate or part arrays are not.
- GeminiService.Part: an `inlineData` object without a `data` field is not modelled. JavaScript would produce the text `data:image/png;base64,undefined` for it.
- Exceptions raised outside the `try` block other than the missing key, such as a failing client constructor, are not modelled.
- JsText.IsWhiteSpace: strings are sequences of Unicode scalar values rather than UTF-16 code units, so lone surrogates cannot be represented. No white-space character is a surrogate, so `trim` agrees on every representable string. The `Zs` set is that of current Unicode.
