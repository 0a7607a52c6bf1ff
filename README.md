# AI-Ingredient scan history, modelled in Dafny

AI-Ingredient is a React Native app: the user photographs an ingredient
label, on-device OCR reads the text, and the user can save that text to an
in-memory scan history. This project models the app's only stateful logic:

- the history store (`useStore.ts`): a list of `{id, text, date}` records,
  newest first, changed only by `addScan` (prepend) and `clearScans`
  (empty). It is modelled as the class `ScanStore.Store`, with a `scans`
  field and a ghost log `ops` of its updater calls. `Valid()` ties the
  field to the function `Run([], ops)`, and the lemmas about `Run` describe
  the list after any sequence of calls;
- the Result screen (`ResultScreen.tsx`): the route parameter's default,
  the display fallback, and the `save` guard. The guard refuses blank
  text, meaning text that JavaScript's `String.prototype.trim` reduces to
  the empty string. That whitespace is the WhiteSpace set of ECMA-262
  section 12.2 plus the LineTerminator set of section 12.3
  (`JsWhiteSpace`);
- the Scan screen's `takeAndRecognize` (`ScanScreen.tsx`): the `busy` guard,
  the camera call, the OCR call, and the try/catch/finally. It is modelled
  as the method `ScanScreen.ScanScreenState.TakeAndRecognize` over a `busy`
  field and an effect log. The answers of the camera and of the OCR engine
  are its inputs. The expression-level definition `Attempted` gives its
  meaning, one case per way the call can end.

`Workflow` joins the two screens: the text handed over on a successful
recognition is the text that `save` commits.

## Notes on the code

- `addScan` returns nothing. Ids come from `Math.random()`, so id uniqueness is not modelled.
- `takeAndRecognize` guards re-entry with a single boolean `busy` flag.
- `launchCamera` can reject, and the same `catch` handles that error, so `CameraOutcome.Rejected` is modelled.
- An empty `uri` is falsy, so it counts as "No image captured".

## Model

| member | source | states |
|---|---|---|
| ScanStore.Store.constructor | AIIngredient/src/store/useStore.ts:15-16 | the store starts with an empty `scans` list and an empty call log |
| ScanStore.Store.AddScan | AIIngredient/src/store/useStore.ts:17-23 | the new list is the record `{id, text, date}` with the text verbatim, followed by the old list unchanged; the call is logged and `Valid` is kept |
| ScanStore.Store.ClearScans | AIIngredient/src/store/useStore.ts:24 | the list is empty whatever it held before; the call is logged and `Valid` is kept |
| ScanStore.Apply | AIIngredient/src/store/useStore.ts:17-24 | an add gives a list one longer whose head holds exactly the given id, text and date and whose tail is the old list; a clear gives the empty list |
| ScanStore.RunTexts | AIIngredient/src/store/useStore.ts:17-24 | after any call sequence the texts are those added since the last clear, newest first, followed by the initial texts only if no clear happened |
| ScanStore.RunLength | AIIngredient/src/store/useStore.ts:17-24 | the record count equals the number of adds since the last clear, plus the initial count when there was no clear |
| ScanStore.AddsFromEmpty | AIIngredient/src/store/useStore.ts:16-22 | n adds t1..tn on an empty store leave exactly n records with texts tn, ..., t1 |
| ScanStore.AddsAfterClear | AIIngredient/src/store/useStore.ts:19-24 | adds right after a clear leave the same texts as on a fresh store, whatever was there before |
| ScanStore.ClearIdempotent | AIIngredient/src/store/useStore.ts:24 | clearing twice equals clearing once, and both give the empty list |
| JsWhiteSpace.TrimStart | AIIngredient/src/screens/ResultScreen.tsx:25 | the result is a suffix of the input; what was dropped is all whitespace; the result does not start with whitespace |
| JsWhiteSpace.TrimEnd | AIIngredient/src/screens/ResultScreen.tsx:25 | the result is a prefix of the input; what was dropped is all whitespace; the result does not end with whitespace |
| JsWhiteSpace.Trim | AIIngredient/src/screens/ResultScreen.tsx:25 | `trim()` is a slice of the input with blank text before and after it; it is empty exactly when every character is ECMA-262 whitespace or a line terminator; otherwise it starts and ends with a non-whitespace character |
| ResultScreen.ScreenText | AIIngredient/src/screens/ResultScreen.tsx:22 | the screen text is the route parameter's `text` when parameters were given, otherwise `''` |
| ResultScreen.Displayed | AIIngredient/src/screens/ResultScreen.tsx:39 | non-empty text, whitespace-only included, is shown as it is; only `''` shows "No text recognized."; anything other than the placeholder that is shown is the text itself |
| ResultScreen.SaveDecision | AIIngredient/src/screens/ResultScreen.tsx:24-33 | text is committed if and only if it has a non-whitespace character (it is refused if and only if it is blank); committed text is the untrimmed input; the alerts are "Nothing to save" / "Saved"; any alert button that navigates goes to History, and only after a commit |
| ResultScreen.Save | AIIngredient/src/screens/ResultScreen.tsx:24-33 | blank text leaves the store's list and call log unchanged; other text calls `addScan(text)` exactly once with the untrimmed text; the alert returned is the decision's |
| ScanScreen.FailureAlert | AIIngredient/src/screens/ScanScreen.tsx:43-44 | the `catch` alert is titled "Scan failed" and carries the error's message, or "Unknown error" when it has none |
| ScanScreen.CapturedPath | AIIngredient/src/screens/ScanScreen.tsx:32-36 | a path exists exactly when the response has a non-empty `assets` list whose first entry has a non-empty `uri`, and then it is that uri |
| ScanScreen.Attempted | AIIngredient/src/screens/ScanScreen.tsx:15-48 | busy on entry: no effect, busy stays set; otherwise exactly one camera launch first and `busy` false at the end; cancel: nothing else; no image: only the "No image captured" alert; camera error: its message; OCR runs only on the captured path with the Latin script; navigation only after successful OCR, to Result with `result.text` or `''`; an alert is always last |
| ScanScreen.ScanScreenState.constructor | AIIngredient/src/screens/ScanScreen.tsx:13 | `busy` starts false and nothing has happened yet |
| ScanScreen.ScanScreenState.TakeAndRecognize | AIIngredient/src/screens/ScanScreen.tsx:15-48 | the step-by-step try/catch/finally run appends exactly the effects of `Attempted` to the log and leaves `busy` as `Attempted` says |
| Workflow.RecognitionReachesSave | AIIngredient/src/screens/ScanScreen.tsx:41-42 | on successful OCR the last effect opens Result with the recognized text (or `''`); the Result screen shows that text, and `save` commits it unchanged exactly when it is not blank; empty recognized text is shown as the placeholder and refused |

## Left out

- Record ids and timestamps: `Math.random().toString(36)` and `Date.now()` are random and clock inputs. They are parameters of `AddScan` and `Save`, and the model claims nothing about id uniqueness.
- The camera (`launchCamera`) and ML Kit text recognition: their internals are external. Only their answers are modelled, as `CameraOutcome` and `OcrOutcome` inputs. Of a thrown error only `e?.message` is observed.
- React and async semantics: hooks, `useCallback` closures, re-renders and the `await` suspensions. One call of `takeAndRecognize` is modelled as a sequential run. Starting from the constructor, every run ends with `busy` false, so the busy-on-entry case of `Attempted` is reached only by setting the field directly; it stands for an attempt still in flight, which the sequential model never produces. The `disabled={busy}` button prop and the "Scanning…" label are presentation.
- Zustand's subscribe/notify mechanics: screens reading the store are not modelled.
- Alert presentation: only the title, message and buttons are modelled. The default dismiss button of a button-less alert is left out because it does nothing.
- HistoryScreen (list rendering, `toLocaleString` dates, the "Clear History" button that calls `clearScans`, and item taps that open Result), ProfileScreen (a placeholder) and App.tsx (navigator setup) are not part of this model. App.tsx's parameter types are reflected in `Ui.Screen`.
- Strings: Dafny's `string` is a sequence of Unicode scalar values, while JavaScript strings are UTF-16 code units and may hold lone surrogates. Every code point `trim` removes is a single BMP unit, so the blank test and the verbatim storing of text are unaffected.
- Styles and layout.
