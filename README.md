# Slowdown agent guardrail gate, modelled in Dafny

The Slowdown agent workflow (`slowdown_agent.py`, a TypeScript file despite
its name) runs a set of content-safety detectors over the user's message.
It then calls one of two conversational personas: `Slowdown_Fail` when any
detector fired its tripwire, and `Slowdown_Pass` otherwise. This project
models the decision logic around those external calls:

- `guardrailsHasTripwire`: the block decision;
- `getGuardrailSafeText`: the safe-text precedence (`checked_text`, then
  `anonymized_text`, then the fallback);
- `buildGuardrailFailOutput`: the per-category failure report (pii,
  moderation, jailbreak, hallucination);
- the control skeleton of `runWorkflow`: seed the history, decide, run one
  persona, append its new items, throw on a missing final output.

Files, one module each:

- `wrappers.dfy` (`Wrappers`): `Option`.
- `js_values.dfy` (`JsValues`): JavaScript values, with truthiness, `??`,
  `=== true`, `.length`, `Object.entries` and number-to-string conversion
  stated explicitly.
- `detectors.dfy` (`Detectors`): the detector result record, the tripwire
  decision and the safe text. The search loop is a method, proved against
  the function `SafeText`.
- `fail_report.dfy` (`FailReport`): the failure report, one function per
  category.
- `workflow.dfy` (`Workflow`): `runWorkflow` as a method. It keeps an
  append-only `ConversationHistory` object and returns a `Trace` of its
  local state: the `guardrailsOutput` value, the branch taken, the final
  history, and whether it threw.

Modelling choices:

- The detector library's result list is a parameter. So are the two
  persona runs (`runner.run(agent, history)`), each modelled as a function
  from the history it is given to a result with `finalOutput` and `newItems`.
- In `info`, `checked_text` and `anonymized_text` are tested with the `in`
  operator. For these two keys the model separates "key absent" (`None`)
  from "key holding `undefined`" (`Some(Undefined)`). Every other key is
  only read, so an absent key is `Undefined`.
- A falsy or absent `info` is `None`. A `null` entry in the result list
  behaves exactly like `DetectorResult(Undefined, Undefined, None)`, so it
  needs no case of its own.

Behaviour of the code that the model keeps as it is:

- Blocking uses only the tripwire flags. A sensitive-data result that lists
  detected entities without setting its tripwire does not block
  (`Workflow.UntrippedEntityDoesNotBlock`). Detected entities only make
  `pii.failed` true inside the report.
- `checked_text` falls back to the input only when it is `null` or
  `undefined`. An empty string is kept (`Detectors.EmptyCheckedTextIsKept`).
- A category's `error` field does not depend on whether that category
  failed (`FailReport.ErrorReportedWithoutFailure`).
- The pass persona gets the history seeded with the raw input, not the safe
  text. `guardrailsOutput` is computed and never used.
- `runWorkflow` returns nothing. The `output_text` objects it builds are
  discarded.
- The history grows by the persona's `newItems`. It grows strictly only when
  that list is non-empty.

## Model

| member | source | states |
|---|---|---|
| `JsValues.DecimalString` | slowdown_agent.py:102 | a count renders as a non-empty string of decimal digits with no leading zero |
| `JsValues.DecimalRoundTrip` | slowdown_agent.py:102 | the decimal rendering of a count reads back as the same count |
| `JsValues.DecimalStringInjective` | slowdown_agent.py:102 | different counts render as different strings |
| `Detectors.FindFirst` | slowdown_agent.py:86 | `find` returns the first position that satisfies the predicate, or none exactly when no element does |
| `Detectors.FindFirstCongruent` | slowdown_agent.py:80-87 | two searches whose predicates agree at every position stop at the same place |
| `Detectors.Any` | slowdown_agent.py:75 | `some` is true exactly when some element satisfies the predicate |
| `Detectors.GuardrailsHasTripwire` | slowdown_agent.py:74-76 | blocked iff the list is present and some result has `tripwireTriggered` strictly equal to `true`; so a missing or empty list is not blocked |
| `Detectors.TripwireIgnoresInfo` | slowdown_agent.py:74-76 | lists that agree on every tripwire flag get the same decision; `info` and `executionFailed` play no part |
| `Detectors.NoStrictTrueNoBlock` | slowdown_agent.py:75 | when no flag is exactly `true` (absent, `false`, `"true"`, `1`), nothing is blocked |
| `Detectors.SafeText` | slowdown_agent.py:78-88 | the safe text is never `null` or `undefined` |
| `Detectors.GetGuardrailSafeText` | slowdown_agent.py:78-88 | the search loop with early return, followed by the `find`, computes `SafeText` |
| `Detectors.CheckedTextWins` | slowdown_agent.py:80-84 | the first `info` holding the key `checked_text` decides: its value, or the fallback when that value is `null`/`undefined` |
| `Detectors.CheckedTextIgnoresAnonymized` | slowdown_agent.py:80-87 | while any result has `checked_text`, changing or removing any `anonymized_text` leaves the safe text unchanged |
| `Detectors.AnonymizedTextWhenNoCheckedText` | slowdown_agent.py:86-87 | with no `checked_text` anywhere, the first `anonymized_text` decides, falling back when it is `null`/`undefined` |
| `Detectors.FallbackWhenNoSanitizedText` | slowdown_agent.py:86-87 | with neither key anywhere, the safe text is exactly the fallback |
| `Detectors.EmptyCheckedTextIsKept` | slowdown_agent.py:82 | an empty `checked_text` is returned as is and shadows a later `anonymized_text` |
| `FailReport.Get` | slowdown_agent.py:91-95 | the lookup gives the first result whose `guardrail_name ?? guardrailName` is the category name, or none exactly when no result has that name |
| `FailReport.CategoryError` | slowdown_agent.py:110 | `error` is present iff the result exists, `executionFailed` is truthy and `info.error` is truthy; it then holds `info.error` |
| `JsValues.IndexKeysReadBack` | slowdown_agent.py:100 | every index used as an `Object.entries` key reads back as that index |
| `JsValues.Entries` | slowdown_agent.py:100 | `Object.entries` of a value that is not `null`/`undefined` (on those it throws): an object's own properties; an array's or a string's elements in order, each keyed by the decimal string of its index (digits only, no leading zero), which reads back as that index; nothing for other values |
| `FailReport.GuardrailName` | slowdown_agent.py:92-93 | `guardrail_name` wins when it is not `null`/`undefined`, otherwise `guardrailName`; a result without `info` has no name |
| `FailReport.CountLabels` | slowdown_agent.py:100-102 | exactly the array-valued entries give a `"K:len"` label, every one of them does, and the list is empty iff there is none |
| `FailReport.CountLabelsSingle` | slowdown_agent.py:101-102 | one entry gives its `"K:len"` label if it is an array and nothing otherwise |
| `FailReport.CountLabelsAppend` | slowdown_agent.py:100-102 | labelling distributes over concatenation; with `CountLabelsSingle` this gives exactly one label per array-valued entry, in entry order |
| `FailReport.PiiSection` | slowdown_agent.py:107-111 | `failed` iff the tripwire is true or some entity entry is an array; `detected_counts` is present exactly then and holds `CountLabels` of the entries (one label per array-valued entry, in order); `error` as in `CategoryError` |
| `FailReport.ModerationSection` | slowdown_agent.py:112-116 | `failed` iff the tripwire is true or `flagged_categories` has positive length; `flagged_categories` is copied exactly when it is truthy |
| `FailReport.JailbreakSection` | slowdown_agent.py:117-121 | `failed` iff the detector's own tripwire is exactly `true` |
| `FailReport.HallucinationSection` | slowdown_agent.py:122-130 | `failed` iff the detector's own tripwire is exactly `true`; each of `reasoning`, `hallucination_type`, `hallucinated_statements` and `verified_statements` appears iff it is truthy, with its value |
| `FailReport.BuildGuardrailFailOutput` | slowdown_agent.py:90-132 | a category can fail only when some result carries its name; jailbreak and hallucination fail exactly when the first result under their name has its tripwire exactly `true` |
| `FailReport.MissingCategoryReportsNothing` | slowdown_agent.py:91-131 | a category that no result names reports `failed: false` and no other field |
| `FailReport.GetIgnoresScores` | slowdown_agent.py:91-95 | the name lookup finds corresponding results in two lists that differ only in jailbreak scores |
| `FailReport.SectionsIgnoreScores` | slowdown_agent.py:103-130 | no section reads `threshold` or `confidence` |
| `FailReport.ScoresNeverAffectReport` | slowdown_agent.py:103-104 | lists differing only in `threshold`/`confidence` give the same report |
| `FailReport.ErrorReportedWithoutFailure` | slowdown_agent.py:117-121 | a jailbreak detector that failed to run and gave an error message, with no tripwire, reports `failed: false` with the error |
| `FailReport.ErrorNeedsBothFlagAndMessage` | slowdown_agent.py:110 | no `error` unless `executionFailed` is truthy and `info` holds a truthy `error`; a falsy or absent flag, a missing `info` or a falsy message each suppress it |
| `FailReport.EmptyFlaggedCategoriesReported` | slowdown_agent.py:113-114 | an empty `flagged_categories` array is reported but does not fail moderation |
| `FailReport.CreditCardCounted` | slowdown_agent.py:100-109 | one detected credit card with the tripwire set gives `pii` = failed, `["CREDIT_CARD:1"]`, no error |
| `FailReport.NonArrayEntitiesDropped` | slowdown_agent.py:100-102 | entity entries that are not arrays are dropped from the counts |
| `Workflow.ConversationHistory.constructor` | slowdown_agent.py:186-196 | the history starts as exactly the given seed |
| `Workflow.ConversationHistory.Push` | slowdown_agent.py:215 | `push` appends the new items and leaves the earlier ones unchanged |
| `Workflow.UserTurn` | slowdown_agent.py:186-196 | the seeded turn has role `"user"`, and its `input_text` part reads back as exactly the input text |
| `Workflow.RawItems` | slowdown_agent.py:215 | one raw item per new item, in order, each the item's `rawItem` |
| `Workflow.GuardrailsOutputOf` | slowdown_agent.py:207 | the output is the failure report iff blocked, and otherwise the safe text; the outer `?? input` never applies |
| `Workflow.RunWorkflow` | slowdown_agent.py:182-240 | the fail branch runs iff the tripwire fired, and the other branch otherwise; the chosen persona sees exactly the one-turn seed history holding the input text; the final history is that seed followed by the persona's raw new items; the run throws "Agent result is undefined" iff `finalOutput` is falsy, after the append; `guardrailsOutput` is as in `GuardrailsOutputOf` |
| `Workflow.UntrippedEntityDoesNotBlock` | slowdown_agent.py:205-208 | a detected e-mail address without a tripwire takes the pass branch with the input as safe text, while the report would mark `pii` failed |
| `Workflow.CleanInputPassesUnchanged` | slowdown_agent.py:206-207 | when no detector fires and none supplies sanitized text, the safe output is the input unchanged |

## Left out

- The detectors themselves (`runGuardrails`): their result list is a parameter.
- The persona agents, their prompts and model settings, the web-search tool, the OpenAI client and its API key, and the guardrail context object: these are external services. A persona run is a parameter function.
- The policy configuration's entity list. It is passed through to the detector library and never checked by this code.
- Runner trace metadata and the empty `state` object. Neither affects control flow.
- `async`/`await`. The model makes the calls one after another.
- Rejected promises. In the model the detector call and both persona runs always return a result. In the code a rejected `runGuardrails` (line 204) or `runner.run` (lines 209 and 225) propagates out of `runWorkflow` before any `push`.
- The discarded `output_text` result objects.
- A truthy `info` that is not an object is not modelled. On such a value the `in` operator throws a `TypeError`.
- `Object.entries` takes the object's property list in the order given. The engine's rule that integer-like keys come first is not modelled.
- Floating-point numbers and NaN. The model's numbers are reals.
- `JsValues.Entries`: a string is a sequence of Unicode scalar values, not of UTF-16 code units. So `.length` (`JsValues.Length`) and a string's entries differ from JavaScript's for characters outside the Basic Multilingual Plane. The report is unaffected: it tests only `length > 0` and drops string-valued entries.
- Objects with a repeated key. `Obj` does not enforce distinct keys, which every JavaScript object has. On such a value `Property` reads the first copy while `Entries` returns every copy.
- `.length` is modelled for arrays and strings only. An object with its own `length` property is treated as having none.
- `Detectors.GetGuardrailSafeText`: works on a sequence value, so it does not model the list being changed during iteration.
- `Workflow.RunWorkflow`: the thrown `Error` is an `Outcome` value in the returned trace, not an exception.
- `Workflow.RunWorkflow`: the persona gets `[...conversationHistory]`, a copy. The model therefore does not need aliasing between that copy and the history.
