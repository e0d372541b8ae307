/**
  The detector results returned by the guardrail library, and the two
  helpers that turn them into the workflow's inputs: the block decision
  (`guardrailsHasTripwire`) and the safe text (`getGuardrailSafeText`).
*/
module Detectors {
  import opened Wrappers
  import opened JsValues

  /** The `info` object of a detector result.  Field names are the keys the
      helpers read.  `checked_text` and `anonymized_text` are looked up with
      the `in` operator, so for them the model tells an absent key (`None`)
      from a key holding `undefined` (`Some(Undefined)`); every other key is
      only read, and an absent key reads `Undefined`. */
  datatype Info = Info(
    guardrail_name: JsValue,
    guardrailName: JsValue,
    checked_text: Option<JsValue>,
    anonymized_text: Option<JsValue>,
    detected_entities: JsValue,
    flagged_categories: JsValue,
    threshold: JsValue,
    confidence: JsValue,
    reasoning: JsValue,
    hallucination_type: JsValue,
    hallucinated_statements: JsValue,
    verified_statements: JsValue,
    error: JsValue)

  /** `{}`: every key absent. */
  const EmptyInfo := Info(Undefined, Undefined, None, None, Undefined, Undefined,
                          Undefined, Undefined, Undefined, Undefined, Undefined,
                          Undefined, Undefined)

  /** One detector's result.  `info` is `None` when it is absent or falsy. */
  datatype DetectorResult = DetectorResult(
    tripwireTriggered: JsValue,
    executionFailed: JsValue,
    info: Option<Info>)

  /** `results ?? []`. */
  function Items(results: Option<seq<DetectorResult>>): seq<DetectorResult> {
    if results.Some? then results.value else []
  }

  /** `Array.prototype.find`, by position: the index of the first element
      satisfying `p`, or `None` when there is none. */
  function FindFirst<T>(s: seq<T>, p: T -> bool): (r: Option<nat>)
    ensures r.Some? ==> r.value < |s| && p(s[r.value])
    ensures r.Some? ==> forall j :: 0 <= j < r.value ==> !p(s[j])
    ensures r.None? <==> forall j :: 0 <= j < |s| ==> !p(s[j])
    decreases |s|
  {
    if s == [] then None
    else if p(s[0]) then Some(0)
    else
      match FindFirst(s[1..], p)
      case None => None
      case Some(i) => Some(i + 1)
  }

  /** Two searches whose predicates agree position by position stop at the same place. */
  lemma FindFirstCongruent<T, U>(a: seq<T>, p: T -> bool, b: seq<U>, q: U -> bool)
    requires |a| == |b|
    requires forall i :: 0 <= i < |a| ==> p(a[i]) == q(b[i])
    ensures FindFirst(a, p) == FindFirst(b, q)
  {
  }

  /** `Array.prototype.some`. */
  function Any<T>(s: seq<T>, p: T -> bool): (b: bool)
    ensures b <==> exists i :: 0 <= i < |s| && p(s[i])
    decreases |s|
  {
    if s == [] then false
    else p(s[0]) || Any(s[1..], p)
  }

  /** `r?.tripwireTriggered === true`. */
  predicate Tripped(r: DetectorResult) {
    IsTrue(r.tripwireTriggered)
  }

  /** `guardrailsHasTripwire`: the block decision. */
  function GuardrailsHasTripwire(results: Option<seq<DetectorResult>>): (blocked: bool)
    ensures blocked <==> results.Some? &&
                         exists i :: 0 <= i < |results.value| && results.value[i].tripwireTriggered == Bool(true)
  {
    Any(Items(results), Tripped)
  }

  /** Only the tripwire flags decide: results that agree on every flag, whatever
      their `info` (detected entities, flagged categories, scores, errors) and
      their `executionFailed`, get the same decision. */
  lemma TripwireIgnoresInfo(a: seq<DetectorResult>, b: seq<DetectorResult>)
    requires |a| == |b|
    requires forall i :: 0 <= i < |a| ==> a[i].tripwireTriggered == b[i].tripwireTriggered
    ensures GuardrailsHasTripwire(Some(a)) == GuardrailsHasTripwire(Some(b))
  {
  }

  /** A missing list, an empty list, and flags that are only truthy (such as
      `"true"` or `1`) never block. */
  lemma NoStrictTrueNoBlock(results: Option<seq<DetectorResult>>)
    requires forall r :: r in Items(results) ==> r.tripwireTriggered != Bool(true)
    ensures !GuardrailsHasTripwire(results)
  {
  }

  /** `r?.info && ("checked_text" in r.info)`. */
  predicate HasCheckedText(r: DetectorResult) {
    r.info.Some? && r.info.value.checked_text.Some?
  }

  /** `r?.info && "anonymized_text" in r.info`. */
  predicate HasAnonymizedText(r: DetectorResult) {
    r.info.Some? && r.info.value.anonymized_text.Some?
  }

  /** The safe text, as a value: the first `checked_text` key wins (its value,
      or the fallback when that value is `null`/`undefined`); without one, the
      first `anonymized_text` key (likewise); without either, the fallback. */
  function SafeText(results: Option<seq<DetectorResult>>, fallback: string): (t: JsValue)
    ensures !Nullish(t)
  {
    var rs := Items(results);
    match FindFirst(rs, HasCheckedText)
    case Some(i) => Coalesce(rs[i].info.value.checked_text.value, Str(fallback))
    case None =>
      match FindFirst(rs, HasAnonymizedText)
      case Some(i) => Coalesce(rs[i].info.value.anonymized_text.value, Str(fallback))
      case None => Str(fallback)
  }

  /** `getGuardrailSafeText`: the `for` loop searching for `checked_text` with
      an early return, then the `find` for `anonymized_text`. */
  method GetGuardrailSafeText(results: Option<seq<DetectorResult>>, fallbackText: string) returns (text: JsValue)
    ensures text == SafeText(results, fallbackText)
  {
    var rs := Items(results);
    var i := 0;
    while i < |rs|
      invariant 0 <= i <= |rs|
      invariant forall j :: 0 <= j < i ==> !HasCheckedText(rs[j])
    {
      var r := rs[i];
      if r.info.Some? && r.info.value.checked_text.Some? {
        return Coalesce(r.info.value.checked_text.value, Str(fallbackText));
      }
      i := i + 1;
    }
    var pii := FindFirst(rs, HasAnonymizedText);
    if pii.Some? {
      text := Coalesce(rs[pii.value].info.value.anonymized_text.value, Str(fallbackText));
    } else {
      text := Str(fallbackText);
    }
  }

  /** When some `info` has the key `checked_text`, the first such value decides,
      falling back only when it is `null`/`undefined`. */
  lemma CheckedTextWins(results: Option<seq<DetectorResult>>, fallback: string, i: nat)
    requires i < |Items(results)| && HasCheckedText(Items(results)[i])
    requires forall j :: 0 <= j < i ==> !HasCheckedText(Items(results)[j])
    ensures var v := Items(results)[i].info.value.checked_text.value;
            SafeText(results, fallback) == if Nullish(v) then Str(fallback) else v
  {
  }

  /** `r` with its `anonymized_text` key replaced by `v` (or removed, for `None`). */
  function WithAnonymizedText(r: DetectorResult, v: Option<JsValue>): DetectorResult {
    if r.info.Some? then r.(info := Some(r.info.value.(anonymized_text := v))) else r
  }

  /** Once some result carries `checked_text`, no `anonymized_text` anywhere in
      the list (earlier or later, present, changed or removed) matters. */
  lemma CheckedTextIgnoresAnonymized(rs: seq<DetectorResult>, changes: seq<Option<JsValue>>, fallback: string)
    requires |changes| == |rs|
    requires exists i :: 0 <= i < |rs| && HasCheckedText(rs[i])
    ensures var rs' := seq(|rs|, i requires 0 <= i < |rs| => WithAnonymizedText(rs[i], changes[i]));
            SafeText(Some(rs'), fallback) == SafeText(Some(rs), fallback)
  {
    var rs' := seq(|rs|, i requires 0 <= i < |rs| => WithAnonymizedText(rs[i], changes[i]));
    FindFirstCongruent(rs, HasCheckedText, rs', HasCheckedText);
  }

  /** Without any `checked_text` key, the first result holding `anonymized_text`
      decides; a `null`/`undefined` value there gives the fallback. */
  lemma AnonymizedTextWhenNoCheckedText(results: Option<seq<DetectorResult>>, fallback: string, i: nat)
    requires forall j :: 0 <= j < |Items(results)| ==> !HasCheckedText(Items(results)[j])
    requires i < |Items(results)| && HasAnonymizedText(Items(results)[i])
    requires forall j :: 0 <= j < i ==> !HasAnonymizedText(Items(results)[j])
    ensures var v := Items(results)[i].info.value.anonymized_text.value;
            SafeText(results, fallback) == if Nullish(v) then Str(fallback) else v
  {
  }

  /** With neither key anywhere (in particular for a missing or empty list),
      the safe text is exactly the fallback. */
  lemma FallbackWhenNoSanitizedText(results: Option<seq<DetectorResult>>, fallback: string)
    requires forall r :: r in Items(results) ==> !HasCheckedText(r) && !HasAnonymizedText(r)
    ensures SafeText(results, fallback) == Str(fallback)
  {
  }

  /** `??` is not `||`: an empty `checked_text` is returned as it is, and it
      still shadows a later `anonymized_text`. */
  lemma EmptyCheckedTextIsKept(fallback: string)
    ensures var checked := DetectorResult(Bool(false), Bool(false), Some(EmptyInfo.(checked_text := Some(Str("")))));
            var anonymized := DetectorResult(Bool(false), Bool(false), Some(EmptyInfo.(anonymized_text := Some(Str("<EMAIL_ADDRESS>")))));
            SafeText(Some([checked, anonymized]), fallback) == Str("")
  {
  }
}
