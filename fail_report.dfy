/**
  `buildGuardrailFailOutput`: the per-category report built when the
  workflow is blocked.  Each category is looked up by name among the
  detector results; a report field that the source adds with a conditional
  spread (`...(c ? { f: v } : {})`) is an `Option`, `None` when omitted.
*/
module FailReport {
  import opened Wrappers
  import opened JsValues
  import opened Detectors

  datatype PiiReport = PiiReport(
    failed: bool,
    detected_counts: Option<seq<string>>,
    error: Option<JsValue>)

  datatype ModerationReport = ModerationReport(
    failed: bool,
    flagged_categories: Option<JsValue>,
    error: Option<JsValue>)

  datatype JailbreakReport = JailbreakReport(
    failed: bool,
    error: Option<JsValue>)

  datatype HallucinationReport = HallucinationReport(
    failed: bool,
    reasoning: Option<JsValue>,
    hallucination_type: Option<JsValue>,
    hallucinated_statements: Option<JsValue>,
    verified_statements: Option<JsValue>,
    error: Option<JsValue>)

  datatype GuardrailFailOutput = GuardrailFailOutput(
    pii: PiiReport,
    moderation: ModerationReport,
    jailbreak: JailbreakReport,
    hallucination: HallucinationReport)

  const PiiName := "Contains PII"
  const ModerationName := "Moderation"
  const JailbreakName := "Jailbreak"
  const HallucinationName := "Hallucination Detection"

  /** `info?.guardrail_name ?? info?.guardrailName`, with `info = r?.info ?? {}`. */
  function GuardrailName(r: DetectorResult): (n: JsValue)
    ensures r.info.None? ==> n == Undefined
    ensures r.info.Some? && !Nullish(r.info.value.guardrail_name) ==> n == r.info.value.guardrail_name
    ensures r.info.Some? && Nullish(r.info.value.guardrail_name) ==> n == r.info.value.guardrailName
  {
    match r.info
    case None => Undefined
    case Some(info) => Coalesce(info.guardrail_name, info.guardrailName)
  }

  /** The `get` helper: the first result whose guardrail name is `name` (`===`). */
  function Get(results: Option<seq<DetectorResult>>, name: string): (d: Option<DetectorResult>)
    ensures d.None? <==> forall i :: 0 <= i < |Items(results)| ==> GuardrailName(Items(results)[i]) != Str(name)
    ensures d.Some? ==> exists i :: 0 <= i < |Items(results)| && d.value == Items(results)[i] &&
                                    GuardrailName(Items(results)[i]) == Str(name) &&
                                    forall j :: 0 <= j < i ==> GuardrailName(Items(results)[j]) != Str(name)
  {
    var rs := Items(results);
    match FindFirst(rs, r => GuardrailName(r) == Str(name))
    case None => None
    case Some(i) => Some(rs[i])
  }

  /** `d?.info` read through `?.`: a missing result or a missing `info` reads as `{}`. */
  function InfoOf(d: Option<DetectorResult>): Info {
    if d.Some? && d.value.info.Some? then d.value.info.value else EmptyInfo
  }

  /** `d?.tripwireTriggered === true`. */
  predicate TrippedOpt(d: Option<DetectorResult>) {
    d.Some? && Tripped(d.value)
  }

  /** `...(v ? { f: v } : {})`. */
  function IfTruthy(v: JsValue): Option<JsValue> {
    if Truthy(v) then Some(v) else None
  }

  /** `...(d?.executionFailed && d?.info?.error ? { error: d.info.error } : {})`. */
  function CategoryError(d: Option<DetectorResult>): (e: Option<JsValue>)
    ensures e.Some? <==> d.Some? && Truthy(d.value.executionFailed) && d.value.info.Some? && Truthy(d.value.info.value.error)
    ensures e.Some? ==> e.value == d.value.info.value.error
  {
    if d.Some? && Truthy(d.value.executionFailed) && Truthy(InfoOf(d).error) then Some(InfoOf(d).error) else None
  }

  /** `Object.entries(pii?.info?.detected_entities ?? {})`. */
  function EntityEntries(d: Option<DetectorResult>): seq<(string, JsValue)> {
    Entries(Coalesce(InfoOf(d).detected_entities, Obj([])))
  }

  predicate HasArrayEntity(es: seq<(string, JsValue)>) {
    exists i :: 0 <= i < |es| && es[i].1.Arr?
  }

  /** `k + ":" + v.length` for an array-valued entry. */
  function CountLabel(e: (string, JsValue)): string
    requires e.1.Arr?
  {
    e.0 + ":" + DecimalString(|e.1.items|)
  }

  /** `.filter(([, v]) => Array.isArray(v)).map(([k, v]) => k + ":" + v.length)`:
      one label per array-valued entry, in order; other entries are dropped. */
  function CountLabels(es: seq<(string, JsValue)>): (r: seq<string>)
    ensures |r| <= |es|
    ensures r == [] <==> !HasArrayEntity(es)
    ensures forall i :: 0 <= i < |es| && es[i].1.Arr? ==> CountLabel(es[i]) in r
    ensures forall k :: 0 <= k < |r| ==> exists i :: 0 <= i < |es| && es[i].1.Arr? && r[k] == CountLabel(es[i])
    decreases |es|
  {
    if es == [] then []
    else
      var rest := CountLabels(es[1..]);
      assert forall i :: 1 <= i < |es| ==> es[i] == es[1..][i - 1];
      if es[0].1.Arr? then [CountLabel(es[0])] + rest else rest
  }

  /** One entry gives its label if it is an array, and nothing otherwise. */
  lemma CountLabelsSingle(e: (string, JsValue))
    ensures CountLabels([e]) == if e.1.Arr? then [CountLabel(e)] else []
  {
  }

  /** Labelling distributes over concatenation, so together with
      `CountLabelsSingle` it fixes the labels exactly: one per array-valued
      entry, in the entries' order. */
  lemma {:induction false} CountLabelsAppend(a: seq<(string, JsValue)>, b: seq<(string, JsValue)>)
    ensures CountLabels(a + b) == CountLabels(a) + CountLabels(b)
    decreases |a|
  {
    if a == [] {
      assert a + b == b;
    } else {
      assert (a + b)[0] == a[0];
      assert (a + b)[1..] == a[1..] + b;
      CountLabelsAppend(a[1..], b);
    }
  }

  /** `piiCounts`. */
  function PiiCounts(d: Option<DetectorResult>): seq<string> {
    CountLabels(EntityEntries(d))
  }

  /** The `pii` section.  Detected entities count towards `failed` here even
      when the tripwire did not fire; the counts are present only when there
      is at least one. */
  function PiiSection(d: Option<DetectorResult>): (r: PiiReport)
    ensures r.failed <==> TrippedOpt(d) || HasArrayEntity(EntityEntries(d))
    ensures r.detected_counts.Some? <==> HasArrayEntity(EntityEntries(d))
    ensures r.detected_counts.Some? ==> r.detected_counts.value == CountLabels(EntityEntries(d))
    ensures r.detected_counts.Some? ==>
              var es := EntityEntries(d);
              (forall i :: 0 <= i < |es| && es[i].1.Arr? ==> CountLabel(es[i]) in r.detected_counts.value) &&
              (forall k :: 0 <= k < |r.detected_counts.value| ==>
                 exists i :: 0 <= i < |es| && es[i].1.Arr? && r.detected_counts.value[k] == CountLabel(es[i]))
    ensures r.error == CategoryError(d)
  {
    var counts := PiiCounts(d);
    PiiReport(
      |counts| > 0 || TrippedOpt(d),
      if |counts| > 0 then Some(counts) else None,
      CategoryError(d))
  }

  /** The `moderation` section.  A non-empty `flagged_categories` makes it
      failed; the field itself is copied whenever it is truthy, so an empty
      array is reported without failing the category. */
  function ModerationSection(d: Option<DetectorResult>): (r: ModerationReport)
    ensures var flagged := InfoOf(d).flagged_categories;
            (r.failed <==> TrippedOpt(d) || HasPositiveLength(flagged)) &&
            (r.flagged_categories.Some? <==> Truthy(flagged)) &&
            (r.flagged_categories.Some? ==> r.flagged_categories.value == flagged)
    ensures r.error == CategoryError(d)
  {
    var flagged := InfoOf(d).flagged_categories;
    ModerationReport(
      TrippedOpt(d) || HasPositiveLength(Coalesce(flagged, Arr([]))),
      IfTruthy(flagged),
      CategoryError(d))
  }

  /** The `jailbreak` section: only the detector's own tripwire is trusted. */
  function JailbreakSection(d: Option<DetectorResult>): (r: JailbreakReport)
    ensures r.failed <==> d.Some? && d.value.tripwireTriggered == Bool(true)
    ensures r.error == CategoryError(d)
  {
    JailbreakReport(TrippedOpt(d), CategoryError(d))
  }

  /** The `hallucination` section: only the detector's own tripwire is trusted;
      each diagnostic is copied only when it is truthy. */
  function HallucinationSection(d: Option<DetectorResult>): (r: HallucinationReport)
    ensures r.failed <==> d.Some? && d.value.tripwireTriggered == Bool(true)
    ensures var info := InfoOf(d);
            (r.reasoning.Some? <==> Truthy(info.reasoning)) &&
            (r.hallucination_type.Some? <==> Truthy(info.hallucination_type)) &&
            (r.hallucinated_statements.Some? <==> Truthy(info.hallucinated_statements)) &&
            (r.verified_statements.Some? <==> Truthy(info.verified_statements))
    ensures var info := InfoOf(d);
            (r.reasoning.Some? ==> r.reasoning.value == info.reasoning) &&
            (r.hallucination_type.Some? ==> r.hallucination_type.value == info.hallucination_type) &&
            (r.hallucinated_statements.Some? ==> r.hallucinated_statements.value == info.hallucinated_statements) &&
            (r.verified_statements.Some? ==> r.verified_statements.value == info.verified_statements)
    ensures r.error == CategoryError(d)
  {
    var info := InfoOf(d);
    HallucinationReport(
      TrippedOpt(d),
      IfTruthy(info.reasoning),
      IfTruthy(info.hallucination_type),
      IfTruthy(info.hallucinated_statements),
      IfTruthy(info.verified_statements),
      CategoryError(d))
  }

  /** `buildGuardrailFailOutput`.  A category can only fail when some result
      carries its name; jailbreak and hallucination fail exactly when the first
      result under their name fired its tripwire. */
  function BuildGuardrailFailOutput(results: Option<seq<DetectorResult>>): (o: GuardrailFailOutput)
    ensures o.pii.failed ==> exists i :: 0 <= i < |Items(results)| && GuardrailName(Items(results)[i]) == Str(PiiName)
    ensures o.moderation.failed ==> exists i :: 0 <= i < |Items(results)| && GuardrailName(Items(results)[i]) == Str(ModerationName)
    ensures o.jailbreak.failed <==> Get(results, JailbreakName).Some? && Get(results, JailbreakName).value.tripwireTriggered == Bool(true)
    ensures o.hallucination.failed <==> Get(results, HallucinationName).Some? && Get(results, HallucinationName).value.tripwireTriggered == Bool(true)
  {
    GuardrailFailOutput(
      PiiSection(Get(results, PiiName)),
      ModerationSection(Get(results, ModerationName)),
      JailbreakSection(Get(results, JailbreakName)),
      HallucinationSection(Get(results, HallucinationName)))
  }

  /** No result under a category's name: that category reports only `failed: false`. */
  lemma MissingCategoryReportsNothing(results: Option<seq<DetectorResult>>)
    ensures var o := BuildGuardrailFailOutput(results);
            var rs := Items(results);
            ((forall i :: 0 <= i < |rs| ==> GuardrailName(rs[i]) != Str(PiiName)) ==>
               o.pii == PiiReport(false, None, None)) &&
            ((forall i :: 0 <= i < |rs| ==> GuardrailName(rs[i]) != Str(ModerationName)) ==>
               o.moderation == ModerationReport(false, None, None)) &&
            ((forall i :: 0 <= i < |rs| ==> GuardrailName(rs[i]) != Str(JailbreakName)) ==>
               o.jailbreak == JailbreakReport(false, None)) &&
            ((forall i :: 0 <= i < |rs| ==> GuardrailName(rs[i]) != Str(HallucinationName)) ==>
               o.hallucination == HallucinationReport(false, None, None, None, None, None))
  {
  }

  /** `r` with its jailbreak scores set to `undefined`. */
  function WithoutScores(r: DetectorResult): DetectorResult {
    if r.info.Some? then r.(info := Some(r.info.value.(threshold := Undefined, confidence := Undefined))) else r
  }

  /** Looking a category up by name does not see the scores. */
  lemma GetIgnoresScores(a: seq<DetectorResult>, b: seq<DetectorResult>, name: string)
    requires |a| == |b|
    requires forall i :: 0 <= i < |a| ==> WithoutScores(a[i]) == WithoutScores(b[i])
    ensures Get(Some(a), name).Some? == Get(Some(b), name).Some?
    ensures Get(Some(a), name).Some? ==> WithoutScores(Get(Some(a), name).value) == WithoutScores(Get(Some(b), name).value)
  {
  }

  /** Two lookups that agree up to scores give the same sections. */
  lemma SectionsIgnoreScores(d: Option<DetectorResult>, e: Option<DetectorResult>)
    requires d.Some? == e.Some?
    requires d.Some? ==> WithoutScores(d.value) == WithoutScores(e.value)
    ensures PiiSection(d) == PiiSection(e)
    ensures ModerationSection(d) == ModerationSection(e)
    ensures JailbreakSection(d) == JailbreakSection(e)
    ensures HallucinationSection(d) == HallucinationSection(e)
  {
  }

  /** The jailbreak `threshold` and `confidence` are read but never used: two
      lists that differ only in those scores give the same report. */
  lemma ScoresNeverAffectReport(a: seq<DetectorResult>, b: seq<DetectorResult>)
    requires |a| == |b|
    requires forall i :: 0 <= i < |a| ==> WithoutScores(a[i]) == WithoutScores(b[i])
    ensures BuildGuardrailFailOutput(Some(a)) == BuildGuardrailFailOutput(Some(b))
  {
    GetIgnoresScores(a, b, PiiName);
    SectionsIgnoreScores(Get(Some(a), PiiName), Get(Some(b), PiiName));
    GetIgnoresScores(a, b, ModerationName);
    SectionsIgnoreScores(Get(Some(a), ModerationName), Get(Some(b), ModerationName));
    GetIgnoresScores(a, b, JailbreakName);
    SectionsIgnoreScores(Get(Some(a), JailbreakName), Get(Some(b), JailbreakName));
    GetIgnoresScores(a, b, HallucinationName);
    SectionsIgnoreScores(Get(Some(a), HallucinationName), Get(Some(b), HallucinationName));
  }

  /** An execution error is reported even in a category that did not fail:
      the `error` field does not depend on `failed`. */
  lemma ErrorReportedWithoutFailure()
    ensures var jb := DetectorResult(Bool(false), Bool(true),
                                     Some(EmptyInfo.(guardrail_name := Str(JailbreakName), error := Str("timeout"))));
            BuildGuardrailFailOutput(Some([jb])).jailbreak == JailbreakReport(false, Some(Str("timeout")))
  {
  }

  /** An error is reported only when `executionFailed` is truthy and `info`
      holds a truthy `error`: a falsy or absent flag, a missing `info`, or a
      falsy or absent message each suppress it. */
  lemma ErrorNeedsBothFlagAndMessage(d: DetectorResult)
    requires !Truthy(d.executionFailed) || d.info.None? || !Truthy(d.info.value.error)
    ensures CategoryError(Some(d)).None?
  {
  }

  /** An empty `flagged_categories` array is truthy, so it is reported, but it
      does not fail the category on its own. */
  lemma EmptyFlaggedCategoriesReported()
    ensures var m := DetectorResult(Bool(false), Bool(false),
                                    Some(EmptyInfo.(guardrail_name := Str(ModerationName), flagged_categories := Arr([]))));
            BuildGuardrailFailOutput(Some([m])).moderation == ModerationReport(false, Some(Arr([])), None)
  {
  }

  /** A sensitive-data result that found one credit card number. */
  const CreditCardDetection := DetectorResult(Bool(true), Bool(false),
    Some(EmptyInfo.(guardrail_name := Str(PiiName),
                    detected_entities := Obj([("CREDIT_CARD", Arr([Str("4111 1111 1111 1111")]))]))))

  /** A credit card number detected once is reported as `"CREDIT_CARD:1"`. */
  lemma CreditCardCounted()
    ensures BuildGuardrailFailOutput(Some([CreditCardDetection])).pii == PiiReport(true, Some(["CREDIT_CARD:1"]), None)
  {
    var pii := CreditCardDetection;
    var entries := [("CREDIT_CARD", Arr([Str("4111 1111 1111 1111")]))];
    assert DecimalString(1) == "1";
    assert CountLabels(entries[1..]) == [];
    assert CountLabel(entries[0]) == "CREDIT_CARD" + ":" + "1" == "CREDIT_CARD:1";
    assert CountLabels(entries) == [CountLabel(entries[0])] + CountLabels(entries[1..]);
    assert GuardrailName(pii) == Str(PiiName);
    assert FindFirst([pii], (r: DetectorResult) => GuardrailName(r) == Str(PiiName)) == Some(0);
    assert Get(Some([pii]), PiiName) == Some(pii);
    assert EntityEntries(Some(pii)) == entries;
    assert PiiCounts(Some(pii)) == ["CREDIT_CARD:1"];
  }

  /** Entity entries that are not arrays are dropped from the counts. */
  lemma NonArrayEntitiesDropped()
    ensures CountLabels([("URL", Str("example.org")), ("PHONE_NUMBER", Arr([Null, Null])), ("NRP", Num(1.0))])
            == ["PHONE_NUMBER:2"]
  {
    var entries := [("URL", Str("example.org")), ("PHONE_NUMBER", Arr([Null, Null])), ("NRP", Num(1.0))];
    assert DecimalString(2) == "2";
    assert CountLabels(entries[2..]) == [];
    assert CountLabel(entries[1]) == "PHONE_NUMBER" + ":" + "2" == "PHONE_NUMBER:2";
    assert CountLabels(entries[1..]) == [CountLabel(entries[1])] + CountLabels(entries[2..]);
  }
}
