/** The multi-step application form's state (`useApplicationForm`): the form
    data, the current step and the list of completed steps, with the
    operations that move between steps, merge edits into a section and reset
    everything. */
module ApplicationWizard {
  import JsText

  /** The JSON-like values the form holds. */
  datatype Value =
    | Str(text: string)
    | Flag(on: bool)
    | List(items: seq<Value>)
    | Obj(fields: map<string, Value>)

  /** Form data: section name to section value. */
  type FormData = map<string, Value>

  const FirstStep: int := 1
  const LastStep: int := 10

  datatype Wizard = Wizard(formData: FormData, currentStep: int, completedSteps: seq<int>)

  /** `defaultFormData`: every text empty, every flag false, every list
      empty, no documents. */
  const DefaultFormData: FormData := map[
    "personal" := Obj(map[
      "firstName" := Str(""), "surname" := Str(""), "email" := Str(""), "phone" := Str(""),
      "phoneVerified" := Flag(false), "idNumber" := Str(""), "dateOfBirth" := Str(""),
      "gender" := Str(""), "address" := Str(""), "city" := Str(""), "postalCode" := Str("")]),
    "academic" := Obj(map[
      "highSchool" := Str(""), "grade12Year" := Str(""), "subjects" := List([]),
      "firstChoice" := Str(""), "secondChoice" := Str("")]),
    "documents" := Obj(map[]),
    "statement" := Obj(map["personalStatement" := Str(""), "whyUWC" := Str("")]),
    "activities" := List([]),
    "experience" := List([]),
    "references" := List([]),
    "residence" := Obj(map["needsResidence" := Flag(false), "preferredRes" := Str(""), "specialNeeds" := Str("")]),
    "financial" := Obj(map["needsFinancialAid" := Flag(false), "nsfasApplied" := Flag(false), "otherFunding" := Str("")])
  ]

  /** The state the hook starts in and `resetForm` returns to. */
  const Initial: Wizard := Wizard(DefaultFormData, FirstStep, [])

  /** The own properties `{...v}` copies out of a value: an object's fields,
      an array's elements under their decimal indices, nothing for a boolean
      or a missing section. A string is keyed one character per index here,
      where JavaScript keys it by UTF-16 code unit; no section of the form
      holds a string. */
  function Spread(v: Value): (m: map<string, Value>)
    ensures v.Obj? ==> m == v.fields
    ensures v.List? ==> |m| == |v.items|
                        && forall i :: 0 <= i < |v.items| ==> JsText.NatToString(i) in m && m[JsText.NatToString(i)] == v.items[i]
    ensures v.Flag? ==> m == map[]
  {
    match v
    case Obj(fields) => fields
    case List(items) => IndexKeyed(items)
    case Str(text) => IndexKeyed(seq(|text|, i requires 0 <= i < |text| => Str([text[i]])))
    case Flag(_) => map[]
  }

  /** `m` maps the decimal indices of `items`, and nothing else, to the
      elements. */
  predicate KeyedByIndex(items: seq<Value>, m: map<string, Value>) {
    && (forall i :: 0 <= i < |items| ==> JsText.NatToString(i) in m && m[JsText.NatToString(i)] == items[i])
    && (forall k :: k in m ==> exists i :: 0 <= i < |items| && k == JsText.NatToString(i))
    && |m| == |items|
  }

  /** The decimal indices of `items` mapped to its elements. */
  function IndexKeyed(items: seq<Value>): (m: map<string, Value>)
    ensures KeyedByIndex(items, m)
  {
    if |items| == 0 then map[]
    else
      var n := |items| - 1;
      var previous := IndexKeyed(items[..n]);
      KeyedByIndexExtend(items, previous);
      previous[JsText.NatToString(n) := items[n]]
  }

  /** Adding the last element under its index extends an index-keyed map. */
  lemma KeyedByIndexExtend(items: seq<Value>, previous: map<string, Value>)
    requires |items| > 0 && KeyedByIndex(items[..|items| - 1], previous)
    ensures KeyedByIndex(items, previous[JsText.NatToString(|items| - 1) := items[|items| - 1]])
  {
    var n := |items| - 1;
    var key := JsText.NatToString(n);
    var m := previous[key := items[n]];
    assert key !in previous by {
      forall k | k in previous ensures k != key {
        var i :| 0 <= i < n && k == JsText.NatToString(i);
        JsText.NatToStringInjective(i, n);
      }
    }
    forall i | 0 <= i < |items| ensures JsText.NatToString(i) in m && m[JsText.NatToString(i)] == items[i] {
      if i < n {
        JsText.NatToStringInjective(i, n);
        assert items[..n][i] == items[i];
      }
    }
    forall k | k in m ensures exists i :: 0 <= i < |items| && k == JsText.NatToString(i) {
      if k != key {
        var i :| 0 <= i < n && k == JsText.NatToString(i);
        assert 0 <= i < |items|;
      }
    }
  }

  /** `updateFormData(section, data)`: the section becomes an object holding
      the previous section's own properties overwritten by `data`; every other
      section, the step and the completed steps stay as they were. */
  function UpdateFormData(w: Wizard, section: string, data: map<string, Value>): (r: Wizard)
    ensures r.currentStep == w.currentStep && r.completedSteps == w.completedSteps
    ensures r.formData.Keys == w.formData.Keys + {section}
    ensures forall other :: other in w.formData && other != section ==> r.formData[other] == w.formData[other]
    ensures r.formData[section].Obj?
    ensures forall f :: f in data ==> f in r.formData[section].fields && r.formData[section].fields[f] == data[f]
    ensures section in w.formData && w.formData[section].Obj? ==>
              r.formData[section].fields.Keys == w.formData[section].fields.Keys + data.Keys
              && forall f :: f in w.formData[section].fields && f !in data ==>
                   r.formData[section].fields[f] == w.formData[section].fields[f]
  {
    var previous := if section in w.formData then Spread(w.formData[section]) else map[];
    var merged := previous + data;
    assert merged.Keys == previous.Keys + data.Keys;
    w.(formData := w.formData[section := Obj(merged)])
  }

  /** `goToStep(step)`: any step is accepted, nothing else changes. */
  function GoToStep(w: Wizard, step: int): (r: Wizard)
    ensures r.currentStep == step
    ensures r.formData == w.formData && r.completedSteps == w.completedSteps
  {
    w.(currentStep := step)
  }

  predicate NoDuplicates(steps: seq<int>) {
    forall i, j :: 0 <= i < j < |steps| ==> steps[i] != steps[j]
  }

  /** `nextStep`: records the current step as completed unless it already
      is, then advances unless at the last step. */
  function NextStep(w: Wizard): (r: Wizard)
    ensures r.formData == w.formData
    ensures w.currentStep in r.completedSteps
    ensures |w.completedSteps| <= |r.completedSteps| <= |w.completedSteps| + 1
    ensures r.completedSteps[..|w.completedSteps|] == w.completedSteps
    ensures |r.completedSteps| == |w.completedSteps| + 1 <==> w.currentStep !in w.completedSteps
    ensures NoDuplicates(w.completedSteps) ==> NoDuplicates(r.completedSteps)
    ensures w.currentStep < LastStep ==> r.currentStep == w.currentStep + 1
    ensures w.currentStep >= LastStep ==> r.currentStep == w.currentStep
  {
    var completed := if w.currentStep in w.completedSteps then w.completedSteps
                     else w.completedSteps + [w.currentStep];
    var r := if w.currentStep < LastStep then GoToStep(w, w.currentStep + 1) else w;
    assert completed[..|w.completedSteps|] == w.completedSteps;
    r.(completedSteps := completed)
  }

  /** `prevStep`: goes back one step unless at the first; the completed
      steps are never touched. */
  function PrevStep(w: Wizard): (r: Wizard)
    ensures r.formData == w.formData && r.completedSteps == w.completedSteps
    ensures w.currentStep > FirstStep ==> r.currentStep == w.currentStep - 1
    ensures w.currentStep <= FirstStep ==> r == w
  {
    if w.currentStep > FirstStep then GoToStep(w, w.currentStep - 1) else w
  }

  /** `resetForm`: whatever the state, back to the default data, step 1 and
      no completed steps. */
  function ResetForm(w: Wizard): (r: Wizard)
    ensures r.formData == DefaultFormData && r.currentStep == FirstStep && r.completedSteps == []
  {
    Initial
  }

  /** The two navigation buttons. */
  datatype Move = Next | Prev

  function Navigate(w: Wizard, moves: seq<Move>): Wizard
    decreases |moves|
  {
    if |moves| == 0 then w
    else Navigate(if moves[0] == Next then NextStep(w) else PrevStep(w), moves[1..])
  }

  /** What holds when only the buttons are used: the step is within 1..10,
      the completed steps are exactly 1, 2, ..., k in order, and the current
      step is at most k + 1. */
  predicate ButtonReachable(w: Wizard) {
    && FirstStep <= w.currentStep <= LastStep
    && |w.completedSteps| <= LastStep
    && (forall i :: 0 <= i < |w.completedSteps| ==> w.completedSteps[i] == i + 1)
    && w.currentStep <= |w.completedSteps| + 1
  }

  lemma NextKeepsReachable(w: Wizard)
    requires ButtonReachable(w)
    ensures ButtonReachable(NextStep(w))
  {
    if w.currentStep <= |w.completedSteps| {
      assert w.completedSteps[w.currentStep - 1] == w.currentStep;
    }
  }

  /** Starting from the initial state and pressing only Next and Prev, the
      step stays within 1..10 and the completed steps hold no duplicates. */
  lemma {:induction false} NavigationStaysInBounds(w: Wizard, moves: seq<Move>)
    requires ButtonReachable(w)
    ensures ButtonReachable(Navigate(w, moves))
    ensures FirstStep <= Navigate(w, moves).currentStep <= LastStep
    ensures NoDuplicates(Navigate(w, moves).completedSteps)
    decreases |moves|
  {
    if |moves| > 0 {
      if moves[0] == Next {
        NextKeepsReachable(w);
      }
      NavigationStaysInBounds(if moves[0] == Next then NextStep(w) else PrevStep(w), moves[1..]);
    }
  }

  lemma InitialReachable()
    ensures ButtonReachable(Initial)
  {
  }

  /** At the last step Next records the step as completed but stays put. */
  lemma NextAtLastStep(w: Wizard)
    requires w.currentStep == LastStep && LastStep !in w.completedSteps
    ensures NextStep(w).currentStep == LastStep
    ensures NextStep(w).completedSteps == w.completedSteps + [LastStep]
  {
  }

  /** Applying the same edit twice is the same as applying it once. */
  lemma UpdateFormDataIdempotent(w: Wizard, section: string, data: map<string, Value>)
    ensures UpdateFormData(UpdateFormData(w, section, data), section, data) == UpdateFormData(w, section, data)
  {
    var once := UpdateFormData(w, section, data);
    var fields := once.formData[section].fields;
    assert fields + data == fields;
    assert once.formData[section := Obj(fields)] == once.formData;
  }

  /** Prev after a Next that advanced returns to the step it left; the form
      data is untouched by both. */
  lemma PrevUndoesNext(w: Wizard)
    requires FirstStep <= w.currentStep < LastStep
    ensures PrevStep(NextStep(w)).currentStep == w.currentStep
    ensures PrevStep(NextStep(w)).formData == w.formData
  {
  }
}
