/** The program finder's list of subjects the applicant has entered
    (`userSubjects`), with the add, remove and reset operations that maintain
    it and the rule that enables the "Get My Recommendations" button. */
module SubjectLedger {
  import opened Common
  import JsText

  /** One entered subject: its option value (`math`, `english-fal`, ...), its
      display name and its percentage. */
  datatype SubjectEntry = SubjectEntry(value: string, name: string, percentage: int)

  /** Entries in the order they were added. */
  type Ledger = seq<SubjectEntry>

  /** Why `addSubject` refused its input; each leaves the ledger as it was. */
  datatype AddError = NoSubjectSelected | InvalidPercentage | AlreadyAdded

  /** The number of subjects needed before recommendations are offered. */
  const MinSubjects: nat := 3

  predicate Contains(ledger: Ledger, value: string) {
    exists i :: 0 <= i < |ledger| && ledger[i].value == value
  }

  /** No subject value occurs twice. */
  predicate Unique(ledger: Ledger) {
    forall i, j :: 0 <= i < j < |ledger| ==> ledger[i].value != ledger[j].value
  }

  /** `userSubjects.findIndex(s => s.value === value)`: the first position
      holding `value`, or -1. */
  function IndexOf(ledger: Ledger, value: string): (k: int)
    ensures -1 <= k < |ledger|
    ensures k == -1 <==> !Contains(ledger, value)
    ensures k >= 0 ==> ledger[k].value == value
    ensures forall i :: 0 <= i < k ==> ledger[i].value != value
  {
    if |ledger| == 0 then -1
    else if ledger[0].value == value then 0
    else
      var k := IndexOf(ledger[1..], value);
      assert Contains(ledger[1..], value) ==> Contains(ledger, value) by {
        if Contains(ledger[1..], value) {
          var i :| 0 <= i < |ledger[1..]| && ledger[1..][i].value == value;
          assert ledger[i + 1].value == value;
        }
      }
      if k == -1 then -1 else k + 1
  }

  /** `userSubjects.find(s => s.value === value)`: the first entry with that
      value, if any. */
  function Find(ledger: Ledger, value: string): (r: Option<SubjectEntry>)
    ensures r.None? <==> !Contains(ledger, value)
    ensures r.Some? ==> r.value.value == value && r.value == ledger[IndexOf(ledger, value)]
  {
    var k := IndexOf(ledger, value);
    if k == -1 then None else Some(ledger[k])
  }

  /** The percentage check of `addSubject`: `parseInt` must give a number
      that is neither falsy (so not 0 and not NaN) nor outside 0..100. */
  predicate AcceptedPercentage(parsed: Option<int>) {
    parsed.Some? && 1 <= parsed.value <= 100
  }

  /** `addSubject`: validates the selected subject and the typed percentage
      in that order, rejects a subject already entered, and otherwise appends
      one entry. */
  function AddSubject(ledger: Ledger, value: string, name: string, percentageText: string)
    : (r: Result<Ledger, AddError>)
    ensures value == "" ==> r == Failure(NoSubjectSelected)
    ensures value != "" && !AcceptedPercentage(JsText.ParseInt(percentageText))
            ==> r == Failure(InvalidPercentage)
    ensures r.Success? <==>
              value != "" && AcceptedPercentage(JsText.ParseInt(percentageText))
              && !Contains(ledger, value)
    ensures r.Failure? && value != "" && AcceptedPercentage(JsText.ParseInt(percentageText))
            ==> r.error == AlreadyAdded
    ensures r.Success? ==>
              var p := JsText.ParseInt(percentageText).value;
              && |r.value| == |ledger| + 1
              && r.value[..|ledger|] == ledger
              && r.value[|ledger|] == SubjectEntry(value, name, p)
  {
    var percentage := JsText.ParseInt(percentageText);
    if value == "" then Failure(NoSubjectSelected)
    else if percentage.None? || percentage.value == 0 || percentage.value < 0 || percentage.value > 100 then
      Failure(InvalidPercentage)
    else if Find(ledger, value).Some? then Failure(AlreadyAdded)
    else Success(ledger + [SubjectEntry(value, name, percentage.value)])
  }

  /** `removeSubject`: deletes the first entry with `value`; nothing happens
      when there is none. */
  function RemoveSubject(ledger: Ledger, value: string): (r: Ledger)
    ensures !Contains(ledger, value) ==> r == ledger
    ensures Contains(ledger, value) ==>
              exists k :: 0 <= k < |ledger| && ledger[k].value == value
                          && (forall i :: 0 <= i < k ==> ledger[i].value != value)
                          && r == ledger[..k] + ledger[k + 1..]
  {
    var k := IndexOf(ledger, value);
    if k > -1 then ledger[..k] + ledger[k + 1..] else ledger
  }

  /** `resetFinder` empties the ledger. */
  function ResetLedger(): (r: Ledger)
    ensures |r| == 0
  {
    []
  }

  /** What `updateRecommendationsButton` shows: the button is disabled and
      asks for the missing number of subjects, or invites the request. */
  datatype ButtonState = AddMore(missing: nat) | GetRecommendations

  function RecommendationsButton(ledger: Ledger): (b: ButtonState)
    ensures b.AddMore? <==> |ledger| < MinSubjects
    ensures b.AddMore? ==> 1 <= b.missing <= MinSubjects && |ledger| + b.missing == MinSubjects
  {
    if |ledger| < MinSubjects then AddMore(MinSubjects - |ledger|) else GetRecommendations
  }

  /** Adding never creates a second entry for a subject. */
  lemma {:induction false} AddPreservesUnique(ledger: Ledger, value: string, name: string, text: string)
    requires Unique(ledger)
    ensures AddSubject(ledger, value, name, text).Success? ==> Unique(AddSubject(ledger, value, name, text).value)
  {
    var r := AddSubject(ledger, value, name, text);
    if r.Success? {
      var l := r.value;
      forall i, j | 0 <= i < j < |l| ensures l[i].value != l[j].value {
        if j == |ledger| {
          assert l[i] == ledger[i];
          assert !Contains(ledger, value);
        } else {
          assert l[i] == ledger[i] && l[j] == ledger[j];
        }
      }
    }
  }

  /** Removing keeps the ledger free of duplicates, and in a duplicate-free
      ledger the removed subject is gone afterwards. */
  lemma {:induction false} RemoveFromUnique(ledger: Ledger, value: string)
    requires Unique(ledger)
    ensures Unique(RemoveSubject(ledger, value))
    ensures !Contains(RemoveSubject(ledger, value), value)
    ensures Contains(ledger, value) ==> |RemoveSubject(ledger, value)| == |ledger| - 1
  {
    var k := IndexOf(ledger, value);
    if k > -1 {
      assert RemoveSubject(ledger, value) == ledger[..k] + ledger[k + 1..];
      DeleteAtKeepsUnique(ledger, k);
    }
  }

  /** Position `i` of a ledger with entry `k` deleted. */
  lemma DeleteAtIndex(ledger: Ledger, k: int, i: int)
    requires 0 <= k < |ledger| && 0 <= i < |ledger| - 1
    ensures (ledger[..k] + ledger[k + 1..])[i] == ledger[if i < k then i else i + 1]
  {
  }

  /** Deleting one entry of a duplicate-free ledger leaves it duplicate-free
      and removes its value altogether. */
  lemma DeleteAtKeepsUnique(ledger: Ledger, k: int)
    requires Unique(ledger) && 0 <= k < |ledger|
    ensures Unique(ledger[..k] + ledger[k + 1..])
    ensures !Contains(ledger[..k] + ledger[k + 1..], ledger[k].value)
  {
    var r := ledger[..k] + ledger[k + 1..];
    forall i, j | 0 <= i < j < |r| ensures r[i].value != r[j].value {
      DeleteAtIndex(ledger, k, i);
      DeleteAtIndex(ledger, k, j);
    }
    forall i | 0 <= i < |r| ensures r[i].value != ledger[k].value {
      DeleteAtIndex(ledger, k, i);
    }
  }

  /** A successful add is undone by removing the same subject. */
  lemma {:induction false} RemoveUndoesAdd(ledger: Ledger, value: string, name: string, text: string)
    requires AddSubject(ledger, value, name, text).Success?
    ensures RemoveSubject(AddSubject(ledger, value, name, text).value, value) == ledger
  {
    var l := AddSubject(ledger, value, name, text).value;
    var k := IndexOf(l, value);
    assert !Contains(ledger, value);
    assert l[|ledger|].value == value;
    assert k == |ledger|;
    assert l[..k] == ledger;
  }

  /** After a subject is removed from a duplicate-free ledger, adding it
      again with a valid percentage succeeds and records the new percentage. */
  lemma {:induction false} ReAddAfterRemove(ledger: Ledger, value: string, name: string, text: string)
    requires Unique(ledger)
    requires value != "" && AcceptedPercentage(JsText.ParseInt(text))
    ensures AddSubject(RemoveSubject(ledger, value), value, name, text).Success?
    ensures var l := AddSubject(RemoveSubject(ledger, value), value, name, text).value;
            Find(l, value) == Some(SubjectEntry(value, name, JsText.ParseInt(text).value))
  {
    var removed := RemoveSubject(ledger, value);
    RemoveFromUnique(ledger, value);
    var l := AddSubject(removed, value, name, text).value;
  }
}
