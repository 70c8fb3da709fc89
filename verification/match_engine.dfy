/** The program finder's scorer (`calculateMatch`): one program's
    requirements against the applicant's subject ledger, giving a score out
    of 100, a qualification verdict, the reasons for each failed requirement
    and a level. */
module MatchEngine {
  import opened Common
  import opened SubjectLedger
  import opened Catalogue

  datatype Level = Excellent | Good | Fair

  /** One failed requirement, with the values its message shows: the
      threshold and the applicant's Mathematics or English percentage, if
      any, or the missing subject. */
  datatype Reason =
    | NeedMath(threshold: int, have: Option<int>)
    | NeedEnglish(threshold: int, have: Option<int>)
    | MissingSubject(subject: string)

  datatype MatchResult = MatchResult(score: int, qualifies: bool, reasons: seq<Reason>, level: Level)

  /** The contribution of one group of checks: points earned, whether every
      check in the group passed, and the reasons of those that failed. */
  datatype Contribution = Contribution(points: nat, passed: bool, reasons: seq<Reason>)

  const MathPoints: nat := 30
  const MathLitPoints: nat := 25
  const EnglishPoints: nat := 25
  const RequiredPoints: nat := 20
  const RecommendedPoints: nat := 10
  /** The highest math threshold for which Mathematical Literacy is accepted. */
  const MathLitCeiling: int := 40

  /** A threshold is checked when JavaScript finds it truthy: present and
      not 0. */
  predicate Checked(threshold: Option<int>) {
    threshold.Some? && threshold.value != 0
  }

  /** The subjects the required list does not penalise when missing, since
      their own gates already did. */
  predicate GatedSubject(subject: string) {
    subject == "math" || subject == "english"
  }

  predicate IsEnglish(e: SubjectEntry) {
    e.value == "english" || e.value == "english-fal"
  }

  /** The first entry that is English Home Language or English First
      Additional Language. */
  function FindEnglish(ledger: Ledger): (r: Option<SubjectEntry>)
    ensures r.None? <==> forall i :: 0 <= i < |ledger| ==> !IsEnglish(ledger[i])
    ensures r.Some? ==> exists k :: 0 <= k < |ledger| && ledger[k] == r.value && IsEnglish(ledger[k])
                                    && forall i :: 0 <= i < k ==> !IsEnglish(ledger[i])
  {
    if |ledger| == 0 then None
    else if IsEnglish(ledger[0]) then Some(ledger[0])
    else
      var r := FindEnglish(ledger[1..]);
      assert forall i :: 1 <= i < |ledger| ==> ledger[i] == ledger[1..][i - 1];
      if r.Some? then
        var k :| 0 <= k < |ledger[1..]| && ledger[1..][k] == r.value && IsEnglish(ledger[1..][k])
                 && forall i :: 0 <= i < k ==> !IsEnglish(ledger[1..][i]);
        assert ledger[k + 1] == r.value;
        r
      else r
  }

  function PercentageOf(e: Option<SubjectEntry>): Option<int> {
    if e.Some? then Some(e.value.percentage) else None
  }

  /** Whether the math requirement is met, stated without the scorer. */
  predicate MathSatisfied(req: Requirements, ledger: Ledger) {
    !Checked(req.math)
    || (exists i :: 0 <= i < |ledger| && ledger[i].value == "math"
                   && (forall j :: 0 <= j < i ==> ledger[j].value != "math")
                   && ledger[i].percentage >= req.math.value)
    || (Contains(ledger, "math-lit") && req.math.value <= MathLitCeiling)
  }

  /** Whether the English requirement is met, stated without the scorer. */
  predicate EnglishSatisfied(req: Requirements, ledger: Ledger) {
    !Checked(req.english)
    || (exists i :: 0 <= i < |ledger| && IsEnglish(ledger[i])
                   && (forall j :: 0 <= j < i ==> !IsEnglish(ledger[j]))
                   && ledger[i].percentage >= req.english.value)
  }

  /** The first `math` entry reaches the math threshold. */
  predicate MathReached(req: Requirements, ledger: Ledger)
    requires req.math.Some?
  {
    Find(ledger, "math").Some? && Find(ledger, "math").value.percentage >= req.math.value
  }

  /** The positions of a subject list whose subject the ledger holds; a
      subject listed twice is counted twice, as the `forEach` does. */
  function PresentPositions(subjects: seq<string>, ledger: Ledger): set<int> {
    set i | 0 <= i < |subjects| && Contains(ledger, subjects[i])
  }

  /** Growing a list by one subject adds its position exactly when the
      ledger holds that subject. */
  lemma PresentPositionsExtend(subjects: seq<string>, ledger: Ledger)
    requires |subjects| > 0
    ensures var n := |subjects| - 1;
            |PresentPositions(subjects, ledger)|
            == |PresentPositions(subjects[..n], ledger)| + (if Contains(ledger, subjects[n]) then 1 else 0)
  {
    var n := |subjects| - 1;
    var init := PresentPositions(subjects[..n], ledger);
    var last: set<int> := if Contains(ledger, subjects[n]) then {n} else {};
    assert forall i :: 0 <= i < n ==> subjects[..n][i] == subjects[i];
    assert PresentPositions(subjects, ledger) == init + last;
    assert n !in init;
    assert |init + last| == |init| + |last|;
  }

  /** The math gate: 30 points when the first `math` entry reaches the
      threshold, otherwise 25 when any `math-lit` entry exists and the
      threshold is at most 40, otherwise a reason. */
  function MathGate(req: Requirements, ledger: Ledger): (c: Contribution)
    ensures c.passed <==> MathSatisfied(req, ledger)
    ensures c.passed <==> |c.reasons| == 0
    ensures !Checked(req.math) ==> c.points == 0
    ensures Checked(req.math) ==> (c.points == MathPoints || c.points == MathLitPoints) == c.passed
    ensures !c.passed ==> c.points == 0
                          && c.reasons == [NeedMath(req.math.value, PercentageOf(Find(ledger, "math")))]
    ensures Checked(req.math) && MathReached(req, ledger) ==> c.points == MathPoints
    ensures Checked(req.math) && !MathReached(req, ledger) && c.passed ==> c.points == MathLitPoints
  {
    if !Checked(req.math) then Contribution(0, true, [])
    else
      var threshold := req.math.value;
      var math := Find(ledger, "math");
      if math.Some? && math.value.percentage >= threshold then Contribution(MathPoints, true, [])
      else if Find(ledger, "math-lit").Some? && threshold <= MathLitCeiling then Contribution(MathLitPoints, true, [])
      else Contribution(0, false, [NeedMath(threshold, PercentageOf(math))])
  }

  /** The English gate: 25 points when the first English entry of either kind
      reaches the threshold, otherwise a reason. */
  function EnglishGate(req: Requirements, ledger: Ledger): (c: Contribution)
    ensures c.passed <==> EnglishSatisfied(req, ledger)
    ensures c.passed <==> |c.reasons| == 0
    ensures c.points == (if Checked(req.english) && c.passed then EnglishPoints else 0)
    ensures !c.passed ==> c.reasons == [NeedEnglish(req.english.value, PercentageOf(FindEnglish(ledger)))]
  {
    if !Checked(req.english) then Contribution(0, true, [])
    else
      var threshold := req.english.value;
      var english := FindEnglish(ledger);
      if english.Some? && english.value.percentage >= threshold then Contribution(EnglishPoints, true, [])
      else Contribution(0, false, [NeedEnglish(threshold, PercentageOf(english))])
  }

  /** The required subjects that are neither held nor gated, in list order:
      the subjects the required list reports as missing, stated without the
      scorer. */
  function Missing(required: seq<string>, ledger: Ledger): (m: seq<string>)
    ensures |m| <= |required|
    ensures forall s :: s in m <==> s in required && !Contains(ledger, s) && !GatedSubject(s)
  {
    if |required| == 0 then []
    else
      var rest := Missing(required[1..], ledger);
      assert forall s :: s in required <==> s == required[0] || s in required[1..];
      if !Contains(ledger, required[0]) && !GatedSubject(required[0]) then [required[0]] + rest else rest
  }

  /** Appending a subject to the list appends it to the missing ones exactly
      when it is neither held nor gated. */
  lemma {:induction false} MissingAppend(init: seq<string>, subject: string, ledger: Ledger)
    ensures Missing(init + [subject], ledger)
            == Missing(init, ledger) + (if !Contains(ledger, subject) && !GatedSubject(subject) then [subject] else [])
  {
    if |init| > 0 {
      assert (init + [subject])[1..] == init[1..] + [subject];
      MissingAppend(init[1..], subject, ledger);
    } else {
      assert init + [subject] == [subject];
    }
  }

  /** One `MissingSubject` reason per subject, in the same order. */
  function ReasonsFor(subjects: seq<string>): (rs: seq<Reason>)
    ensures |rs| == |subjects|
  {
    seq(|subjects|, k requires 0 <= k < |subjects| => MissingSubject(subjects[k]))
  }

  /** The required subjects, in list order: 20 points for each one present
      (the gated `math` and `english` included, whatever their percentage), a
      reason for each other one missing. */
  function RequiredCheck(required: seq<string>, ledger: Ledger): (c: Contribution)
    ensures c.passed <==> |c.reasons| == 0
    ensures c.passed <==> forall i :: 0 <= i < |required| ==> Contains(ledger, required[i]) || GatedSubject(required[i])
    ensures forall s :: MissingSubject(s) in c.reasons <==>
                          s in required && !Contains(ledger, s) && !GatedSubject(s)
    ensures forall i :: 0 <= i < |c.reasons| ==> c.reasons[i].MissingSubject?
  {
    if |required| == 0 then Contribution(0, true, [])
    else
      var init := required[..|required| - 1];
      var subject := required[|required| - 1];
      var c := RequiredCheck(init, ledger);
      assert forall i :: 0 <= i < |init| ==> init[i] == required[i];
      assert forall s :: s in required <==> s in init || s == subject;
      if Contains(ledger, subject) then Contribution(c.points + RequiredPoints, c.passed, c.reasons)
      else if GatedSubject(subject) then c
      else Contribution(c.points, false, c.reasons + [MissingSubject(subject)])
  }

  /** The reasons of the required list are one `MissingSubject` per
      missing subject, in list order, each reported as often as it is
      listed. */
  lemma {:induction false} RequiredCheckReasons(required: seq<string>, ledger: Ledger)
    ensures RequiredCheck(required, ledger).reasons == ReasonsFor(Missing(required, ledger))
  {
    if |required| > 0 {
      var init := required[..|required| - 1];
      var subject := required[|required| - 1];
      assert required == init + [subject];
      RequiredCheckReasons(init, ledger);
      MissingAppend(init, subject, ledger);
      ReasonsForAppend(Missing(init, ledger), subject);
    }
  }

  lemma ReasonsForAppend(subjects: seq<string>, subject: string)
    ensures ReasonsFor(subjects + [subject]) == ReasonsFor(subjects) + [MissingSubject(subject)]
  {
  }

  /** The required subjects earn 20 points apiece for those present: a
      multiple of 20, all of them only when every one is present. */
  lemma {:induction false} RequiredCheckPoints(required: seq<string>, ledger: Ledger)
    ensures var points := RequiredCheck(required, ledger).points;
            && points % RequiredPoints == 0 && points <= RequiredPoints * |required|
            && (points == RequiredPoints * |required| <==> forall i :: 0 <= i < |required| ==> Contains(ledger, required[i]))
            && points == RequiredPoints * |PresentPositions(required, ledger)|
  {
    if |required| > 0 {
      var init := required[..|required| - 1];
      RequiredCheckPoints(init, ledger);
      PresentPositionsExtend(required, ledger);
      assert forall i :: 0 <= i < |init| ==> init[i] == required[i];
      assert RequiredPoints * |required| == RequiredPoints * |init| + RequiredPoints;
      var c := RequiredCheck(init, ledger);
      assert (c.points + RequiredPoints) % RequiredPoints == 0;
    }
  }

  /** 10 bonus points for each recommended subject present. */
  function RecommendedBonus(recommended: seq<string>, ledger: Ledger): (points: nat)
    ensures points % RecommendedPoints == 0 && points <= RecommendedPoints * |recommended|
    ensures points == 0 <==> forall i :: 0 <= i < |recommended| ==> !Contains(ledger, recommended[i])
    ensures points == RecommendedPoints * |recommended| <==> forall i :: 0 <= i < |recommended| ==> Contains(ledger, recommended[i])
    ensures points == RecommendedPoints * |PresentPositions(recommended, ledger)|
  {
    if |recommended| == 0 then 0
    else
      var init := recommended[..|recommended| - 1];
      PresentPositionsExtend(recommended, ledger);
      assert forall i :: 0 <= i < |init| ==> init[i] == recommended[i];
      assert RecommendedPoints * |recommended| == RecommendedPoints * |init| + RecommendedPoints;
      RecommendedBonus(init, ledger) + (if Contains(ledger, recommended[|recommended| - 1]) then RecommendedPoints else 0)
  }

  /** Sum of all percentages, accumulated left to right as `reduce` does. */
  function Total(ledger: Ledger): int {
    if |ledger| == 0 then 0 else Total(ledger[..|ledger| - 1]) + ledger[|ledger| - 1].percentage
  }

  /** The average bonus, with the average compared by cross-multiplying:
      `Total / n >= 70` exactly when `Total >= 70 * n` for positive n. An empty
      ledger has a NaN average, which meets no threshold. */
  function AverageBonus(ledger: Ledger): (bonus: nat)
    ensures bonus in {0, 5, 10, 15}
    ensures |ledger| == 0 ==> bonus == 0
  {
    var n := |ledger|;
    var total := Total(ledger);
    if n == 0 then 0
    else if total >= 70 * n then 15
    else if total >= 60 * n then 10
    else if total >= 50 * n then 5
    else 0
  }

  /** The bonus the source computes from the floating-point average agrees
      with the exact mean (rounding is not modelled). */
  lemma AverageBonusFromMean(ledger: Ledger)
    requires |ledger| > 0
    ensures var mean := Total(ledger) as real / |ledger| as real;
            AverageBonus(ledger) == (if mean >= 70.0 then 15 else if mean >= 60.0 then 10
                                     else if mean >= 50.0 then 5 else 0)
  {
    var n := |ledger| as real;
    var total := Total(ledger) as real;
    MeanAtLeast(total, n, 70.0);
    MeanAtLeast(total, n, 60.0);
    MeanAtLeast(total, n, 50.0);
  }

  lemma MeanAtLeast(total: real, n: real, bound: real)
    requires n > 0.0
    ensures total / n >= bound <==> total >= bound * n
  {
    var mean := total / n;
    assert mean * n == total;
    if mean >= bound {
      assert (mean - bound) * n >= 0.0;
    } else {
      assert (bound - mean) * n > 0.0;
    }
  }

  /** Level of a raw (unclamped) score, as the source computes it. */
  function LevelOf(raw: int): Level {
    if raw >= 80 then Excellent else if raw >= 60 then Good else Fair
  }

  /** `calculateMatch`: the five contributions summed and capped at 100; the
      program qualifies when every gate passed, and the level comes from the
      uncapped sum. */
  function CalculateMatch(program: Program, ledger: Ledger): (r: MatchResult)
    ensures 0 <= r.score <= 100
    ensures r.qualifies <==> |r.reasons| == 0
    ensures r.level == Excellent <==> r.score >= 80
    ensures r.level == Good <==> 60 <= r.score < 80
    ensures r.level == Fair <==> r.score < 60
  {
    var req := program.requirements;
    var math := MathGate(req, ledger);
    var english := EnglishGate(req, ledger);
    var required := RequiredCheck(req.required, ledger);
    var raw := math.points + english.points + required.points
               + RecommendedBonus(req.recommended, ledger) + AverageBonus(ledger);
    MatchResult(
      if raw < 100 then raw else 100,
      math.passed && english.passed && required.passed,
      math.reasons + english.reasons + required.reasons,
      LevelOf(raw))
  }

  /** The `forEach` over the required subjects, written out as running
      updates of the score, flag and reasons. */
  method ScanRequired(required: seq<string>, ledger: Ledger, score0: int, qualifies0: bool, reasons0: seq<Reason>)
    returns (score: int, qualifies: bool, reasons: seq<Reason>)
    ensures var c := RequiredCheck(required, ledger);
            score == score0 + c.points && qualifies == (qualifies0 && c.passed) && reasons == reasons0 + c.reasons
  {
    score, qualifies, reasons := score0, qualifies0, reasons0;
    var i := 0;
    while i < |required|
      invariant 0 <= i <= |required|
      invariant var c := RequiredCheck(required[..i], ledger);
                score == score0 + c.points && qualifies == (qualifies0 && c.passed) && reasons == reasons0 + c.reasons
    {
      var subject := required[i];
      assert required[..i + 1][..i] == required[..i];
      if Find(ledger, subject).Some? {
        score := score + RequiredPoints;
      } else if subject != "math" && subject != "english" {
        qualifies := false;
        reasons := reasons + [MissingSubject(subject)];
      }
      i := i + 1;
    }
    assert required[..i] == required;
  }

  /** The `forEach` over the recommended subjects. */
  method ScanRecommended(recommended: seq<string>, ledger: Ledger, score0: int) returns (score: int)
    ensures score == score0 + RecommendedBonus(recommended, ledger)
  {
    score := score0;
    var j := 0;
    while j < |recommended|
      invariant 0 <= j <= |recommended|
      invariant score == score0 + RecommendedBonus(recommended[..j], ledger)
    {
      RecommendedBonusStep(recommended, ledger, j);
      if Find(ledger, recommended[j]).Some? {
        score := score + RecommendedPoints;
      }
      j := j + 1;
    }
    assert recommended[..j] == recommended;
  }

  lemma RecommendedBonusStep(recommended: seq<string>, ledger: Ledger, j: nat)
    requires j < |recommended|
    ensures RecommendedBonus(recommended[..j + 1], ledger)
            == RecommendedBonus(recommended[..j], ledger)
               + (if Find(ledger, recommended[j]).Some? then RecommendedPoints else 0)
  {
    assert recommended[..j + 1][..j] == recommended[..j];
  }

  /** The `reduce` summing all percentages. */
  method SumPercentages(ledger: Ledger) returns (total: int)
    ensures total == Total(ledger)
  {
    total := 0;
    var k := 0;
    while k < |ledger|
      invariant 0 <= k <= |ledger|
      invariant total == Total(ledger[..k])
    {
      assert ledger[..k + 1][..k] == ledger[..k];
      total := total + ledger[k].percentage;
      k := k + 1;
    }
    assert ledger[..k] == ledger;
  }

  /** `calculateMatch` with the two `forEach` loops and the `reduce` written
      out as running updates of one score, flag and reason list. It computes
      the same result as `CalculateMatch`. */
  method CalculateMatchLoop(program: Program, ledger: Ledger) returns (r: MatchResult)
    ensures r == CalculateMatch(program, ledger)
  {
    var req := program.requirements;
    var math := MathGate(req, ledger);
    var english := EnglishGate(req, ledger);
    var score, qualifies, reasons :=
      ScanRequired(req.required, ledger, math.points + english.points,
                   math.passed && english.passed, math.reasons + english.reasons);
    score := ScanRecommended(req.recommended, ledger, score);
    ghost var beforeAverage := score;
    var total := SumPercentages(ledger);
    var n := |ledger|;
    if n > 0 {
      if total >= 70 * n { score := score + 15; }
      else if total >= 60 * n { score := score + 10; }
      else if total >= 50 * n { score := score + 5; }
    }
    assert score == beforeAverage + AverageBonus(ledger);
    r := MatchResult(if score < 100 then score else 100, qualifies, reasons,
                     if score >= 80 then Excellent else if score >= 60 then Good else Fair);
    MatchFromRunningValues(program, ledger, score, qualifies, reasons);
  }

  /** The running values the loops leave behind determine the result. */
  lemma MatchFromRunningValues(program: Program, ledger: Ledger, score: int, qualifies: bool, reasons: seq<Reason>)
    requires var req := program.requirements;
             var math := MathGate(req, ledger);
             var english := EnglishGate(req, ledger);
             var c := RequiredCheck(req.required, ledger);
             && score == math.points + english.points + c.points
                         + RecommendedBonus(req.recommended, ledger) + AverageBonus(ledger)
             && qualifies == (math.passed && english.passed && c.passed)
             && reasons == math.reasons + english.reasons + c.reasons
    ensures MatchResult(if score < 100 then score else 100, qualifies, reasons,
                        if score >= 80 then Excellent else if score >= 60 then Good else Fair)
            == CalculateMatch(program, ledger)
  {
  }

  /** A program qualifies exactly when the math and English requirements are
      met and every required subject other than `math` and `english` is
      present. */
  lemma QualifiesExactly(program: Program, ledger: Ledger)
    ensures CalculateMatch(program, ledger).qualifies <==>
              && MathSatisfied(program.requirements, ledger)
              && EnglishSatisfied(program.requirements, ledger)
              && forall s :: s in program.requirements.required && !GatedSubject(s) ==> Contains(ledger, s)
  {
    var required := program.requirements.required;
    var c := RequiredCheck(required, ledger);
    if forall s :: s in required && !GatedSubject(s) ==> Contains(ledger, s) {
      forall i | 0 <= i < |required| ensures Contains(ledger, required[i]) || GatedSubject(required[i]) {
        assert required[i] in required;
      }
    }
  }

  /** Each failed requirement gives exactly one reason: the math gate first,
      then the English gate, then one per missing subject in list order. */
  lemma ReasonsInOrder(program: Program, ledger: Ledger)
    ensures var r := CalculateMatch(program, ledger);
            var req := program.requirements;
            var mathCount := if MathSatisfied(req, ledger) then 0 else 1;
            var englishCount := if EnglishSatisfied(req, ledger) then 0 else 1;
            && |r.reasons| >= mathCount + englishCount
            && (mathCount == 1 ==> r.reasons[0].NeedMath?)
            && (englishCount == 1 ==> r.reasons[mathCount].NeedEnglish?)
            && (forall i :: mathCount + englishCount <= i < |r.reasons| ==> r.reasons[i].MissingSubject?)
    ensures var r := CalculateMatch(program, ledger);
            var req := program.requirements;
            r.reasons
            == (if MathSatisfied(req, ledger) then [] else [NeedMath(req.math.value, PercentageOf(Find(ledger, "math")))])
               + (if EnglishSatisfied(req, ledger) then [] else [NeedEnglish(req.english.value, PercentageOf(FindEnglish(ledger)))])
               + ReasonsFor(Missing(req.required, ledger))
  {
    RequiredCheckReasons(program.requirements.required, ledger);
  }

  /** Mathematical Literacy earns the substitute points whatever its
      percentage: changing the percentage of a `math-lit` entry leaves the
      math gate as it was. */
  lemma {:induction false} MathLitPercentageIgnored(req: Requirements, ledger: Ledger, k: nat, p: int)
    requires k < |ledger| && ledger[k].value == "math-lit"
    ensures MathGate(req, ledger[k := ledger[k].(percentage := p)]) == MathGate(req, ledger)
  {
    var changed := ledger[k := ledger[k].(percentage := p)];
    assert forall i :: 0 <= i < |ledger| ==> changed[i].value == ledger[i].value;
    assert IndexOf(changed, "math") == IndexOf(ledger, "math") by {
      SameValuesSameIndex(changed, ledger, "math");
    }
    assert Contains(changed, "math-lit");
  }

  lemma {:induction false} SameValuesSameIndex(a: Ledger, b: Ledger, value: string)
    requires |a| == |b|
    requires forall i :: 0 <= i < |a| ==> a[i].value == b[i].value
    ensures IndexOf(a, value) == IndexOf(b, value)
  {
    if |a| > 0 && a[0].value != value {
      SameValuesSameIndex(a[1..], b[1..], value);
    }
  }

  /** Without a `math` entry, Mathematical Literacy passes the math gate
      with 25 points exactly when the threshold is at most 40; above that the
      gate fails with no points and the reason reports no Mathematics mark. */
  lemma MathLitBoundary(req: Requirements, ledger: Ledger)
    requires Checked(req.math)
    requires !Contains(ledger, "math") && Contains(ledger, "math-lit")
    ensures req.math.value <= MathLitCeiling ==> MathGate(req, ledger) == Contribution(MathLitPoints, true, [])
    ensures req.math.value > MathLitCeiling ==>
              MathGate(req, ledger) == Contribution(0, false, [NeedMath(req.math.value, None)])
  {
  }

  /** A present `math` entry below the gate still earns the 20 points of a
      required subject, and its absence from the required list is never
      reported twice. */
  lemma RequiredMathBelowGate(req: Requirements, ledger: Ledger)
    requires req.required == ["math"] && Checked(req.math)
    requires Contains(ledger, "math") && !Contains(ledger, "math-lit")
    requires Find(ledger, "math").value.percentage < req.math.value
    ensures MathGate(req, ledger).points == 0 && |MathGate(req, ledger).reasons| == 1
    ensures RequiredCheck(req.required, ledger) == Contribution(RequiredPoints, true, [])
  {
    assert req.required[..0] == [];
  }

  /** An applicant aiming at BCom Accounting, subjects in the order entered:
      Mathematics 65%, English 55%, Accounting 70%. */
  const AccountingApplicant: Ledger := [
    SubjectEntry("math", "Mathematics", 65),
    SubjectEntry("english", "English Home Language", 55),
    SubjectEntry("accounting", "Accounting", 70)]

  /** This applicant against BCom Accounting: 30 + 25 + 2 * 20 + 10 = 105 points,
      capped to 100; the program qualifies at level excellent. */
  lemma AccountingApplicantMatch()
    ensures CalculateMatch(Programs[0], AccountingApplicant) == MatchResult(100, true, [], Excellent)
  {
    var req := Requirements(Some(60), Some(50), ["math", "accounting"], ["economics"]);
    assert Programs[0].requirements == req;
    AccountingApplicantGates(req);
    AccountingApplicantRequired();
    AccountingApplicantRecommended();
    AccountingApplicantAverage();
  }

  lemma AccountingApplicantGates(req: Requirements)
    requires req.math == Some(60) && req.english == Some(50)
    ensures MathGate(req, AccountingApplicant) == Contribution(30, true, [])
    ensures EnglishGate(req, AccountingApplicant) == Contribution(25, true, [])
  {
    assert Find(AccountingApplicant, "math") == Some(AccountingApplicant[0]);
    assert FindEnglish(AccountingApplicant) == Some(AccountingApplicant[1]);
  }

  lemma AccountingApplicantRequired()
    ensures RequiredCheck(["math", "accounting"], AccountingApplicant) == Contribution(40, true, [])
  {
    var required := ["math", "accounting"];
    assert Contains(AccountingApplicant, "accounting") by { assert AccountingApplicant[2].value == "accounting"; }
    assert required[..1] == ["math"];
    assert ["math"][..0] == [];
    assert Contains(AccountingApplicant, "math") by { assert AccountingApplicant[0].value == "math"; }
    assert RequiredCheck(["math"], AccountingApplicant) == Contribution(20, true, []);
  }

  lemma AccountingApplicantRecommended()
    ensures RecommendedBonus(["economics"], AccountingApplicant) == 0
  {
    assert !Contains(AccountingApplicant, "economics");
  }

  lemma AccountingApplicantAverage()
    ensures AverageBonus(AccountingApplicant) == 10
  {
    assert AccountingApplicant[..1][..0] == [];
    assert Total(AccountingApplicant[..1]) == 65;
    assert AccountingApplicant[..2][..1] == AccountingApplicant[..1];
    assert Total(AccountingApplicant[..2]) == 120;
    assert AccountingApplicant[..2] == AccountingApplicant[..|AccountingApplicant| - 1];
    assert Total(AccountingApplicant) == 190;
  }

  /** An applicant with weak Mathematics: Mathematics 30%, English 55%,
      Life Sciences 80%. */
  const ChemistryApplicant: Ledger := [
    SubjectEntry("math", "Mathematics", 30),
    SubjectEntry("english", "English Home Language", 55),
    SubjectEntry("life-science", "Life Sciences", 80)]

  /** This applicant against BSc Chemistry: the math gate fails (30 < 60), the
      present `math` still earns 20 as a required subject, Physical Sciences
      is missing, Life Sciences earns 10 and the average of 55 earns 5:
      25 + 20 + 10 + 5 = 60, level good, two reasons. */
  lemma ChemistryApplicantMatch()
    ensures CalculateMatch(Programs[4], ChemistryApplicant) ==
              MatchResult(60, false, [NeedMath(60, Some(30)), MissingSubject("physical-science")], Good)
  {
    var req := Requirements(Some(60), Some(50), ["math", "physical-science"], ["life-science"]);
    assert Programs[4].requirements == req;
    ChemistryApplicantGates(req);
    ChemistryApplicantRequired();
    ChemistryApplicantRecommended();
    ChemistryApplicantAverage();
  }

  lemma ChemistryApplicantGates(req: Requirements)
    requires req.math == Some(60) && req.english == Some(50)
    ensures MathGate(req, ChemistryApplicant) == Contribution(0, false, [NeedMath(60, Some(30))])
    ensures EnglishGate(req, ChemistryApplicant) == Contribution(25, true, [])
  {
    assert Find(ChemistryApplicant, "math") == Some(ChemistryApplicant[0]);
    assert !Contains(ChemistryApplicant, "math-lit");
    assert FindEnglish(ChemistryApplicant) == Some(ChemistryApplicant[1]);
  }

  lemma ChemistryApplicantRequired()
    ensures RequiredCheck(["math", "physical-science"], ChemistryApplicant)
            == Contribution(20, false, [MissingSubject("physical-science")])
  {
    var required := ["math", "physical-science"];
    assert !Contains(ChemistryApplicant, "physical-science");
    assert required[..1] == ["math"];
    assert ["math"][..0] == [];
    assert Contains(ChemistryApplicant, "math") by { assert ChemistryApplicant[0].value == "math"; }
    assert RequiredCheck(["math"], ChemistryApplicant) == Contribution(20, true, []);
  }

  lemma ChemistryApplicantRecommended()
    ensures RecommendedBonus(["life-science"], ChemistryApplicant) == 10
  {
    assert Contains(ChemistryApplicant, "life-science") by { assert ChemistryApplicant[2].value == "life-science"; }
    assert ["life-science"][..0] == [];
  }

  lemma ChemistryApplicantAverage()
    ensures AverageBonus(ChemistryApplicant) == 5
  {
    assert ChemistryApplicant[..1][..0] == [];
    assert Total(ChemistryApplicant[..1]) == 30;
    assert ChemistryApplicant[..2][..1] == ChemistryApplicant[..1];
    assert Total(ChemistryApplicant[..2]) == 85;
    assert ChemistryApplicant[..2] == ChemistryApplicant[..|ChemistryApplicant| - 1];
    assert Total(ChemistryApplicant) == 165;
  }
}
