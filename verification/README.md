# UWC application portal — a Dafny model of its decision logic

This project models the parts of the UWC application portal that decide
something, leaving out what it only displays:

- **The program finder** (`program-finder.js`) has three parts:
  - the applicant's subject ledger (`addSubject`, `removeSubject`, `resetFinder`) and the three-subject gate on the recommendations button;
  - the rule-based scorer `calculateMatch`, which checks one program's math, English, required and recommended requirements against the ledger;
  - `getRecommendations`, which scores the thirteen-program catalogue `uwcPrograms` and sorts it by descending score.
- **The step state machine of the React application form** (`useApplicationForm`) covers `nextStep`, `prevStep`, `goToStep`, `updateFormData`, `resetForm` and `defaultFormData`.
- **The academic section** (`AcademicSection`) covers the subject-list edits `addSubject`, `updateSubject` and `removeSubject`, and the simplified APS (admission point score) `getAPS`.
- **The vanilla-JavaScript portal** (`script.js`) covers:
  - the field checks of `validateField` and the section check built on them;
  - the bounded section counter of `nextSection` and `prevSection`;
  - the one-time-code rule of `confirmVerification`;
  - the competitiveness flag of `showRanking`.

Everything is written as pure functions over immutable datatypes. The JavaScript behaviour these rules depend on is modelled explicitly in `JsText`:
- `String.prototype.trim` and the `\s` class, with the full ECMAScript white-space set;
- `parseInt` without a radix, with leading white space, a sign, the `0x` prefix, the longest digit prefix, and `NaN` as `None`;
- the UTF-16 `length` of a string;
- decimal rendering of integers.

The project's modules:

| file | module | models |
|---|---|---|
| common.dfy | `Common` | `Option`, `Result` |
| js_text.dfy | `JsText` | JavaScript string and number primitives |
| subject_ledger.dfy | `SubjectLedger` | `userSubjects`, `addSubject`, `removeSubject`, the button gate |
| catalogue.dfy | `Catalogue` | `uwcPrograms` (the fields the scorer reads) |
| match_engine.dfy | `MatchEngine` | `calculateMatch` |
| program_finder.dfy | `ProgramFinder` | `getRecommendations`, `resetFinder` |
| wizard.dfy | `ApplicationWizard` | `useApplicationForm` step and data operations |
| academic.dfy | `AcademicRecord` | `AcademicSection` list edits and `getAPS` |
| field_validation.dfy | `FieldValidation` | `validateField`, `validateCurrentSection` |
| portal.dfy | `Portal` | `nextSection`, `prevSection`, `confirmVerification`, `showRanking` |

The scorer follows the code in one rule that is easy to misread:
- **+20 for a present `math` or `english` entry.** `program-finder.js:388-395` awards 20 points for a `math` or `english` entry in a program's required list. This is on top of the gate points, and it holds even when that entry is below the gate's threshold. The "missing" reason is the only thing skipped for those two ids.
- **The two worked applicants.** Because of that rule:
  - The ledger Mathematics 65, English 55, Accounting 70 against BCom Accounting scores 105, capped to 100. It qualifies and its level is excellent.
  - The ledger Mathematics 30, English 55, Life Sciences 80 against BSc Chemistry scores 60, at level good, with two reasons.

## Model

| member | source | states |
|---|---|---|
| JsText.Trim | script.js:255 | the trimmed text is an infix of the input whose cut-off prefix and suffix are all white space, and it neither starts nor ends with white space; text without white space is unchanged; the result is empty exactly when the text is all white space |
| JsText.TrimIsInfix | script.js:255 | cutting leading white space and then trailing white space leaves an infix with white space only outside it |
| JsText.RemoveSpaces | script.js:281 | the result has no white space left, is no longer than the input, and text without white space passes unchanged |
| JsText.Utf16Length | script.js:291 | a string's `length` counts one or two code units per character: one for a character in the Basic Multilingual Plane, two for one above it |
| JsText.Utf16LengthConcat | script.js:291 | the `length` of a concatenation is the sum of the lengths, so together with the one-character case the `length` is the number of characters plus the number of characters above U+FFFF |
| JsText.DigitsUtf16Length | script.js:291 | a string of ASCII digits has a `length` equal to its number of characters |
| JsText.ParseIntOfIntToString | program-finder.js:269 | `parseInt` reads back every integer rendered in decimal digits, negative ones included |
| JsText.ParseIntOfDigitsThen | program-finder.js:269 | `parseInt` of a number followed by text that does not start with a digit ("65%", "65 ") gives that number, except that `0` followed by `x` or `X` starts a hexadecimal literal |
| JsText.ParseIntNaN | src/components/sections/AcademicSection.tsx:99 | `parseInt` gives `NaN` when, after leading white space, the text is empty or starts with neither a sign nor a digit |
| JsText.NatToStringInjective | src/hooks/useApplicationForm.ts:180-183 | distinct array indices become distinct property keys when an array is spread into an object |
| SubjectLedger.IndexOf | program-finder.js:306 | `findIndex` returns -1 exactly when the value is absent; otherwise it returns the first position holding the value |
| SubjectLedger.Find | program-finder.js:283 | `find` returns nothing exactly when the value is absent; otherwise it returns the entry at the first position with that value |
| SubjectLedger.AddSubject | program-finder.js:263-302 | empty subject → NoSubjectSelected; NaN, 0, negative or >100 percentage → InvalidPercentage; otherwise success exactly when the value is not yet in the ledger, and success appends exactly one entry holding the parsed percentage after the unchanged old entries |
| SubjectLedger.RemoveSubject | program-finder.js:305-312 | an absent value leaves the ledger unchanged; otherwise exactly the first entry with that value is cut out and the others keep their order |
| SubjectLedger.RecommendationsButton | program-finder.js:341-350 | the button is disabled exactly when fewer than 3 subjects are entered, and then it asks for the missing number, 1 to 3 |
| SubjectLedger.AddPreservesUnique | program-finder.js:283-293 | adding never creates a second entry for a subject value |
| SubjectLedger.RemoveFromUnique | program-finder.js:305-312 | in a duplicate-free ledger, removal keeps it duplicate-free, removes the value altogether and shortens the ledger by one when the value was present |
| SubjectLedger.RemoveUndoesAdd | program-finder.js:263-312 | removing a subject right after adding it successfully gives back the original ledger |
| SubjectLedger.ReAddAfterRemove | program-finder.js:283-312 | after a removal, adding the same subject with a valid percentage succeeds and records the new percentage |
| Catalogue.ProgramsWellFormed | program-finder.js:5-260 | the catalogue holds 13 programs with distinct ids, and each sets a math and an English threshold between 1 and 100 |
| Catalogue.MathLiteracyPrograms | program-finder.js:5-260 | a program's math threshold is at most 40, so that Mathematical Literacy can stand in, exactly when it is one of badmin, ba-psychology, ba-social-work, ba-english and ba-sport-recreation |
| MatchEngine.FindEnglish | program-finder.js:376 | the English lookup finds nothing exactly when there is no `english`/`english-fal` entry; otherwise it returns the first such entry in ledger order |
| MatchEngine.MathGate | program-finder.js:360-372 | the gate passes exactly when math is unchecked, the first `math` entry reaches the threshold, or a `math-lit` entry exists and the threshold is at most 40; on success it gives 30 when the first `math` entry reaches the threshold and 25 when only the Mathematical Literacy substitute applies; on failure it gives 0 points and one reason reporting the threshold and the applicant's math mark |
| MatchEngine.EnglishGate | program-finder.js:374-384 | the gate passes exactly when English is unchecked or the first English entry of either kind reaches the threshold; it gives 25 points on a checked pass, and otherwise one reason with the threshold and the mark |
| MatchEngine.RequiredCheck | program-finder.js:386-397 | the group passes exactly when every required subject is present or gated; a missing-subject reason is given for exactly the absent, ungated subjects, and for nothing else |
| MatchEngine.Missing | program-finder.js:386-397 | the missing subjects, filtered in list order, are exactly the listed subjects that are neither in the ledger nor `math` or `english` |
| MatchEngine.RequiredCheckReasons | program-finder.js:386-397 | the reasons of the required list are one missing-subject reason per missing subject, in list order, a subject listed twice being reported twice |
| MatchEngine.RequiredCheckPoints | program-finder.js:388-391 | required subjects earn 20 points per listed position whose subject is present, so a repeated id counts twice; the full amount is earned exactly when all are present |
| MatchEngine.RecommendedBonus | program-finder.js:399-407 | recommended subjects earn 10 points per listed position whose subject is present; the bonus is 0 exactly when none is present and the maximum exactly when all are |
| MatchEngine.AverageBonus | program-finder.js:409-413 | the average bonus is one of 0, 5, 10 or 15, and 0 for an empty ledger |
| MatchEngine.AverageBonusFromMean | program-finder.js:410-413 | comparing the sum against 70·n, 60·n and 50·n gives the same bonus as comparing the exact mean with 70, 60 and 50 |
| MatchEngine.CalculateMatch | program-finder.js:353-421 | the score lies in [0,100]; the program qualifies exactly when there is no reason; the level is excellent from 80, good from 60 up to 79, fair below 60 |
| MatchEngine.ScanRequired | program-finder.js:387-397 | the in-place `forEach` over required subjects adds exactly the group's points, reasons and verdict to the running values |
| MatchEngine.ScanRecommended | program-finder.js:400-407 | the in-place `forEach` over recommended subjects adds exactly the recommended bonus |
| MatchEngine.SumPercentages | program-finder.js:410 | the `reduce` computes the sum of all percentages |
| MatchEngine.CalculateMatchLoop | program-finder.js:353-421 | the function with the two `forEach` loops and the `reduce` written out as running updates of one score, flag and reason list computes the same result as the compositional `CalculateMatch` |
| MatchEngine.QualifiesExactly | program-finder.js:356-397 | a program qualifies exactly when the math and English requirements are met and every required subject other than `math` and `english` is present |
| MatchEngine.ReasonsInOrder | program-finder.js:369-394 | the reasons are exactly: the math reason with its threshold and mark if the math requirement fails, then the English reason if the English requirement fails, then one missing-subject reason per missing subject in list order |
| MatchEngine.MathLitPercentageIgnored | program-finder.js:362-367 | the percentage of a Mathematical Literacy entry has no effect on the math gate |
| MatchEngine.MathLitBoundary | program-finder.js:366-370 | with Mathematical Literacy and no `math` entry, the gate gives 25 points exactly when the threshold is at most 40; above 40 it fails with a reason reporting no math mark |
| MatchEngine.RequiredMathBelowGate | program-finder.js:364-395 | a `math` entry below the gate earns no gate points and one reason, yet still earns 20 as a required subject, with no second reason |
| MatchEngine.AccountingApplicantMatch | program-finder.js:353-421 | Mathematics 65, English 55, Accounting 70 against BCom Accounting gives score 100, qualifies, no reasons, excellent |
| MatchEngine.ChemistryApplicantMatch | program-finder.js:353-421 | Mathematics 30, English 55, Life Sciences 80 against BSc Chemistry gives score 60, does not qualify, reasons [math 60 with 30, missing physical-science], good |
| ProgramFinder.Insert | program-finder.js:434 | inserting into a descending list keeps it descending, adds exactly that entry, and places it ahead of the entries it ties with |
| ProgramFinder.SortByScore | program-finder.js:434 | the sort's output is in non-increasing score order, is a permutation of the input, and for every score keeps the entries with that score in their input order |
| ProgramFinder.TiesKeepInputOrder | program-finder.js:431-434 | two entries that tie in the sorted output appear in the same order in the input (stability) |
| ProgramFinder.Evaluate | program-finder.js:431-433 | the `map` pairs each catalogue program, in catalogue order, with its own match |
| ProgramFinder.GetRecommendations | program-finder.js:424-442 | with fewer than 3 subjects nothing changes; otherwise the results are all 13 programs, each with its own match, in descending score order, ties in catalogue order, and the ledger is unchanged |
| ProgramFinder.RankedAreMatches | program-finder.js:431-434 | ranking neither drops nor invents programs, and every ranked entry carries the match of its own program |
| ProgramFinder.ResetFinder | program-finder.js:513-519 | after a reset the ledger is empty, no results are shown, and the button asks for 3 subjects |
| ApplicationWizard.Spread | src/hooks/useApplicationForm.ts:180-183 | spreading an object copies its fields, spreading an array gives one key per index holding that element, and spreading a boolean gives nothing |
| ApplicationWizard.IndexKeyed | src/hooks/useApplicationForm.ts:180-183 | an array spreads to a map whose keys are exactly the decimal indices, each holding the element at that index |
| ApplicationWizard.UpdateFormData | src/hooks/useApplicationForm.ts:174-185 | the edited section becomes an object holding every field of `data` and, for an object section, the old fields `data` does not override; every other section, the step and the completed list are unchanged |
| ApplicationWizard.UpdateFormDataIdempotent | src/hooks/useApplicationForm.ts:174-185 | applying the same edit twice equals applying it once |
| ApplicationWizard.GoToStep | src/hooks/useApplicationForm.ts:187-190 | the step becomes exactly the requested one, out of range or not; form data and completed steps are unchanged |
| ApplicationWizard.NextStep | src/hooks/useApplicationForm.ts:192-199 | the current step ends up completed, appended only when absent, so no duplicate is created; the step advances by one below 10 and stays at 10; the data is unchanged |
| ApplicationWizard.PrevStep | src/hooks/useApplicationForm.ts:201-205 | the step goes back by one above step 1 and is a no-op at step 1; the completed list and data are never touched |
| ApplicationWizard.PrevUndoesNext | src/hooks/useApplicationForm.ts:192-205 | below the last step, Prev after Next returns to the same step with the same data |
| ApplicationWizard.ResetForm | src/hooks/useApplicationForm.ts:227-233 | from any state, reset gives the default data, step 1 and no completed steps |
| ApplicationWizard.NextAtLastStep | src/hooks/useApplicationForm.ts:192-199 | at step 10, Next records step 10 as completed and stays at step 10 |
| ApplicationWizard.NavigationStaysInBounds | src/hooks/useApplicationForm.ts:119-205 | from any state reachable with the buttons, any sequence of Next and Prev keeps the step within 1..10 and the completed list free of duplicates |
| ApplicationWizard.InitialReachable | src/hooks/useApplicationForm.ts:74-120 | the initial state (default data, step 1, nothing completed) satisfies the button-reachability invariant |
| AcademicRecord.AddSubject | src/components/sections/AcademicSection.tsx:70-79 | exactly one blank subject at level Higher, under the fresh id, is appended after the unchanged existing subjects |
| AcademicRecord.UpdateSubject | src/components/sections/AcademicSection.tsx:81-87 | length and order are preserved; subjects with another id are unchanged; subjects with that id receive the patch; an empty patch changes nothing |
| AcademicRecord.RemoveSubject | src/components/sections/AcademicSection.tsx:89-93 | no subject with the removed id is left |
| AcademicRecord.RemoveSubjectCounts | src/components/sections/AcademicSection.tsx:89-93 | every copy of a subject with that id is dropped, and every other subject keeps its multiplicity |
| AcademicRecord.RemoveSubjectKeepsOrder | src/components/sections/AcademicSection.tsx:89-93 | removal distributes over concatenation, so the kept subjects stay in order |
| AcademicRecord.RemoveUndoesAdd | src/components/sections/AcademicSection.tsx:70-93 | removing a subject just added under a fresh id gives back the original list |
| AcademicRecord.UpdateSubjectIdempotent | src/components/sections/AcademicSection.tsx:81-87 | an update that keeps the id, applied twice, equals applying it once |
| AcademicRecord.RemoveAfterUpdate | src/components/sections/AcademicSection.tsx:81-93 | updating a subject and then removing it equals removing it |
| AcademicRecord.GradePoints | src/components/sections/AcademicSection.tsx:101-107 | every parsed grade earns between 1 and 7 points, with no clamping of negative marks or marks above 100 |
| AcademicRecord.GradePointsBands | src/components/sections/AcademicSection.tsx:101-107 | the table is 7 from 80, the tens digit minus one between 30 and 79, and 1 below 30 |
| AcademicRecord.GradePointsMonotone | src/components/sections/AcademicSection.tsx:101-107 | a higher grade never earns fewer points |
| AcademicRecord.SubjectPoints | src/components/sections/AcademicSection.tsx:99-108 | a subject whose grade is NaN contributes 0; any other subject contributes its grade's points |
| AcademicRecord.ApsBounds | src/components/sections/AcademicSection.tsx:95-111 | with k subjects whose grade parses, the APS lies between k and 7·k |
| AcademicRecord.GetAps | src/components/sections/AcademicSection.tsx:95-111 | the running total of the `forEach` equals the sum of the subjects' points |
| AcademicRecord.ApsOfConcat | src/components/sections/AcademicSection.tsx:97-110 | the APS of a concatenation is the sum of the parts' APS |
| AcademicRecord.RemoveNeverRaisesAps | src/components/sections/AcademicSection.tsx:89-110 | removing subjects never raises the APS |
| AcademicRecord.AddSubjectKeepsAps | src/components/sections/AcademicSection.tsx:70-110 | adding a blank subject leaves the APS unchanged |
| FieldValidation.ValidEmailMatchesPattern | script.js:270-276 | the one-pass email check accepts exactly the strings matching `local@domain.tld`, with three non-empty parts free of white space and `@` |
| FieldValidation.ValidPhoneIgnoresSpaces | script.js:279-285 | inserting white space anywhere in a phone number never changes the verdict |
| FieldValidation.GroupedLocalNumberAccepted | script.js:279-285 | every local number typed in 3-3-4 groups starting with 0 passes the phone check |
| FieldValidation.SaIdIsThirteenDigits | script.js:288-296 | the SA ID check accepts exactly thirteen ASCII digits |
| FieldValidation.ValidateField | script.js:253-306 | a field is valid exactly when the required, email, phone and ID checks all pass on the trimmed value; an invalid field carries the message of the last failing check |
| FieldValidation.ValidateSection | script.js:223-251 | a section passes exactly when every required field has a non-blank trimmed value that passes the email, phone and SA ID checks, and section 1 additionally needs both contact details verified; fields without `required` never block it |
| FieldValidation.EmptyRequiredFieldBlocksSection | script.js:223-251 | a required field that is empty or all white space blocks the section and carries the required-field message |
| FieldValidation.EmailExampleAccepted | script.js:270-276 | a typical university address passes the email pattern |
| Portal.NextSection | script.js:208-214 | the section advances by exactly one when the section validates and is below 10, and otherwise nothing changes; the section stays in 1..10, and leaving section 1 needs both contacts verified |
| Portal.PrevSection | script.js:216-220 | the section goes back by exactly one when above 1, and otherwise nothing changes; it stays in 1..10 |
| Portal.PrevUndoesNext | script.js:208-220 | after a step forward, a step back returns to the same state |
| Portal.ConfirmVerification | script.js:348-375 | a trimmed code of exactly 6 code units verifies the email for kind "email" and the phone for any other kind; any other length changes nothing; no flag is ever cleared |
| Portal.OtpContentIgnored | script.js:352-358 | any two codes of 6 code units have the same effect, so `123456` is not special |
| Portal.RunStaysInBounds | script.js:208-220 | any sequence of next, previous and confirm actions keeps the section within 1..10 |
| Portal.LaterSectionsNeedVerifiedContacts | script.js:223-244 | from page load, no sequence of actions reaches a section beyond the first without both contact details verified |
| Portal.ShowRanking | script.js:378-405 | the panel shows figures exactly for programs in the ranking table, and flags them competitive exactly when the rank is beyond the number of places |
| Portal.OnlyAccountingCompetitive | script.js:22-29 | with the sample figures, BCom Accounting is the only program flagged competitive |
| Portal.RankingsConsistent | script.js:22-29 | every ranked program is in the catalogue, and no table entry has more places or a worse rank than applicants |

## Left out

- Rendering, alerts, notifications, scrolling and every other DOM effect are left out: they only present the state the model computes.
- Reason texts are left out: a reason carries the values its message shows (threshold, mark, subject), not the wording.
- localStorage persistence, autosave, `loadSavedProgress` and `manualSave` are left out: they are browser I/O.
- Timers are left out: they are timing concerns.
- File uploads are left out: they use foreign browser APIs.
- `calculateProgress` is left out: it is float division with `Math.round`.
- `crypto.randomUUID` becomes the `freshId` parameter of `AcademicRecord.AddSubject`.
- Catalogue descriptions, careers and salaries are left out: the scorer never reads them.
- The activity, work, award and reference cards of `script.js` are left out: they are DOM bookkeeping.
- `FieldValidation.ValidateField` only sees a field's type, name, `required` flag, value and the selected `idType` radio. The message is kept as an error kind, and the field's error styling is left out.
- `FieldValidation.ValidateSection` receives the required fields of the current section as a list. The model does not look them up in the DOM.
- `MatchEngine.AverageBonus` compares exact rational averages. Floating-point rounding of the JavaScript average is not modelled. The thresholds are exact in binary and rounding is monotone, so rounding could only matter for a mean less than half a unit in the last place below a threshold.
- `JsText.ParseInt` reads the exact integer. Precision loss above 2^53 and the `-0` result are not modelled: `-0` is treated as 0, which gives the same verdict in every check here.
- `JsText.IntToString` renders every integer in decimal digits. JavaScript's `String` switches to exponent notation ("1e+21") from 10^21 on; that is not modelled, and `JsText.ParseIntOfIntToString` is stated for the digit rendering only.
- `ApplicationWizard.Spread` states nothing about spreading a string section. The model keys a string one character per index, where JavaScript keys it by UTF-16 code unit. No section of the form data is a string.
- `ApplicationWizard.UpdateFormData` models a map without key order. The order of an object's keys is not observable by the operations modelled here.
- `ApplicationWizard.GoToStep`: the hook does not bound the step either, so no range is promised.
- `Portal.ShowRanking` treats a missing ranking element as if nothing were shown. Keys inherited from `Object.prototype` are treated as unknown program ids.
- `AcademicRecord.RemoveSubject` states only that no subject with the id is left in its own contract. That the other subjects are kept, with their multiplicities and order, is stated by `AcademicRecord.RemoveSubjectCounts` and `AcademicRecord.RemoveSubjectKeepsOrder`.
