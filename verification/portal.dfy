/** The vanilla-JavaScript portal (`script.js`): section navigation guarded by
    validation, the one-time-code confirmation of the contact details, and
    the ranking panel shown next to a chosen program. */
module Portal {
  import opened JsText
  import opened FieldValidation
  import Catalogue

  /** The part of the page state that the navigation and verification
      steps read and write. */
  datatype PageState = PageState(currentSection: int, emailVerified: bool, phoneVerified: bool)

  const FirstSection: int := 1
  const TotalSections: int := 10

  /** The state on page load. */
  const Initial := PageState(FirstSection, false, false)

  predicate InBounds(p: PageState) {
    FirstSection <= p.currentSection <= TotalSections
  }

  /** `nextSection`: the visible section moves on only when the current
      section validates and it is not the last one. `fields` are the fields
      of the current section. */
  function NextSection(p: PageState, fields: seq<Field>): (r: PageState)
    ensures r.emailVerified == p.emailVerified && r.phoneVerified == p.phoneVerified
    ensures r.currentSection == p.currentSection + 1
            <==> ValidateSection(p.currentSection, fields, p.emailVerified, p.phoneVerified)
                 && p.currentSection < TotalSections
    ensures r.currentSection != p.currentSection + 1 ==> r == p
    ensures InBounds(p) ==> InBounds(r)
    ensures p.currentSection == PersonalSection && r.currentSection != p.currentSection
            ==> p.emailVerified && p.phoneVerified
  {
    if ValidateSection(p.currentSection, fields, p.emailVerified, p.phoneVerified)
       && p.currentSection < TotalSections
    then p.(currentSection := p.currentSection + 1)
    else p
  }

  /** `prevSection`: the visible section moves back unless it is the first. */
  function PrevSection(p: PageState): (r: PageState)
    ensures r.emailVerified == p.emailVerified && r.phoneVerified == p.phoneVerified
    ensures r.currentSection == p.currentSection - 1 <==> p.currentSection > FirstSection
    ensures r.currentSection != p.currentSection - 1 ==> r == p
    ensures InBounds(p) ==> InBounds(r)
  {
    if p.currentSection > FirstSection then p.(currentSection := p.currentSection - 1) else p
  }

  /** Going back after a successful step forward returns to the same state. */
  lemma PrevUndoesNext(p: PageState, fields: seq<Field>)
    requires InBounds(p) && NextSection(p, fields) != p
    ensures PrevSection(NextSection(p, fields)) == p
  {
  }

  /** The number of UTF-16 code units a one-time code must have. */
  const OtpLength: nat := 6

  /** `confirmVerification`: after trimming, any code of exactly six UTF-16
      code units confirms the contact detail named by `kind`; every kind
      other than "email" confirms the phone number. A code of another
      length changes nothing. */
  function ConfirmVerification(p: PageState, kind: string, otpText: string): (r: PageState)
    ensures r.currentSection == p.currentSection
    ensures r.emailVerified
            == (p.emailVerified || (Utf16Length(Trim(otpText)) == OtpLength && kind == "email"))
    ensures r.phoneVerified
            == (p.phoneVerified || (Utf16Length(Trim(otpText)) == OtpLength && kind != "email"))
  {
    var otp := Trim(otpText);
    if Utf16Length(otp) != OtpLength then p
    else if otp == "123456" || Utf16Length(otp) == OtpLength then
      if kind == "email" then p.(emailVerified := true) else p.(phoneVerified := true)
    else p
  }

  /** The code's digits are never compared with anything: two codes of six
      code units have the same effect. */
  lemma OtpContentIgnored(p: PageState, kind: string, a: string, b: string)
    requires Utf16Length(Trim(a)) == OtpLength && Utf16Length(Trim(b)) == OtpLength
    ensures ConfirmVerification(p, kind, a) == ConfirmVerification(p, kind, b)
  {
  }

  /** The user's actions on the page that change this state. */
  datatype Action = Next(fields: seq<Field>) | Prev | Confirm(kind: string, otp: string)

  function Step(p: PageState, a: Action): PageState {
    match a
    case Next(fields) => NextSection(p, fields)
    case Prev => PrevSection(p)
    case Confirm(kind, otp) => ConfirmVerification(p, kind, otp)
  }

  function Run(p: PageState, actions: seq<Action>): PageState
    decreases |actions|
  {
    if |actions| == 0 then p else Run(Step(p, actions[0]), actions[1..])
  }

  /** Whatever the user does, the visible section stays between the first
      and the last. */
  lemma {:induction false} RunStaysInBounds(p: PageState, actions: seq<Action>)
    requires InBounds(p)
    ensures InBounds(Run(p, actions))
    decreases |actions|
  {
    if |actions| > 0 {
      RunStaysInBounds(Step(p, actions[0]), actions[1..]);
    }
  }

  /** Past the first section both contact details are verified, and nothing
      un-verifies them. */
  predicate ContactsGate(p: PageState) {
    p.currentSection > PersonalSection ==> p.emailVerified && p.phoneVerified
  }

  lemma {:induction false} RunKeepsContactsGate(p: PageState, actions: seq<Action>)
    requires InBounds(p) && ContactsGate(p)
    ensures ContactsGate(Run(p, actions))
    ensures p.emailVerified ==> Run(p, actions).emailVerified
    ensures p.phoneVerified ==> Run(p, actions).phoneVerified
    decreases |actions|
  {
    if |actions| > 0 {
      var q := Step(p, actions[0]);
      assert InBounds(q) && ContactsGate(q);
      RunKeepsContactsGate(q, actions[1..]);
    }
  }

  /** From page load, no sequence of actions reaches a later section without
      both contact details verified. */
  lemma LaterSectionsNeedVerifiedContacts(actions: seq<Action>)
    ensures Run(Initial, actions).currentSection > PersonalSection
            ==> Run(Initial, actions).emailVerified && Run(Initial, actions).phoneVerified
  {
    RunKeepsContactsGate(Initial, actions);
  }

  /** One entry of the sample ranking table. */
  datatype Ranking = Ranking(applicants: nat, places: nat, yourRank: nat)

  /** `programRankings`, keyed by program id. */
  const ProgramRankings: map<string, Ranking> := map[
    "bcom-accounting" := Ranking(514, 240, 310),
    "badmin" := Ranking(229, 130, 92),
    "ba-psychology" := Ranking(445, 180, 125),
    "ba-social-work" := Ranking(312, 150, 88),
    "bsc-it" := Ranking(389, 200, 167),
    "bsc-chemistry" := Ranking(178, 100, 45)
  ]

  /** What the ranking panel shows. */
  datatype RankingView = Hidden | Shown(ranking: Ranking, competitive: bool)

  /** `showRanking`: nothing for an empty or unknown program id; otherwise
      the program's figures, flagged as competitive when the applicant's
      rank lies beyond the number of places. */
  function ShowRanking(programCode: string): (v: RankingView)
    ensures v.Shown? <==> programCode in ProgramRankings
    ensures v.Shown? ==> v.ranking == ProgramRankings[programCode]
    ensures v.Shown? ==> (v.competitive <==> v.ranking.yourRank > v.ranking.places)
  {
    if programCode == "" then Hidden
    else if programCode !in ProgramRankings then Hidden
    else
      var data := ProgramRankings[programCode];
      Shown(data, data.yourRank > data.places)
  }

  /** With the sample figures, only BCom Accounting is flagged. */
  lemma OnlyAccountingCompetitive(programCode: string)
    ensures ShowRanking(programCode).Shown? && ShowRanking(programCode).competitive
            <==> programCode == "bcom-accounting"
  {
  }

  /** Every ranked program is in the catalogue, and each table entry is
      consistent: places and rank do not exceed the applicants. */
  lemma RankingsConsistent()
    ensures forall code :: code in ProgramRankings ==>
              exists k :: 0 <= k < |Catalogue.Programs| && Catalogue.Programs[k].id == code
    ensures forall code :: code in ProgramRankings ==>
              ProgramRankings[code].places <= ProgramRankings[code].applicants
              && ProgramRankings[code].yourRank <= ProgramRankings[code].applicants
  {
    assert Catalogue.Programs[0].id == "bcom-accounting";
    assert Catalogue.Programs[2].id == "badmin";
    assert Catalogue.Programs[3].id == "bsc-it";
    assert Catalogue.Programs[4].id == "bsc-chemistry";
    assert Catalogue.Programs[6].id == "ba-psychology";
    assert Catalogue.Programs[7].id == "ba-social-work";
  }
}
