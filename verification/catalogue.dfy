/** The program finder's static catalogue of thirteen degree programs
    (`uwcPrograms`). Only the fields the scorer reads, plus the identifying
    id, title and code, are kept. */
module Catalogue {
  import opened Common

  /** Entry requirements. `math` and `english` are minimum percentages,
      `None` where the program states none; `required` and `recommended` are
      subject values, empty where the program lists none. */
  datatype Requirements = Requirements(
    math: Option<int>,
    english: Option<int>,
    required: seq<string>,
    recommended: seq<string>)

  datatype Program = Program(id: string, title: string, code: string, requirements: Requirements)

  const Programs: seq<Program> := [
    Program("bcom-accounting", "BCom Accounting", "BCOM-ACC",
      Requirements(Some(60), Some(50), ["math", "accounting"], ["economics"])),
    Program("bcom-economics", "BCom Economics", "BCOM-ECO",
      Requirements(Some(50), Some(50), [], ["economics", "accounting"])),
    Program("badmin", "Bachelor of Administration", "BADMIN",
      Requirements(Some(40), Some(50), [], ["business-studies", "economics", "accounting"])),
    Program("bsc-it", "BSc Information Systems", "BSC-IS",
      Requirements(Some(60), Some(50), ["math"], ["physical-science", "cat", "it"])),
    Program("bsc-chemistry", "BSc Chemistry", "BSC-CHEM",
      Requirements(Some(60), Some(50), ["math", "physical-science"], ["life-science"])),
    Program("bsc-life-sciences", "BSc Life Sciences & Biotechnology", "BSC-BIO",
      Requirements(Some(50), Some(50), ["life-science"], ["physical-science", "math"])),
    Program("ba-psychology", "BA Psychology", "BA-PSY",
      Requirements(Some(40), Some(50), [], ["life-science", "history"])),
    Program("ba-social-work", "Bachelor of Social Work", "BSW",
      Requirements(Some(40), Some(50), [], ["life-science", "geography", "history"])),
    Program("llb-law", "LLB (Bachelor of Laws)", "LLB",
      Requirements(Some(50), Some(60), ["english"], ["history", "geography", "accounting"])),
    Program("bed-foundation-phase", "BEd Foundation Phase Teaching", "BED-FP",
      Requirements(Some(50), Some(50), [], ["any-language"])),
    Program("ba-english", "BA English & Communication", "BA-ENG",
      Requirements(Some(40), Some(60), ["english"], ["history", "afrikaans"])),
    Program("bsc-nursing", "BSc Nursing", "BSC-NURS",
      Requirements(Some(50), Some(50), ["life-science", "physical-science"], ["math"])),
    Program("ba-sport-recreation", "BA Sport, Recreation & Exercise Science", "BA-SPORT",
      Requirements(Some(40), Some(50), [], ["life-science", "physical-science"]))
  ]

  /** A threshold is a percentage the scorer actually checks. */
  predicate ValidThreshold(t: Option<int>) {
    t.Some? && 1 <= t.value <= 100
  }

  /** What the catalogue promises its users: unique ids, and both gates set
      to a percentage in every program. */
  predicate WellFormed(catalogue: seq<Program>) {
    && (forall i, j :: 0 <= i < j < |catalogue| ==> catalogue[i].id != catalogue[j].id)
    && (forall i :: 0 <= i < |catalogue| ==> ValidThreshold(catalogue[i].requirements.math))
    && (forall i :: 0 <= i < |catalogue| ==> ValidThreshold(catalogue[i].requirements.english))
  }

  /** The shipped catalogue is well formed. */
  lemma ProgramsWellFormed()
    ensures |Programs| == 13
    ensures WellFormed(Programs)
  {
    ProgramIdsUnique();
    ProgramThresholds();
  }

  lemma ProgramThresholds()
    ensures forall i :: 0 <= i < |Programs| ==> ValidThreshold(Programs[i].requirements.math)
    ensures forall i :: 0 <= i < |Programs| ==> ValidThreshold(Programs[i].requirements.english)
  {
  }

  lemma ProgramIdsUnique()
    ensures forall i, j :: 0 <= i < j < |Programs| ==> Programs[i].id != Programs[j].id
  {
  }

  /** The programs whose math threshold is low enough (40% or less) for
      Mathematical Literacy to stand in: exactly the five whose threshold
      is 40. */
  lemma MathLiteracyPrograms()
    ensures forall i :: 0 <= i < |Programs| ==>
              (Programs[i].requirements.math.value <= 40 <==>
               Programs[i].id in {"badmin", "ba-psychology", "ba-social-work", "ba-english", "ba-sport-recreation"})
  {
  }
}
