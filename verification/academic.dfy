/** The academic step of the application form (`AcademicSection`): the
    subject list edits and the simplified APS (admission point score) shown
    beside it. */
module AcademicRecord {
  import opened Common
  import JsText

  /** One school subject as the form keeps it; the grade is the raw text
      typed in. */
  datatype Subject = Subject(id: string, name: string, level: string, grade: string)

  /** `Partial<Subject>`: the fields an update overwrites. */
  datatype SubjectPatch = SubjectPatch(id: Option<string>, name: Option<string>, level: Option<string>, grade: Option<string>)

  const NoChange: SubjectPatch := SubjectPatch(None, None, None, None)

  /** `{ ...s, ...updates }`. */
  function Patch(s: Subject, u: SubjectPatch): (r: Subject)
    ensures u == NoChange ==> r == s
    ensures u.grade.Some? ==> r.grade == u.grade.value
    ensures u.grade.None? ==> r.grade == s.grade
    ensures u.id.None? ==> r.id == s.id
  {
    Subject(
      if u.id.Some? then u.id.value else s.id,
      if u.name.Some? then u.name.value else s.name,
      if u.level.Some? then u.level.value else s.level,
      if u.grade.Some? then u.grade.value else s.grade)
  }

  /** `addSubject`: appends a blank Higher-level subject under a fresh id
      (the id generator, `crypto.randomUUID`, is a parameter). */
  function AddSubject(subjects: seq<Subject>, freshId: string): (r: seq<Subject>)
    ensures |r| == |subjects| + 1 && r[..|subjects|] == subjects
    ensures r[|subjects|] == Subject(freshId, "", "Higher", "")
  {
    subjects + [Subject(freshId, "", "Higher", "")]
  }

  /** `updateSubject(id, updates)`: patches every subject with that id and
      leaves the others, the length and the order alone. */
  function UpdateSubject(subjects: seq<Subject>, id: string, u: SubjectPatch): (r: seq<Subject>)
    ensures |r| == |subjects|
    ensures forall i :: 0 <= i < |r| && subjects[i].id != id ==> r[i] == subjects[i]
    ensures forall i :: 0 <= i < |r| && subjects[i].id == id ==> r[i] == Patch(subjects[i], u)
    ensures u == NoChange ==> r == subjects
  {
    seq(|subjects|, i requires 0 <= i < |subjects| => if subjects[i].id == id then Patch(subjects[i], u) else subjects[i])
  }

  /** `removeSubject(id)`: keeps exactly the subjects with another id. */
  function RemoveSubject(subjects: seq<Subject>, id: string): (r: seq<Subject>)
    ensures forall i :: 0 <= i < |r| ==> r[i].id != id
  {
    if |subjects| == 0 then []
    else
      var n := |subjects| - 1;
      assert subjects == subjects[..n] + [subjects[n]];
      RemoveSubject(subjects[..n], id) + Kept(subjects[n], id)
  }

  /** The one-element filter: the subject itself unless it has that id. */
  function Kept(s: Subject, id: string): seq<Subject> {
    if s.id == id then [] else [s]
  }

  /** Removing an id no subject has changes nothing. */
  lemma {:induction false} RemoveAbsentIsIdentity(subjects: seq<Subject>, id: string)
    requires forall i :: 0 <= i < |subjects| ==> subjects[i].id != id
    ensures RemoveSubject(subjects, id) == subjects
  {
    if |subjects| > 0 {
      var n := |subjects| - 1;
      RemoveAbsentIsIdentity(subjects[..n], id);
      assert subjects == subjects[..n] + [subjects[n]];
    }
  }

  /** Removal drops every copy of a subject with that id and keeps every
      copy of every other subject. */
  lemma {:induction false} RemoveSubjectCounts(subjects: seq<Subject>, id: string)
    ensures forall x :: multiset(RemoveSubject(subjects, id))[x] == if x.id == id then 0 else multiset(subjects)[x]
  {
    if |subjects| > 0 {
      var n := |subjects| - 1;
      RemoveSubjectCounts(subjects[..n], id);
      assert subjects == subjects[..n] + [subjects[n]];
    }
  }

  /** Removal distributes over concatenation, so the kept subjects stay in
      their original order. */
  lemma {:induction false} RemoveSubjectKeepsOrder(a: seq<Subject>, b: seq<Subject>, id: string)
    ensures RemoveSubject(a + b, id) == RemoveSubject(a, id) + RemoveSubject(b, id)
    decreases |b|
  {
    if |b| > 0 {
      var n := |b| - 1;
      var ab := a + b;
      assert ab[..|ab| - 1] == a + b[..n] && ab[|ab| - 1] == b[n];
      RemoveSubjectKeepsOrder(a, b[..n], id);
      var left := RemoveSubject(a, id);
      var mid := RemoveSubject(b[..n], id);
      var last := Kept(b[n], id);
      assert RemoveSubject(ab, id) == (left + mid) + last;
      assert RemoveSubject(b, id) == mid + last;
      assert (left + mid) + last == left + (mid + last);
    } else {
      assert a + b == a;
    }
  }

  /** Points for one parsed grade: 7 from 80%, then one point less per ten
      percent down to 2 from 30%, and 1 below that. Nothing is clamped, so
      negative grades get 1 and grades above 100 get 7. */
  function GradePoints(grade: int): (p: int)
    ensures 1 <= p <= 7
  {
    if grade >= 80 then 7
    else if grade >= 70 then 6
    else if grade >= 60 then 5
    else if grade >= 50 then 4
    else if grade >= 40 then 3
    else if grade >= 30 then 2
    else 1
  }

  /** The table is the ten-percent band formula: between 30% and 80% a grade
      earns its tens digit minus one. */
  lemma GradePointsBands(grade: int)
    ensures grade >= 80 ==> GradePoints(grade) == 7
    ensures 30 <= grade < 80 ==> GradePoints(grade) == grade / 10 - 1
    ensures grade < 30 ==> GradePoints(grade) == 1
  {
  }

  /** A higher grade never earns fewer points. */
  lemma GradePointsMonotone(a: int, b: int)
    requires a <= b
    ensures GradePoints(a) <= GradePoints(b)
  {
  }

  /** What one subject contributes: its grade's points, or nothing when
      `parseInt` gives NaN. */
  function SubjectPoints(s: Subject): (p: nat)
    ensures JsText.ParseInt(s.grade).None? <==> p == 0
    ensures JsText.ParseInt(s.grade).Some? ==> p == GradePoints(JsText.ParseInt(s.grade).value)
  {
    match JsText.ParseInt(s.grade)
    case None => 0
    case Some(g) => GradePoints(g)
  }

  /** How many subjects have a grade that parses as a number. */
  function Graded(subjects: seq<Subject>): (k: nat)
    ensures k <= |subjects|
  {
    if |subjects| == 0 then 0
    else Graded(subjects[..|subjects| - 1]) + (if JsText.ParseInt(subjects[|subjects| - 1].grade).Some? then 1 else 0)
  }

  /** `getAPS`: the points of all subjects added up. */
  function Aps(subjects: seq<Subject>): nat {
    if |subjects| == 0 then 0
    else Aps(subjects[..|subjects| - 1]) + SubjectPoints(subjects[|subjects| - 1])
  }

  /** For k graded subjects the total lies between k and 7k. */
  lemma {:induction false} ApsBounds(subjects: seq<Subject>)
    ensures Graded(subjects) <= Aps(subjects) <= 7 * Graded(subjects)
  {
    if |subjects| > 0 {
      ApsBounds(subjects[..|subjects| - 1]);
    }
  }

  /** `getAPS` as the source writes it: a running total over the list. */
  method GetAps(subjects: seq<Subject>) returns (total: nat)
    ensures total == Aps(subjects)
  {
    total := 0;
    var i := 0;
    while i < |subjects|
      invariant 0 <= i <= |subjects|
      invariant total == Aps(subjects[..i])
    {
      var points := ForEachBody(subjects[i]);
      assert subjects[..i + 1][..i] == subjects[..i];
      total := total + points;
      i := i + 1;
    }
    assert subjects[..i] == subjects;
  }

  /** The body of the `forEach` in `getAPS`: the grade is parsed, and a
      grade that is not NaN adds its band's points. */
  method ForEachBody(subject: Subject) returns (points: nat)
    ensures points == SubjectPoints(subject)
  {
    var grade := JsText.ParseInt(subject.grade);
    points := 0;
    if grade.Some? {
      points := BandPoints(grade.value);
    }
  }

  /** The `if`/`else if` chain of `getAPS` for one parsed grade. */
  method BandPoints(g: int) returns (points: nat)
    ensures points == GradePoints(g)
  {
    if g >= 80 { points := 7; }
    else if g >= 70 { points := 6; }
    else if g >= 60 { points := 5; }
    else if g >= 50 { points := 4; }
    else if g >= 40 { points := 3; }
    else if g >= 30 { points := 2; }
    else { points := 1; }
  }

  /** The total is the sum of the parts, whatever way the list is split. */
  lemma {:induction false} ApsOfConcat(a: seq<Subject>, b: seq<Subject>)
    ensures Aps(a + b) == Aps(a) + Aps(b)
    decreases |b|
  {
    if |b| > 0 {
      var n := |b| - 1;
      assert (a + b)[..|a + b| - 1] == a + b[..n];
      ApsOfConcat(a, b[..n]);
    } else {
      assert a + b == a;
    }
  }

  /** Removing subjects never raises the score. */
  lemma {:induction false} RemoveNeverRaisesAps(subjects: seq<Subject>, id: string)
    ensures Aps(RemoveSubject(subjects, id)) <= Aps(subjects)
  {
    if |subjects| > 0 {
      var n := |subjects| - 1;
      var init := RemoveSubject(subjects[..n], id);
      RemoveNeverRaisesAps(subjects[..n], id);
      assert RemoveSubject(subjects, id) == init + Kept(subjects[n], id);
      ApsOfConcat(init, Kept(subjects[n], id));
      assert Aps(subjects) == Aps(subjects[..n]) + SubjectPoints(subjects[n]);
      assert Aps(Kept(subjects[n], id)) <= SubjectPoints(subjects[n]) by {
        if subjects[n].id != id {
          assert Kept(subjects[n], id)[..0] == [];
        }
      }
    }
  }

  /** A blank subject has no grade, so adding one leaves the score as it was. */
  lemma AddSubjectKeepsAps(subjects: seq<Subject>, freshId: string)
    ensures Aps(AddSubject(subjects, freshId)) == Aps(subjects)
  {
    var r := AddSubject(subjects, freshId);
    assert r[..|r| - 1] == subjects;
  }

  /** Removing a subject just added under a fresh id gives the list back. */
  lemma RemoveUndoesAdd(subjects: seq<Subject>, freshId: string)
    requires forall i :: 0 <= i < |subjects| ==> subjects[i].id != freshId
    ensures RemoveSubject(AddSubject(subjects, freshId), freshId) == subjects
  {
    var r := AddSubject(subjects, freshId);
    assert r[..|r| - 1] == subjects;
    RemoveAbsentIsIdentity(subjects, freshId);
  }

  /** An update that keeps the id, applied twice, is applied once. */
  lemma UpdateSubjectIdempotent(subjects: seq<Subject>, id: string, u: SubjectPatch)
    requires u.id.None? || u.id.value == id
    ensures UpdateSubject(UpdateSubject(subjects, id, u), id, u) == UpdateSubject(subjects, id, u)
  {
  }

  /** Editing a subject and then removing it is the same as removing it. */
  lemma {:induction false} RemoveAfterUpdate(subjects: seq<Subject>, id: string, u: SubjectPatch)
    requires u.id.None? || u.id.value == id
    ensures RemoveSubject(UpdateSubject(subjects, id, u), id) == RemoveSubject(subjects, id)
  {
    if |subjects| > 0 {
      var n := |subjects| - 1;
      var updated := UpdateSubject(subjects, id, u);
      assert updated[..n] == UpdateSubject(subjects[..n], id, u);
      RemoveAfterUpdate(subjects[..n], id, u);
      assert updated[n].id == id <==> subjects[n].id == id;
    }
  }
}
