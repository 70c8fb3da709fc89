/** The program finder's ranking step (`getRecommendations`) and the state
    the page keeps: the subject ledger and, once requested, the ranked
    results. */
module ProgramFinder {
  import opened Common
  import opened SubjectLedger
  import opened Catalogue
  import opened MatchEngine

  /** A program with its computed match, as `getRecommendations` pairs them. */
  datatype Ranked = Ranked(program: Program, result: MatchResult)

  /** The finder page: the entered subjects and the results currently shown,
      if any. */
  datatype Finder = Finder(subjects: Ledger, results: Option<seq<Ranked>>)

  function Score(m: Ranked): int {
    m.result.score
  }

  /** Non-increasing score from first to last. */
  predicate Descending(s: seq<Ranked>) {
    forall i, j :: 0 <= i < j < |s| ==> Score(s[i]) >= Score(s[j])
  }

  /** The entries with the given score, in their order in `s`. */
  function WithScore(s: seq<Ranked>, score: int): seq<Ranked> {
    if |s| == 0 then []
    else (if Score(s[0]) == score then [s[0]] else []) + WithScore(s[1..], score)
  }

  lemma WithScoreCons(x: Ranked, s: seq<Ranked>, score: int)
    ensures WithScore([x] + s, score) == (if Score(x) == score then [x] else []) + WithScore(s, score)
  {
    assert ([x] + s)[1..] == s;
  }

  /** Two entries with different scores never both survive a filter by one
      score, so their order does not matter to it. */
  lemma WithScoreSwap(x: Ranked, y: Ranked, s: seq<Ranked>, score: int)
    requires Score(x) != Score(y)
    ensures WithScore([x] + ([y] + s), score) == WithScore([y] + ([x] + s), score)
  {
    WithScoreCons(x, [y] + s, score);
    WithScoreCons(y, s, score);
    WithScoreCons(y, [x] + s, score);
    WithScoreCons(x, s, score);
  }

  /** Places `x` before the first entry whose score does not exceed its own,
      so that `x` stays ahead of every entry it ties with. */
  function Insert(x: Ranked, s: seq<Ranked>): (r: seq<Ranked>)
    requires Descending(s)
    ensures Descending(r)
    ensures multiset(r) == multiset(s) + multiset{x}
    ensures forall score :: WithScore(r, score) == WithScore([x] + s, score)
  {
    if |s| == 0 || Score(s[0]) <= Score(x) then
      assert Descending([x] + s) by {
        forall i, j | 0 <= i < j < |[x] + s| ensures Score(([x] + s)[i]) >= Score(([x] + s)[j]) {
          if i == 0 && j > 1 {
            assert Score(s[0]) >= Score(s[j - 1]);
          }
        }
      }
      [x] + s
    else
      var rest := Insert(x, s[1..]);
      var r := [s[0]] + rest;
      InsertBelowHead(x, s, rest);
      assert s == [s[0]] + s[1..];
      assert forall score :: WithScore(r, score) == WithScore([x] + s, score) by {
        forall score ensures WithScore(r, score) == WithScore([x] + s, score) {
          WithScoreCons(s[0], rest, score);
          WithScoreSwap(s[0], x, s[1..], score);
          WithScoreCons(s[0], [x] + s[1..], score);
        }
      }
      r
  }

  /** When `x` goes after the head of `s`, the head still leads. */
  lemma InsertBelowHead(x: Ranked, s: seq<Ranked>, rest: seq<Ranked>)
    requires |s| > 0 && Descending(s) && Descending(rest) && Score(s[0]) > Score(x)
    requires multiset(rest) == multiset(s[1..]) + multiset{x}
    ensures Descending([s[0]] + rest)
  {
    forall j | 0 <= j < |rest| ensures Score(s[0]) >= Score(rest[j]) {
      assert rest[j] in multiset(rest);
      if rest[j] != x {
        assert rest[j] in multiset(s[1..]);
        var k :| 0 <= k < |s[1..]| && s[1..][k] == rest[j];
        assert s[k + 1] == rest[j];
      }
    }
    var r := [s[0]] + rest;
    forall i, j | 0 <= i < j < |r| ensures Score(r[i]) >= Score(r[j]) {
      if i == 0 {
        assert r[j] == rest[j - 1];
      } else {
        assert r[i] == rest[i - 1] && r[j] == rest[j - 1];
      }
    }
  }

  /** A stable sort by descending score: insertion sort, each entry inserted
      ahead of the later entries it ties with. */
  function SortByScore(s: seq<Ranked>): (r: seq<Ranked>)
    ensures Descending(r)
    ensures multiset(r) == multiset(s)
    ensures forall score :: WithScore(r, score) == WithScore(s, score)
  {
    if |s| == 0 then []
    else
      var r := Insert(s[0], SortByScore(s[1..]));
      assert s == [s[0]] + s[1..];
      assert forall score :: WithScore(r, score) == WithScore(s, score) by {
        forall score ensures WithScore(r, score) == WithScore(s, score) {
          WithScoreCons(s[0], SortByScore(s[1..]), score);
          WithScoreCons(s[0], s[1..], score);
        }
      }
      r
  }

  lemma {:induction false} WithScoreMember(s: seq<Ranked>, score: int, j: nat)
    requires j < |s| && Score(s[j]) == score
    ensures exists q :: 0 <= q < |WithScore(s, score)| && WithScore(s, score)[q] == s[j]
  {
    WithScoreCons(s[0], s[1..], score);
    assert s == [s[0]] + s[1..];
    if j == 0 {
      assert WithScore(s, score)[0] == s[0];
    } else {
      WithScoreMember(s[1..], score, j - 1);
      var q :| 0 <= q < |WithScore(s[1..], score)| && WithScore(s[1..], score)[q] == s[1..][j - 1];
      var shift := if Score(s[0]) == score then 1 else 0;
      assert WithScore(s, score)[q + shift] == s[j];
    }
  }

  lemma {:induction false} WithScoreOrigin(s: seq<Ranked>, score: int, q: nat)
    requires q < |WithScore(s, score)|
    ensures exists b :: 0 <= b < |s| && s[b] == WithScore(s, score)[q]
  {
    WithScoreCons(s[0], s[1..], score);
    assert s == [s[0]] + s[1..];
    if Score(s[0]) == score && q == 0 {
      assert s[0] == WithScore(s, score)[0];
    } else {
      var shift := if Score(s[0]) == score then 1 else 0;
      WithScoreOrigin(s[1..], score, q - shift);
      var b :| 0 <= b < |s[1..]| && s[1..][b] == WithScore(s[1..], score)[q - shift];
      assert s[b + 1] == WithScore(s, score)[q];
    }
  }

  /** Two entries with the given score keep their relative order in the
      filtered sequence. */
  lemma {:induction false} WithScoreKeepsOrder(s: seq<Ranked>, score: int, i: nat, j: nat)
    requires i < j < |s| && Score(s[i]) == score && Score(s[j]) == score
    ensures exists p, q :: 0 <= p < q < |WithScore(s, score)|
                           && WithScore(s, score)[p] == s[i] && WithScore(s, score)[q] == s[j]
  {
    WithScoreCons(s[0], s[1..], score);
    assert s == [s[0]] + s[1..];
    var shift := if Score(s[0]) == score then 1 else 0;
    if i == 0 {
      WithScoreMember(s[1..], score, j - 1);
      var q :| 0 <= q < |WithScore(s[1..], score)| && WithScore(s[1..], score)[q] == s[1..][j - 1];
      assert WithScore(s, score)[0] == s[0] && WithScore(s, score)[q + 1] == s[j];
    } else {
      WithScoreKeepsOrder(s[1..], score, i - 1, j - 1);
      var p, q :| 0 <= p < q < |WithScore(s[1..], score)|
                  && WithScore(s[1..], score)[p] == s[1..][i - 1] && WithScore(s[1..], score)[q] == s[1..][j - 1];
      assert WithScore(s, score)[p + shift] == s[i] && WithScore(s, score)[q + shift] == s[j];
    }
  }

  /** Positions in the filtered sequence come from increasing positions of
      the original. */
  lemma {:induction false} WithScoreOrigins(s: seq<Ranked>, score: int, p: nat, q: nat)
    requires p < q < |WithScore(s, score)|
    ensures exists a, b :: 0 <= a < b < |s| && s[a] == WithScore(s, score)[p] && s[b] == WithScore(s, score)[q]
  {
    var t := s[1..];
    var w, wt := WithScore(s, score), WithScore(t, score);
    if Score(s[0]) == score {
      assert w == [s[0]] + wt;
      if p == 0 {
        WithScoreOrigin(t, score, q - 1);
        var b :| 0 <= b < |t| && t[b] == wt[q - 1];
        assert s[0] == w[p] && s[b + 1] == w[q];
      } else {
        WithScoreOrigins(t, score, p - 1, q - 1);
        var a, b :| 0 <= a < b < |t| && t[a] == wt[p - 1] && t[b] == wt[q - 1];
        assert s[a + 1] == w[p] && s[b + 1] == w[q];
      }
    } else {
      assert w == wt;
      WithScoreOrigins(t, score, p, q);
      var a, b :| 0 <= a < b < |t| && t[a] == wt[p] && t[b] == wt[q];
      assert s[a + 1] == w[p] && s[b + 1] == w[q];
    }
  }

  /** Stability in its direct form: two entries that tie in the sorted output
      appear in that order in the input. */
  lemma TiesKeepInputOrder(s: seq<Ranked>, i: nat, j: nat)
    requires i < j < |SortByScore(s)|
    requires Score(SortByScore(s)[i]) == Score(SortByScore(s)[j])
    ensures exists a, b :: 0 <= a < b < |s| && s[a] == SortByScore(s)[i] && s[b] == SortByScore(s)[j]
  {
    var r := SortByScore(s);
    var score := Score(r[i]);
    WithScoreKeepsOrder(r, score, i, j);
    var p, q :| 0 <= p < q < |WithScore(r, score)| && WithScore(r, score)[p] == r[i] && WithScore(r, score)[q] == r[j];
    WithScoreOrigins(s, score, p, q);
  }

  /** `uwcPrograms.map(...)`: every program of the catalogue with its match. */
  function Evaluate(catalogue: seq<Program>, ledger: Ledger): (r: seq<Ranked>)
    ensures |r| == |catalogue|
    ensures forall i :: 0 <= i < |r| ==> r[i].program == catalogue[i]
    ensures forall i :: 0 <= i < |r| ==> r[i].result == CalculateMatch(catalogue[i], ledger)
  {
    seq(|catalogue|, i requires 0 <= i < |catalogue| => Ranked(catalogue[i], CalculateMatch(catalogue[i], ledger)))
  }

  /** `getRecommendations`: with fewer than three subjects nothing changes;
      otherwise every catalogue program is scored and the results shown in
      descending score order, ties in catalogue order. */
  function GetRecommendations(f: Finder): (r: Finder)
    ensures |f.subjects| < MinSubjects ==> r == f
    ensures |f.subjects| >= MinSubjects ==>
              && r.subjects == f.subjects
              && r.results.Some?
              && Descending(r.results.value)
              && multiset(r.results.value) == multiset(Evaluate(Programs, f.subjects))
              && forall score :: WithScore(r.results.value, score) == WithScore(Evaluate(Programs, f.subjects), score)
    ensures |f.subjects| >= MinSubjects ==>
              && |r.results.value| == |Programs|
              && forall i :: 0 <= i < |r.results.value| ==>
                   r.results.value[i].program in Programs
                   && r.results.value[i].result == CalculateMatch(r.results.value[i].program, f.subjects)
  {
    if |f.subjects| < MinSubjects then f
    else
      RankedAreMatches(Programs, f.subjects);
      f.(results := Some(SortByScore(Evaluate(Programs, f.subjects))))
  }

  /** Ranking neither drops nor invents a program: each catalogue program
      appears once per occurrence, with its own match. */
  lemma RankedAreMatches(catalogue: seq<Program>, ledger: Ledger)
    ensures var ranked := SortByScore(Evaluate(catalogue, ledger));
            && |ranked| == |catalogue|
            && forall i :: 0 <= i < |ranked| ==>
                 ranked[i].program in catalogue && ranked[i].result == CalculateMatch(ranked[i].program, ledger)
  {
    var evaluated := Evaluate(catalogue, ledger);
    var ranked := SortByScore(evaluated);
    assert |ranked| == |evaluated| by {
      assert |multiset(ranked)| == |multiset(evaluated)|;
    }
    forall i | 0 <= i < |ranked|
      ensures ranked[i].program in catalogue && ranked[i].result == CalculateMatch(ranked[i].program, ledger)
    {
      assert ranked[i] in multiset(ranked);
      assert ranked[i] in multiset(evaluated);
      var k :| 0 <= k < |evaluated| && evaluated[k] == ranked[i];
    }
  }

  /** `resetFinder`: no subjects, no results, and the button asks for three
      subjects. */
  function ResetFinder(f: Finder): (r: Finder)
    ensures r.subjects == [] && r.results.None?
    ensures RecommendationsButton(r.subjects) == AddMore(MinSubjects)
  {
    Finder(ResetLedger(), None)
  }
}
