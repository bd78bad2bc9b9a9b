/** The student's results page: a fixed list of marks, their rounded average
    and the colour of each grade badge. */
module Results {
  import opened Rounding

  datatype SubjectResult = SubjectResult(name: string, score: int, grade: string, maxScore: int)

  /** The marks the page shows. */
  const Subjects: seq<SubjectResult> := [
    SubjectResult("ADA", 85, "A", 100),
    SubjectResult("AP", 92, "A+", 100),
    SubjectResult("DBMS", 78, "B+", 100),
    SubjectResult("MATHS", 88, "A", 100)
  ]

  /** `subjects.reduce((sum, s) => sum + s.score, 0)`. */
  function TotalScore(s: seq<SubjectResult>): int
    decreases |s|
  {
    if s == [] then 0 else TotalScore(s[..|s| - 1]) + s[|s| - 1].score
  }

  lemma {:induction false} TotalScoreAppend(a: seq<SubjectResult>, b: seq<SubjectResult>)
    ensures TotalScore(a + b) == TotalScore(a) + TotalScore(b)
    decreases |b|
  {
    if b == [] {
      assert a + b == a;
    } else {
      var b' := b[..|b| - 1];
      assert (a + b)[..|a + b| - 1] == a + b';
      TotalScoreAppend(a, b');
    }
  }

  /** Scores within [lo, hi] add up to a total within [n * lo, n * hi]. */
  lemma {:induction false} TotalScoreBounds(s: seq<SubjectResult>, lo: int, hi: int)
    requires forall i :: 0 <= i < |s| ==> lo <= s[i].score <= hi
    ensures |s| * lo <= TotalScore(s) <= |s| * hi
    decreases |s|
  {
    if s != [] {
      TotalScoreBounds(s[..|s| - 1], lo, hi);
    }
  }

  /** `Math.round(totalScore / subjects.length)`. */
  function AverageScore(s: seq<SubjectResult>): (avg: int)
    requires |s| > 0
    ensures 2 * |s| * avg <= 2 * TotalScore(s) + |s| < 2 * |s| * (avg + 1)
  {
    RoundDiv(TotalScore(s), |s|)
  }

  /** The average of scores in [0, 100] is in [0, 100]. */
  lemma AverageBounded(s: seq<SubjectResult>)
    requires |s| > 0
    requires forall i :: 0 <= i < |s| ==> 0 <= s[i].score <= 100
    ensures 0 <= AverageScore(s) <= 100
  {
    TotalScoreBounds(s, 0, 100);
    var avg := AverageScore(s);
    if avg < 0 {
      MulMonotone(2 * |s|, avg + 1, 0);
    }
    if avg > 100 {
      MulMonotone(2 * |s|, 101, avg);
    }
  }

  /** The page reports a total of 343 and an average of 86 (343 / 4 = 85.75). */
  lemma PageAverage()
    ensures TotalScore(Subjects) == 343
    ensures AverageScore(Subjects) == 86
  {
    var s := Subjects;
    assert s[..1][..0] == [] && s[..2][..1] == s[..1] && s[..3][..2] == s[..2] && s[..4][..3] == s[..3];
    assert TotalScore(s[..1]) == 85;
    assert TotalScore(s[..2]) == 177;
    assert TotalScore(s[..3]) == 255;
    assert s[..4] == s;
    RoundDivUnique(343, 4, 86);
  }

  /** The three badge gradients. */
  datatype Badge = Green | Blue | Orange

  /** `getGradeColor`: grades starting with 'A' are green, with 'B' blue, any
      other orange. */
  function GradeColor(grade: string): (b: Badge)
    ensures b == Green <==> |grade| > 0 && grade[0] == 'A'
    ensures b == Blue <==> |grade| > 0 && grade[0] == 'B'
  {
    if |grade| > 0 && grade[0] == 'A' then Green
    else if |grade| > 0 && grade[0] == 'B' then Blue
    else Orange
  }

  /** Plus and minus suffixes do not change the colour. */
  lemma GradeSuffixIgnored(letter: char, suffix: string)
    ensures GradeColor([letter] + suffix) == GradeColor([letter])
  {
  }

  lemma PageBadges()
    ensures GradeColor("A") == Green && GradeColor("A+") == Green
    ensures GradeColor("B+") == Blue && GradeColor("C") == Orange && GradeColor("") == Orange
  {
  }
}
