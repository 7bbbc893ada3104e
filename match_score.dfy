// The similarity of two position signatures, from 0 to 100. Signatures with
// different numbers of offsets score 50 * shorter / longer; equal counts
// score 100 minus ten times the mean offset distance, never below 0; an empty
// signature scores 0.
module MatchScore {
  import opened PositionPattern

  function Dist(a: nat, b: nat): nat
  {
    if a < b then b - a else a - b
  }

  /** Sum of |a[i] - b[i]| over the first `n` offsets. */
  function TotalDiff(a: seq<nat>, b: seq<nat>, n: nat): nat
    requires n <= |a| && n <= |b|
  {
    if n == 0 then 0 else TotalDiff(a, b, n - 1) + Dist(a[n - 1], b[n - 1])
  }

  /** The score of two non-empty offset lists. */
  function ListScore(a: seq<nat>, b: seq<nat>): real
    requires a != [] && b != []
  {
    if |a| != |b| then
      var lo := if |a| < |b| then |a| else |b|;
      var hi := if |a| < |b| then |b| else |a|;
      50.0 * (lo as real) / (hi as real)
    else
      var avg := (TotalDiff(a, b, |a|) as real) / (|a| as real);
      var s := 100.0 - avg * 10.0;
      if s > 0.0 then s else 0.0
  }

  /** `calculatePositionMatchScore` on two signature strings. */
  function PatternScore(p1: string, p2: string): real
    requires PatternChars(p1) && PatternChars(p2)
  {
    if p1 == [] || p2 == [] then 0.0 else ListScore(Parse(p1), Parse(p2))
  }

  /** The source's loop over the parsed offsets. */
  method CalculatePositionMatchScore(p1: string, p2: string) returns (score: real)
    requires PatternChars(p1) && PatternChars(p2)
    ensures score == PatternScore(p1, p2)
    ensures 0.0 <= score <= 100.0
  {
    if p1 == [] || p2 == [] {
      return 0.0;
    }
    var a := Parse(p1);
    var b := Parse(p2);
    if |a| != |b| {
      var lo := if |a| < |b| then |a| else |b|;
      var hi := if |a| < |b| then |b| else |a|;
      score := 50.0 * (lo as real) / (hi as real);
    } else {
      var totalDiff: nat := 0;
      for i := 0 to |a|
        invariant totalDiff == TotalDiff(a, b, i)
      {
        totalDiff := totalDiff + Dist(a[i], b[i]);
      }
      var avgDiff := (totalDiff as real) / (|a| as real);
      score := 100.0 - avgDiff * 10.0;
      if score < 0.0 {
        score := 0.0;
      }
    }
    ScoreRange(a, b);
  }

  lemma ScoreRange(a: seq<nat>, b: seq<nat>)
    requires a != [] && b != []
    ensures 0.0 <= ListScore(a, b) <= 100.0
  {
    if |a| == |b| {
      var n := |a| as real;
      var t := TotalDiff(a, b, |a|) as real;
      assert t / n >= 0.0;
    }
  }

  lemma PatternScoreRange(p1: string, p2: string)
    requires PatternChars(p1) && PatternChars(p2)
    ensures 0.0 <= PatternScore(p1, p2) <= 100.0
  {
    if p1 != [] && p2 != [] {
      ScoreRange(Parse(p1), Parse(p2));
    }
  }

  lemma {:induction false} TotalDiffZero(a: seq<nat>, b: seq<nat>, n: nat)
    requires n <= |a| && n <= |b|
    ensures TotalDiff(a, b, n) == 0 <==> a[..n] == b[..n]
  {
    if n > 0 {
      TotalDiffZero(a, b, n - 1);
      assert a[..n] == a[..n - 1] + [a[n - 1]];
      assert b[..n] == b[..n - 1] + [b[n - 1]];
      if a[..n] == b[..n] {
        assert a[..n - 1] == a[..n][..n - 1] == b[..n][..n - 1] == b[..n - 1];
        assert a[n - 1] == a[..n][n - 1];
      }
    }
  }

  /** Only identical offset lists score 100. */
  lemma {:induction false} PerfectIffIdentical(a: seq<nat>, b: seq<nat>)
    requires a != [] && b != []
    ensures ListScore(a, b) == 100.0 <==> a == b
  {
    if |a| == |b| {
      TotalDiffZero(a, b, |a|);
      assert a[..|a|] == a && b[..|b|] == b;
      var n := |a| as real;
      var t := TotalDiff(a, b, |a|) as real;
      if t > 0.0 {
        assert t / n > 0.0;
        assert 100.0 - (t / n) * 10.0 < 100.0;
      }
    } else {
      MismatchBelowHalf(a, b);
    }
  }

  /** Different numbers of offsets always score strictly between 0 and 50. */
  lemma MismatchBelowHalf(a: seq<nat>, b: seq<nat>)
    requires a != [] && b != [] && |a| != |b|
    ensures 0.0 < ListScore(a, b) < 50.0
  {
    var lo := if |a| < |b| then |a| else |b|;
    var hi := if |a| < |b| then |b| else |a|;
    assert (lo as real) / (hi as real) < 1.0;
    assert (lo as real) / (hi as real) > 0.0;
  }

  /** On signatures the source builds, the score is that of the offsets they encode. */
  lemma {:induction false} PatternScoreOfSignatures(a: seq<nat>, b: seq<nat>)
    ensures PatternScore(Join(a), Join(b)) == if a == [] || b == [] then 0.0 else ListScore(a, b)
  {
    if a != [] && b != [] {
      ParseJoin(a);
      ParseJoin(b);
    }
  }

  /** Two non-empty signatures built by the source score 100 exactly when they are equal. */
  lemma {:induction false} PerfectIffSameSignature(a: seq<nat>, b: seq<nat>)
    requires a != [] && b != []
    ensures PatternScore(Join(a), Join(b)) == 100.0 <==> Join(a) == Join(b)
  {
    PatternScoreOfSignatures(a, b);
    PerfectIffIdentical(a, b);
    if Join(a) == Join(b) {
      JoinInjective(a, b);
    }
  }

  /** Offsets 0,4 against 1,5 are one apart on average: 90. */
  lemma {:induction false} ShiftedByOne()
    ensures ListScore([0, 4], [1, 5]) == 90.0
  {
    assert TotalDiff([0, 4], [1, 5], 2) == 2;
  }

  /** One offset against two: 50 * 1 / 2 = 25. */
  lemma {:induction false} OneAgainstTwo()
    ensures ListScore([0], [0, 4]) == 25.0
  {
  }
}
