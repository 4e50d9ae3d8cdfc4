/**
 Title similarity: an edit distance over the code points of two titles,
 normalised by the larger of the two lengths.
 */
module Similarity {
  import opened Utf8

  /** The cost of aligning code point `x` with `y`: nothing when they are identical. */
  function SubstitutionCost(x: char, y: char, subCost: nat): nat
  {
    if x == y then 0 else subCost
  }

  function Min3(x: nat, y: nat, z: nat): (m: nat)
    ensures m <= x && m <= y && m <= z
    ensures m == x || m == y || m == z
  {
    if x <= y && x <= z then x else if y <= z then y else z
  }

  /**
   The edit distance between `a` and `b`: insertions and deletions cost 1, replacing
   one code point by a different one costs `subCost`.
   */
  function Distance(a: string, b: string, subCost: nat): nat
    decreases |a| + |b|
  {
    if |a| == 0 then |b|
    else if |b| == 0 then |a|
    else Min3(
      Distance(a[..|a| - 1], b, subCost) + 1,
      Distance(a, b[..|b| - 1], subCost) + 1,
      Distance(a[..|a| - 1], b[..|b| - 1], subCost) + SubstitutionCost(a[|a| - 1], b[|b| - 1], subCost))
  }

  /**
   The dynamic-programming computation of the distance, one row of the
   (|a|+1) x (|b|+1) table at a time.
   */
  method ComputeDistance(a: string, b: string, subCost: nat) returns (d: nat)
    ensures d == Distance(a, b, subCost)
  {
    var prev: seq<nat> := seq(|b| + 1, j => j);
    assert a[..0] == [];
    var i := 0;
    while i < |a|
      invariant 0 <= i <= |a|
      invariant IsRow(prev, a, b, i, subCost)
    {
      prev := NextRow(a, b, i, prev, subCost);
      i := i + 1;
    }
    assert a[..|a|] == a && b[..|b|] == b;
    d := prev[|b|];
  }

  /** `row` holds the distances from the first `i` code points of `a` to every prefix of `b`. */
  ghost predicate IsRow(row: seq<nat>, a: string, b: string, i: nat, subCost: nat)
    requires i <= |a|
  {
    |row| == |b| + 1 && forall j :: 0 <= j <= |b| ==> row[j] == Distance(a[..i], b[..j], subCost)
  }

  /** `row` holds the distances from the first `i` code points of `a` to the first `j + 1` prefixes of `b`. */
  ghost predicate IsPartialRow(row: seq<nat>, a: string, b: string, i: nat, j: nat, subCost: nat)
    requires i <= |a| && j <= |b|
  {
    |row| == j + 1 && forall k :: 0 <= k <= j ==> row[k] == Distance(a[..i], b[..k], subCost)
  }

  /** Row `i + 1` of the table from row `i`. */
  method NextRow(a: string, b: string, i: nat, prev: seq<nat>, subCost: nat) returns (cur: seq<nat>)
    requires i < |a| && IsRow(prev, a, b, i, subCost)
    ensures IsRow(cur, a, b, i + 1, subCost)
  {
    cur := [i + 1];
    assert b[..0] == [];
    var j := 0;
    while j < |b|
      invariant 0 <= j <= |b|
      invariant IsPartialRow(cur, a, b, i + 1, j, subCost)
    {
      var v := Min3(prev[j + 1] + 1, cur[j] + 1, prev[j] + SubstitutionCost(a[i], b[j], subCost));
      ExtendRow(a, b, i, j, prev, cur, subCost);
      cur := cur + [v];
      j := j + 1;
    }
  }

  lemma ExtendRow(a: string, b: string, i: nat, j: nat, prev: seq<nat>, cur: seq<nat>, subCost: nat)
    requires i < |a| && j < |b| && IsRow(prev, a, b, i, subCost)
    requires IsPartialRow(cur, a, b, i + 1, j, subCost)
    ensures IsPartialRow(cur + [Min3(prev[j + 1] + 1, cur[j] + 1, prev[j] + SubstitutionCost(a[i], b[j], subCost))],
                         a, b, i + 1, j + 1, subCost)
  {
    var v := Min3(prev[j + 1] + 1, cur[j] + 1, prev[j] + SubstitutionCost(a[i], b[j], subCost));
    DistanceCell(a, b, i, j, subCost);
    assert v == Distance(a[..i + 1], b[..j + 1], subCost);
    var next := cur + [v];
    forall k | 0 <= k <= j + 1
      ensures next[k] == Distance(a[..i + 1], b[..k], subCost)
    {
      if k <= j { assert next[k] == cur[k]; }
    }
  }

  /** One cell of the table, from its left, upper and upper-left neighbours. */
  lemma DistanceCell(a: string, b: string, i: nat, j: nat, subCost: nat)
    requires i < |a| && j < |b|
    ensures Distance(a[..i + 1], b[..j + 1], subCost)
         == Min3(Distance(a[..i], b[..j + 1], subCost) + 1,
                 Distance(a[..i + 1], b[..j], subCost) + 1,
                 Distance(a[..i], b[..j], subCost) + SubstitutionCost(a[i], b[j], subCost))
  {
    var ai, bj := a[..i + 1], b[..j + 1];
    assert ai[..i] == a[..i] && ai[i] == a[i];
    assert bj[..j] == b[..j] && bj[j] == b[j];
    assert |ai| == i + 1 && |bj| == j + 1;
  }

  /** Go's `maxInt`: the larger of two integers. */
  function MaxInt(a: int, b: int): (r: int)
    ensures r == a || r == b
    ensures r >= a && r >= b
  {
    if a > b then a else b
  }

  lemma MaxIntSymmetric(a: int, b: int)
    ensures MaxInt(a, b) == MaxInt(b, a)
  {
  }

  /**
   `CalculateSimilarity` as written: the distance counts code points, but the
   normaliser is Go's `len`, the UTF-8 byte length; two empty titles score 1.
   */
  function CalculateSimilarity(a: string, b: string, subCost: nat): (r: real)
    ensures r <= 1.0
    ensures |a| == 0 && |b| == 0 ==> r == 1.0
  {
    var distance := Distance(a, b, subCost);
    var maxLen := MaxInt(ByteLen(a), ByteLen(b));
    if maxLen == 0 then 1.0 else 1.0 - (distance as real) / (maxLen as real)
  }

  /** The same score normalised by the larger code-point count. */
  function RuneSimilarity(a: string, b: string, subCost: nat): (r: real)
    ensures r <= 1.0
    ensures |a| == 0 && |b| == 0 ==> r == 1.0
  {
    var distance := Distance(a, b, subCost);
    var maxLen := MaxInt(|a|, |b|);
    if maxLen == 0 then 1.0 else 1.0 - (distance as real) / (maxLen as real)
  }

  // ---------------------------------------------------------------------------
  // Facts about the edit distance
  // ---------------------------------------------------------------------------

  /** A string is at distance 0 from itself. */
  lemma {:induction false} DistanceSelf(a: string, subCost: nat)
    ensures Distance(a, a, subCost) == 0
  {
    if |a| > 0 {
      DistanceSelf(a[..|a| - 1], subCost);
    }
  }

  /** Insertion and deletion cost the same, so the distance is symmetric. */
  lemma {:induction false} DistanceSymmetric(a: string, b: string, subCost: nat)
    ensures Distance(a, b, subCost) == Distance(b, a, subCost)
    decreases |a| + |b|
  {
    if |a| > 0 && |b| > 0 {
      DistanceSymmetric(a[..|a| - 1], b, subCost);
      DistanceSymmetric(a, b[..|b| - 1], subCost);
      DistanceSymmetric(a[..|a| - 1], b[..|b| - 1], subCost);
    }
  }

  /** The distance is at least the difference in length. */
  lemma {:induction false} DistanceLowerBound(a: string, b: string, subCost: nat)
    ensures Distance(a, b, subCost) >= |a| - |b|
    ensures Distance(a, b, subCost) >= |b| - |a|
    decreases |a| + |b|
  {
    if |a| > 0 && |b| > 0 {
      DistanceLowerBound(a[..|a| - 1], b, subCost);
      DistanceLowerBound(a, b[..|b| - 1], subCost);
      DistanceLowerBound(a[..|a| - 1], b[..|b| - 1], subCost);
    }
  }

  /** Deleting all of `a` and inserting all of `b` is always available. */
  lemma {:induction false} DistanceAtMostSum(a: string, b: string, subCost: nat)
    ensures Distance(a, b, subCost) <= |a| + |b|
    decreases |a| + |b|
  {
    if |a| > 0 && |b| > 0 {
      DistanceAtMostSum(a[..|a| - 1], b, subCost);
    }
  }

  /** When a substitution costs at most 1, the distance never exceeds the longer length. */
  lemma {:induction false} DistanceAtMostLonger(a: string, b: string, subCost: nat)
    requires subCost <= 1
    ensures Distance(a, b, subCost) <= MaxInt(|a|, |b|)
    decreases |a| + |b|
  {
    if |a| > 0 && |b| > 0 {
      DistanceAtMostLonger(a[..|a| - 1], b[..|b| - 1], subCost);
    }
  }

  /** Appending one code point costs exactly one insertion. */
  lemma DistanceAppendOne(a: string, c: char, subCost: nat)
    ensures Distance(a, a + [c], subCost) == 1
  {
    var b := a + [c];
    assert b[..|b| - 1] == a;
    DistanceLowerBound(a, b, subCost);
    if |a| > 0 {
      DistanceSelf(a, subCost);
    }
  }

  /** Two strings that differ only in their last code point are at most two edits apart. */
  lemma DistanceLastDiffers(p: string, x: char, y: char, subCost: nat)
    ensures Distance(p + [x], p + [y], subCost) <= 2
  {
    var a, b := p + [x], p + [y];
    assert a[..|a| - 1] == p && b[..|b| - 1] == p;
    DistanceSelf(p, subCost);
    assert Distance(a, p, subCost) <= 1;
  }

  predicate NoCommonCodePoint(a: string, b: string)
  {
    forall i, j :: 0 <= i < |a| && 0 <= j < |b| ==> a[i] != b[j]
  }

  /**
   Strings with no code point in common are at least the longer length apart, and,
   once a substitution costs 2 or more, exactly the sum of their lengths apart.
   */
  lemma {:induction false} DistanceNoCommon(a: string, b: string, subCost: nat)
    requires NoCommonCodePoint(a, b) && subCost >= 1
    ensures Distance(a, b, subCost) >= MaxInt(|a|, |b|)
    ensures subCost >= 2 ==> Distance(a, b, subCost) == |a| + |b|
    decreases |a| + |b|
  {
    DistanceAtMostSum(a, b, subCost);
    if |a| > 0 && |b| > 0 {
      var a', b' := a[..|a| - 1], b[..|b| - 1];
      assert a[|a| - 1] != b[|b| - 1];
      DistanceNoCommon(a', b, subCost);
      DistanceNoCommon(a, b', subCost);
      DistanceNoCommon(a', b', subCost);
    }
  }

  // ---------------------------------------------------------------------------
  // Facts about the score
  // ---------------------------------------------------------------------------

  /** A title compared with itself scores 1. */
  lemma SimilaritySelf(a: string, subCost: nat)
    ensures CalculateSimilarity(a, a, subCost) == 1.0
  {
    DistanceSelf(a, subCost);
  }

  /** Swapping the titles does not change the score. */
  lemma SimilaritySymmetric(a: string, b: string, subCost: nat)
    ensures CalculateSimilarity(a, b, subCost) == CalculateSimilarity(b, a, subCost)
  {
    DistanceSymmetric(a, b, subCost);
    MaxIntSymmetric(ByteLen(a), ByteLen(b));
  }

  /**
   With a substitution costing at most 1 the score is never negative: the distance is
   at most the longer code-point count, which is at most the longer byte length.
   */
  lemma SimilarityNonNegative(a: string, b: string, subCost: nat)
    requires subCost <= 1
    ensures CalculateSimilarity(a, b, subCost) >= 0.0
  {
    DistanceAtMostLonger(a, b, subCost);
    ByteLenVersusRuneCount(a);
    ByteLenVersusRuneCount(b);
    var maxLen := MaxInt(ByteLen(a), ByteLen(b));
    if maxLen > 0 {
      RatioAtMostOne(Distance(a, b, subCost), maxLen);
    }
  }

  lemma RatioAtMostOne(d: nat, m: nat)
    requires 0 < m && d <= m
    ensures (d as real) / (m as real) <= 1.0
  {
    var q := (d as real) / (m as real);
    assert q * (m as real) == d as real;
  }

  /** An empty title against a non-empty ASCII title scores 0, in either order. */
  lemma SimilarityEmptyVersusAscii(b: string, subCost: nat)
    requires |b| > 0 && IsAscii(b)
    ensures CalculateSimilarity("", b, subCost) == 0.0
    ensures CalculateSimilarity(b, "", subCost) == 0.0
  {
    ByteLenVersusRuneCount(b);
  }

  /** Appending one ASCII character to an ASCII title of length n scores 1 - 1/(n+1). */
  lemma SimilarityAppendOneAscii(a: string, c: char, subCost: nat)
    requires IsAscii(a + [c])
    ensures CalculateSimilarity(a, a + [c], subCost) == 1.0 - 1.0 / ((|a| + 1) as real)
  {
    assert IsAscii(a) by {
      forall i | 0 <= i < |a| ensures (a[i] as int) < 0x80 {
        assert a[i] == (a + [c])[i];
      }
    }
    DistanceAppendOne(a, c, subCost);
    ByteLenVersusRuneCount(a);
    ByteLenVersusRuneCount(a + [c]);
  }

  /** "abc" against "abcd" scores 0.75. */
  lemma SimilarityAbcAbcd(subCost: nat)
    ensures CalculateSimilarity("abc", "abcd", subCost) == 0.75
  {
    assert "abcd" == "abc" + ['d'];
    SimilarityAppendOneAscii("abc", 'd', subCost);
  }

  /**
   Two ASCII titles of one length with no character in common score 0 when a
   substitution costs 1 but -1 when it costs 2: the test's "abc" against "def"
   expectation of 0 holds only under the cost-1 table.
   */
  lemma SimilarityDisjointDependsOnCost(a: string, b: string)
    requires IsAscii(a) && IsAscii(b) && |a| == |b| > 0 && NoCommonCodePoint(a, b)
    ensures CalculateSimilarity(a, b, 1) == 0.0
    ensures CalculateSimilarity(a, b, 2) == -1.0
  {
    ByteLenVersusRuneCount(a);
    ByteLenVersusRuneCount(b);
    DistanceNoCommon(a, b, 1);
    DistanceAtMostLonger(a, b, 1);
    DistanceNoCommon(a, b, 2);
    var m := MaxInt(ByteLen(a), ByteLen(b));
    assert m == |a|;
    RatioOfMultiple(m, 1);
    RatioOfMultiple(m, 2);
  }

  lemma RatioOfMultiple(m: nat, k: nat)
    requires m > 0
    ensures 1.0 - ((k * m) as real) / (m as real) == 1.0 - k as real
  {
    assert (k * m) as real == (k as real) * (m as real);
  }

  /** On ASCII titles the byte normaliser and the code-point normaliser agree. */
  lemma SimilarityAsciiAgrees(a: string, b: string, subCost: nat)
    requires IsAscii(a) && IsAscii(b)
    ensures CalculateSimilarity(a, b, subCost) == RuneSimilarity(a, b, subCost)
  {
    ByteLenVersusRuneCount(a);
    ByteLenVersusRuneCount(b);
  }

  /**
   Outside ASCII they disagree: the empty title against "é" (one code point, two
   bytes) scores 0.5 as written, where the code-point normaliser gives 0.
   */
  lemma ByteNormaliserCounterexample(subCost: nat)
    ensures CalculateSimilarity("", "é", subCost) == 0.5
    ensures RuneSimilarity("", "é", subCost) == 0.0
  {
    assert ByteLen("é") == 2 by {
      assert "é"[..0] == [];
    }
  }

  // ---------------------------------------------------------------------------
  // The corrected score
  // ---------------------------------------------------------------------------

  /** A title compared with itself scores 1. */
  lemma RuneSimilaritySelf(a: string, subCost: nat)
    ensures RuneSimilarity(a, a, subCost) == 1.0
  {
    DistanceSelf(a, subCost);
  }

  lemma RuneSimilaritySymmetric(a: string, b: string, subCost: nat)
    ensures RuneSimilarity(a, b, subCost) == RuneSimilarity(b, a, subCost)
  {
    DistanceSymmetric(a, b, subCost);
  }

  lemma RuneSimilaritySymmetricAll(subCost: nat)
    ensures forall a, b :: RuneSimilarity(a, b, subCost) == RuneSimilarity(b, a, subCost)
  {
    forall a, b ensures RuneSimilarity(a, b, subCost) == RuneSimilarity(b, a, subCost) {
      RuneSimilaritySymmetric(a, b, subCost);
    }
  }

  lemma RuneSimilaritySelfAll(subCost: nat)
    ensures forall a :: RuneSimilarity(a, a, subCost) == 1.0
  {
    forall a ensures RuneSimilarity(a, a, subCost) == 1.0 {
      RuneSimilaritySelf(a, subCost);
    }
  }

  /** An empty title against any non-empty title scores 0, whatever its alphabet. */
  lemma RuneSimilarityEmptyVersusNonEmpty(b: string, subCost: nat)
    requires |b| > 0
    ensures RuneSimilarity("", b, subCost) == 0.0
    ensures RuneSimilarity(b, "", subCost) == 0.0
  {
  }

  /** With a substitution costing at most 1 the score lies in [0, 1]. */
  lemma RuneSimilarityInUnitRange(a: string, b: string, subCost: nat)
    requires subCost <= 1
    ensures 0.0 <= RuneSimilarity(a, b, subCost) <= 1.0
  {
    DistanceAtMostLonger(a, b, subCost);
    if |a| + |b| > 0 {
      RatioAtMostOne(Distance(a, b, subCost), MaxInt(|a|, |b|));
    }
  }

  /** Titles of length n >= 1 differing only in the last code point score at least 1 - 2/n. */
  lemma RuneSimilarityLastDiffers(p: string, x: char, y: char, subCost: nat)
    ensures RuneSimilarity(p + [x], p + [y], subCost) >= 1.0 - 2.0 / ((|p| + 1) as real)
  {
    DistanceLastDiffers(p, x, y, subCost);
  }
}
