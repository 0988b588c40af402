/**
 * `levenshteinDistance`: the Levenshtein edit distance, filled into a
 * (|s1| + 1) x (|s2| + 1) table column by column.
 */
module Levenshtein {

  function Min3(x: int, y: int, z: int): (m: int)
    ensures m <= x && m <= y && m <= z
    ensures m == x || m == y || m == z
  {
    if x <= y && x <= z then x else if y <= z then y else z
  }

  /**
   * The edit distance between `a` and `b` by the usual recurrence on their
   * last characters: delete, insert or substitute (free when equal).
   */
  function Distance(a: string, b: string): nat
    decreases |a| + |b|
  {
    if |a| == 0 then |b|
    else if |b| == 0 then |a|
    else
      Min3(Distance(a[..|a| - 1], b) + 1,
           Distance(a, b[..|b| - 1]) + 1,
           Distance(a[..|a| - 1], b[..|b| - 1]) + (if a[|a| - 1] != b[|b| - 1] then 1 else 0))
  }

  /**
   * `levenshteinDistance(s1, s2)`: both strings are prefixed with "." so that
   * table index `i` stands for the first `i` characters; `ret[i][0]` is `i`,
   * `ret[0][j]` is `j`, and every other cell is the cheapest of its three
   * neighbours plus one edit.
   */
  method LevenshteinDistance(s1: string, s2: string) returns (d: nat)
    ensures d == Distance(s1, s2)
  {
    var t1, t2 := ['.'] + s1, ['.'] + s2;
    var ret := new nat[|t1|, |t2|];
    ret[0, 0] := 0;
    for i := 1 to |t1|
      invariant ret[0, 0] == 0
      invariant forall i' :: 0 <= i' < i ==> ret[i', 0] == i'
    {
      ret[i, 0] := i;
    }
    for j := 1 to |t2|
      invariant forall i' :: 0 <= i' < |t1| ==> ret[i', 0] == i'
      invariant forall j' :: 0 <= j' < j ==> ret[0, j'] == j'
    {
      ret[0, j] := j;
    }
    assert forall i' :: 0 <= i' < |t1| ==> ret[i', 0] == Distance(s1[..i'], s2[..0]);
    for j := 1 to |t2|
      invariant forall j' :: 0 <= j' < |t2| ==> ret[0, j'] == j'
      invariant Filled(ret, s1, s2, j)
    {
      FillColumn(ret, s1, s2, j);
    }
    d := ret[|t1| - 1, |t2| - 1];
    assert s1[..|s1|] == s1 && s2[..|s2|] == s2;
  }

  /** Columns `0 .. j - 1` of the table hold the distances between the corresponding prefixes. */
  ghost predicate Filled(ret: array2<nat>, s1: string, s2: string, j: nat)
    reads ret
    requires ret.Length0 == |s1| + 1 && ret.Length1 == |s2| + 1 && j <= |s2| + 1
  {
    forall i', j' :: 0 <= i' <= |s1| && 0 <= j' < j ==> ret[i', j'] == Distance(s1[..i'], s2[..j'])
  }

  /** The inner loop of `levenshteinDistance`: fill column `j` from top to bottom. */
  method FillColumn(ret: array2<nat>, s1: string, s2: string, j: nat)
    requires ret.Length0 == |s1| + 1 && ret.Length1 == |s2| + 1 && 0 < j <= |s2|
    requires ret[0, j] == j
    requires Filled(ret, s1, s2, j)
    modifies ret
    ensures Filled(ret, s1, s2, j + 1)
    ensures forall j' :: 0 <= j' <= |s2| ==> ret[0, j'] == old(ret[0, j'])
  {
    var t1, t2 := ['.'] + s1, ['.'] + s2;
    assert ret[0, j] == Distance(s1[..0], s2[..j]);
    for i := 1 to |t1|
      invariant forall j' :: 0 <= j' <= |s2| ==> ret[0, j'] == old(ret[0, j'])
      invariant Filled(ret, s1, s2, j)
      invariant forall i' :: 0 <= i' < i ==> ret[i', j] == Distance(s1[..i'], s2[..j])
    {
      var substitutionCost := 0;
      if t1[i] != t2[j] {
        substitutionCost := 1;
      }
      var up, left, diagonal := ret[i - 1, j], ret[i, j - 1], ret[i - 1, j - 1];
      assert up == Distance(s1[..i - 1], s2[..j]);
      assert left == Distance(s1[..i], s2[..j - 1]) && diagonal == Distance(s1[..i - 1], s2[..j - 1]);
      assert substitutionCost == if s1[i - 1] != s2[j - 1] then 1 else 0;
      DistanceStep(s1, s2, i, j);
      ret[i, j] := Min3(up + 1, left + 1, diagonal + substitutionCost);
    }
  }

  /** The recurrence on prefixes, as the table uses it. */
  lemma DistanceStep(a: string, b: string, i: nat, j: nat)
    requires 0 < i <= |a| && 0 < j <= |b|
    ensures Distance(a[..i], b[..j])
            == Min3(Distance(a[..i - 1], b[..j]) + 1,
                    Distance(a[..i], b[..j - 1]) + 1,
                    Distance(a[..i - 1], b[..j - 1]) + (if a[i - 1] != b[j - 1] then 1 else 0))
  {
    assert a[..i][..i - 1] == a[..i - 1] && b[..j][..j - 1] == b[..j - 1];
  }

  // ---------------------------------------------------------------------------
  // Properties of the distance

  /** The distance from or to the empty string is the other string's length. */
  lemma DistanceEmpty(s: string)
    ensures Distance("", s) == |s| && Distance(s, "") == |s|
  {
  }

  /** Every string is at distance 0 from itself. */
  lemma {:induction false} DistanceSelf(s: string)
    ensures Distance(s, s) == 0
  {
    if |s| > 0 {
      DistanceSelf(s[..|s| - 1]);
    }
  }

  /** The distance does not depend on the order of its arguments. */
  lemma {:induction false} DistanceSymmetric(a: string, b: string)
    ensures Distance(a, b) == Distance(b, a)
    decreases |a| + |b|
  {
    if |a| > 0 && |b| > 0 {
      DistanceSymmetric(a[..|a| - 1], b);
      DistanceSymmetric(a, b[..|b| - 1]);
      DistanceSymmetric(a[..|a| - 1], b[..|b| - 1]);
    }
  }

  /** The distance is at least the difference of the lengths and at most the longer length. */
  lemma {:induction false} DistanceBounds(a: string, b: string)
    ensures |a| - |b| <= Distance(a, b) && |b| - |a| <= Distance(a, b)
    ensures Distance(a, b) <= if |a| <= |b| then |b| else |a|
    decreases |a| + |b|
  {
    if |a| > 0 && |b| > 0 {
      DistanceBounds(a[..|a| - 1], b);
      DistanceBounds(a, b[..|b| - 1]);
      DistanceBounds(a[..|a| - 1], b[..|b| - 1]);
    }
  }

  /** Distance 0 means the strings are equal. */
  lemma {:induction false} DistanceZero(a: string, b: string)
    ensures Distance(a, b) == 0 <==> a == b
    decreases |a| + |b|
  {
    if a == b {
      DistanceSelf(a);
    } else if |a| > 0 && |b| > 0 {
      DistanceZero(a[..|a| - 1], b[..|b| - 1]);
      assert a == a[..|a| - 1] + [a[|a| - 1]];
      assert b == b[..|b| - 1] + [b[|b| - 1]];
    }
  }
}
