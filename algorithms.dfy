/** Levenshtein edit distance: a recursive definition over prefixes, the
    two-row dynamic programme that computes it, and its standard properties. */
module Algorithms {

  function Min3(x: nat, y: nat, z: nat): nat
  {
    if x <= y && x <= z then x else if y <= z then y else z
  }

  function Max(x: nat, y: nat): nat { if x >= y then x else y }

  /** The number of single-character insertions, deletions and substitutions
      needed to turn `a` into `b`, by the recurrence on both strings' last characters. */
  function Lev(a: string, b: string): nat
    decreases |a| + |b|
  {
    if |a| == 0 then |b|
    else if |b| == 0 then |a|
    else Min3(Lev(a[..|a| - 1], b) + 1,
              Lev(a, b[..|b| - 1]) + 1,
              Lev(a[..|a| - 1], b[..|b| - 1]) + (if a[|a| - 1] == b[|b| - 1] then 0 else 1))
  }

  /** `levenshtein_distance(first_string, second_string)`: if the first string is
      the shorter one, the call is repeated with the arguments swapped (and that
      call does not recurse again); an empty second string gives the first's
      length; otherwise rows of the distance matrix are built one at a time,
      `previous_row[j]` being the distance from the first `i` characters of
      `first` to the first `j` characters of `second`. */
  method LevenshteinDistance(first: string, second: string) returns (d: nat)
    ensures d == Lev(first, second)
    decreases if |first| < |second| then 1 else 0
  {
    if |first| < |second| {
      d := LevenshteinDistance(second, first);
      LevSymmetric(second, first);
      return;
    }
    if |second| == 0 {
      return |first|;
    }
    var previousRow: seq<nat> := seq(|second| + 1, j requires 0 <= j <= |second| => j);
    forall j | 0 <= j <= |second| ensures previousRow[j] == Lev(first[..0], second[..j]) {
      LevAgainstEmpty(second[..j]);
    }
    var i := 0;
    while i < |first|
      invariant 0 <= i <= |first|
      invariant |previousRow| == |second| + 1
      invariant forall j :: 0 <= j <= |second| ==> previousRow[j] == Lev(first[..i], second[..j])
    {
      previousRow := NextRow(first, second, i, previousRow);
      i := i + 1;
    }
    assert first[..i] == first && second[..|second|] == second;
    d := previousRow[|previousRow| - 1];
  }

  /** One pass of the outer loop: from the row for the first `i` characters of
      `first`, `current_row` for the first `i + 1`, starting with `i + 1`. */
  method NextRow(first: string, second: string, i: nat, previousRow: seq<nat>) returns (currentRow: seq<nat>)
    requires i < |first| && |previousRow| == |second| + 1
    requires forall j :: 0 <= j <= |second| ==> previousRow[j] == Lev(first[..i], second[..j])
    ensures |currentRow| == |second| + 1 && currentRow[0] == i + 1
    ensures forall k :: 0 <= k <= |second| ==> currentRow[k] == Lev(first[..i + 1], second[..k])
  {
    var firstChar := first[i];
    currentRow := [i + 1];
    assert Lev(first[..i + 1], second[..0]) == i + 1;
    var j := 0;
    while j < |second|
      invariant 0 <= j <= |second|
      invariant |currentRow| == j + 1 && currentRow[0] == i + 1
      invariant forall k :: 0 <= k <= j ==> currentRow[k] == Lev(first[..i + 1], second[..k])
    {
      var secondChar := second[j];
      var insertions := previousRow[j + 1] + 1;
      var deletions := currentRow[j] + 1;
      var substitutions := previousRow[j] + (if firstChar != secondChar then 1 else 0);
      LevStep(first, second, i, j);
      var cell := Min3(insertions, deletions, substitutions);
      assert cell == Lev(first[..i + 1], second[..j + 1]);
      currentRow := currentRow + [cell];
      j := j + 1;
    }
  }

  /** The recurrence of Lev, for two non-empty strings whose prefixes
      without their last characters are `pa` and `pb`. */
  lemma {:induction false} LevLast(a: string, b: string, pa: string, pb: string)
    requires |a| > 0 && |b| > 0 && pa == a[..|a| - 1] && pb == b[..|b| - 1]
    ensures Lev(a, b) == Min3(Lev(pa, b) + 1, Lev(a, pb) + 1,
                              Lev(pa, pb) + (if a[|a| - 1] == b[|b| - 1] then 0 else 1))
  {
  }

  /** One cell of the matrix, in the terms of the loop: the entry for
      (i + 1, j + 1) is the minimum over the three neighbouring entries. */
  lemma {:induction false} LevStep(a: string, b: string, i: nat, j: nat)
    requires i < |a| && j < |b|
    ensures Lev(a[..i + 1], b[..j + 1])
         == Min3(Lev(a[..i], b[..j + 1]) + 1,
                 Lev(a[..i + 1], b[..j]) + 1,
                 Lev(a[..i], b[..j]) + (if a[i] != b[j] then 1 else 0))
  {
    LevLast(a[..i + 1], b[..j + 1], a[..i], b[..j]);
  }

  /** The distance between a string and the empty string is its length, either way round. */
  lemma {:induction false} LevAgainstEmpty(s: string)
    ensures Lev(s, "") == |s| && Lev("", s) == |s|
  {
  }

  lemma {:induction false} LevSymmetric(a: string, b: string)
    ensures Lev(a, b) == Lev(b, a)
    decreases |a| + |b|
  {
    if |a| > 0 && |b| > 0 {
      LevSymmetric(a[..|a| - 1], b);
      LevSymmetric(a, b[..|b| - 1]);
      LevSymmetric(a[..|a| - 1], b[..|b| - 1]);
    }
  }

  lemma {:induction false} LevSelf(a: string)
    ensures Lev(a, a) == 0
  {
    if |a| > 0 {
      LevSelf(a[..|a| - 1]);
    }
  }

  lemma {:induction false} LevZeroOnlyIfEqual(a: string, b: string)
    requires Lev(a, b) == 0
    ensures a == b
    decreases |a| + |b|
  {
    if |a| > 0 && |b| > 0 {
      var a', b' := a[..|a| - 1], b[..|b| - 1];
      assert Lev(a', b') == 0 && a[|a| - 1] == b[|b| - 1];
      LevZeroOnlyIfEqual(a', b');
      assert a == a' + [a[|a| - 1]] && b == b' + [b[|b| - 1]];
    }
  }

  /** The distance is zero exactly when the strings are equal. */
  lemma {:induction false} LevZeroIff(a: string, b: string)
    ensures Lev(a, b) == 0 <==> a == b
  {
    if a == b {
      LevSelf(a);
    } else if Lev(a, b) == 0 {
      LevZeroOnlyIfEqual(a, b);
    }
  }

  /** At least the difference of the lengths, at most the longer length. */
  lemma {:induction false} LevBounds(a: string, b: string)
    ensures Lev(a, b) <= Max(|a|, |b|)
    ensures Lev(a, b) >= |a| - |b| && Lev(a, b) >= |b| - |a|
    decreases |a| + |b|
  {
    if |a| > 0 && |b| > 0 {
      LevBounds(a[..|a| - 1], b);
      LevBounds(a, b[..|b| - 1]);
      LevBounds(a[..|a| - 1], b[..|b| - 1]);
    }
  }

  /** Appending one character costs exactly one edit. */
  lemma {:induction false} LevAppendOne(a: string, c: char)
    ensures Lev(a + [c], a) == 1
  {
    var s := a + [c];
    assert s[..|s| - 1] == a;
    LevSelf(a);
    LevBounds(s, a);
  }

  /** `row` holds the distances of the first `i` characters of `a` to every
      prefix of `b`: one row of the matrix the method fills. */
  ghost predicate IsRow(a: string, b: string, i: nat, row: seq<nat>)
    requires i <= |a|
  {
    |row| == |b| + 1 && forall j :: 0 <= j <= |b| ==> row[j] == Lev(a[..i], b[..j])
  }

  /** The first `n + 1` entries of `next` follow from the row `row` for `i`
      characters by the recurrence the inner loop applies for the character `c`. */
  predicate NextFrom(c: char, b: string, i: nat, row: seq<nat>, next: seq<nat>, n: nat)
    requires |row| == |b| + 1 && |next| == |b| + 1 && n <= |b|
  {
    if n == 0 then next[0] == i + 1
    else NextFrom(c, b, i, row, next, n - 1)
         && next[n] == Min3(row[n] + 1, next[n - 1] + 1, row[n - 1] + (if c != b[n - 1] then 1 else 0))
  }

  /** A value computed from the three neighbours of the cell (i + 1, k) by
      the recurrence is the distance there. */
  lemma {:induction false} CellFollows(a: string, b: string, i: nat, k: nat, up: nat, left: nat, diag: nat, cell: nat)
    requires i < |a| && 0 < k <= |b|
    requires up == Lev(a[..i], b[..k]) && left == Lev(a[..i + 1], b[..k - 1]) && diag == Lev(a[..i], b[..k - 1])
    requires cell == Min3(up + 1, left + 1, diag + (if a[i] != b[k - 1] then 1 else 0))
    ensures cell == Lev(a[..i + 1], b[..k])
  {
    var j := k - 1;
    LevStep(a, b, i, j);
    assert j + 1 == k;
  }

  /** The recurrence turns one row of the matrix into the next. */
  lemma {:induction false} RowFollows(a: string, b: string, i: nat, row: seq<nat>, next: seq<nat>)
    requires i < |a| && IsRow(a, b, i, row) && |next| == |b| + 1
    requires NextFrom(a[i], b, i, row, next, |b|)
    ensures IsRow(a, b, i + 1, next)
  {
    RowFollowsUpTo(a, b, i, row, next, |b|);
  }

  lemma {:induction false} RowFollowsUpTo(a: string, b: string, i: nat, row: seq<nat>, next: seq<nat>, n: nat)
    requires i < |a| && n <= |b| && IsRow(a, b, i, row) && |next| == |b| + 1
    requires NextFrom(a[i], b, i, row, next, n)
    ensures forall j :: 0 <= j <= n ==> next[j] == Lev(a[..i + 1], b[..j])
  {
    if n == 0 {
      assert |a[..i + 1]| == i + 1 && |b[..0]| == 0;
    } else {
      RowFollowsUpTo(a, b, i, row, next, n - 1);
      CellFollows(a, b, i, n, row[n], next[n - 1], row[n - 1], next[n]);
    }
  }

  /** Rows 0 to 2 of the matrix for "kitten" and "sitting". */
  lemma {:induction false} KittenSittingUpper(a: string, b: string)
    requires a == "kitten" && b == "sitting"
    ensures IsRow(a, b, 2, [2, 2, 1, 2, 3, 4, 5, 6])
  {
    assert IsRow(a, b, 0, [0, 1, 2, 3, 4, 5, 6, 7]);
    assert NextFrom('k', "sitting", 0, [0, 1, 2, 3, 4, 5, 6, 7], [1, 1, 2, 3, 4, 5, 6, 7], 7);
    RowFollows(a, b, 0, [0, 1, 2, 3, 4, 5, 6, 7], [1, 1, 2, 3, 4, 5, 6, 7]);
    assert NextFrom('i', "sitting", 1, [1, 1, 2, 3, 4, 5, 6, 7], [2, 2, 1, 2, 3, 4, 5, 6], 7);
    RowFollows(a, b, 1, [1, 1, 2, 3, 4, 5, 6, 7], [2, 2, 1, 2, 3, 4, 5, 6]);
  }

  /** Rows 3 and 4 of the same matrix. */
  lemma {:induction false} KittenSittingMiddle(a: string, b: string)
    requires a == "kitten" && b == "sitting"
    ensures IsRow(a, b, 4, [4, 4, 3, 2, 1, 2, 3, 4])
  {
    KittenSittingUpper(a, b);
    assert NextFrom('t', "sitting", 2, [2, 2, 1, 2, 3, 4, 5, 6], [3, 3, 2, 1, 2, 3, 4, 5], 7);
    RowFollows(a, b, 2, [2, 2, 1, 2, 3, 4, 5, 6], [3, 3, 2, 1, 2, 3, 4, 5]);
    assert NextFrom('t', "sitting", 3, [3, 3, 2, 1, 2, 3, 4, 5], [4, 4, 3, 2, 1, 2, 3, 4], 7);
    RowFollows(a, b, 3, [3, 3, 2, 1, 2, 3, 4, 5], [4, 4, 3, 2, 1, 2, 3, 4]);
  }

  /** `levenshtein_distance("kitten", "sitting") == 3`: the last entry of row 6. */
  lemma {:induction false} KittenSitting(a: string, b: string)
    requires a == "kitten" && b == "sitting"
    ensures Lev(a, b) == 3
  {
    KittenSittingMiddle(a, b);
    assert NextFrom('e', "sitting", 4, [4, 4, 3, 2, 1, 2, 3, 4], [5, 5, 4, 3, 2, 2, 3, 4], 7);
    RowFollows(a, b, 4, [4, 4, 3, 2, 1, 2, 3, 4], [5, 5, 4, 3, 2, 2, 3, 4]);
    assert NextFrom('n', "sitting", 5, [5, 5, 4, 3, 2, 2, 3, 4], [6, 6, 5, 4, 3, 3, 2, 3], 7);
    RowFollows(a, b, 5, [5, 5, 4, 3, 2, 2, 3, 4], [6, 6, 5, 4, 3, 3, 2, 3]);
    assert a[..6] == a && b[..7] == b;
  }
}
