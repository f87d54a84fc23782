/** `getUniqueValues`: the union of two arrays, keeping the first occurrence
    of each value in the order of the concatenation. */
module Unique {
  import opened Seqs

  /** An element `string | number`; a JavaScript number is a `real`. */
  datatype Val = S(s: string) | N(n: real)

  /** The values of `s` without repeats, each at its first occurrence:
      scanning `s` from the left, a value is appended unless it is already
      present. This is the reference the loop below is proved against. */
  function Dedup(s: seq<Val>): (r: seq<Val>)
    decreases |s|
  {
    if s == [] then []
    else
      var d := Dedup(s[..|s| - 1]);
      if s[|s| - 1] in d then d else d + [s[|s| - 1]]
  }

  /** The position of the first occurrence of `x` in `s`. */
  function IndexOf(s: seq<Val>, x: Val): (k: nat)
    requires x in s
    ensures k < |s| && s[k] == x && x !in s[..k]
    decreases |s|
  {
    if s[0] == x then 0 else 1 + IndexOf(s[1..], x)
  }

  /** A position holding `x` with no earlier `x` is the first occurrence. */
  lemma {:induction false} IndexOfUnique(s: seq<Val>, x: Val, k: nat)
    requires k < |s| && s[k] == x && x !in s[..k]
    ensures IndexOf(s, x) == k
    decreases |s|
  {
    if k > 0 {
      assert s[..k][0] == s[0];
      assert s[1..][..k - 1] == s[1..k];
      IndexOfUnique(s[1..], x, k - 1);
    }
  }

  /** Appending to a sequence does not move the first occurrence of a value
      already present, and puts a new value's first occurrence at the end. */
  lemma IndexOfSnoc(s: seq<Val>, x: Val, y: Val)
    requires y in s + [x]
    ensures y in s ==> IndexOf(s + [x], y) == IndexOf(s, y)
    ensures y !in s ==> IndexOf(s + [x], y) == |s|
  {
    var t := s + [x];
    if y in s {
      var j := IndexOf(s, y);
      assert t[..j] == s[..j];
      IndexOfUnique(t, y, j);
    } else {
      assert t[..|s|] == s;
      IndexOfUnique(t, y, |s|);
    }
  }

  /** No value occurs twice in the result. */
  lemma {:induction false} DedupNoDuplicates(s: seq<Val>)
    ensures NoDuplicates(Dedup(s))
    decreases |s|
  {
    if s != [] {
      DedupNoDuplicates(s[..|s| - 1]);
    }
  }

  /** The result holds exactly the values of the input. */
  lemma {:induction false} DedupElements(s: seq<Val>)
    ensures forall x :: x in Dedup(s) <==> x in s
    decreases |s|
  {
    if s != [] {
      DedupElements(s[..|s| - 1]);
      assert s == s[..|s| - 1] + [s[|s| - 1]];
    }
  }

  /** The result keeps the order of the input. */
  lemma {:induction false} DedupSubsequence(s: seq<Val>)
    ensures IsSubsequence(Dedup(s), s)
    decreases |s|
  {
    if s != [] {
      var init, x := s[..|s| - 1], s[|s| - 1];
      DedupSubsequence(init);
      SubsequenceSnoc(Dedup(init), init, x);
      assert s == init + [x];
    }
  }

  /** The result is no longer than the input. */
  lemma {:induction false} DedupLength(s: seq<Val>)
    ensures |Dedup(s)| <= |s|
    decreases |s|
  {
    if s != [] {
      DedupLength(s[..|s| - 1]);
    }
  }

  /** An input without repeats comes back unchanged. */
  lemma {:induction false} DedupOfDistinct(s: seq<Val>)
    requires NoDuplicates(s)
    ensures Dedup(s) == s
    decreases |s|
  {
    if s != [] {
      var init, x := s[..|s| - 1], s[|s| - 1];
      DedupOfDistinct(init);
      assert forall j :: 0 <= j < |init| ==> init[j] == s[j] != s[|s| - 1];
      assert s == init + [x];
    }
  }

  /** Every value of `r` occurs in `s`, and `r` lists them in the order of
      their first occurrences in `s`. */
  predicate InFirstOccurrenceOrder(r: seq<Val>, s: seq<Val>) {
    (forall x :: x in r ==> x in s) &&
    forall i, j :: 0 <= i < j < |r| ==> IndexOf(s, r[i]) < IndexOf(s, r[j])
  }

  /** One step of `Dedup` keeps the result in first-occurrence order. */
  lemma InFirstOccurrenceOrderSnoc(d: seq<Val>, s: seq<Val>, x: Val)
    requires InFirstOccurrenceOrder(d, s)
    requires forall y :: y in d <==> y in s
    ensures InFirstOccurrenceOrder(if x in d then d else d + [x], s + [x])
  {
    var r := if x in d then d else d + [x];
    forall i, j | 0 <= i < j < |r|
      ensures IndexOf(s + [x], r[i]) < IndexOf(s + [x], r[j])
    {
      assert r[i] == d[i] && r[i] in s;
      IndexOfSnoc(s, x, r[i]);
      if j < |d| {
        assert r[j] == d[j] && r[j] in s;
        IndexOfSnoc(s, x, r[j]);
      } else {
        assert r[j] == x && x !in s;
        IndexOfSnoc(s, x, x);
      }
    }
  }

  /** The values of the result appear in the order of their first
      occurrences in the input. */
  lemma {:induction false} DedupFirstOccurrenceOrder(s: seq<Val>)
    ensures InFirstOccurrenceOrder(Dedup(s), s)
    decreases |s|
  {
    if s != [] {
      var init, x := s[..|s| - 1], s[|s| - 1];
      DedupFirstOccurrenceOrder(init);
      DedupElements(init);
      InFirstOccurrenceOrderSnoc(Dedup(init), init, x);
      assert s == init + [x];
    }
  }

  /** `getUniqueValues(arr1, arr2)`: walks the concatenation once and pushes
      each value that the result does not yet include. */
  method GetUniqueValues(arr1: seq<Val>, arr2: seq<Val>) returns (newArray: seq<Val>)
    ensures newArray == Dedup(arr1 + arr2)
    ensures NoDuplicates(newArray)
    ensures forall x :: x in newArray <==> x in arr1 || x in arr2
    ensures IsSubsequence(newArray, arr1 + arr2)
    ensures InFirstOccurrenceOrder(newArray, arr1 + arr2)
    ensures |newArray| <= |arr1| + |arr2|
  {
    newArray := [];
    var combinedArray := arr1 + arr2;
    var i := 0;
    while i < |combinedArray|
      invariant 0 <= i <= |combinedArray|
      invariant newArray == Dedup(combinedArray[..i])
    {
      assert combinedArray[..i + 1][..i] == combinedArray[..i];
      if combinedArray[i] !in newArray {
        newArray := newArray + [combinedArray[i]];
      }
      i := i + 1;
    }
    assert combinedArray[..i] == combinedArray;
    DedupNoDuplicates(combinedArray);
    DedupElements(combinedArray);
    DedupSubsequence(combinedArray);
    DedupLength(combinedArray);
    DedupFirstOccurrenceOrder(combinedArray);
  }
}
