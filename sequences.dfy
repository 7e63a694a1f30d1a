/**
 * Sequence helpers for the Python list idioms the handlers use: slicing a
 * prefix (`xs[:n]`) and order-preserving de-duplication
 * (`list(dict.fromkeys(xs))`).
 */
module Sequences {

  predicate NoDuplicates<T(==)>(s: seq<T>)
  {
    forall i, j :: 0 <= i < j < |s| ==> s[i] != s[j]
  }

  /** `s[:n]`: the first `n` elements, or all of `s` when it is shorter. */
  function Prefix<T>(s: seq<T>, n: nat): (r: seq<T>)
    ensures |r| <= n && |r| <= |s|
    ensures |s| <= n ==> |r| == |s|
    ensures n <= |s| ==> |r| == n
    ensures forall i :: 0 <= i < |r| ==> r[i] == s[i]
  {
    if |s| <= n then s else s[..n]
  }

  /** Position of the first occurrence of `x` in `s`. */
  function FirstIndex<T(==)>(s: seq<T>, x: T): (i: nat)
    requires x in s
    ensures i < |s| && s[i] == x
    ensures forall j :: 0 <= j < i ==> s[j] != x
  {
    if s[0] == x then 0 else 1 + FirstIndex(s[1..], x)
  }

  /**
   * `list(dict.fromkeys(s))`: scanning left to right, an element is kept the
   * first time it is seen and dropped afterwards.
   */
  function Dedup<T(==)>(s: seq<T>): (r: seq<T>)
    ensures |r| <= |s|
    ensures NoDuplicates(r)
    ensures forall i :: 0 <= i < |r| ==> r[i] in s
    decreases |s|
  {
    if |s| == 0 then []
    else
      var d := Dedup(s[..|s| - 1]);
      if s[|s| - 1] in d then d else d + [s[|s| - 1]]
  }

  /** De-duplication keeps exactly the elements of its input. */
  lemma {:induction false} DedupSameElements<T>(s: seq<T>, x: T)
    ensures x in Dedup(s) <==> x in s
    decreases |s|
  {
    if |s| > 0 {
      DedupSameElements(s[..|s| - 1], x);
      assert s == s[..|s| - 1] + [s[|s| - 1]];
    }
  }

  lemma FirstIndexOfExtension<T>(s: seq<T>, x: T, y: T)
    requires y in s
    ensures y in s + [x] && FirstIndex(s + [x], y) == FirstIndex(s, y)
  {
    var i := FirstIndex(s, y);
    var k := FirstIndex(s + [x], y);
    assert (s + [x])[i] == y;
    assert k <= i;
    assert s[k] == (s + [x])[k];
  }

  /**
   * The kept elements appear in the order of their first occurrences in the
   * input: each tag keeps its first-occurrence position.
   */
  lemma {:induction false} DedupFirstOccurrenceOrder<T>(s: seq<T>, i: nat, j: nat)
    requires i < j < |Dedup(s)|
    ensures Dedup(s)[i] in s && Dedup(s)[j] in s
    ensures FirstIndex(s, Dedup(s)[i]) < FirstIndex(s, Dedup(s)[j])
    decreases |s|
  {
    var r := Dedup(s);
    DedupSameElements(s, r[i]);
    DedupSameElements(s, r[j]);
    var init := s[..|s| - 1];
    var last := s[|s| - 1];
    assert s == init + [last];
    var d := Dedup(init);
    DedupSameElements(init, d[i]);
    FirstIndexOfExtension(init, last, d[i]);
    if last in d {
      DedupFirstOccurrenceOrder(init, i, j);
      DedupSameElements(init, d[j]);
      FirstIndexOfExtension(init, last, d[j]);
    } else if j < |d| {
      DedupFirstOccurrenceOrder(init, i, j);
      DedupSameElements(init, d[j]);
      FirstIndexOfExtension(init, last, d[j]);
    } else {
      assert r[j] == last;
      DedupSameElements(init, last);
      assert last !in init;
      assert FirstIndex(s, last) == |init| by {
        assert s[|init|] == last;
      }
    }
  }
}
