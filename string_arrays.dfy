/** The two string-array transforms of a field update: "append missing
    elements" (a `push` loop guarded by `includes`) and "remove all from array"
    (a backwards scan that splices at `indexOf`). Each is specified by a pure
    function, and each loop is proved to compute it. */
module StringArrays {

  /** JavaScript's `Array.prototype.indexOf`: the first index holding `x`, or -1. */
  function IndexOf<T(==)>(s: seq<T>, x: T): (i: int)
    ensures -1 <= i < |s|
    ensures i == -1 <==> x !in s
    ensures 0 <= i ==> s[i] == x && x !in s[..i]
  {
    if s == [] then -1
    else if s[0] == x then 0
    else
      var j := IndexOf(s[1..], x);
      assert s[1..][..j + 1] == s[1..j + 2] by { assert 0 <= j ==> j + 2 <= |s|; }
      if j < 0 then -1 else j + 1
  }

  /** `IndexOf` finds exactly the first occurrence. */
  lemma IndexOfAt<T>(s: seq<T>, x: T, k: int)
    requires 0 <= k < |s| && s[k] == x && x !in s[..k]
    ensures IndexOf(s, x) == k
  {
    var i := IndexOf(s, x);
    assert forall j :: 0 <= j < i ==> s[..i][j] == s[j];
    assert forall j :: 0 <= j < k ==> s[..k][j] == s[j];
  }

  /** JavaScript's `s.splice(start, 1)` on the array `s`, returning the new
      array: a negative start counts from the end (clamped to 0), a start
      past the end removes nothing. */
  function SpliceOne<T>(s: seq<T>, start: int): (r: seq<T>)
    ensures 0 <= start < |s| ==> |r| == |s| - 1
    ensures 0 <= start < |s| ==> forall i :: 0 <= i < |r| ==> r[i] == if i < start then s[i] else s[i + 1]
    ensures |s| <= start ==> r == s
    ensures start < 0 && |s| > 0 ==> |r| == |s| - 1
  {
    var k := if start < 0 then (if |s| + start < 0 then 0 else |s| + start)
             else if start > |s| then |s| else start;
    if k < |s| then s[..k] + s[k + 1..] else s
  }

  // ---------------------------------------------------------------------
  // append_missing_elements

  /** The array after `append_missing_elements` with `values`: each value, in
      order, is pushed when the array does not yet include it. Defined on the
      last value so that it matches the loop one step at a time. */
  function AppendMissing(a: seq<string>, values: seq<string>): seq<string>
    decreases |values|
  {
    if values == [] then a
    else
      var done := AppendMissing(a, values[..|values| - 1]);
      var v := values[|values| - 1];
      if v in done then done else done + [v]
  }

  /** The source's loop over `values` with `includes` and `push`. */
  method PushMissing(arr: seq<string>, values: seq<string>) returns (r: seq<string>)
    ensures r == AppendMissing(arr, values)
  {
    r := arr;
    for j := 0 to |values|
      invariant r == AppendMissing(arr, values[..j])
    {
      assert values[..j + 1][..j] == values[..j];
      if values[j] !in r {
        r := r + [values[j]];
      }
    }
    assert values[..|values|] == values;
  }

  /** The original array is kept as a prefix. */
  lemma {:induction false} AppendMissingKeepsPrefix(a: seq<string>, values: seq<string>)
    ensures |a| <= |AppendMissing(a, values)|
    ensures AppendMissing(a, values)[..|a|] == a
    decreases |values|
  {
    if values != [] {
      AppendMissingKeepsPrefix(a, values[..|values| - 1]);
    }
  }

  /** Exactly the values not already present are added, each once: an element
      of the original array keeps its number of occurrences, a new value
      occurs exactly once, however often `values` repeats it. */
  lemma {:induction false} AppendMissingCounts(a: seq<string>, values: seq<string>)
    ensures forall x :: multiset(AppendMissing(a, values))[x] ==
                          (if x in a then multiset(a)[x] else if x in values then 1 else 0)
    decreases |values|
  {
    if values != [] {
      var init := values[..|values| - 1];
      var v := values[|values| - 1];
      var done := AppendMissing(a, init);
      AppendMissingCounts(a, init);
      assert values == init + [v];
      forall x ensures x in values <==> x in init || x == v {}
      if v !in done {
        assert multiset(done + [v]) == multiset(done) + multiset{v};
      }
    }
  }

  /** Consequence: an array without duplicates stays without duplicates. */
  lemma AppendMissingNoNewDuplicates(a: seq<string>, values: seq<string>)
    requires forall x :: multiset(a)[x] <= 1
    ensures forall x :: multiset(AppendMissing(a, values))[x] <= 1
  {
    AppendMissingCounts(a, values);
  }

  /** Every appended element is new to the array and comes from `values`. */
  lemma AppendedAreNew(a: seq<string>, values: seq<string>, i: int)
    requires |a| <= i < |AppendMissing(a, values)|
    ensures AppendMissing(a, values)[i] !in a && AppendMissing(a, values)[i] in values
  {
    var r := AppendMissing(a, values);
    var y := r[i];
    AppendMissingKeepsPrefix(a, values);
    AppendMissingCounts(a, values);
    assert r == a + r[|a|..];
    assert multiset(r) == multiset(a) + multiset(r[|a|..]);
    assert y in r[|a|..];
    assert multiset(r[|a|..])[y] > 0;
  }

  /** Appended values come in the order of their first occurrence in `values`. */
  lemma {:induction false} AppendMissingOrder(a: seq<string>, values: seq<string>, i: int, j: int)
    requires |a| <= i < j < |AppendMissing(a, values)|
    ensures 0 <= IndexOf(values, AppendMissing(a, values)[i]) < IndexOf(values, AppendMissing(a, values)[j])
    decreases |values|
  {
    var init := values[..|values| - 1];
    var v := values[|values| - 1];
    var done := AppendMissing(a, init);
    var r := AppendMissing(a, values);
    assert values == init + [v];
    AppendedAreNew(a, init, i);
    IndexOfExtend(init, v, r[i]);
    if j < |done| {
      AppendMissingOrder(a, init, i, j);
      AppendedAreNew(a, init, j);
      IndexOfExtend(init, v, r[j]);
    } else {
      assert v !in init by {
        AppendMissingCounts(a, init);
      }
      IndexOfLast(init, v);
    }
  }

  lemma {:induction false} IndexOfExtend<T>(s: seq<T>, v: T, y: T)
    requires y in s
    ensures IndexOf(s + [v], y) == IndexOf(s, y)
  {
    var i := IndexOf(s, y);
    assert (s + [v])[i] == y;
    assert (s + [v])[..i] == s[..i];
  }

  lemma IndexOfLast<T>(s: seq<T>, v: T)
    requires v !in s
    ensures IndexOf(s + [v], v) == |s|
  {
    assert (s + [v])[..|s|] == s;
  }

  // ---------------------------------------------------------------------
  // remove_all_from_array

  /** The array with every occurrence of `v` taken out, the others kept in order. */
  function Without(a: seq<string>, v: string): (r: seq<string>)
    ensures v !in r
  {
    if a == [] then []
    else if a[0] == v then Without(a[1..], v)
    else [a[0]] + Without(a[1..], v)
  }

  /** The array after `remove_all_from_array` with `values`: a filter that
      keeps, in their original order, the elements not listed in `values`. */
  function RemoveAll(a: seq<string>, values: seq<string>): seq<string>
  {
    if a == [] then []
    else if a[0] in values then RemoveAll(a[1..], values)
    else [a[0]] + RemoveAll(a[1..], values)
  }

  /** The source's nested loop: for each value, scan the array backwards from
      its end; whenever the scanned element equals the value, splice out the
      FIRST occurrence of the value (`indexOf`), not the scanned one. */
  method SpliceOccurrences(arr: seq<string>, values: seq<string>) returns (r: seq<string>)
    ensures r == RemoveAll(arr, values)
  {
    r := arr;
    RemoveAllNothingListed(arr, []);
    for j := 0 to |values|
      invariant r == RemoveAll(arr, values[..j])
    {
      var v := values[j];
      ghost var before := r;
      var index := |r|;
      while index > 0
        invariant 0 <= index <= |r|
        invariant v !in r[index..]
        invariant Without(r, v) == Without(before, v)
      {
        index := index - 1;
        if r[index] == v {
          var at := IndexOf(r, v);
          SpliceKeepsOthers(r, at, v);
          var next := SpliceOne(r, at);
          assert next[index..] == r[index + 1..];
          r := next;
        }
      }
      assert r[0..] == r;
      WithoutAbsent(r, v);
      assert values[..j + 1] == values[..j] + [v];
      RemoveAllSnoc(arr, values[..j], v);
    }
    assert values[..|values|] == values;
  }

  lemma {:induction false} WithoutAbsent(a: seq<string>, v: string)
    requires v !in a
    ensures Without(a, v) == a
  {
    if a != [] {
      WithoutAbsent(a[1..], v);
    }
  }

  lemma {:induction false} WithoutConcat(a: seq<string>, b: seq<string>, v: string)
    ensures Without(a + b, v) == Without(a, v) + Without(b, v)
  {
    if a == [] {
      assert a + b == b;
    } else {
      assert (a + b)[1..] == a[1..] + b;
      WithoutConcat(a[1..], b, v);
    }
  }

  /** Splicing out an occurrence of `v` does not change what survives removing `v`. */
  lemma SpliceKeepsOthers(a: seq<string>, k: int, v: string)
    requires 0 <= k < |a| && a[k] == v
    ensures Without(SpliceOne(a, k), v) == Without(a, v)
  {
    assert SpliceOne(a, k) == a[..k] + a[k + 1..];
    assert a == a[..k] + ([a[k]] + a[k + 1..]);
    WithoutConcat(a[..k], a[k + 1..], v);
    WithoutConcat(a[..k], [a[k]] + a[k + 1..], v);
    WithoutConcat([a[k]], a[k + 1..], v);
  }

  /** Removing the values one after the other is removing them all at once. */
  lemma {:induction false} RemoveAllSnoc(a: seq<string>, values: seq<string>, v: string)
    ensures RemoveAll(a, values + [v]) == Without(RemoveAll(a, values), v)
  {
    if a != [] {
      RemoveAllSnoc(a[1..], values, v);
    }
  }

  /** No listed value survives, and every other element keeps its number of
      occurrences. */
  lemma {:induction false} RemoveAllCounts(a: seq<string>, values: seq<string>)
    ensures forall x :: multiset(RemoveAll(a, values))[x] == if x in values then 0 else multiset(a)[x]
  {
    if a != [] {
      RemoveAllCounts(a[1..], values);
      assert a == [a[0]] + a[1..];
    }
  }

  /** Survivors keep their relative order: removal distributes over concatenation,
      so what is left of an earlier part comes before what is left of a later one. */
  lemma {:induction false} RemoveAllConcat(a: seq<string>, b: seq<string>, values: seq<string>)
    ensures RemoveAll(a + b, values) == RemoveAll(a, values) + RemoveAll(b, values)
  {
    if a == [] {
      assert a + b == b;
    } else {
      assert (a + b)[1..] == a[1..] + b;
      RemoveAllConcat(a[1..], b, values);
    }
  }

  /** An array holding none of the listed values is left as it is. */
  lemma {:induction false} RemoveAllNothingListed(a: seq<string>, values: seq<string>)
    requires forall i :: 0 <= i < |a| ==> a[i] !in values
    ensures RemoveAll(a, values) == a
  {
    if a != [] {
      RemoveAllNothingListed(a[1..], values);
    }
  }
}
