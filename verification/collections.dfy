/** Sequences without repeats, and the sizes of finite sets. */
module Collections {
  ghost predicate Distinct<T>(out: seq<T>) {
    forall i, j :: 0 <= i < j < |out| ==> out[i] != out[j]
  }

  function Elements<T>(out: seq<T>): set<T> {
    set m | m in out
  }

  lemma {:induction false} DistinctSize<T>(out: seq<T>)
    requires Distinct(out)
    ensures |Elements(out)| == |out|
  {
    if out != [] {
      var last := |out| - 1;
      DistinctSize(out[..last]);
      assert Elements(out) == Elements(out[..last]) + {out[last]};
    }
  }

  lemma SubsetSize<T>(small: set<T>, big: set<T>)
    requires small <= big
    ensures |small| <= |big|
    ensures small != big ==> |small| < |big|
  {
    assert |big| == |small| + |big - small|;
  }

  lemma {:induction false} CountedOnce<T>(out: seq<T>, x: T)
    requires Distinct(out)
    ensures multiset(out)[x] <= 1
  {
    if out != [] {
      var last := |out| - 1;
      CountedOnce(out[..last], x);
      assert out == out[..last] + [out[last]];
      if out[last] == x {
        assert x !in out[..last];
      }
    }
  }

  /** Reordering neither adds, drops nor repeats. */
  lemma PermutationKeeps<T>(one: seq<T>, two: seq<T>)
    requires multiset(one) == multiset(two) && Distinct(one)
    ensures Distinct(two) && Elements(two) == Elements(one) && |two| == |one|
  {
    assert |multiset(one)| == |multiset(two)|;
    forall x
      ensures x in one <==> x in two
    {
      assert x in multiset(one) <==> x in multiset(two);
    }
    forall i, j | 0 <= i < j < |two|
      ensures two[i] != two[j]
    {
      CountedOnce(one, two[j]);
      assert two == two[..j] + [two[j]] + two[j + 1..];
      assert two[..j][i] == two[i];
    }
  }

  lemma DistinctConcat<T>(one: seq<T>, two: seq<T>)
    requires Distinct(one) && Distinct(two) && Elements(one) !! Elements(two)
    ensures Distinct(one + two) && Elements(one + two) == Elements(one) + Elements(two)
  {
    forall i, j | 0 <= i < j < |one + two|
      ensures (one + two)[i] != (one + two)[j]
    {
      if i < |one| <= j {
        assert one[i] in Elements(one) && two[j - |one|] in Elements(two);
      }
    }
  }
}
