/** Facts about the array pipelines the site uses: mapping into a nullable
    value and then dropping the nulls, and order-preserving
    filters. */
module Seqs {
  import opened Wrappers

  /** `r` can be obtained from `s` by deleting elements: an order-preserving
      subsequence. */
  ghost predicate IsSubsequence<T>(r: seq<T>, s: seq<T>)
    decreases |s|
  {
    r == [] ||
    (s != [] &&
     ((r[0] == s[0] && IsSubsequence(r[1..], s[1..])) || IsSubsequence(r, s[1..])))
  }

  /** The values of the `Some` entries of `s`, in order. */
  function Somes<T>(s: seq<Option<T>>): (r: seq<T>)
    ensures |r| <= |s|
    ensures forall k :: 0 <= k < |r| ==> Some(r[k]) in s
  {
    if s == [] then []
    else (if s[0].Some? then [s[0].value] else []) + Somes(s[1..])
  }

  /** Every value in `s` survives the filter. */
  lemma {:induction false} SomesKeeps<T>(s: seq<Option<T>>, i: nat)
    requires i < |s| && s[i].Some?
    ensures s[i].value in Somes(s)
  {
    if i > 0 {
      SomesKeeps(s[1..], i - 1);
      assert s[1..][i - 1] == s[i];
    }
  }

  lemma {:induction false} SomesConcat<T>(a: seq<Option<T>>, b: seq<Option<T>>)
    ensures Somes(a + b) == Somes(a) + Somes(b)
  {
    if a == [] {
      assert a + b == b;
    } else {
      assert (a + b)[0] == a[0];
      assert (a + b)[1..] == a[1..] + b;
      SomesConcat(a[1..], b);
    }
  }

  /** One entry between two lists contributes its value, if it has one, at
      its own place, and removing it leaves the rest as they were. */
  lemma SomesAround<T>(a: seq<Option<T>>, x: Option<T>, b: seq<Option<T>>)
    ensures Somes(a + [x] + b) == Somes(a) + (if x.Some? then [x.value] else []) + Somes(b)
    ensures Somes(a + b) == Somes(a) + Somes(b)
  {
    SomesConcat(a + [x], b);
    SomesConcat(a, [x]);
    SomesConcat(a, b);
    assert [x][1..] == [];
  }

  /** When every entry holds a value, none is dropped and each keeps its
      position. */
  lemma {:induction false} SomesOfAllSome<T>(s: seq<Option<T>>)
    requires forall i :: 0 <= i < |s| ==> s[i].Some?
    ensures |Somes(s)| == |s|
    ensures forall k :: 0 <= k < |s| ==> Somes(s)[k] == s[k].value
  {
    if s != [] {
      SomesOfAllSome(s[1..]);
      assert Somes(s) == [s[0].value] + Somes(s[1..]);
    }
  }

  /** The positions of the `Some` entries of `s`, ascending: which inputs
      survive the filter, and in which order. */
  function SomeIndices<T>(s: seq<Option<T>>): (idx: seq<nat>)
    ensures forall k :: 0 <= k < |idx| ==> idx[k] < |s|
    ensures forall k, l :: 0 <= k < l < |idx| ==> idx[k] < idx[l]
    decreases |s|
  {
    if s == [] then []
    else SomeIndices(s[..|s| - 1]) + (if s[|s| - 1].Some? then [|s| - 1] else [])
  }

  /** Entry `k` of the filtered output is the value at the `k`-th surviving
      position, and a position survives exactly when it holds a value. */
  lemma {:induction false} SomeIndicesExact<T>(s: seq<Option<T>>)
    ensures |SomeIndices(s)| == |Somes(s)|
    ensures forall k :: 0 <= k < |SomeIndices(s)| ==> s[SomeIndices(s)[k]] == Some(Somes(s)[k])
    ensures forall i :: 0 <= i < |s| ==> (s[i].Some? <==> i in SomeIndices(s))
    decreases |s|
  {
    if s != [] {
      var n := |s| - 1;
      var init, last := s[..n], s[n];
      assert s == init + [last];
      SomeIndicesExact(init);
      SomesConcat(init, [last]);
      var idx0, out0 := SomeIndices(init), Somes(init);
      assert Somes([last]) == (if last.Some? then [last.value] else []) by {
        assert [last][1..] == [];
      }
      var tail := if last.Some? then [n] else [];
      assert SomeIndices(s) == idx0 + tail;
      assert Somes(s) == out0 + Somes([last]);
      forall k | 0 <= k < |SomeIndices(s)|
        ensures s[SomeIndices(s)[k]] == Some(Somes(s)[k])
      {
        if k < |idx0| {
          assert SomeIndices(s)[k] == idx0[k];
          assert s[idx0[k]] == init[idx0[k]];
        }
      }
      forall i | 0 <= i < |s|
        ensures s[i].Some? <==> i in SomeIndices(s)
      {
        if i < n {
          assert s[i] == init[i];
          assert i !in tail;
        } else {
          assert i !in idx0;
        }
      }
    }
  }
}
