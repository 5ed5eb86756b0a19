/** Facts about finite sequences that the deck model relies on:
    distinct elements, the set of elements, and permutations (equal multisets). */
module Seqs {

  /** No element occurs twice. */
  predicate Distinct<T(==)>(s: seq<T>) {
    forall i, j :: 0 <= i < j < |s| ==> s[i] != s[j]
  }

  /** The set of elements of a sequence. */
  function Elems<T>(s: seq<T>): set<T> {
    set x | x in s
  }

  /** A sequence has at most as many different elements as it has positions,
      and exactly as many precisely when no element repeats. */
  lemma {:induction false} ElemsSize<T>(s: seq<T>)
    ensures |Elems(s)| <= |s|
    ensures Distinct(s) <==> |Elems(s)| == |s|
  {
    if s == [] {
      assert Elems(s) == {};
    } else {
      var p, x := s[..|s| - 1], s[|s| - 1];
      assert s == p + [x];
      ElemsSize(p);
      assert Elems(s) == Elems(p) + {x};
      if x in p {
        var k :| 0 <= k < |p| && p[k] == x;
        assert s[k] == s[|s| - 1];
        assert Elems(s) == Elems(p);
      } else {
        assert x !in Elems(p);
        assert |Elems(s)| == |Elems(p)| + 1;
        assert Distinct(s) <==> Distinct(p) by {
          if Distinct(p) {
            forall i, j | 0 <= i < j < |s| ensures s[i] != s[j] {
              if j == |s| - 1 {
                assert s[i] == p[i];
              } else {
                assert s[i] == p[i] && s[j] == p[j];
              }
            }
          }
          if Distinct(s) {
            forall i, j | 0 <= i < j < |p| ensures p[i] != p[j] {
              assert p[i] == s[i] && p[j] == s[j];
            }
          }
        }
      }
    }
  }

  /** Two sequences with the same multiset (one is a permutation of the other)
      hold the same elements, and one is duplicate-free exactly when the other is. */
  lemma PermutationKeepsDistinct<T>(s: seq<T>, t: seq<T>)
    requires multiset(s) == multiset(t)
    ensures forall x :: x in s <==> x in t
    ensures Distinct(s) <==> Distinct(t)
  {
    assert |s| == |multiset(s)| == |multiset(t)| == |t|;
    forall x ensures x in s <==> x in t {
      assert x in s <==> x in multiset(s);
      assert x in t <==> x in multiset(t);
    }
    assert Elems(s) == Elems(t);
    ElemsSize(s);
    ElemsSize(t);
  }
}
