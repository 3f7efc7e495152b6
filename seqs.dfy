/** Facts about finite sequences that the rest of the model relies on. */
module Seqs {

  /** No element occurs twice. */
  ghost predicate Distinct<T>(s: seq<T>) {
    forall i, j :: 0 <= i < j < |s| ==> s[i] != s[j]
  }

  /** The position of the first occurrence of `x` in `s`. */
  function IndexOf<T(==)>(s: seq<T>, x: T): (i: nat)
    requires x in s
    ensures i < |s| && s[i] == x
    ensures x !in s[..i]
  {
    if s[0] == x then 0
    else
      var k := IndexOf(s[1..], x);
      assert s[..k + 1] == [s[0]] + s[1..][..k];
      1 + k
  }

  /** The first occurrence is the only position with no earlier occurrence. */
  lemma IndexOfUnique<T>(s: seq<T>, x: T, i: nat)
    requires i < |s| && s[i] == x && x !in s[..i]
    ensures IndexOf(s, x) == i
  {
    var k := IndexOf(s, x);
    assert forall j :: 0 <= j < i ==> s[..i][j] == s[j];
    assert forall j :: 0 <= j < k ==> s[..k][j] == s[j];
  }

  /** Appending elements does not move a first occurrence. */
  lemma IndexOfAppend<T>(s: seq<T>, t: seq<T>, x: T)
    requires x in s
    ensures x in s + t && IndexOf(s + t, x) == IndexOf(s, x)
  {
    var k := IndexOf(s, x);
    assert (s + t)[..k] == s[..k];
    IndexOfUnique(s + t, x, k);
  }

  /** An element new to `s` first occurs where it is appended. */
  lemma IndexOfAppended<T>(s: seq<T>, x: T)
    requires x !in s
    ensures IndexOf(s + [x], x) == |s|
  {
    assert (s + [x])[..|s|] == s;
    IndexOfUnique(s + [x], x, |s|);
  }

  /** Distinctness is "every multiplicity is at most one". */
  lemma {:induction false} DistinctMultiplicity<T>(s: seq<T>)
    ensures Distinct(s) <==> forall x :: multiset(s)[x] <= 1
  {
    if s == [] {
    } else {
      var init, last := s[..|s| - 1], s[|s| - 1];
      assert s == init + [last];
      DistinctMultiplicity(init);
      if Distinct(s) {
        assert Distinct(init);
        assert forall k :: 0 <= k < |init| ==> init[k] == s[k] != s[|s| - 1];
        forall x ensures multiset(s)[x] <= 1 {
          assert multiset(s)[x] == multiset(init)[x] + (if x == last then 1 else 0);
        }
      }
      if forall x :: multiset(s)[x] <= 1 {
        forall x ensures multiset(init)[x] <= 1 {
          assert multiset(s)[x] == multiset(init)[x] + (if x == last then 1 else 0);
        }
        assert multiset(s)[last] == multiset(init)[last] + 1;
        assert last !in init;
        forall i, j | 0 <= i < j < |s| ensures s[i] != s[j] {
          if j < |s| - 1 {
            assert s[i] == init[i] && s[j] == init[j];
          } else {
            assert s[i] == init[i];
          }
        }
      }
    }
  }

  /** A rearrangement of a sequence without repetitions has none either. */
  lemma DistinctPermutation<T>(a: seq<T>, b: seq<T>)
    requires multiset(a) == multiset(b)
    requires Distinct(a)
    ensures Distinct(b)
  {
    DistinctMultiplicity(a);
    DistinctMultiplicity(b);
  }
}
