/** Facts about sequences shared by both search trees: duplicate-free
    sequences, swapping two entries, and the "first maximum" rule that
    both the visit-count argmax and the score argmax follow. */
module Seqs {

  /** No element occurs twice. */
  ghost predicate Distinct<T(!new)>(s: seq<T>) {
    forall x :: multiset(s)[x] <= 1
  }

  /** A sequence with the entries at i and j exchanged (std::swap on a vector). */
  function Swap<T>(s: seq<T>, i: nat, j: nat): (r: seq<T>)
    requires i < |s| && j < |s|
    ensures |r| == |s| && r[i] == s[j] && r[j] == s[i]
    ensures forall k :: 0 <= k < |s| && k != i && k != j ==> r[k] == s[k]
    ensures multiset(r) == multiset(s)
  {
    s[i := s[j]][j := s[i]]
  }

  /** Removing the last element keeps a sequence duplicate-free and leaves
      that element out of what remains. */
  lemma DropLast<T(!new)>(s: seq<T>)
    requires Distinct(s) && |s| > 0
    ensures Distinct(s[..|s| - 1])
    ensures s[|s| - 1] !in s[..|s| - 1]
  {
    var pre, x := s[..|s| - 1], s[|s| - 1];
    assert s == pre + [x];
    assert multiset(s) == multiset(pre) + multiset{x};
    forall y ensures multiset(pre)[y] <= 1 {
      assert multiset(pre)[y] <= multiset(s)[y];
    }
    assert multiset(pre)[x] + 1 == multiset(s)[x];
  }

  /** Different positions of a duplicate-free sequence hold different
      elements. */
  lemma DistinctAt<T(!new)>(s: seq<T>, i: nat, j: nat)
    requires Distinct(s) && i < |s| && j < |s| && i != j
    ensures s[i] != s[j]
  {
    var lo, hi := if i < j then i else j, if i < j then j else i;
    assert s == s[..hi] + s[hi..];
    assert multiset(s) == multiset(s[..hi]) + multiset(s[hi..]);
    assert s[..hi][lo] == s[lo] && s[hi..][0] == s[hi];
    assert s[lo] in multiset(s[..hi]) && s[hi] in multiset(s[hi..]);
    assert multiset(s)[s[lo]] == multiset(s[..hi])[s[lo]] + multiset(s[hi..])[s[lo]] <= 1;
  }

  /** A sub-multiset of a duplicate-free sequence is duplicate-free. */
  lemma DistinctSub<T(!new)>(a: seq<T>, b: seq<T>)
    requires multiset(a) <= multiset(b) && Distinct(b)
    ensures Distinct(a)
  {
    forall x ensures multiset(a)[x] <= 1 {
      assert multiset(a)[x] <= multiset(b)[x];
    }
  }

  /** Appending an element that is not there keeps a sequence duplicate-free. */
  lemma DistinctSnoc<T(!new)>(s: seq<T>, x: T)
    requires Distinct(s) && x !in s
    ensures Distinct(s + [x])
  {
    assert multiset(s + [x]) == multiset(s) + multiset{x};
    forall y ensures multiset(s + [x])[y] <= 1 {
      if y == x {
        assert multiset(s)[x] == 0;
      }
    }
  }

  /** A duplicate-free sequence has as many distinct elements as entries. */
  lemma {:induction false} DistinctCard<T(!new)>(s: seq<T>)
    requires Distinct(s)
    ensures |set x | x in s| == |s|
  {
    if s != [] {
      var pre, x := s[..|s| - 1], s[|s| - 1];
      DropLast(s);
      DistinctCard(pre);
      assert s == pre + [x];
      assert (set y | y in s) == (set y | y in pre) + {x};
    }
  }

  /** The sum of the entries of s. */
  function Sum(s: seq<int>): int
    decreases |s|
  {
    if s == [] then 0 else Sum(s[..|s| - 1]) + s[|s| - 1]
  }

  /** Raising one entry by one, and leaving the others, raises the sum by
      one. */
  lemma {:induction false} SumBump(a: seq<int>, b: seq<int>, m: nat)
    requires |a| == |b| && m < |a| && b[m] == a[m] + 1
    requires forall k :: 0 <= k < |a| && k != m ==> b[k] == a[k]
    ensures Sum(b) == Sum(a) + 1
    decreases |a|
  {
    if m == |a| - 1 {
      assert b[..m] == a[..m];
    } else {
      SumBump(a[..|a| - 1], b[..|b| - 1], m);
    }
  }

  /** k is the first index holding the largest value of s: every value is at
      most s[k], and every value before k is strictly smaller. */
  ghost predicate IsFirstMax(s: seq<int>, k: int) {
    && 0 <= k < |s|
    && (forall j :: 0 <= j < |s| ==> s[j] <= s[k])
    && (forall j :: 0 <= j < k ==> s[j] < s[k])
  }

  /** The scan both revisions use to pick a child: keep the current best and
      replace it only by a strictly larger value, so the first maximum wins
      (the judge revision's explicit loops and std::max_element alike). */
  method FirstMax(s: seq<int>) returns (k: nat)
    requires |s| > 0
    ensures IsFirstMax(s, k)
  {
    k := 0;
    for j := 1 to |s|
      invariant k < j
      invariant forall m :: 0 <= m < j ==> s[m] <= s[k]
      invariant forall m :: 0 <= m < k ==> s[m] < s[k]
    {
      if s[j] > s[k] {
        k := j;
      }
    }
  }
}
