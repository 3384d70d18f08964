/**
 * Index permutations, the model's stand-in for `random.sample(xs, len(xs))`:
 * the shuffle is passed in as the list of source positions it picked.
 */
module Perms {

  /** The number of values `range(n)` produces. */
  function Span(n: int): nat {
    if n < 0 then 0 else n
  }

  predicate Distinct<T(==)>(s: seq<T>) {
    forall i, j :: 0 <= i < j < |s| ==> s[i] != s[j]
  }

  /** `perm` lists each of `0 .. k-1` once, in some order. */
  predicate IsPermutation(perm: seq<int>, k: nat) {
    && |perm| == k
    && (forall i :: 0 <= i < k ==> 0 <= perm[i] < k)
    && Distinct(perm)
  }

  /** The list `random.sample` returns when it drew the positions `perm`. */
  function Permuted<T>(s: seq<T>, perm: seq<int>): (r: seq<T>)
    requires IsPermutation(perm, |s|)
  {
    seq(|s|, i requires 0 <= i < |s| => s[perm[i]])
  }

  function Range(k: nat): set<int> {
    if k == 0 then {} else Range(k - 1) + {k - 1}
  }

  lemma {:induction false} RangeMembers(k: nat)
    ensures forall i :: i in Range(k) <==> 0 <= i < k
  {
    if k > 0 {
      RangeMembers(k - 1);
    }
  }

  function Image(perm: seq<int>, m: nat): set<int>
    requires m <= |perm|
  {
    set j | 0 <= j < m :: perm[j]
  }

  lemma {:induction false} RangeCard(k: nat)
    ensures |Range(k)| == k
  {
    if k > 0 {
      RangeCard(k - 1);
      RangeMembers(k - 1);
    }
  }

  lemma {:induction false} ImageCard(perm: seq<int>, m: nat)
    requires m <= |perm| && Distinct(perm)
    ensures |Image(perm, m)| == m
  {
    if m > 0 {
      ImageCard(perm, m - 1);
      assert Image(perm, m) == Image(perm, m - 1) + {perm[m - 1]};
      assert perm[m - 1] !in Image(perm, m - 1);
    }
  }

  /** A permutation visits every position: each of `0 .. k-1` occurs in it (exactly once, by `Distinct`). */
  lemma {:induction false} PermutationCovers(perm: seq<int>, k: nat)
    requires IsPermutation(perm, k)
    ensures forall i :: 0 <= i < k ==> i in perm
  {
    var img := Image(perm, k);
    ImageCard(perm, k);
    RangeCard(k);
    RangeMembers(k);
    assert img <= Range(k);
    assert |Range(k) - img| == |Range(k)| - |img| == 0;
    forall i | 0 <= i < k ensures i in perm {
      assert i in Range(k);
      assert i in img;
      var j :| 0 <= j < k && perm[j] == i;
    }
  }

  /** Where a permutation visits position `i`. */
  lemma PositionOf(perm: seq<int>, k: nat, i: int) returns (j: nat)
    requires IsPermutation(perm, k) && 0 <= i < k
    ensures j < |perm| && perm[j] == i
  {
    PermutationCovers(perm, k);
    assert i in perm;
    j :| 0 <= j < |perm| && perm[j] == i;
  }

  /** Dropping the position that holds `k - 1` from a permutation of `0 .. k-1` leaves one of `0 .. k-2`. */
  lemma DropLast(perm: seq<int>, k: nat, p: nat)
    requires IsPermutation(perm, k) && p < k && perm[p] == k - 1
    ensures IsPermutation(perm[..p] + perm[p + 1..], k - 1)
  {
    var rest := perm[..p] + perm[p + 1..];
    forall i | 0 <= i < k - 1 ensures 0 <= rest[i] < k - 1 {
      var j := if i < p then i else i + 1;
      assert rest[i] == perm[j] && j != p;
    }
    forall i, j | 0 <= i < j < k - 1 ensures rest[i] != rest[j] {
      var i' := if i < p then i else i + 1;
      var j' := if j < p then j else j + 1;
      assert rest[i] == perm[i'] && rest[j] == perm[j'] && i' < j';
    }
  }

  lemma PermutedSplit<T>(s: seq<T>, perm: seq<int>, p: nat)
    requires |s| > 0 && IsPermutation(perm, |s|) && p < |s| && perm[p] == |s| - 1
    requires IsPermutation(perm[..p] + perm[p + 1..], |s| - 1)
    ensures Permuted(s, perm)
         == Permuted(s[..|s| - 1], perm[..p] + perm[p + 1..])[..p] + [s[|s| - 1]]
          + Permuted(s[..|s| - 1], perm[..p] + perm[p + 1..])[p..]
  {
  }

  lemma InsertMultiset<T>(s: seq<T>, x: T, p: nat)
    requires p <= |s|
    ensures multiset(s[..p] + [x] + s[p..]) == multiset(s) + multiset{x}
  {
    assert s == s[..p] + s[p..];
  }

  /** A shuffle keeps the multiset of elements: every element comes out as often as it went in. */
  lemma {:induction false} PermutedMultiset<T>(s: seq<T>, perm: seq<int>)
    requires IsPermutation(perm, |s|)
    ensures multiset(Permuted(s, perm)) == multiset(s)
  {
    var k := |s|;
    if k > 0 {
      var p := PositionOf(perm, k, k - 1);
      var rest := perm[..p] + perm[p + 1..];
      DropLast(perm, k, p);
      var front := s[..k - 1];
      PermutedMultiset(front, rest);
      var inner := Permuted(front, rest);
      PermutedSplit(s, perm, p);
      InsertMultiset(inner, s[k - 1], p);
      assert s == front + [s[k - 1]];
    }
  }
}
