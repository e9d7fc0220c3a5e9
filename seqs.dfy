/** Sequence operations the editor's updaters are built from: `Array.prototype.filter`, and
    what it means for a result to keep the input's order. */
module Seqs {

  /** `a` is obtained from `b` by deleting elements, so it lists the survivors in their
      original relative order. */
  ghost predicate Subsequence<T>(a: seq<T>, b: seq<T>)
    decreases |b|
  {
    if a == [] then true
    else if b == [] then false
    else (a[0] == b[0] && Subsequence(a[1..], b[1..])) || Subsequence(a, b[1..])
  }

  /** Every pair of elements, taken in order, satisfies `p`. */
  ghost predicate Pairwise<T>(p: (T, T) -> bool, s: seq<T>)
  {
    forall i, j :: 0 <= i < j < |s| ==> p(s[i], s[j])
  }

  /** `s.filter(keep)`: exactly the elements satisfying `keep`, with their multiplicities,
      in their original order. */
  function Filter<T(!new)>(keep: T -> bool, s: seq<T>): (r: seq<T>)
    ensures forall x :: x in r <==> x in s && keep(x)
    ensures forall x :: multiset(r)[x] == if keep(x) then multiset(s)[x] else 0
    ensures Subsequence(r, s)
  {
    if s == [] then []
    else
      assert s == [s[0]] + s[1..];
      if keep(s[0]) then [s[0]] + Filter(keep, s[1..]) else Filter(keep, s[1..])
  }

  lemma {:induction false} SubsequenceMembers<T>(a: seq<T>, b: seq<T>)
    requires Subsequence(a, b)
    ensures forall x :: x in a ==> x in b
    decreases |b|
  {
    if a != [] {
      if a[0] == b[0] && Subsequence(a[1..], b[1..]) {
        SubsequenceMembers(a[1..], b[1..]);
        assert a == [a[0]] + a[1..];
      } else {
        SubsequenceMembers(a, b[1..]);
      }
    }
  }

  /** Deleting elements keeps every ordered-pair property of what remains. */
  lemma {:induction false} SubsequencePairwise<T>(p: (T, T) -> bool, a: seq<T>, b: seq<T>)
    requires Subsequence(a, b) && Pairwise(p, b)
    ensures Pairwise(p, a)
    decreases |b|
  {
    if a != [] {
      assert Pairwise(p, b[1..]) by {
        forall i, j | 0 <= i < j < |b[1..]| ensures p(b[1..][i], b[1..][j]) {
          assert b[1..][i] == b[i + 1] && b[1..][j] == b[j + 1];
        }
      }
      if a[0] == b[0] && Subsequence(a[1..], b[1..]) {
        SubsequencePairwise(p, a[1..], b[1..]);
        SubsequenceMembers(a[1..], b[1..]);
        forall i, j | 0 <= i < j < |a| ensures p(a[i], a[j]) {
          if i == 0 {
            assert a[j] in a[1..] by { assert a[j] == a[1..][j - 1]; }
            var k :| 0 <= k < |b[1..]| && b[1..][k] == a[j];
            assert p(b[0], b[k + 1]);
          } else {
            assert a[i] == a[1..][i - 1] && a[j] == a[1..][j - 1];
          }
        }
      } else {
        SubsequencePairwise(p, a, b[1..]);
      }
    }
  }
}
