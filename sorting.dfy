/**
 * `Array.prototype.sort` with a comparator, as an insertion sort: `lt(a, b)`
 * holds when the comparator puts `a` strictly before `b`. The sort is proved
 * to permute its input and to order it by `lt`.
 */
module Sorting {

  /** No element is strictly before an element to its left. */
  predicate SortedBy<T>(s: seq<T>, lt: (T, T) -> bool) {
    forall i, j | 0 <= i < j < |s| :: !lt(s[j], s[i])
  }

  /** `lt` is a strict order: asymmetric and transitive. */
  ghost predicate StrictOrder<T(!new)>(lt: (T, T) -> bool) {
    && (forall a, b :: lt(a, b) ==> !lt(b, a))
    && (forall a, b, c :: lt(a, b) && lt(b, c) ==> lt(a, c))
  }

  /** Inserts `x` before the first element it is strictly before, after all the others. */
  function Insert<T>(x: T, s: seq<T>, lt: (T, T) -> bool): (r: seq<T>)
    ensures multiset(r) == multiset(s) + multiset{x}
    decreases |s|
  {
    if s == [] then [x]
    else if lt(x, s[0]) then [x] + s
    else
      assert s == [s[0]] + s[1..];
      [s[0]] + Insert(x, s[1..], lt)
  }

  /** Sorts by inserting the elements one after the other, in input order. */
  function Sort<T>(s: seq<T>, lt: (T, T) -> bool): (r: seq<T>)
    ensures multiset(r) == multiset(s)
    decreases |s|
  {
    if s == [] then []
    else
      assert s == s[..|s| - 1] + [s[|s| - 1]];
      Insert(s[|s| - 1], Sort(s[..|s| - 1], lt), lt)
  }

  lemma {:induction false} InsertSorted<T(!new)>(x: T, s: seq<T>, lt: (T, T) -> bool)
    requires StrictOrder(lt) && SortedBy(s, lt)
    ensures SortedBy(Insert(x, s, lt), lt)
    decreases |s|
  {
    if s != [] {
      var r := Insert(x, s, lt);
      if lt(x, s[0]) {
        assert forall j | 0 < j < |r| :: r[j] == s[j - 1];
        assert forall j | 0 < j < |r| :: !lt(r[j], x) by {
          forall j | 0 < j < |r| ensures !lt(r[j], x) {
            if j > 1 {
              assert !lt(s[j - 1], s[0]);
            }
          }
        }
      } else {
        var tail := Insert(x, s[1..], lt);
        InsertSorted(x, s[1..], lt);
        assert r == [s[0]] + tail;
        forall j | 0 < j < |r| ensures !lt(r[j], s[0]) {
          assert r[j] == tail[j - 1];
          assert r[j] in multiset(tail);
          if r[j] != x {
            assert r[j] in multiset(s[1..]);
            var k :| 0 <= k < |s[1..]| && s[1..][k] == r[j];
            assert s[k + 1] == r[j];
          }
        }
      }
    }
  }

  /** The sort's output is ordered, and (by `Sort`'s own contract) a permutation of its input. */
  lemma {:induction false} SortSorted<T(!new)>(s: seq<T>, lt: (T, T) -> bool)
    requires StrictOrder(lt)
    ensures SortedBy(Sort(s, lt), lt)
    decreases |s|
  {
    if s != [] {
      SortSorted(s[..|s| - 1], lt);
      InsertSorted(s[|s| - 1], Sort(s[..|s| - 1], lt), lt);
    }
  }
}
