/** A comparison sort over sequences: what `ORDER BY` in the message store
    and `Array.prototype.sort` with a comparator in the prompt listing
    produce, up to the order of elements that compare equal. */
module Sorting {

  /** `le` is total and transitive, so it orders any sequence. */
  ghost predicate TotalPreorder<T(!new)>(le: (T, T) -> bool) {
    && (forall a, b :: le(a, b) || le(b, a))
    && (forall a, b, c :: le(a, b) && le(b, c) ==> le(a, c))
  }

  ghost predicate Sorted<T>(s: seq<T>, le: (T, T) -> bool) {
    forall i, j :: 0 <= i < j < |s| ==> le(s[i], s[j])
  }

  /** Places `x` after every trailing element that is not greater than it. */
  function Insert<T(!new)>(x: T, t: seq<T>, le: (T, T) -> bool): (r: seq<T>)
    requires TotalPreorder(le)
    requires Sorted(t, le)
    ensures multiset(r) == multiset(t) + multiset{x}
    ensures |r| == |t| + 1
    ensures Sorted(r, le)
    ensures forall y :: y in r ==> y == x || y in t
  {
    if t == [] then [x]
    else if le(t[|t| - 1], x) then t + [x]
    else
      var init, last := t[..|t| - 1], t[|t| - 1];
      assert t == init + [last];
      var r0 := Insert(x, init, le);
      assert forall y :: y in r0 ==> le(y, last) by {
        forall y | y in r0 ensures le(y, last) {
          if y != x {
            var k :| 0 <= k < |init| && init[k] == y;
          }
        }
      }
      r0 + [last]
  }

  /** The sorted rearrangement of `s`. */
  function Sort<T(!new)>(s: seq<T>, le: (T, T) -> bool): (r: seq<T>)
    requires TotalPreorder(le)
    ensures multiset(r) == multiset(s)
    ensures |r| == |s|
    ensures Sorted(r, le)
  {
    if s == [] then []
    else
      var init := s[..|s| - 1];
      assert s == init + [s[|s| - 1]];
      Insert(s[|s| - 1], Sort(init, le), le)
  }

  /** Two sorted arrangements of the same elements agree wherever the order
      is strict: sorting fixes everything but the order of equal keys. */
  lemma {:induction false} SortedRearrangement<T(!new)>(a: seq<T>, b: seq<T>, le: (T, T) -> bool, i: nat)
    requires TotalPreorder(le)
    requires Sorted(a, le) && Sorted(b, le) && multiset(a) == multiset(b)
    requires i < |a|
    ensures |b| == |a|
    ensures le(a[i], b[i]) && le(b[i], a[i])
  {
    assert |a| == |multiset(a)| == |multiset(b)| == |b|;
    // Every element of a after position i is at least a[i]; at least |a| - i
    // elements of b are then at least a[i], so b's element at i is too, by
    // counting. The symmetric argument gives the other direction.
    AtLeastFrom(a, b, le, i);
    AtLeastFrom(b, a, le, i);
  }

  /** In sorted `b`, the element at `i` is not below the one at `i` in sorted
      `a` when both hold the same elements. */
  lemma AtLeastFrom<T(!new)>(a: seq<T>, b: seq<T>, le: (T, T) -> bool, i: nat)
    requires TotalPreorder(le)
    requires Sorted(a, le) && Sorted(b, le) && multiset(a) == multiset(b)
    requires i < |a| == |b|
    ensures le(a[i], b[i])
  {
    if !le(a[i], b[i]) {
      // Then b[0..i+1] are all strictly below a[i] and thus below a[i..].
      var low := b[..i + 1];
      var high := a[i..];
      assert forall y :: y in low ==> !le(a[i], y) by {
        forall y | y in low ensures !le(a[i], y) {
          var k :| 0 <= k < |low| && low[k] == y;
          assert le(b[k], b[i]) || k == i;
        }
      }
      assert forall y :: y in high ==> le(a[i], y) by {
        forall y | y in high ensures le(a[i], y) {
          var k :| 0 <= k < |high| && high[k] == y;
          assert high[k] == a[i + k];
        }
      }
      Disjoint(low, high, a[i], le);
      assert a == a[..i] + high;
      assert b == low + b[i + 1..];
      assert multiset(high) <= multiset(a);
      assert multiset(low) <= multiset(b);
      assert multiset(low) + multiset(high) <= multiset(a) by {
        forall y ensures (multiset(low) + multiset(high))[y] <= multiset(a)[y] {
          if y in low {
            assert y !in high;
            assert multiset(high)[y] == 0;
          } else {
            assert multiset(low)[y] == 0;
          }
        }
      }
      assert |multiset(low) + multiset(high)| == (i + 1) + (|a| - i);
      SubMultisetSize(multiset(low) + multiset(high), multiset(a));
      assert false;
    }
  }

  lemma Disjoint<T(!new)>(low: seq<T>, high: seq<T>, p: T, le: (T, T) -> bool)
    requires forall y :: y in low ==> !le(p, y)
    requires forall y :: y in high ==> le(p, y)
    ensures forall y :: y in low ==> y !in high
  {
  }

  /** Rearrangements have the same members. */
  lemma SameMembers<T>(a: seq<T>, b: seq<T>)
    requires multiset(a) == multiset(b)
    ensures forall x :: x in a <==> x in b
  {
    forall x ensures x in a <==> x in b {
      assert x in a <==> x in multiset(a);
      assert x in b <==> x in multiset(b);
    }
  }

  lemma SubMultisetSize<T>(m: multiset<T>, n: multiset<T>)
    requires m <= n
    ensures |m| <= |n|
  {
    assert n == m + (n - m);
  }
}
