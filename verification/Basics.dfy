/** What several components need about numbers and sets. */
module Basics {

  function Max(a: int, b: int): int {
    if a <= b then b else a
  }

  lemma SubsetSize<T>(a: set<T>, b: set<T>)
    requires a <= b
    ensures |a| <= |b|
  {
    assert b == a + (b - a);
  }

  /** How many of the first k items count. */
  ghost function Before<T>(items: seq<T>, counts: T -> bool, k: nat): nat
    requires k <= |items|
  {
    |set i: nat | i < k && counts(items[i])|
  }

  lemma BeforeNext<T>(items: seq<T>, counts: T -> bool, k: nat)
    requires k < |items|
    ensures Before(items, counts, k + 1) == Before(items, counts, k) + if counts(items[k]) then 1 else 0
  {
    var a, b := set i: nat | i < k && counts(items[i]), set i: nat | i < k + 1 && counts(items[i]);
    assert b == if counts(items[k]) then a + {k} else a;
  }

  /** Every item that counts has its own place in the list, in order. */
  ghost predicate Stand<T, U>(items: seq<T>, counts: T -> bool, becomes: (T, U) -> bool, out: seq<U>) {
    && |out| == Before(items, counts, |items|)
    && forall k | 0 <= k < |items| && counts(items[k]) ::
         Before(items, counts, k) < |out| && becomes(items[k], out[Before(items, counts, k)])
  }

  lemma StandEmptyIff<T, U>(items: seq<T>, counts: T -> bool, becomes: (T, U) -> bool, out: seq<U>)
    requires Stand(items, counts, becomes, out)
    ensures out == [] <==> forall x | x in items :: !counts(x)
  {
    var all := set i: nat | i < |items| && counts(items[i]);
    if out == [] {
      assert all == {};
      forall x | x in items ensures !counts(x) {
        var i :| 0 <= i < |items| && items[i] == x;
        assert i !in all;
      }
    } else {
      assert all != {};
      var i: nat :| i in all;
      assert items[i] in items;
    }
  }

  lemma StandNone<T, U>(counts: T -> bool, becomes: (T, U) -> bool)
    ensures Stand([], counts, becomes, [])
  {
  }

  /** One more item: a place at the end if it counts, and no place otherwise. */
  lemma StandSnoc<T, U>(items: seq<T>, counts: T -> bool, becomes: (T, U) -> bool, out: seq<U>, x: T, y: U)
    requires Stand(items, counts, becomes, out) && (counts(x) ==> becomes(x, y))
    ensures Stand(items + [x], counts, becomes, out + if counts(x) then [y] else [])
  {
    var all, longer := items + [x], out + if counts(x) then [y] else [];
    forall k: nat | k <= |items| ensures Before(all, counts, k) == Before(items, counts, k) {
      assert (set i: nat | i < k && counts(all[i])) == set i: nat | i < k && counts(items[i]);
    }
    BeforeNext(all, counts, |items|);
    hide Before;
    forall k | 0 <= k < |all| && counts(all[k])
      ensures Before(all, counts, k) < |longer| && becomes(all[k], longer[Before(all, counts, k)])
    {
      if k < |items| {
        assert Before(items, counts, k) < |out|;
      }
    }
  }
}
