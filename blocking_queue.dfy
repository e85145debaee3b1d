/**
 * The contents of a `LinkedBlockingQueue` as a sequence, head first, and the
 * single-element removal `remove(o)`: it unlinks the first element, walking
 * from the head, that equals `o`, and does nothing when no element does.
 */
module BlockingQueue {

  /** Position of the first occurrence of `x` in `s`, or `|s|` when there is none. */
  function IndexOf<E(==)>(s: seq<E>, x: E): (k: nat)
    ensures k <= |s|
    ensures k < |s| ==> s[k] == x
    ensures forall i :: 0 <= i < k ==> s[i] != x
    ensures k == |s| <==> x !in s
  {
    if s == [] then 0
    else if s[0] == x then 0
    else 1 + IndexOf(s[1..], x)
  }

  /**
   * `remove(o)` on the queue contents `s`: the queue is walked from the head
   * and the first element equal to `x` is unlinked, the others keeping their
   * order. The queue shrinks by one when `x` is queued and is unchanged
   * otherwise.
   */
  function RemoveFirst<E(==)>(s: seq<E>, x: E): (r: seq<E>)
    ensures x !in s ==> r == s
    ensures x in s ==> |r| == |s| - 1
  {
    var k := IndexOf(s, x);
    if k == |s| then s else s[..k] + s[k + 1..]
  }

  /**
   * The element unlinked is the first one equal to `x`: the elements before
   * it and after it stay, in their order.
   */
  lemma RemoveFirstUnlinksFirstMatch<E>(s: seq<E>, x: E)
    requires x in s
    ensures exists k ::
              && 0 <= k < |s| && s[k] == x
              && (forall j :: 0 <= j < k ==> s[j] != x)
              && RemoveFirst(s, x) == s[..k] + s[k + 1..]
  {
    var k := IndexOf(s, x);
    assert s[k] == x;
  }

  /** Exactly one copy of `x` leaves, if there is one, and no other element does. */
  lemma RemoveFirstMultiset<E>(s: seq<E>, x: E)
    ensures multiset(RemoveFirst(s, x)) == multiset(s) - multiset{x}
  {
    var k := IndexOf(s, x);
    if k < |s| {
      assert RemoveFirst(s, x) == s[..k] + s[k + 1..] && s[k] == x;
      Unlinked(s, k);
    } else {
      assert RemoveFirst(s, x) == s && x !in s;
      NothingToTake(s, x);
    }
  }

  /** Taking out an element a queue does not hold leaves its multiset as it is. */
  lemma NothingToTake<E>(s: seq<E>, x: E)
    requires x !in s
    ensures multiset(s) - multiset{x} == multiset(s)
  {
    var m := multiset(s);
    assert m[x] == 0;
    assert forall y :: (m - multiset{x})[y] == m[y];
  }

  /** Unlinking position `k` takes one copy of `s[k]` out and nothing else. */
  lemma Unlinked<E>(s: seq<E>, k: nat)
    requires k < |s|
    ensures multiset(s[..k] + s[k + 1..]) == multiset(s) - multiset{s[k]}
  {
    var before, after := s[..k], s[k + 1..];
    assert s == before + [s[k]] + after;
    var a, b := multiset(before), multiset(after);
    assert forall y :: (a + b)[y] == ((a + multiset{s[k]} + b) - multiset{s[k]})[y];
  }

  /**
   * A removal of an element that is queued at most once is idempotent: a
   * second `remove(o)` after the first is a no-op.
   */
  lemma {:induction false} RemoveFirstTwice<E>(s: seq<E>, x: E)
    requires multiset(s)[x] <= 1
    ensures RemoveFirst(RemoveFirst(s, x), x) == RemoveFirst(s, x)
  {
    var r := RemoveFirst(s, x);
    RemoveFirstMultiset(s, x);
    assert multiset(r)[x] == 0;
    assert x !in r;
  }

  /** The queue after removing each element of `xs`, in that order. */
  function RemoveAll<E(==)>(s: seq<E>, xs: seq<E>): (r: seq<E>)
    ensures |r| <= |s|
    decreases xs
  {
    if xs == [] then s else RemoveAll(RemoveFirst(s, xs[0]), xs[1..])
  }

  /** Removing from an empty queue leaves it empty: removals never add. */
  lemma {:induction false} RemoveAllEmpty<E>(xs: seq<E>)
    ensures RemoveAll([], xs) == []
  {
    if xs != [] {
      RemoveAllEmpty(xs[1..]);
    }
  }

  /** Two batches of removals in a row are one batch of both. */
  lemma {:induction false} RemoveAllConcat<E>(s: seq<E>, xs: seq<E>, ys: seq<E>)
    ensures RemoveAll(RemoveAll(s, xs), ys) == RemoveAll(s, xs + ys)
    decreases xs
  {
    if xs != [] {
      assert (xs + ys)[0] == xs[0];
      assert (xs + ys)[1..] == xs[1..] + ys;
      RemoveAllConcat(RemoveFirst(s, xs[0]), xs[1..], ys);
    } else {
      assert xs + ys == ys;
    }
  }
}
