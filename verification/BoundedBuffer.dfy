/** Dropping the oldest items of a buffer until it fits: online eviction keeps the longest suffix that fits. */
module BoundedBuffer {

  datatype Limits = Limits(maxEntries: nat, maxBytes: nat)

  function TotalSize<T>(items: seq<T>, size: T -> nat): nat {
    if items == [] then 0 else size(items[0]) + TotalSize(items[1..], size)
  }

  predicate Fits<T>(limits: Limits, items: seq<T>, size: T -> nat) {
    |items| <= limits.maxEntries && TotalSize(items, size) <= limits.maxBytes
  }

  /** The eviction loop: the last item always stays. */
  function Evict<T>(limits: Limits, items: seq<T>, size: T -> nat): seq<T> {
    if |items| > 1 && !Fits(limits, items, size) then Evict(limits, items[1..], size) else items
  }

  /** What a history holds from index k on does not fit. */
  predicate Oversized<T>(limits: Limits, history: seq<T>, k: nat, size: T -> nat) {
    k <= |history| && !Fits(limits, history[k..], size)
  }

  /**
   * kept is what the limits allow of a history: its longest suffix that fits, or its last item alone if not even
   * that fits.
   */
  ghost predicate Retained<T>(limits: Limits, history: seq<T>, kept: seq<T>, size: T -> nat) {
    && |kept| <= |history|
    && kept == history[|history| - |kept|..]
    && (history != [] ==> kept != [])
    && (|kept| > 1 ==> Fits(limits, kept, size))
    && (forall k | 0 <= k < |history| - |kept| :: Oversized(limits, history, k, size))
  }

  lemma {:induction false} SizeAppend<T>(a: seq<T>, b: seq<T>, size: T -> nat)
    ensures TotalSize(a + b, size) == TotalSize(a, size) + TotalSize(b, size)
  {
    if a == [] {
      assert a + b == b;
    } else {
      SizeAppend(a[1..], b, size);
      assert (a + b)[1..] == a[1..] + b;
    }
  }

  /** A buffer that does not fit does not fit with more items either. */
  lemma FitsShorter<T>(limits: Limits, items: seq<T>, more: seq<T>, size: T -> nat)
    requires Fits(limits, items + more, size)
    ensures Fits(limits, items, size)
  {
    SizeAppend(items, more, size);
  }

  lemma {:induction false} EvictRetains<T>(limits: Limits, history: seq<T>, items: seq<T>, size: T -> nat)
    requires |items| <= |history| && items == history[|history| - |items|..] && (history != [] ==> items != [])
    requires forall k | 0 <= k < |history| - |items| :: Oversized(limits, history, k, size)
    ensures Retained(limits, history, Evict(limits, items, size), size)
    decreases |items|
  {
    if |items| > 1 && !Fits(limits, items, size) {
      assert items[1..] == history[|history| - |items[1..]|..];
      forall k | 0 <= k < |history| - |items[1..]|
        ensures Oversized(limits, history, k, size)
      {
        assert k == |history| - |items| ==> history[k..] == items;
      }
      EvictRetains(limits, history, items[1..], size);
    }
  }

  /** Evicting after each arrival is the same as keeping what the limits allow of the whole history. */
  lemma OnlineEviction<T>(limits: Limits, history: seq<T>, kept: seq<T>, item: T, size: T -> nat)
    requires Retained(limits, history, kept, size)
    ensures Retained(limits, history + [item], Evict(limits, kept + [item], size), size)
  {
    var longer, items := history + [item], kept + [item];
    assert items == longer[|longer| - |items|..];
    forall k | 0 <= k < |longer| - |items|
      ensures Oversized(limits, longer, k, size)
    {
      assert Oversized(limits, history, k, size);
      assert longer[k..] == history[k..] + [item];
      if Fits(limits, longer[k..], size) {
        FitsShorter(limits, history[k..], [item], size);
      }
    }
    EvictRetains(limits, longer, items, size);
  }

  /** There is one retained suffix only. */
  lemma RetainedUnique<T>(limits: Limits, history: seq<T>, a: seq<T>, b: seq<T>, size: T -> nat)
    requires Retained(limits, history, a, size) && Retained(limits, history, b, size)
    ensures a == b
  {
    assert |a| < |b| ==> Oversized(limits, history, |history| - |b|, size);
    assert |b| < |a| ==> Oversized(limits, history, |history| - |a|, size);
  }

  /** A retained suffix is within the byte limit exactly if the newest item alone is. */
  lemma RetainedBytes<T>(limits: Limits, history: seq<T>, kept: seq<T>, size: T -> nat)
    requires Retained(limits, history, kept, size)
    ensures TotalSize(kept, size) <= limits.maxBytes
       <==> history == [] || size(history[|history| - 1]) <= limits.maxBytes
  {
    if history != [] {
      var last := |kept| - 1;
      SizeAppend(kept[..last], kept[last..], size);
      assert kept == kept[..last] + kept[last..];
      assert kept[last..][1..] == [];
    }
  }

  lemma {:induction false} EvictSuffix<T>(limits: Limits, items: seq<T>, size: T -> nat)
    ensures |Evict(limits, items, size)| <= |items|
    ensures Evict(limits, items, size) == items[|items| - |Evict(limits, items, size)|..]
  {
    if |items| > 1 && !Fits(limits, items, size) {
      EvictSuffix(limits, items[1..], size);
    }
  }
}
