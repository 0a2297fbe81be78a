/** Array.prototype.sort over a total order: sorting is a canonical form of a multiset. */
module Ordering {
  import opened Common

  ghost predicate Preorder<T(!new)>(leq: (T, T) -> bool) {
    && (forall x :: leq(x, x))
    && (forall x, y :: leq(x, y) || leq(y, x))
    && (forall x, y, z :: leq(x, y) && leq(y, z) ==> leq(x, z))
  }

  ghost predicate TotalOrder<T(!new)>(leq: (T, T) -> bool) {
    Preorder(leq) && forall x, y :: leq(x, y) && leq(y, x) ==> x == y
  }

  /** The order leaves no two different items of a list on one place. */
  ghost predicate Separates<T(!new)>(leq: (T, T) -> bool, items: seq<T>) {
    forall x, y | x in items && y in items && leq(x, y) && leq(y, x) :: x == y
  }

  ghost predicate Sorted<T>(s: seq<T>, leq: (T, T) -> bool) {
    forall i, j | 0 <= i < j < |s| :: leq(s[i], s[j])
  }

  function Insert<T>(x: T, s: seq<T>, leq: (T, T) -> bool): seq<T> {
    if s == [] || leq(x, s[0]) then [x] + s else [s[0]] + Insert(x, s[1..], leq)
  }

  function Sort<T>(s: seq<T>, leq: (T, T) -> bool): seq<T> {
    if s == [] then [] else Insert(s[0], Sort(s[1..], leq), leq)
  }

  lemma {:induction false} InsertKeeps<T>(x: T, s: seq<T>, leq: (T, T) -> bool)
    ensures multiset(Insert(x, s, leq)) == multiset(s) + multiset{x}
  {
    if !(s == [] || leq(x, s[0])) {
      InsertKeeps(x, s[1..], leq);
      assert s == [s[0]] + s[1..];
    }
  }

  lemma {:induction false} SortPermutes<T>(s: seq<T>, leq: (T, T) -> bool)
    ensures multiset(Sort(s, leq)) == multiset(s)
    ensures |Sort(s, leq)| == |s|
    ensures forall x :: x in Sort(s, leq) <==> x in s
  {
    if s != [] {
      SortPermutes(s[1..], leq);
      InsertKeeps(s[0], Sort(s[1..], leq), leq);
      assert s == [s[0]] + s[1..];
    }
    var t := Sort(s, leq);
    assert |t| == |multiset(t)| == |multiset(s)| == |s|;
    forall x
      ensures x in t <==> x in s
    {
      assert x in t <==> x in multiset(t);
    }
  }

  lemma {:induction false} InsertSorts<T(!new)>(x: T, s: seq<T>, leq: (T, T) -> bool)
    requires Preorder(leq) && Sorted(s, leq)
    ensures Sorted(Insert(x, s, leq), leq)
  {
    if !(s == [] || leq(x, s[0])) {
      InsertSorts(x, s[1..], leq);
      InsertKeeps(x, s[1..], leq);
      var rest := Insert(x, s[1..], leq);
      forall j | 0 <= j < |rest|
        ensures leq(s[0], rest[j])
      {
        assert rest[j] in multiset(rest);
        assert rest[j] == x || rest[j] in s[1..];
      }
    }
  }

  lemma {:induction false} SortSorts<T(!new)>(s: seq<T>, leq: (T, T) -> bool)
    requires Preorder(leq)
    ensures Sorted(Sort(s, leq), leq)
  {
    if s != [] {
      SortSorts(s[1..], leq);
      InsertSorts(s[0], Sort(s[1..], leq), leq);
    }
  }

  /** The items with a flag, or those without, in order. */
  function Flagged<T>(items: seq<T>, flag: T -> bool, want: bool): seq<T> {
    if items == [] then []
    else (if flag(items[0]) == want then [items[0]] else []) + Flagged(items[1..], flag, want)
  }

  ghost predicate AllFlagged<T>(items: seq<T>, flag: T -> bool, want: bool) {
    forall i | 0 <= i < |items| :: flag(items[i]) == want
  }

  ghost predicate UnflaggedFirst<T(!new)>(leq: (T, T) -> bool, flag: T -> bool) {
    forall x, y :: leq(x, y) <==> !flag(x) || flag(y)
  }

  lemma {:induction false} FlaggedAll<T>(items: seq<T>, flag: T -> bool, want: bool)
    ensures AllFlagged(Flagged(items, flag, want), flag, want)
  {
    if items != [] {
      FlaggedAll(items[1..], flag, want);
    }
  }

  lemma {:induction false} InsertFlagged<T(!new)>(x: T, plain: seq<T>, flagged: seq<T>, flag: T -> bool, leq: (T, T) -> bool)
    requires UnflaggedFirst(leq, flag) && AllFlagged(plain, flag, false) && AllFlagged(flagged, flag, true)
    ensures Insert(x, plain + flagged, leq) == if flag(x) then plain + ([x] + flagged) else [x] + (plain + flagged)
  {
    if plain == [] {
      assert plain + flagged == flagged && plain + ([x] + flagged) == [x] + flagged;
    } else if flag(x) {
      InsertFlagged(x, plain[1..], flagged, flag, leq);
      assert (plain + flagged)[1..] == plain[1..] + flagged;
      assert plain + ([x] + flagged) == [plain[0]] + (plain[1..] + ([x] + flagged));
    }
  }

  /** Sorting by a flag, stably, moves the flagged items to the end and keeps both kinds in order. */
  lemma {:induction false} SortByFlag<T(!new)>(items: seq<T>, flag: T -> bool, leq: (T, T) -> bool)
    requires UnflaggedFirst(leq, flag)
    ensures Sort(items, leq) == Flagged(items, flag, false) + Flagged(items, flag, true)
  {
    if items != [] {
      var plain, flagged := Flagged(items[1..], flag, false), Flagged(items[1..], flag, true);
      SortByFlag(items[1..], flag, leq);
      FlaggedAll(items[1..], flag, false);
      FlaggedAll(items[1..], flag, true);
      InsertFlagged(items[0], plain, flagged, flag, leq);
      assert [items[0]] + plain + flagged == [items[0]] + (plain + flagged);
    }
  }

  lemma SameHead<T(!new)>(a: seq<T>, b: seq<T>, leq: (T, T) -> bool)
    requires Preorder(leq) && Separates(leq, a) && Sorted(a, leq) && Sorted(b, leq)
    requires multiset(a) == multiset(b) && a != []
    ensures b != [] && a[0] == b[0]
  {
    assert a[0] in multiset(b) && a[0] in b;
    assert b[0] in multiset(a) && b[0] in a;
    SortedHead(b, a[0], leq);
    SortedHead(a, b[0], leq);
  }

  lemma SameTail<T(!new)>(a: seq<T>, b: seq<T>, leq: (T, T) -> bool)
    requires Preorder(leq) && Separates(leq, a) && Sorted(a, leq) && Sorted(b, leq)
    requires multiset(a) == multiset(b) && a != []
    ensures b != [] && a[0] == b[0] && multiset(a[1..]) == multiset(b[1..])
    ensures Sorted(a[1..], leq) && Sorted(b[1..], leq)
  {
    SameHead(a, b, leq);
    TailMultiset(a);
    TailMultiset(b);
    SortedTail(a, leq);
    SortedTail(b, leq);
  }

  lemma {:induction false} SortedUnique<T(!new)>(a: seq<T>, b: seq<T>, leq: (T, T) -> bool)
    requires Preorder(leq) && Separates(leq, a) && Sorted(a, leq) && Sorted(b, leq)
    requires multiset(a) == multiset(b)
    ensures a == b
  {
    if a == [] {
      assert |multiset(b)| == 0;
    } else {
      SameTail(a, b, leq);
      SortedUnique(a[1..], b[1..], leq);
      assert a == [a[0]] + a[1..] && b == [b[0]] + b[1..];
    }
  }

  lemma TailMultiset<T>(s: seq<T>)
    requires s != []
    ensures multiset(s[1..]) == multiset(s) - multiset{s[0]}
  {
    assert s == [s[0]] + s[1..];
  }

  lemma SortedTail<T>(s: seq<T>, leq: (T, T) -> bool)
    requires s != [] && Sorted(s, leq)
    ensures Sorted(s[1..], leq)
  {
  }

  /** The least element of a sorted sequence comes first. */
  lemma SortedHead<T(!new)>(s: seq<T>, x: T, leq: (T, T) -> bool)
    requires Preorder(leq) && Sorted(s, leq) && x in s
    ensures leq(s[0], x)
  {
  }

  /** Comparing sorted copies is comparing multisets. */
  lemma SortCanonical<T(!new)>(a: seq<T>, b: seq<T>, leq: (T, T) -> bool)
    requires Preorder(leq) && Separates(leq, a)
    ensures Sort(a, leq) == Sort(b, leq) <==> multiset(a) == multiset(b)
  {
    SortPermutes(a, leq);
    SortPermutes(b, leq);
    if multiset(a) == multiset(b) {
      SortSorts(a, leq);
      SortSorts(b, leq);
      SortedUnique(Sort(a, leq), Sort(b, leq), leq);
    }
  }

  /** The first occurrences, in order. */
  function Deduplicate<T(==, !new)>(s: seq<T>): (r: seq<T>)
    ensures Distinct(r) && forall x :: x in r <==> x in s
  {
    if s == [] then []
    else
      var rest := Deduplicate(s[..|s| - 1]);
      if s[|s| - 1] in rest then rest else rest + [s[|s| - 1]]
  }

  lemma {:induction false} DistinctCounts<T(!new)>(s: seq<T>)
    ensures Distinct(s) <==> forall x :: multiset(s)[x] <= 1
  {
    if s != [] {
      var n := |s| - 1;
      DistinctCounts(s[..n]);
      assert s == s[..n] + [s[n]];
      if Distinct(s) {
        assert s[n] !in s[..n];
      } else if Distinct(s[..n]) {
        var i, j :| 0 <= i < j < |s| && s[i] == s[j];
        assert s[..n][i] == s[n];
        assert multiset(s[..n])[s[n]] >= 1;
        assert multiset(s)[s[n]] >= 2;
      } else {
        var x :| multiset(s[..n])[x] > 1;
        assert multiset(s)[x] > 1;
      }
    }
  }

  lemma SortKeepsDistinct<T(!new)>(s: seq<T>, leq: (T, T) -> bool)
    requires Distinct(s)
    ensures Distinct(Sort(s, leq))
  {
    SortPermutes(s, leq);
    DistinctCounts(s);
    DistinctCounts(Sort(s, leq));
  }

  /** Default string order: lexicographic by character. */
  predicate StringLeq(a: string, b: string) {
    a == [] || (b != [] && (a[0] < b[0] || (a[0] == b[0] && StringLeq(a[1..], b[1..]))))
  }

  lemma {:induction false} StringLeqTotal(a: string, b: string)
    ensures StringLeq(a, b) || StringLeq(b, a)
    ensures StringLeq(a, b) && StringLeq(b, a) ==> a == b
  {
    if a != [] && b != [] {
      StringLeqTotal(a[1..], b[1..]);
      assert a == [a[0]] + a[1..] && b == [b[0]] + b[1..];
    }
  }

  lemma {:induction false} StringLeqTransitive(a: string, b: string, c: string)
    requires StringLeq(a, b) && StringLeq(b, c)
    ensures StringLeq(a, c)
  {
    if a != [] && a[0] == b[0] == c[0] {
      StringLeqTransitive(a[1..], b[1..], c[1..]);
    }
  }

  lemma StringOrder()
    ensures TotalOrder(StringLeq)
  {
    forall a: string, b: string
      ensures StringLeq(a, a) && (StringLeq(a, b) || StringLeq(b, a))
      ensures StringLeq(a, b) && StringLeq(b, a) ==> a == b
    {
      StringLeqTotal(a, a);
      StringLeqTotal(a, b);
    }
    forall a: string, b: string, c: string | StringLeq(a, b) && StringLeq(b, c)
      ensures StringLeq(a, c)
    {
      StringLeqTransitive(a, b, c);
    }
  }

  function SortStrings(s: seq<string>): seq<string> {
    Sort(s, StringLeq)
  }

  lemma SortStringsCanonical(a: seq<string>, b: seq<string>)
    ensures SortStrings(a) == SortStrings(b) <==> multiset(a) == multiset(b)
  {
    StringOrder();
    SortCanonical(a, b, StringLeq);
  }
}
