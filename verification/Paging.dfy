/** Reading a bounded buffer in pages, and what a reader loses who follows the cursors of its pages. */
module Paging {
  import opened Common

  /** The retained entries, the cursor of the newest one, and how many were dropped. */
  datatype Buffer<T> = Buffer(entries: seq<T>, cursor: nat, dropped: nat)

  /** Everything recorded since the session began, with consecutive cursors from 1. */
  ghost predicate IsHistory<T>(history: seq<T>, cursorOf: T -> nat) {
    forall i | 0 <= i < |history| :: cursorOf(history[i]) == i + 1
  }

  /** The buffer holds the end of the history, never less than its last entry, and its counters agree. */
  ghost predicate EndOf<T>(history: seq<T>, b: Buffer<T>, cursorOf: T -> nat) {
    && IsHistory(history, cursorOf)
    && b.cursor == |history|
    && b.dropped + |b.entries| == b.cursor
    && b.entries == history[b.dropped..]
    && (history != [] ==> b.entries != [])
  }

  /** A buffer that keeps an end of the history with the next entry, and counts what it dropped, keeps its counters. */
  lemma ExtendEnd<T>(history: seq<T>, b: Buffer<T>, cursorOf: T -> nat, entry: T, next: Buffer<T>)
    requires EndOf(history, b, cursorOf) && cursorOf(entry) == b.cursor + 1
    requires next.cursor == b.cursor + 1 && next.entries != [] && |next.entries| <= |b.entries| + 1
    requires next.dropped == b.dropped + |b.entries| + 1 - |next.entries|
    requires next.entries == (history + [entry])[|history| + 1 - |next.entries|..]
    ensures EndOf(history + [entry], next, cursorOf)
  {
  }

  // ----- Pages -----

  /** A query parameter as the program receives it. */
  datatype Number = NotFinite | Finite(value: real)

  /** Math.max(0, Math.trunc(n)), or the default when not finite. */
  function Truncated(n: Number, default: nat): nat {
    match n
    case NotFinite => default
    case Finite(v) => if v < 0.0 then 0 else v.Floor
  }

  function PageLimit(limit: Number): (n: nat)
    ensures 1 <= n <= 1000
  {
    var n := Truncated(limit, 500);
    if n < 1 then 1 else if n > 1000 then 1000 else n
  }

  datatype Page<T> = Page(entries: seq<T>, oldestCursor: Option<nat>, latestCursor: nat, nextCursor: nat,
                          available: nat, omitted: nat, requestedLoss: nat, hasMore: bool)

  function Newer<T>(entries: seq<T>, cursorOf: T -> nat, cursor: nat): seq<T> {
    if entries == [] then []
    else (if cursorOf(entries[0]) > cursor then [entries[0]] else []) + Newer(entries[1..], cursorOf, cursor)
  }

  function ReadPage<T>(b: Buffer<T>, cursorOf: T -> nat, afterCursor: Number, limit: Number): Page<T> {
    ReadFrom(b, cursorOf, Truncated(afterCursor, 0), PageLimit(limit))
  }

  function ReadFrom<T>(b: Buffer<T>, cursorOf: T -> nat, cursor: nat, n: nat): Page<T> {
    PageOf(b, cursorOf, cursor, n, Newer(b.entries, cursorOf, cursor))
  }

  function PageOf<T>(b: Buffer<T>, cursorOf: T -> nat, cursor: nat, n: nat, available: seq<T>): Page<T> {
    var entries := if |available| <= n then available else available[..n];
    var oldest := if b.entries == [] then None else Some(cursorOf(b.entries[0]));
    Page(entries, oldest, b.cursor,
         if entries == [] then b.cursor else cursorOf(entries[|entries| - 1]),
         |available|, |available| - |entries|,
         if oldest.None? || oldest.value <= cursor + 1 then 0 else oldest.value - (cursor + 1),
         |available| > |entries|)
  }

  /** The entries past a cursor, oldest first. */
  method Available<T>(entries: seq<T>, cursorOf: T -> nat, cursor: nat) returns (available: seq<T>)
    ensures available == Newer(entries, cursorOf, cursor)
  {
    available := [];
    var i := 0;
    while i < |entries|
      invariant 0 <= i <= |entries|
      invariant available + Newer(entries[i..], cursorOf, cursor) == Newer(entries, cursorOf, cursor)
    {
      assert entries[i..][1..] == entries[i + 1..];
      if cursorOf(entries[i]) > cursor {
        available := available + [entries[i]];
      }
      i := i + 1;
    }
  }

  /** readLogs and readTimeline, which differ in the names of a page's fields only. */
  method ReadBuffer<T>(b: Buffer<T>, cursorOf: T -> nat, afterCursor: Number, limit: Number) returns (page: Page<T>)
    ensures page == ReadPage(b, cursorOf, afterCursor, limit)
  {
    var cursor := Truncated(afterCursor, 0);
    var n := PageLimit(limit);
    var available := Available(b.entries, cursorOf, cursor);
    var entries := if |available| <= n then available else available[..n];
    var oldest := if |b.entries| > 0 then Some(cursorOf(b.entries[0])) else None;
    var next := if |entries| > 0 then cursorOf(entries[|entries| - 1]) else b.cursor;
    var loss := if oldest == None || oldest.value < cursor + 1 then 0 else oldest.value - (cursor + 1);
    var omitted := |available| - |entries|;
    page := Page(entries, oldest, b.cursor, next, |available|, omitted, loss, omitted > 0);
  }

  /** An integral cursor is used as it is. */
  lemma IntegralCursor<T>(b: Buffer<T>, cursorOf: T -> nat, cursor: nat, limit: Number)
    ensures ReadPage(b, cursorOf, Finite(cursor as real), limit) == ReadFrom(b, cursorOf, cursor, PageLimit(limit))
  {
    assert (cursor as real).Floor == cursor;
  }

  /** With consecutive cursors, the newer entries are a suffix. */
  lemma {:induction false} NewerIsSuffix<T>(entries: seq<T>, cursorOf: T -> nat, first: nat, cursor: nat)
    requires forall i | 0 <= i < |entries| :: cursorOf(entries[i]) == first + i
    ensures Newer(entries, cursorOf, cursor) ==
              if cursor < first then entries
              else if cursor - first + 1 >= |entries| then [] else entries[cursor - first + 1..]
  {
    if entries != [] {
      NewerIsSuffix(entries[1..], cursorOf, first + 1, cursor);
      if cursor < first {
        assert entries == [entries[0]] + entries[1..];
      } else if cursor == first {
        assert entries[cursor - first + 1..] == entries[1..];
      } else if cursor - first + 1 < |entries| {
        assert entries[1..][cursor - (first + 1) + 1..] == entries[cursor - first + 1..];
      }
    }
  }

  /** The first entry a reader at a cursor can still get, counted from zero. */
  function FirstAvailable<T>(b: Buffer<T>, cursor: nat): nat {
    if b.dropped > cursor then b.dropped else cursor
  }

  lemma AvailableEntries<T>(history: seq<T>, b: Buffer<T>, cursorOf: T -> nat, cursor: nat)
    requires EndOf(history, b, cursorOf) && cursor <= b.cursor
    ensures FirstAvailable(b, cursor) <= |history|
    ensures Newer(b.entries, cursorOf, cursor) == history[FirstAvailable(b, cursor)..]
    ensures b.entries == [] ==> b.cursor == 0 && b.dropped == 0
    ensures b.entries != [] ==> cursorOf(b.entries[0]) == b.dropped + 1
  {
    if b.entries != [] {
      forall i | 0 <= i < |b.entries|
        ensures cursorOf(b.entries[i]) == b.dropped + 1 + i
      {
        assert b.entries[i] == history[b.dropped + i];
      }
      NewerIsSuffix(b.entries, cursorOf, b.dropped + 1, cursor);
      assert history[FirstAvailable(b, cursor)..] == b.entries[FirstAvailable(b, cursor) - b.dropped..];
    }
  }

  /** What a page must return to a reader that has reached a cursor. */
  ghost predicate PageSound<T>(history: seq<T>, b: Buffer<T>, cursor: nat, n: nat, page: Page<T>) {
    var from := cursor + page.requestedLoss;
    && page.requestedLoss == (if b.dropped > cursor then b.dropped - cursor else 0)
    && from <= page.nextCursor <= |history|
    && page.nextCursor == from + |page.entries|
    && page.entries == history[from..page.nextCursor]
    && |page.entries| <= n
    && (page.hasMore <==> page.nextCursor < b.cursor)
    && (|page.entries| < n ==> page.nextCursor == b.cursor)
  }

  lemma PageOfSuffix<T>(history: seq<T>, b: Buffer<T>, cursorOf: T -> nat, cursor: nat, n: nat, available: seq<T>,
                        start: nat)
    requires EndOf(history, b, cursorOf) && cursor <= b.cursor && n >= 1
    requires start == FirstAvailable(b, cursor) <= |history|
    requires |available| == |history| - start && forall i | 0 <= i < |available| :: available[i] == history[start + i]
    requires b.entries == [] ==> b.cursor == 0
    requires b.entries != [] ==> cursorOf(b.entries[0]) == b.dropped + 1
    ensures PageSound(history, b, cursor, n, PageOf(b, cursorOf, cursor, n, available))
  {
    var page := PageOf(b, cursorOf, cursor, n, available);
    var k := |page.entries|;
    assert k > 0 ==> page.entries[k - 1] == history[start + k - 1];
    assert page.nextCursor == start + k;
    assert page.entries == history[start..start + k];
  }

  /**
   * What a page returns to a reader that has reached a cursor: the entries right after the evicted ones, as many as
   * the limit allows; its next cursor accounts for every entry, lost or returned; and it has more exactly if the
   * next cursor is not the latest.
   */
  lemma PageMeaning<T>(history: seq<T>, b: Buffer<T>, cursorOf: T -> nat, cursor: nat, n: nat)
    requires EndOf(history, b, cursorOf) && cursor <= b.cursor && n >= 1
    ensures PageSound(history, b, cursor, n, ReadFrom(b, cursorOf, cursor, n))
  {
    AvailableEntries(history, b, cursorOf, cursor);
    PageOfSuffix(history, b, cursorOf, cursor, n, Newer(b.entries, cursorOf, cursor), FirstAvailable(b, cursor));
  }

  // ----- A reader that follows nextCursor -----

  /** What a reader has seen. */
  datatype Reader<T> = Reader(cursor: nat, collected: seq<T>, lost: nat)

  function NewReader<T>(): Reader<T> {
    Reader(0, [], 0)
  }

  /**
   * Every entry up to the reader's cursor was either returned to it, once, in order and unaltered, or counted as
   * lost.
   */
  ghost predicate Conserved<T>(history: seq<T>, cursorOf: T -> nat, r: Reader<T>) {
    && r.cursor <= |history|
    && |r.collected| + r.lost == r.cursor
    && (forall i | 0 <= i < |r.collected| :: Returned(history, cursorOf, r.cursor, r.collected[i]))
    && (forall i, j | 0 <= i < j < |r.collected| :: cursorOf(r.collected[i]) < cursorOf(r.collected[j]))
  }

  /** The entry is the one of the history with its cursor. */
  predicate Returned<T(==)>(history: seq<T>, cursorOf: T -> nat, cursor: nat, entry: T) {
    1 <= cursorOf(entry) <= cursor && cursorOf(entry) <= |history| && entry == history[cursorOf(entry) - 1]
  }

  function AfterPage<T>(r: Reader<T>, page: Page<T>): Reader<T> {
    Reader(page.nextCursor, r.collected + page.entries, r.lost + page.requestedLoss)
  }

  /** A reader asks for what comes after the cursor of its last page. */
  function Ask<T>(b: Buffer<T>, cursorOf: T -> nat, r: Reader<T>, limit: Number): Reader<T> {
    AfterPage(r, ReadPage(b, cursorOf, Finite(r.cursor as real), limit))
  }

  /** A page of entries beyond everything collected so far extends the collection. */
  lemma CollectPage<T>(history: seq<T>, cursorOf: T -> nat, r: Reader<T>, page: Page<T>, from: nat)
    requires IsHistory(history, cursorOf) && Conserved(history, cursorOf, r)
    requires r.cursor <= from <= page.nextCursor <= |history|
    requires page.entries == history[from..page.nextCursor] && page.requestedLoss == from - r.cursor
    ensures Conserved(history, cursorOf, AfterPage(r, page))
  {
    var n, collected := |r.collected|, r.collected + page.entries;
    forall i | n <= i < |collected|
      ensures collected[i] == history[from + i - n] && cursorOf(collected[i]) == from + i - n + 1
      ensures Returned(history, cursorOf, page.nextCursor, collected[i])
    {
      assert collected[i] == page.entries[i - n];
    }
    forall i | 0 <= i < n
      ensures Returned(history, cursorOf, page.nextCursor, collected[i]) && cursorOf(collected[i]) <= r.cursor
    {
      assert Returned(history, cursorOf, r.cursor, r.collected[i]);
    }
    forall i, j | 0 <= i < j < |collected|
      ensures cursorOf(collected[i]) < cursorOf(collected[j])
    {
      assert i < n ==> cursorOf(collected[i]) <= r.cursor;
      assert j >= n ==> cursorOf(collected[j]) == from + j - n + 1;
    }
  }

  /** Reading a page conserves entries, and loses exactly those dropped ahead of the reader. */
  lemma AskConserves<T>(history: seq<T>, b: Buffer<T>, cursorOf: T -> nat, r: Reader<T>, limit: Number)
    requires EndOf(history, b, cursorOf) && Conserved(history, cursorOf, r)
    ensures Conserved(history, cursorOf, Ask(b, cursorOf, r, limit))
    ensures Ask(b, cursorOf, r, limit).lost == r.lost + if b.dropped > r.cursor then b.dropped - r.cursor else 0
  {
    IntegralCursor(b, cursorOf, r.cursor, limit);
    PageMeaning(history, b, cursorOf, r.cursor, PageLimit(limit));
    var page := ReadFrom(b, cursorOf, r.cursor, PageLimit(limit));
    CollectPage(history, cursorOf, r, page, r.cursor + page.requestedLoss);
  }

  /** Writing adds to the history and takes nothing from the reader. */
  lemma WriteConserves<T>(history: seq<T>, cursorOf: T -> nat, r: Reader<T>, more: seq<T>)
    requires Conserved(history, cursorOf, r)
    ensures Conserved(history + more, cursorOf, r)
  {
    forall i | 0 <= i < |r.collected|
      ensures Returned(history + more, cursorOf, r.cursor, r.collected[i])
    {
      assert Returned(history, cursorOf, r.cursor, r.collected[i]);
    }
  }
}
