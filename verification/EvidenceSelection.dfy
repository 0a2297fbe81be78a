/** Bounded task evidence: which task results a trial shows, and the counts of those it omits. */
module EvidenceSelection {
  import opened Common
  import opened Ordering

  datatype Status = Failed | Timeout | Blocked | Skipped | Success | Unsettled(name: string)

  /** hasFailureKind and hasStderr tell whether the result carries a failure kind, or error output. */
  datatype TaskResult = TaskResult(
    caseId: Option<string>, runNumber: nat, taskId: string, status: Status, hasFailureKind: bool, hasStderr: bool)

  const MAX_TASK_RESULTS := 32

  function Priority(task: TaskResult, failed: seq<string>): nat {
    if task.status.Failed? || task.status.Timeout? || task.hasFailureKind || task.hasStderr then 0
    else if task.caseId.Some? && task.caseId.value in failed then 1
    else if task.status.Skipped? then 3
    else if task.status.Success? then 4
    else 2
  }

  // ----- Ranking -----

  /** Results are told apart by their position in the list; result i is not ranked after result j. */
  predicate Ranked(tasks: seq<TaskResult>, failed: seq<string>, i: nat, j: nat)
    requires i < |tasks| && j < |tasks|
  {
    var p, q := Priority(tasks[i], failed), Priority(tasks[j], failed);
    p < q || (p == q && i <= j)
  }

  function RankOrder(tasks: seq<TaskResult>, failed: seq<string>): (nat, nat) -> bool {
    (i: nat, j: nat) =>
      if i < |tasks| && j < |tasks| then Ranked(tasks, failed, i, j)
      else j >= |tasks| && (i < |tasks| || i <= j)
  }

  lemma RankOrderTotal(tasks: seq<TaskResult>, failed: seq<string>)
    ensures TotalOrder(RankOrder(tasks, failed))
  {
  }

  /** The ranking lists every position once, best first. */
  ghost predicate IsRanking(tasks: seq<TaskResult>, failed: seq<string>, ranked: seq<nat>) {
    && |ranked| == |tasks| && Distinct(ranked)
    && (forall k | 0 <= k < |ranked| :: ranked[k] < |tasks|)
    && (forall i | 0 <= i < |tasks| :: i in ranked)
    && (forall j, k | 0 <= j < k < |ranked| :: Ranked(tasks, failed, ranked[j], ranked[k]))
  }

  function RankAll(tasks: seq<TaskResult>, failed: seq<string>): seq<nat> {
    Sort(Indices(|tasks|), RankOrder(tasks, failed))
  }

  lemma RankAllRanks(tasks: seq<TaskResult>, failed: seq<string>)
    ensures IsRanking(tasks, failed, RankAll(tasks, failed))
  {
    var order, indices := RankOrder(tasks, failed), Indices(|tasks|);
    var ranked := Sort(indices, order);
    RankOrderTotal(tasks, failed);
    SortPermutes(indices, order);
    SortSorts(indices, order);
    IndicesDistinct(|tasks|);
    SortKeepsDistinct(indices, order);
    forall i | 0 <= i < |tasks|
      ensures i in ranked
    {
      assert indices[i] == i;
    }
    forall k | 0 <= k < |ranked|
      ensures ranked[k] < |tasks|
    {
      assert ranked[k] in indices;
    }
    forall j, k | 0 <= j < k < |ranked|
      ensures Ranked(tasks, failed, ranked[j], ranked[k])
    {
      assert order(ranked[j], ranked[k]);
    }
  }

  // ----- Representatives of failed cases -----

  predicate OfCase(tasks: seq<TaskResult>, i: nat, id: string) {
    i < |tasks| && tasks[i].caseId == Some(id)
  }

  /** The best ranked result of a case. */
  function Representative(tasks: seq<TaskResult>, ranked: seq<nat>, id: string): (r: Option<nat>)
    ensures r.Some? ==> r.value in ranked && OfCase(tasks, r.value, id)
    ensures r.None? ==> forall k | 0 <= k < |ranked| :: !OfCase(tasks, ranked[k], id)
  {
    if ranked == [] then None
    else if OfCase(tasks, ranked[0], id) then Some(ranked[0])
    else Representative(tasks, ranked[1..], id)
  }

  function Representatives(tasks: seq<TaskResult>, ranked: seq<nat>, failed: seq<string>): seq<nat> {
    if failed == [] then []
    else
      var n := |failed| - 1;
      var last := Representative(tasks, ranked, failed[n]);
      Representatives(tasks, ranked, failed[..n]) + if last.Some? then [last.value] else []
  }

  lemma {:induction false} RepresentativesMeaning(tasks: seq<TaskResult>, ranked: seq<nat>, failed: seq<string>)
    ensures forall x :: x in Representatives(tasks, ranked, failed) <==>
              exists i :: 0 <= i < |failed| && Representative(tasks, ranked, failed[i]) == Some(x)
  {
    if failed != [] {
      var n := |failed| - 1;
      RepresentativesMeaning(tasks, ranked, failed[..n]);
      assert forall i | 0 <= i < n :: failed[..n][i] == failed[i];
    }
  }

  lemma {:induction false} RepresentativesDistinct(tasks: seq<TaskResult>, ranked: seq<nat>, failed: seq<string>)
    requires Distinct(failed)
    ensures Distinct(Representatives(tasks, ranked, failed))
  {
    if failed != [] {
      var n := |failed| - 1;
      var rest, last := Representatives(tasks, ranked, failed[..n]), Representative(tasks, ranked, failed[n]);
      RepresentativesDistinct(tasks, ranked, failed[..n]);
      RepresentativesMeaning(tasks, ranked, failed[..n]);
      forall k | 0 <= k < |rest|
        ensures Some(rest[k]) != last
      {
        var i :| 0 <= i < n && Representative(tasks, ranked, failed[..n][i]) == Some(rest[k]);
        assert failed[i] != failed[n];
      }
    }
  }

  // ----- Selection -----

  /** What the selection promises: sorted positions, and everything ranked before a selected other result. */
  ghost predicate Selection(tasks: seq<TaskResult>, failed: seq<string>, limit: nat, representatives: seq<nat>, s: seq<nat>) {
    && Distinct(s) && |s| == (if limit < |tasks| then limit else |tasks|)
    && (forall k | 0 <= k < |s| :: s[k] < |tasks|)
    && (forall j, k | 0 <= j < k < |s| :: Ranked(tasks, failed, s[j], s[k]))
    && (forall i | i in representatives :: i in s)
    && (forall i: nat, j: nat | i in s && i !in representatives && j < |tasks| && Ranked(tasks, failed, j, i) :: j in s)
  }

  /** The first representatives, as many as the limit allows. */
  function KeptRepresentatives(tasks: seq<TaskResult>, failed: seq<string>, limit: nat): seq<nat> {
    var all := Representatives(tasks, RankAll(tasks, failed), failed);
    if |all| <= limit then all else all[..limit]
  }

  /** After the first n ranked results the set, in insertion order, holds the representatives and those results. */
  ghost predicate Filled(ranked: seq<nat>, representatives: seq<nat>, n: nat, chosen: seq<nat>) {
    && n <= |ranked| && Distinct(chosen)
    && forall x :: x in chosen <==> x in representatives || exists k :: 0 <= k < n && ranked[k] == x
  }

  method Fill(ranked: seq<nat>, representatives: seq<nat>, limit: nat) returns (chosen: seq<nat>, ghost n: nat)
    requires |representatives| <= limit && Distinct(representatives)
    ensures Filled(ranked, representatives, n, chosen)
    ensures |chosen| <= limit && (n == |ranked| || |chosen| == limit)
  {
    chosen := representatives;
    n := 0;
    for k := 0 to |ranked|
      invariant n == k && Filled(ranked, representatives, k, chosen) && |chosen| <= limit
    {
      if |chosen| >= limit {
        break;
      }
      if ranked[k] !in chosen {
        chosen := chosen + [ranked[k]];
      }
      n := n + 1;
    }
  }

  /** Distinct positions of a list are at most as many as its elements, and all of them if as many. */
  lemma PositionsBound(s: seq<nat>, n: nat)
    requires Distinct(s) && forall k | 0 <= k < |s| :: s[k] < n
    ensures |s| <= n
    ensures (forall i | 0 <= i < n :: i in s) ==> |s| == n
  {
    var indices := Indices(n);
    var used, all := set x: nat | x in s, set x: nat | x in indices;
    DistinctSetSize(s);
    IndicesDistinct(n);
    DistinctSetSize(indices);
    assert forall k | 0 <= k < |s| :: indices[s[k]] == s[k];
    assert used <= all;
    SubsetSize(used, all);
    if forall i | 0 <= i < n :: i in s {
      assert used == all;
    }
  }

  lemma KeptFromRanking(tasks: seq<TaskResult>, failed: seq<string>, limit: nat, x: nat)
    requires x in KeptRepresentatives(tasks, failed, limit)
    ensures x < |tasks|
  {
    var ranked := RankAll(tasks, failed);
    RepresentativesMeaning(tasks, ranked, failed);
    assert x in Representatives(tasks, ranked, failed);
  }

  lemma ChosenSize(tasks: seq<TaskResult>, failed: seq<string>, limit: nat, n: nat, chosen: seq<nat>)
    requires IsRanking(tasks, failed, RankAll(tasks, failed))
    requires Filled(RankAll(tasks, failed), KeptRepresentatives(tasks, failed, limit), n, chosen)
    requires |chosen| <= limit && (n == |tasks| || |chosen| == limit)
    ensures forall x: nat | x in chosen :: x < |tasks|
    ensures |chosen| == if limit < |tasks| then limit else |tasks|
  {
    var ranked := RankAll(tasks, failed);
    forall x: nat | x in chosen
      ensures x < |tasks|
    {
      if x in KeptRepresentatives(tasks, failed, limit) {
        KeptFromRanking(tasks, failed, limit, x);
      }
    }
    assert forall k | 0 <= k < |chosen| :: chosen[k] in chosen;
    PositionsBound(chosen, |tasks|);
    if n == |tasks| {
      forall i | 0 <= i < |tasks|
        ensures i in chosen
      {
        assert i in ranked;
      }
    }
  }

  lemma SortedChosen(tasks: seq<TaskResult>, failed: seq<string>, chosen: seq<nat>)
    requires Distinct(chosen) && forall x: nat | x in chosen :: x < |tasks|
    ensures var s := Sort<nat>(chosen, RankOrder(tasks, failed));
            && |s| == |chosen| && Distinct(s) && (forall x: nat :: x in s <==> x in chosen)
            && (forall k | 0 <= k < |s| :: s[k] < |tasks|)
            && forall j, k | 0 <= j < k < |s| :: Ranked(tasks, failed, s[j], s[k])
  {
    var order := RankOrder(tasks, failed);
    var s := Sort<nat>(chosen, order);
    RankOrderTotal(tasks, failed);
    SortPermutes(chosen, order);
    SortSorts(chosen, order);
    SortKeepsDistinct(chosen, order);
    forall k | 0 <= k < |s|
      ensures s[k] < |tasks|
    {
      assert s[k] in s;
    }
    forall j, k | 0 <= j < k < |s|
      ensures Ranked(tasks, failed, s[j], s[k])
    {
      assert order(s[j], s[k]);
    }
  }

  lemma FilledSelects(tasks: seq<TaskResult>, failed: seq<string>, limit: nat, n: nat, chosen: seq<nat>)
    requires Filled(RankAll(tasks, failed), KeptRepresentatives(tasks, failed, limit), n, chosen)
    requires |chosen| <= limit && (n == |tasks| || |chosen| == limit)
    ensures Selection(tasks, failed, limit, KeptRepresentatives(tasks, failed, limit),
                      Sort<nat>(chosen, RankOrder(tasks, failed)))
  {
    RankAllRanks(tasks, failed);
    ChosenSize(tasks, failed, limit, n, chosen);
    SortedChosen(tasks, failed, chosen);
    NothingSkipped(tasks, failed, KeptRepresentatives(tasks, failed, limit), n, chosen);
  }

  /** A result ranked before one that the loop added was added before it. */
  lemma NothingSkipped(tasks: seq<TaskResult>, failed: seq<string>, kept: seq<nat>, n: nat, chosen: seq<nat>)
    requires IsRanking(tasks, failed, RankAll(tasks, failed)) && Filled(RankAll(tasks, failed), kept, n, chosen)
    ensures forall i: nat, j: nat | i in chosen && i !in kept && i < |tasks| && j < |tasks| && Ranked(tasks, failed, j, i) ::
              j in chosen
  {
    var ranked := RankAll(tasks, failed);
    forall i: nat, j: nat | i in chosen && i !in kept && i < |tasks| && j < |tasks| && Ranked(tasks, failed, j, i)
      ensures j in chosen
    {
      var k :| 0 <= k < n && ranked[k] == i;
      assert j in ranked;
      var m :| 0 <= m < |ranked| && ranked[m] == j;
      assert m > k ==> Ranked(tasks, failed, i, j);
    }
  }

  /** The positions of the selected results; none when nothing may be shown. */
  method SelectTaskEvidence(tasks: seq<TaskResult>, failed: seq<string>, limit: int) returns (selected: seq<nat>)
    requires Distinct(failed)
    ensures limit <= 0 ==> selected == []
    ensures limit > 0 ==> Selection(tasks, failed, limit, KeptRepresentatives(tasks, failed, limit), selected)
  {
    if limit <= 0 || tasks == [] {
      if limit > 0 {
        EmptySelection(failed, limit);
      }
      return [];
    }
    var ranked := RankAll(tasks, failed);
    RankAllRanks(tasks, failed);
    RepresentativesDistinct(tasks, ranked, failed);
    var chosen, n := Fill(ranked, KeptRepresentatives(tasks, failed, limit), limit);
    FilledSelects(tasks, failed, limit, n, chosen);
    selected := Sort<nat>(chosen, RankOrder(tasks, failed));
  }

  lemma EmptySelection(failed: seq<string>, limit: nat)
    ensures Selection([], failed, limit, KeptRepresentatives([], failed, limit), [])
  {
    RankAllRanks([], failed);
    RepresentativesMeaning([], RankAll([], failed), failed);
    var kept := KeptRepresentatives([], failed, limit);
    assert forall x | x in kept :: x in Representatives([], RankAll([], failed), failed);
  }

  /** When the failed cases with results fit, each of them shows its best ranked result. */
  lemma FailedCaseShown(tasks: seq<TaskResult>, failed: seq<string>, limit: nat, selected: seq<nat>, id: string, i: nat)
    returns (best: nat)
    requires Selection(tasks, failed, limit, KeptRepresentatives(tasks, failed, limit), selected)
    requires |Representatives(tasks, RankAll(tasks, failed), failed)| <= limit
    requires id in failed && OfCase(tasks, i, id)
    ensures best in selected && OfCase(tasks, best, id) && Ranked(tasks, failed, best, i)
  {
    var ranked := RankAll(tasks, failed);
    RankAllRanks(tasks, failed);
    RepresentativesMeaning(tasks, ranked, failed);
    assert i in ranked;
    var k :| 0 <= k < |ranked| && ranked[k] == i;
    assert OfCase(tasks, ranked[k], id);
    best := Representative(tasks, ranked, id).value;
    var f :| 0 <= f < |failed| && failed[f] == id;
    assert best in KeptRepresentatives(tasks, failed, limit);
    BestRanked(tasks, failed, ranked, id, k);
  }

  lemma {:induction false} RepresentativeFirst(tasks: seq<TaskResult>, ranked: seq<nat>, id: string, k: nat)
    requires k < |ranked| && OfCase(tasks, ranked[k], id)
    ensures exists b :: 0 <= b <= k && Representative(tasks, ranked, id) == Some(ranked[b])
  {
    if !OfCase(tasks, ranked[0], id) {
      RepresentativeFirst(tasks, ranked[1..], id, k - 1);
      var b :| 0 <= b <= k - 1 && Representative(tasks, ranked[1..], id) == Some(ranked[1..][b]);
      assert ranked[1..][b] == ranked[b + 1];
    }
  }

  lemma BestRanked(tasks: seq<TaskResult>, failed: seq<string>, ranked: seq<nat>, id: string, k: nat)
    requires IsRanking(tasks, failed, ranked) && k < |ranked| && OfCase(tasks, ranked[k], id)
    ensures Representative(tasks, ranked, id).Some?
    ensures Ranked(tasks, failed, Representative(tasks, ranked, id).value, ranked[k])
  {
    RepresentativeFirst(tasks, ranked, id, k);
    var b :| 0 <= b <= k && Representative(tasks, ranked, id) == Some(ranked[b]);
    assert b < k ==> Ranked(tasks, failed, ranked[b], ranked[k]);
  }

  // ----- What the ranking means -----

  /** The result failed, timed out, or carries a failure kind or error output. */
  predicate Failing(task: TaskResult) {
    task.status == Failed || task.status == Timeout || task.hasFailureKind || task.hasStderr
  }

  predicate InFailedCase(task: TaskResult, failed: seq<string>) {
    exists k | 0 <= k < |failed| :: task.caseId == Some(failed[k])
  }

  /**
   * Failing results come before all others, then the results of failed cases; of the rest, successes come last,
   * skipped tasks before them and everything else first. Equal results keep their order.
   */
  lemma RankMeaning(tasks: seq<TaskResult>, failed: seq<string>, i: nat, j: nat)
    requires i < |tasks| && j < |tasks|
    ensures Ranked(tasks, failed, i, j) <==>
              if Failing(tasks[i]) != Failing(tasks[j]) then Failing(tasks[i])
              else if Failing(tasks[i]) then i <= j
              else if InFailedCase(tasks[i], failed) != InFailedCase(tasks[j], failed) then InFailedCase(tasks[i], failed)
              else if InFailedCase(tasks[i], failed) then i <= j
              else if (tasks[i].status == Success) != (tasks[j].status == Success) then tasks[j].status == Success
              else if (tasks[i].status == Skipped) != (tasks[j].status == Skipped) then tasks[j].status == Skipped
              else i <= j
  {
  }

  /** A failing result is left out only if every result that is shown is failing too or stands for a failed case. */
  lemma FailingShownFirst(tasks: seq<TaskResult>, failed: seq<string>, limit: nat, selected: seq<nat>, i: nat, j: nat)
    requires Selection(tasks, failed, limit, KeptRepresentatives(tasks, failed, limit), selected)
    requires i < |tasks| && Failing(tasks[i]) && i !in selected && j in selected
    ensures j < |tasks| && (Failing(tasks[j]) || InFailedCase(tasks[j], failed))
  {
    var k :| 0 <= k < |selected| && selected[k] == j;
    if !Failing(tasks[j]) {
      RankMeaning(tasks, failed, i, j);
      var ranked := RankAll(tasks, failed);
      RepresentativesMeaning(tasks, ranked, failed);
      assert j in Representatives(tasks, ranked, failed);
    }
  }
}
