/** Task status counts: what is shown and what is reported as omitted always add up to what ran. */
module EvidenceCounts {
  import opened Common
  import opened Ordering
  import opened EvidenceSelection

  type Counts = map<Status, nat>

  function Get(counts: Counts, s: Status): nat {
    if s in counts then counts[s] else 0
  }

  function HasStatus(s: Status): TaskResult -> bool {
    (t: TaskResult) => t.status == s
  }

  function CountOf(tasks: seq<TaskResult>, s: Status): nat {
    |Matching(tasks, HasStatus(s))|
  }

  lemma CountNext(tasks: seq<TaskResult>, i: nat, s: Status)
    requires i < |tasks|
    ensures CountOf(tasks[..i + 1], s) == CountOf(tasks[..i], s) + if tasks[i].status == s then 1 else 0
  {
    assert tasks[..i + 1][..i] == tasks[..i];
  }

  method CountTrialTaskStatuses(tasks: seq<TaskResult>) returns (counts: Counts)
    ensures forall s :: Get(counts, s) == CountOf(tasks, s)
  {
    counts := map[];
    for i := 0 to |tasks|
      invariant forall s :: Get(counts, s) == CountOf(tasks[..i], s)
    {
      var status := tasks[i].status;
      var next := counts[status := Get(counts, status) + 1];
      forall s
        ensures Get(next, s) == CountOf(tasks[..i + 1], s)
      {
        CountNext(tasks, i, s);
        assert Get(counts, s) == CountOf(tasks[..i], s);
      }
      counts := next;
    }
    assert tasks[..|tasks|] == tasks;
  }

  method MergeTrialTaskStatusCounts(target: Counts, source: Counts) returns (merged: Counts)
    ensures forall s :: Get(merged, s) == Get(target, s) + Get(source, s)
  {
    merged := target;
    var pending := source.Keys;
    while pending != {}
      invariant pending <= source.Keys
      invariant forall s :: Get(merged, s) == Get(target, s) + if s in pending then 0 else Get(source, s)
      decreases |pending|
    {
      var s :| s in pending;
      pending := pending - {s};
      merged := merged[s := Get(merged, s) + source[s]];
    }
  }

  /** Only statuses with something omitted are listed. */
  method OmittedTrialTaskStatusCounts(total: Counts, visible: seq<TaskResult>) returns (omitted: Counts)
    ensures forall s :: Get(omitted, s) == if Get(total, s) > CountOf(visible, s) then Get(total, s) - CountOf(visible, s) else 0
    ensures forall s | s in omitted :: omitted[s] > 0
  {
    var visibleCounts := CountTrialTaskStatuses(visible);
    omitted := map[];
    var pending := total.Keys;
    while pending != {}
      invariant pending <= total.Keys
      invariant forall s | s in pending :: s !in omitted
      invariant forall s | s !in pending :: Get(omitted, s) ==
                  if Get(total, s) > CountOf(visible, s) then Get(total, s) - CountOf(visible, s) else 0
      invariant forall s | s in omitted :: omitted[s] > 0
      decreases |pending|
    {
      var s :| s in pending;
      pending := pending - {s};
      if total[s] > Get(visibleCounts, s) {
        omitted := omitted[s := total[s] - Get(visibleCounts, s)];
      }
    }
  }

  // ----- Selecting never shows more than there is -----

  function Pick(tasks: seq<TaskResult>, positions: seq<nat>): (r: seq<TaskResult>)
    requires forall k | 0 <= k < |positions| :: positions[k] < |tasks|
    ensures |r| == |positions| && forall k | 0 <= k < |r| :: r[k] == tasks[positions[k]]
  {
    seq(|positions|, k requires 0 <= k < |positions| => tasks[positions[k]])
  }

  function At(tasks: seq<TaskResult>, p: TaskResult -> bool): nat -> bool {
    (i: nat) => i < |tasks| && p(tasks[i])
  }

  lemma {:induction false} PickMatches(tasks: seq<TaskResult>, positions: seq<nat>, p: TaskResult -> bool)
    requires forall k | 0 <= k < |positions| :: positions[k] < |tasks|
    ensures |Matching(Pick(tasks, positions), p)| == |Matching(positions, At(tasks, p))|
  {
    if positions != [] {
      var n := |positions| - 1;
      PickMatches(tasks, positions[..n], p);
      assert Pick(tasks, positions)[..n] == Pick(tasks, positions[..n]);
    }
  }

  /** Distinct positions pick at most as many matching results as the list has. */
  lemma PickedAtMost(tasks: seq<TaskResult>, positions: seq<nat>, p: TaskResult -> bool)
    requires Distinct(positions) && forall k | 0 <= k < |positions| :: positions[k] < |tasks|
    ensures |Matching(Pick(tasks, positions), p)| <= |Matching(tasks, p)|
  {
    var indices, q := Indices(|tasks|), At(tasks, p);
    PickMatches(tasks, positions, p);
    PickMatches(tasks, indices, p);
    assert Pick(tasks, indices) == tasks;
    IndicesDistinct(|tasks|);
    MatchingMembers(positions, q);
    MatchingMembers(indices, q);
    assert forall k | 0 <= k < |positions| :: indices[positions[k]] == positions[k];
    var some, all := set x: nat | x in Matching(positions, q), set x: nat | x in Matching(indices, q);
    assert some <= all;
    DistinctSetSize(Matching(positions, q));
    DistinctSetSize(Matching(indices, q));
    SubsetSize(some, all);
  }

  lemma SelectionPositions(tasks: seq<TaskResult>, failed: seq<string>, limit: nat, kept: seq<nat>, s: seq<nat>)
    requires Selection(tasks, failed, limit, kept, s)
    ensures Distinct(s) && forall k | 0 <= k < |s| :: s[k] < |tasks|
  {
  }

  /** The selected results, as the program returns them. */
  method Select(tasks: seq<TaskResult>, failed: seq<string>) returns (shown: seq<TaskResult>)
    requires Distinct(failed)
    ensures forall s :: CountOf(shown, s) <= CountOf(tasks, s)
    ensures forall p: TaskResult -> bool :: |Matching(shown, p)| <= |Matching(tasks, p)|
    ensures forall t | t in shown :: t in tasks
    ensures |shown| == if |tasks| < MAX_TASK_RESULTS then |tasks| else MAX_TASK_RESULTS
  {
    var positions := SelectTaskEvidence(tasks, failed, MAX_TASK_RESULTS);
    SelectionPositions(tasks, failed, MAX_TASK_RESULTS, KeptRepresentatives(tasks, failed, MAX_TASK_RESULTS), positions);
    shown := Pick(tasks, positions);
    forall p: TaskResult -> bool
      ensures |Matching(shown, p)| <= |Matching(tasks, p)|
    {
      PickedAtMost(tasks, positions, p);
    }
    forall s
      ensures CountOf(shown, s) <= CountOf(tasks, s)
    {
      PickedAtMost(tasks, positions, HasStatus(s));
    }
  }

  // ----- One case -----

  datatype CaseEvidence = CaseEvidence(id: string, tasks: seq<TaskResult>, counts: Counts)

  ghost predicate CaseSound(c: CaseEvidence) {
    && (forall s :: CountOf(c.tasks, s) <= Get(c.counts, s))
    && (forall t | t in c.tasks :: t.caseId == Some(c.id))
  }

  /** All task results of all runs with a status. */
  function RanWith(runs: seq<seq<TaskResult>>, s: Status): nat {
    if runs == [] then 0 else RanWith(runs[..|runs| - 1], s) + CountOf(runs[|runs| - 1], s)
  }

  /** The loop over the runs of a case: a bounded selection of every run, and the counts of all its results. */
  method CollectRuns(id: string, runs: seq<seq<TaskResult>>) returns (tasks: seq<TaskResult>, counts: Counts)
    requires forall r, t | 0 <= r < |runs| && t in runs[r] :: t.caseId == Some(id)
    ensures forall s :: CountOf(tasks, s) <= Get(counts, s) == RanWith(runs, s)
    ensures forall t | t in tasks :: t.caseId == Some(id)
  {
    tasks, counts := [], map[];
    for r := 0 to |runs|
      invariant forall s :: CountOf(tasks, s) <= Get(counts, s) == RanWith(runs[..r], s)
      invariant forall t | t in tasks :: t.caseId == Some(id)
    {
      var shown := Select(runs[r], []);
      var runCounts := CountTrialTaskStatuses(runs[r]);
      counts := MergeTrialTaskStatusCounts(counts, runCounts);
      assert runs[..r + 1][..r] == runs[..r];
      forall s
        ensures CountOf(tasks + shown, s) == CountOf(tasks, s) + CountOf(shown, s)
      {
        MatchingAppend(tasks, shown, HasStatus(s));
      }
      tasks := tasks + shown;
    }
    assert runs[..|runs|] == runs;
  }

  /** At every status, what a case shows and what it reports as omitted add up to what ran. */
  method AssembleCaseEvidence(id: string, runs: seq<seq<TaskResult>>, success: bool)
    returns (c: CaseEvidence, omitted: Counts)
    requires forall r, t | 0 <= r < |runs| && t in runs[r] :: t.caseId == Some(id)
    ensures CaseSound(c) && c.id == id && |c.tasks| <= MAX_TASK_RESULTS
    ensures forall s :: CountOf(c.tasks, s) + Get(omitted, s) == RanWith(runs, s) == Get(c.counts, s)
  {
    var tasks, counts := CollectRuns(id, runs);
    var failed := if success then [] else [id];
    var shown := Select(tasks, failed);
    omitted := OmittedTrialTaskStatusCounts(counts, shown);
    c := CaseEvidence(id, shown, counts);
  }

  // ----- The whole trial -----

  function AllTasks(cases: seq<CaseEvidence>): seq<TaskResult> {
    if cases == [] then [] else AllTasks(cases[..|cases| - 1]) + cases[|cases| - 1].tasks
  }

  function TotalOf(cases: seq<CaseEvidence>, s: Status): nat {
    if cases == [] then 0 else TotalOf(cases[..|cases| - 1], s) + Get(cases[|cases| - 1].counts, s)
  }

  ghost predicate CasesSound(cases: seq<CaseEvidence>) {
    && (forall k | 0 <= k < |cases| :: CaseSound(cases[k]))
    && (forall j, k | 0 <= j < k < |cases| :: cases[j].id != cases[k].id)
  }

  lemma {:induction false} TotalCovers(cases: seq<CaseEvidence>, s: Status)
    requires forall k | 0 <= k < |cases| :: CaseSound(cases[k])
    ensures CountOf(AllTasks(cases), s) <= TotalOf(cases, s)
  {
    if cases != [] {
      var n := |cases| - 1;
      TotalCovers(cases[..n], s);
      MatchingAppend(AllTasks(cases[..n]), cases[n].tasks, HasStatus(s));
      assert CaseSound(cases[n]);
    }
  }

  function InCase(id: string): TaskResult -> bool {
    (t: TaskResult) => t.caseId == Some(id)
  }

  function InCaseWith(id: string, s: Status): TaskResult -> bool {
    (t: TaskResult) => t.caseId == Some(id) && t.status == s
  }

  lemma {:induction false} MatchingTwice(tasks: seq<TaskResult>, id: string, s: Status)
    ensures Matching(Matching(tasks, InCase(id)), HasStatus(s)) == Matching(tasks, InCaseWith(id, s))
  {
    if tasks != [] {
      var n := |tasks| - 1;
      MatchingTwice(tasks[..n], id, s);
      MatchingAppend(Matching(tasks[..n], InCase(id)), if InCase(id)(tasks[n]) then [tasks[n]] else [], HasStatus(s));
      assert [tasks[n]][..0] == [];
    }
  }

  lemma AllTasksNext(cases: seq<CaseEvidence>, n: nat, p: TaskResult -> bool)
    requires 0 < n <= |cases|
    ensures |Matching(AllTasks(cases[..n]), p)| == |Matching(AllTasks(cases[..n - 1]), p)| + |Matching(cases[n - 1].tasks, p)|
  {
    assert cases[..n][..n - 1] == cases[..n - 1];
    MatchingAppend(AllTasks(cases[..n - 1]), cases[n - 1].tasks, p);
  }

  /** Results of a case occur among the results of that case only. */
  lemma {:induction false} CaseTasksOnly(cases: seq<CaseEvidence>, n: nat, k: nat, s: Status)
    requires CasesSound(cases) && n <= |cases| && k < |cases|
    ensures |Matching(AllTasks(cases[..n]), InCaseWith(cases[k].id, s))| <= if k < n then CountOf(cases[k].tasks, s) else 0
  {
    if n > 0 {
      CaseTasksOnly(cases, n - 1, k, s);
      AllTasksNext(cases, n, InCaseWith(cases[k].id, s));
      assert CaseSound(cases[n - 1]);
      OneCase(cases[n - 1], cases[k].id, s);
    }
  }

  lemma OneCase(c: CaseEvidence, id: string, s: Status)
    requires CaseSound(c)
    ensures |Matching(c.tasks, InCaseWith(id, s))| <= if c.id == id then CountOf(c.tasks, s) else 0
  {
    if c.id == id {
      MatchingTwice(c.tasks, id, s);
      AllMatch(c.tasks, InCase(id));
    } else {
      NoMatch(c.tasks, InCaseWith(id, s));
    }
  }

  lemma {:induction false} AllMatch<T>(s: seq<T>, p: T -> bool)
    requires forall x | x in s :: p(x)
    ensures Matching(s, p) == s
  {
    if s != [] {
      AllMatch(s[..|s| - 1], p);
    }
  }

  method MergeAll(cases: seq<CaseEvidence>) returns (counts: Counts)
    ensures forall s :: Get(counts, s) == TotalOf(cases, s)
  {
    counts := map[];
    for k := 0 to |cases|
      invariant forall s :: Get(counts, s) == TotalOf(cases[..k], s)
    {
      assert cases[..k + 1][..k] == cases[..k];
      counts := MergeTrialTaskStatusCounts(counts, cases[k].counts);
    }
    assert cases[..|cases|] == cases;
  }

  /**
   * At every status, the shown results and the omitted count add up to the total: for the whole trial, and for every
   * case among the results shown for it.
   */
  method AssembleTrialEvidence(cases: seq<CaseEvidence>, failed: seq<string>)
    returns (visible: seq<TaskResult>, omitted: Counts, perCase: seq<Counts>)
    requires CasesSound(cases) && Distinct(failed)
    ensures |visible| <= MAX_TASK_RESULTS
    ensures forall s :: CountOf(visible, s) + Get(omitted, s) == TotalOf(cases, s)
    ensures |perCase| == |cases|
    ensures forall k, s | 0 <= k < |cases| ::
              CountOf(Matching(visible, InCase(cases[k].id)), s) + Get(perCase[k], s) == Get(cases[k].counts, s)
  {
    var all := AllTasks(cases);
    visible := Select(all, failed);
    var counts := MergeAll(cases);
    omitted := OmittedTrialTaskStatusCounts(counts, visible);
    forall s
      ensures CountOf(visible, s) <= TotalOf(cases, s)
    {
      TotalCovers(cases, s);
    }
    perCase := [];
    for k := 0 to |cases|
      invariant |perCase| == k
      invariant forall j, s | 0 <= j < k ::
                  CountOf(Matching(visible, InCase(cases[j].id)), s) + Get(perCase[j], s) == Get(cases[j].counts, s)
    {
      var shown := Matching(visible, InCase(cases[k].id));
      var rest := OmittedTrialTaskStatusCounts(cases[k].counts, shown);
      forall s
        ensures CountOf(shown, s) <= Get(cases[k].counts, s)
      {
        ShownOfCase(cases, visible, k, s);
      }
      perCase := perCase + [rest];
    }
  }

  lemma ShownOfCase(cases: seq<CaseEvidence>, visible: seq<TaskResult>, k: nat, s: Status)
    requires CasesSound(cases) && k < |cases|
    requires forall p: TaskResult -> bool :: |Matching(visible, p)| <= |Matching(AllTasks(cases), p)|
    ensures CountOf(Matching(visible, InCase(cases[k].id)), s) <= Get(cases[k].counts, s)
  {
    var p := InCaseWith(cases[k].id, s);
    MatchingTwice(visible, cases[k].id, s);
    assert |Matching(visible, p)| <= |Matching(AllTasks(cases), p)|;
    CaseTasksOnly(cases, |cases|, k, s);
    assert cases[..|cases|] == cases;
    assert CaseSound(cases[k]);
  }
}
