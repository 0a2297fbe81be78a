/** The ledger of a trial: which planned cases ran, which did not and why, on every path through the case loop. */
module RunLedger {
  import opened Common
  import opened Plan

  /** A stub stands for a case that could not start because the workspace could not be verified. */
  datatype Source = Executed | Reused | Stub

  /** What the tasks of a case show: one ended neither well nor skipped nor blocked; one was blocked. */
  datatype Marks = Marks(failing: bool, blocked: bool)

  const NoTasks := Marks(false, false)

  datatype CaseRecord = CaseRecord(id: string, success: bool, source: Source, marks: Marks)

  datatype Reason = TimedOut | Aborted | VerificationFailed | ExecutionStopped | PrerequisiteUnavailable

  datatype Signal = Running | TimeExpired | Stopped

  /** What the host observes when it comes to a case. */
  datatype Conditions = Conditions(signal: Signal, ready: bool, reusable: Option<bool>, succeeds: bool, contained: bool,
                                   marks: Marks)

  /** The digest of the real workspace after the cases, against the one before. */
  datatype FinalCapture = Unchanged | Changed | NotCaptured

  /**
   * sealed: the workspace had a digest before the cases; manualRequest: a task outside the granted ones asked for
   * approval; warned: there are warnings; planReview: the failures point at the plan.
   */
  datatype Host = Host(sealed: bool, monitored: bool, final: FinalCapture, timedOut: bool, manualRequest: bool,
                       warned: bool, planReview: bool)

  datatype Ledger = Ledger(
    records: seq<CaseRecord>, blocked: set<string>, ungrounded: set<string>, stop: Option<Reason>,
    executed: nat, reused: nat)

  datatype NotRun = NotRun(id: string, reason: Reason)

  datatype Kind = KindPassed | KindPassedWithWarnings | KindBlocked | KindFailed | KindTimedOut | KindWitnessFailed | KindPlan

  datatype Report = Report(records: seq<CaseRecord>, notRun: seq<NotRun>, success: bool, kind: Kind, executed: nat,
                           reused: nat)

  // ----- The case loop -----

  function NormalCases(evidence: seq<Evidence>): seq<string> {
    if evidence == [] then []
    else (if evidence[0].Preservation? then [] else [evidence[0].normalCaseId]) + NormalCases(evidence[1..])
  }

  /** The cases a case depends on: its positive baseline and the normal cases of its fault evidence. */
  function PrerequisitesOf(c: Case): seq<string> {
    (if c.baselineCaseId.Some? then [c.baselineCaseId.value] else []) + NormalCases(c.evidence)
  }

  predicate Succeeded(records: seq<CaseRecord>, n: nat, id: string)
    requires n <= |records|
  {
    exists i :: 0 <= i < n && records[i].id == id && records[i].success
  }

  predicate Grounded(records: seq<CaseRecord>, n: nat, c: Case)
    requires n <= |records|
  {
    forall id | id in PrerequisitesOf(c) :: id == "" || Succeeded(records, n, id)
  }

  const EmptyLedger := Ledger([], {}, {}, None, 0, 0)

  function ReusableRecord(c: Case, e: Conditions): Option<bool> {
    if IsFaultCase(c) then None else e.reusable
  }

  function Visit(l: Ledger, c: Case, e: Conditions, host: Host): Ledger {
    if e.signal.TimeExpired? then l.(stop := Some(TimedOut))
    else if e.signal.Stopped? then l.(stop := Some(Aborted))
    else if !host.sealed || !host.monitored then
      l.(records := l.records + [CaseRecord(c.id, false, Stub, NoTasks)], stop := Some(VerificationFailed))
    else if !Grounded(l.records, |l.records|, c) then l.(ungrounded := l.ungrounded + {c.id})
    else if !e.ready then l.(blocked := l.blocked + {c.id})
    else if ReusableRecord(c, e).Some? then
      l.(records := l.records + [CaseRecord(c.id, ReusableRecord(c, e).value, Reused, e.marks)], reused := l.reused + 1)
    else
      l.(records := l.records + [CaseRecord(c.id, e.succeeds && e.contained, Executed, e.marks)], executed := l.executed + 1,
         stop := if e.contained then None else Some(VerificationFailed))
  }

  function Loop(cases: seq<Case>, env: seq<Conditions>, host: Host, n: nat): Ledger
    requires n <= |cases| && |env| == |cases|
  {
    if n == 0 then EmptyLedger
    else
      var l := Loop(cases, env, host, n - 1);
      if l.stop.Some? then l else Visit(l, cases[n - 1], env[n - 1], host)
  }

  // ----- After the loop -----

  /** A workspace found changed at the end fails the last case, or stands in for the first when none ran. */
  function FinalRecords(records: seq<CaseRecord>, cases: seq<Case>, host: Host): seq<CaseRecord> {
    if !host.sealed || host.final.Unchanged? then records
    else if records != [] then records[|records| - 1 := records[|records| - 1].(success := false)]
    else if cases != [] then [CaseRecord(cases[0].id, false, Stub, NoTasks)]
    else []
  }

  function FinalStop(l: Ledger, records: seq<CaseRecord>, cases: seq<Case>): Option<Reason> {
    if |records| + |l.blocked| + |l.ungrounded| < |cases| && l.stop.None? then Some(ExecutionStopped) else l.stop
  }

  function RecordIds(records: seq<CaseRecord>): (ids: seq<string>)
    ensures |ids| == |records| && forall i | 0 <= i < |ids| :: ids[i] == records[i].id
  {
    seq(|records|, i requires 0 <= i < |records| => records[i].id)
  }

  function CaseIds(cases: seq<Case>): (ids: seq<string>)
    ensures |ids| == |cases| && forall i | 0 <= i < |ids| :: ids[i] == cases[i].id
  {
    seq(|cases|, i requires 0 <= i < |cases| => cases[i].id)
  }

  function ReasonFor(l: Ledger, stop: Option<Reason>, id: string): Reason {
    if id in l.blocked then PrerequisiteUnavailable else if stop.Some? then stop.value else ExecutionStopped
  }

  function NotRunCases(cases: seq<Case>, returned: seq<string>, l: Ledger, stop: Option<Reason>): seq<NotRun> {
    if cases == [] then []
    else
      var last := cases[|cases| - 1];
      NotRunCases(cases[..|cases| - 1], returned, l, stop)
      + if last.id in returned then [] else [NotRun(last.id, ReasonFor(l, stop, last.id))]
  }

  predicate AllSucceed(records: seq<CaseRecord>) {
    forall i | 0 <= i < |records| :: records[i].success
  }

  predicate Passed(cases: seq<Case>, records: seq<CaseRecord>, host: Host) {
    !host.timedOut && |records| == |cases| && AllSucceed(records)
  }

  predicate CaptureFailed(host: Host) {
    !host.sealed || host.final.NotCaptured?
  }

  predicate SomeTaskFailing(records: seq<CaseRecord>) {
    exists i | 0 <= i < |records| :: records[i].marks.failing
  }

  /** Some case failed without a blocked task. */
  predicate UnrelatedFailure(records: seq<CaseRecord>) {
    exists i | 0 <= i < |records| :: !records[i].success && !records[i].marks.blocked
  }

  predicate PrerequisitesOnly(records: seq<CaseRecord>) {
    !SomeTaskFailing(records) && !UnrelatedFailure(records)
  }

  /** The only obstacle was a manual task that nobody granted. */
  predicate ManualOnly(records: seq<CaseRecord>, host: Host) {
    host.manualRequest && !host.timedOut && !CaptureFailed(host) && PrerequisitesOnly(records)
  }

  function KindOf(cases: seq<Case>, l: Ledger, records: seq<CaseRecord>, host: Host): Kind {
    if host.timedOut then KindTimedOut
    else if CaptureFailed(host) then KindWitnessFailed
    else if Passed(cases, records, host) then
      if host.warned || l.blocked != {} then KindPassedWithWarnings else KindPassed
    else if l.blocked != {} && PrerequisitesOnly(records) then KindBlocked
    else KindFailed
  }

  function FinalKind(cases: seq<Case>, l: Ledger, records: seq<CaseRecord>, host: Host): Kind {
    if ManualOnly(records, host) then KindBlocked
    else if KindOf(cases, l, records, host).KindFailed? && host.planReview then KindPlan
    else KindOf(cases, l, records, host)
  }

  function ReportOf(cases: seq<Case>, env: seq<Conditions>, host: Host): Report
    requires |env| == |cases|
  {
    var l := Loop(cases, env, host, |cases|);
    var records := FinalRecords(l.records, cases, host);
    Report(records, NotRunCases(cases, RecordIds(records), l, FinalStop(l, records, cases)),
           Passed(cases, records, host) && !ManualOnly(records, host), FinalKind(cases, l, records, host),
           l.executed, l.reused)
  }

  /** The loop over the plan's cases. */
  method RunCases(cases: seq<Case>, env: seq<Conditions>, host: Host) returns (l: Ledger)
    requires |env| == |cases|
    ensures l == Loop(cases, env, host, |cases|)
  {
    var records: seq<CaseRecord> := [];
    var blocked: set<string>, ungrounded: set<string> := {}, {};
    var stop: Option<Reason> := None;
    var executed, reused := 0, 0;
    var offset := 0;
    while offset < |cases| && stop.None?
      invariant 0 <= offset <= |cases|
      invariant Ledger(records, blocked, ungrounded, stop, executed, reused) == Loop(cases, env, host, offset)
    {
      var c, e := cases[offset], env[offset];
      offset := offset + 1;
      if !e.signal.Running? {
        stop := Some(if e.signal.TimeExpired? then TimedOut else Aborted);
      } else if !host.sealed || !host.monitored {
        records := records + [CaseRecord(c.id, false, Stub, NoTasks)];
        stop := Some(VerificationFailed);
      } else if exists id | id in PrerequisitesOf(c) :: id != "" && !Succeeded(records, |records|, id) {
        ungrounded := ungrounded + {c.id};
      } else if !e.ready {
        blocked := blocked + {c.id};
      } else if ReusableRecord(c, e).Some? {
        records := records + [CaseRecord(c.id, ReusableRecord(c, e).value, Reused, e.marks)];
        reused := reused + 1;
      } else {
        executed := executed + 1;
        records := records + [CaseRecord(c.id, e.succeeds && e.contained, Executed, e.marks)];
        if !e.contained {
          stop := Some(VerificationFailed);
        }
      }
    }
    l := Ledger(records, blocked, ungrounded, stop, executed, reused);
    StoppedLoop(cases, env, host, offset, |cases|);
  }

  lemma {:induction false} StoppedLoop(cases: seq<Case>, env: seq<Conditions>, host: Host, n: nat, m: nat)
    requires |env| == |cases| && n <= m <= |cases|
    requires n == m || Loop(cases, env, host, n).stop.Some?
    ensures Loop(cases, env, host, m) == Loop(cases, env, host, n)
  {
    if n < m {
      StoppedLoop(cases, env, host, n, m - 1);
    }
  }

  method ExecuteTrial(cases: seq<Case>, env: seq<Conditions>, host: Host) returns (report: Report)
    requires |env| == |cases|
    ensures report == ReportOf(cases, env, host)
  {
    var l := RunCases(cases, env, host);
    var records := l.records;
    if host.sealed && !host.final.Unchanged? {
      if |records| > 0 {
        var last := |records| - 1;
        records := records[last := records[last].(success := false)];
      } else if |cases| > 0 {
        records := [CaseRecord(cases[0].id, false, Stub, NoTasks)];
      }
    }
    var stop := FinalStop(l, records, cases);
    var returned := RecordIds(records);
    var notRun: seq<NotRun> := [];
    for i := 0 to |cases|
      invariant notRun == NotRunCases(cases[..i], returned, l, stop)
    {
      assert cases[..i + 1][..i] == cases[..i];
      if cases[i].id !in returned {
        notRun := notRun + [NotRun(cases[i].id, ReasonFor(l, stop, cases[i].id))];
      }
    }
    assert cases[..|cases|] == cases;
    var success := !host.timedOut && |records| == |cases| && AllSucceed(records);
    var kind := KindOf(cases, l, records, host);
    if kind.KindFailed? && host.planReview {
      kind := KindPlan;
    }
    if ManualOnly(records, host) {
      success, kind := false, KindBlocked;
    }
    report := Report(records, notRun, success, kind, l.executed, l.reused);
  }

  // ----- Every case is accounted for -----

  /** Ids are each in one of three places, and in one only. */
  ghost predicate Apart(ids: set<string>, returned: seq<string>, blocked: set<string>, ungrounded: set<string>) {
    && Distinct(returned)
    && (forall i | 0 <= i < |returned| :: returned[i] in ids && returned[i] !in blocked && returned[i] !in ungrounded)
    && blocked <= ids && ungrounded <= ids && blocked !! ungrounded
  }

  lemma MoveApart(ids: set<string>, returned: seq<string>, blocked: set<string>, ungrounded: set<string>, id: string)
    requires Apart(ids, returned, blocked, ungrounded) && id !in ids
    ensures Apart(ids + {id}, returned, blocked, ungrounded)
    ensures Apart(ids + {id}, returned + [id], blocked, ungrounded)
    ensures Apart(ids + {id}, returned, blocked + {id}, ungrounded) && |blocked + {id}| == |blocked| + 1
    ensures Apart(ids + {id}, returned, blocked, ungrounded + {id}) && |ungrounded + {id}| == |ungrounded| + 1
  {
  }

  ghost function VisitedIds(cases: seq<Case>, n: nat): set<string>
    requires n <= |cases|
  {
    if n == 0 then {} else VisitedIds(cases, n - 1) + {cases[n - 1].id}
  }

  lemma {:induction false} VisitedMeaning(cases: seq<Case>, n: nat, id: string)
    requires n <= |cases|
    ensures id in VisitedIds(cases, n) <==> exists k :: 0 <= k < n && cases[k].id == id
  {
    if n > 0 {
      VisitedMeaning(cases, n - 1, id);
    }
  }

  lemma NewId(cases: seq<Case>, n: nat)
    requires Distinct(CaseIds(cases)) && n < |cases|
    ensures cases[n].id !in VisitedIds(cases, n)
  {
    VisitedMeaning(cases, n, cases[n].id);
    forall k | 0 <= k < n
      ensures cases[k].id != cases[n].id
    {
      assert CaseIds(cases)[k] != CaseIds(cases)[n];
    }
  }

  /** The cases the loop has come to are apart, and all placed unless it stopped. */
  ghost predicate Placed(cases: seq<Case>, n: nat, l: Ledger)
    requires n <= |cases|
  {
    && Apart(VisitedIds(cases, n), RecordIds(l.records), l.blocked, l.ungrounded)
    && (l.stop.None? ==> |l.records| + |l.blocked| + |l.ungrounded| == n)
  }

  lemma AppendId(records: seq<CaseRecord>, r: CaseRecord)
    ensures RecordIds(records + [r]) == RecordIds(records) + [r.id]
  {
  }

  /** A visit adds the case to one place at most, and to one unless it stops the loop. */
  ghost predicate AddsTo(l: Ledger, next: Ledger, id: string) {
    || (next == l.(stop := next.stop) && next.stop.Some?)
    || (RecordIds(next.records) == RecordIds(l.records) + [id] && next.blocked == l.blocked && next.ungrounded == l.ungrounded)
    || next == l.(blocked := l.blocked + {id})
    || next == l.(ungrounded := l.ungrounded + {id})
  }

  lemma VisitAdds(l: Ledger, c: Case, e: Conditions, host: Host)
    requires l.stop.None?
    ensures AddsTo(l, Visit(l, c, e, host), c.id)
  {
    AppendId(l.records, CaseRecord(c.id, false, Stub, NoTasks));
    AppendId(l.records, CaseRecord(c.id, e.succeeds && e.contained, Executed, e.marks));
    if ReusableRecord(c, e).Some? {
      AppendId(l.records, CaseRecord(c.id, ReusableRecord(c, e).value, Reused, e.marks));
    }
  }

  lemma VisitPlaces(cases: seq<Case>, n: nat, l: Ledger, next: Ledger)
    requires Distinct(CaseIds(cases)) && n < |cases| && Placed(cases, n, l) && l.stop.None?
    requires AddsTo(l, next, cases[n].id)
    ensures Placed(cases, n + 1, next)
  {
    NewId(cases, n);
    MoveApart(VisitedIds(cases, n), RecordIds(l.records), l.blocked, l.ungrounded, cases[n].id);
    assert |RecordIds(next.records)| == |next.records|;
  }

  lemma StoppedPlaces(cases: seq<Case>, n: nat, l: Ledger)
    requires Distinct(CaseIds(cases)) && n < |cases| && Placed(cases, n, l) && l.stop.Some?
    ensures Placed(cases, n + 1, l)
  {
    NewId(cases, n);
    MoveApart(VisitedIds(cases, n), RecordIds(l.records), l.blocked, l.ungrounded, cases[n].id);
  }

  lemma StepPlaces(cases: seq<Case>, n: nat, l: Ledger, next: Ledger)
    requires Distinct(CaseIds(cases)) && n < |cases| && Placed(cases, n, l)
    requires if l.stop.Some? then next == l else AddsTo(l, next, cases[n].id)
    ensures Placed(cases, n + 1, next)
  {
    if l.stop.None? {
      VisitPlaces(cases, n, l, next);
    } else {
      StoppedPlaces(cases, n, l);
    }
  }

  /** What one turn of the loop does to the places of cases. */
  ghost predicate Turn(l: Ledger, next: Ledger, id: string) {
    if l.stop.Some? then next == l else AddsTo(l, next, id)
  }

  lemma LoopTurns(cases: seq<Case>, env: seq<Conditions>, host: Host, n: nat)
    requires |env| == |cases| && n < |cases|
    ensures Turn(Loop(cases, env, host, n), Loop(cases, env, host, n + 1), cases[n].id)
  {
    var l := Loop(cases, env, host, n);
    if l.stop.None? {
      VisitAdds(l, cases[n], env[n], host);
    }
  }

  lemma {:induction false} TurnsPlace(cases: seq<Case>, ledgers: seq<Ledger>, n: nat)
    requires Distinct(CaseIds(cases)) && n < |ledgers| <= |cases| + 1 && ledgers[0] == EmptyLedger
    requires forall i | 0 <= i < |ledgers| - 1 :: Turn(ledgers[i], ledgers[i + 1], cases[i].id)
    ensures Placed(cases, n, ledgers[n])
  {
    if n > 0 {
      TurnsPlace(cases, ledgers, n - 1);
      assert Turn(ledgers[n - 1], ledgers[n - 1 + 1], cases[n - 1].id);
      StepPlaces(cases, n - 1, ledgers[n - 1], ledgers[n]);
    }
  }

  /** After every visit, the cases visited are apart. */
  lemma LoopPlaces(cases: seq<Case>, env: seq<Conditions>, host: Host, n: nat)
    requires Distinct(CaseIds(cases)) && |env| == |cases| && n <= |cases|
    ensures Placed(cases, n, Loop(cases, env, host, n))
  {
    var ledgers := seq(n + 1, i requires 0 <= i < n + 1 => Loop(cases, env, host, i));
    forall i | 0 <= i < |ledgers| - 1
      ensures Turn(ledgers[i], ledgers[i + 1], cases[i].id)
    {
      LoopTurns(cases, env, host, i);
    }
    TurnsPlace(cases, ledgers, n);
  }

  /** The reason given for cases the loop never reached is never needed: an unstopped loop has placed every case. */
  lemma FallbackNeverTaken(cases: seq<Case>, env: seq<Conditions>, host: Host)
    requires Distinct(CaseIds(cases)) && |env| == |cases|
    ensures var l := Loop(cases, env, host, |cases|);
            FinalStop(l, FinalRecords(l.records, cases, host), cases) == l.stop
  {
    LoopPlaces(cases, env, host, |cases|);
  }

  // ----- Returned and not-run cases -----

  function NotRunIds(notRun: seq<NotRun>): (ids: seq<string>)
    ensures |ids| == |notRun| && forall i | 0 <= i < |ids| :: ids[i] == notRun[i].id
  {
    seq(|notRun|, i requires 0 <= i < |notRun| => notRun[i].id)
  }

  function Outside(returned: seq<string>): string -> bool {
    (id: string) => id !in returned
  }

  lemma {:induction false} NotRunMatching(cases: seq<Case>, returned: seq<string>, l: Ledger, stop: Option<Reason>)
    ensures NotRunIds(NotRunCases(cases, returned, l, stop)) == Matching(CaseIds(cases), Outside(returned))
  {
    if cases != [] {
      var n := |cases| - 1;
      NotRunMatching(cases[..n], returned, l, stop);
      assert CaseIds(cases)[..n] == CaseIds(cases[..n]);
      assert NotRunIds(NotRunCases(cases, returned, l, stop))
          == NotRunIds(NotRunCases(cases[..n], returned, l, stop))
             + if cases[n].id in returned then [] else [cases[n].id];
    }
  }

  /** Every planned case is returned once or listed as not run once, and nothing else is. */
  ghost predicate Partition(cases: seq<Case>, report: Report) {
    var planned, returned, omitted := CaseIds(cases), RecordIds(report.records), NotRunIds(report.notRun);
    && Distinct(returned) && Distinct(omitted)
    && (forall id :: id in planned <==> id in returned || id in omitted)
    && (forall id :: !(id in returned && id in omitted))
    && |returned| + |omitted| == |planned|
  }

  lemma FinalRecordsReturned(records: seq<CaseRecord>, cases: seq<Case>, host: Host)
    requires Distinct(RecordIds(records)) && forall id | id in RecordIds(records) :: id in CaseIds(cases)
    ensures Distinct(RecordIds(FinalRecords(records, cases, host)))
    ensures forall id | id in RecordIds(FinalRecords(records, cases, host)) :: id in CaseIds(cases)
  {
    var final := FinalRecords(records, cases, host);
    if records != [] {
      assert RecordIds(final) == RecordIds(records);
    } else if final != [] {
      assert RecordIds(final)[0] == CaseIds(cases)[0];
    }
  }

  lemma PartitionSizes(planned: seq<string>, returned: seq<string>, omitted: seq<string>)
    requires Distinct(planned) && Distinct(returned) && Distinct(omitted)
    requires forall id :: id in planned <==> id in returned || id in omitted
    requires forall id :: !(id in returned && id in omitted)
    ensures |returned| + |omitted| == |planned|
  {
    var p, r, o := set x | x in planned, set x | x in returned, set x | x in omitted;
    DistinctSetSize(planned);
    DistinctSetSize(returned);
    DistinctSetSize(omitted);
    assert p == r + o && r !! o;
  }

  /** On every path through the loop and after it. */
  lemma ReportPartitions(cases: seq<Case>, env: seq<Conditions>, host: Host)
    requires Distinct(CaseIds(cases)) && |env| == |cases|
    ensures Partition(cases, ReportOf(cases, env, host))
  {
    var l := Loop(cases, env, host, |cases|);
    LoopPlaces(cases, env, host, |cases|);
    forall id | id in RecordIds(l.records)
      ensures id in CaseIds(cases)
    {
      VisitedMeaning(cases, |cases|, id);
      var k :| 0 <= k < |cases| && cases[k].id == id;
      assert CaseIds(cases)[k] == id;
    }
    FinalRecordsReturned(l.records, cases, host);
    var records := FinalRecords(l.records, cases, host);
    var returned := RecordIds(records);
    NotRunMatching(cases, returned, l, FinalStop(l, records, cases));
    MatchingMembers(CaseIds(cases), Outside(returned));
    PartitionSizes(CaseIds(cases), returned, Matching(CaseIds(cases), Outside(returned)));
  }

  /** A successful trial returned every planned case, each of them successful. */
  lemma SuccessIsComplete(cases: seq<Case>, env: seq<Conditions>, host: Host, k: nat) returns (i: nat)
    requires Distinct(CaseIds(cases)) && |env| == |cases| && k < |cases|
    requires ReportOf(cases, env, host).success
    ensures !host.timedOut && ReportOf(cases, env, host).notRun == []
    ensures i < |ReportOf(cases, env, host).records|
    ensures ReportOf(cases, env, host).records[i].id == cases[k].id && ReportOf(cases, env, host).records[i].success
  {
    var report := ReportOf(cases, env, host);
    ReportPartitions(cases, env, host);
    assert CaseIds(cases)[k] in RecordIds(report.records);
    i :| 0 <= i < |report.records| && RecordIds(report.records)[i] == cases[k].id;
  }

  // ----- The kind of a result -----

  /** A workspace that could not be captured leaves a case that did not succeed. */
  lemma FailedCaptureFails(cases: seq<Case>, env: seq<Conditions>, host: Host)
    requires |env| == |cases| && cases != [] && CaptureFailed(host)
    ensures !Passed(cases, ReportOf(cases, env, host).records, host)
  {
    var records := Loop(cases, env, host, |cases|).records;
    var final := FinalRecords(records, cases, host);
    if host.sealed {
      assert final[|final| - 1].success == false;
    } else {
      UnsealedFails(cases, env, host, |cases|);
      assert final == records && (|records| > 0 ==> !records[0].success);
    }
  }

  lemma {:induction false} UnsealedFails(cases: seq<Case>, env: seq<Conditions>, host: Host, n: nat)
    requires |env| == |cases| && n <= |cases| && !host.sealed
    ensures forall i | 0 <= i < |Loop(cases, env, host, n).records| :: !Loop(cases, env, host, n).records[i].success
  {
    if n > 0 {
      UnsealedFails(cases, env, host, n - 1);
    }
  }

  /** A report says passed, with or without warnings, exactly if it is successful. */
  lemma KindMatchesSuccess(cases: seq<Case>, env: seq<Conditions>, host: Host)
    requires |env| == |cases| && cases != []
    ensures var report := ReportOf(cases, env, host);
            report.success <==> report.kind.KindPassed? || report.kind.KindPassedWithWarnings?
  {
    if CaptureFailed(host) {
      FailedCaptureFails(cases, env, host);
    }
  }

  /**
   * When all planned cases succeed, a manual task that nobody granted still blocks the trial exactly if no returned
   * case has a failing task; a planned fault is one.
   */
  lemma ManualRequestBlocks(cases: seq<Case>, env: seq<Conditions>, host: Host)
    requires |env| == |cases| && cases != [] && host.manualRequest
    requires Passed(cases, ReportOf(cases, env, host).records, host)
    ensures var report := ReportOf(cases, env, host);
            && (report.kind.KindBlocked? <==> !SomeTaskFailing(report.records))
            && (report.success <==> SomeTaskFailing(report.records))
  {
    if CaptureFailed(host) {
      FailedCaptureFails(cases, env, host);
    }
  }

  /** One successful case is enough for either outcome. */
  lemma PlannedFaultHidesManualRequest(c: Case, failing: bool)
    requires PrerequisitesOf(c) == []
    ensures var e := Conditions(Running, true, None, true, true, Marks(failing, false));
            var host := Host(true, true, Unchanged, false, true, false, false);
            ReportOf([c], [e], host).success == failing
  {
    var e := Conditions(Running, true, None, true, true, Marks(failing, false));
    var host := Host(true, true, Unchanged, false, true, false, false);
    assert Loop([c], [e], host, 1) == Visit(Loop([c], [e], host, 0), c, e, host);
    var records := ReportOf([c], [e], host).records;
    assert records == [CaseRecord(c.id, true, Executed, Marks(failing, false))];
    assert records[0].marks.failing == failing;
  }

  // ----- Nothing runs before its prerequisites succeeded -----

  /** Every case that ran or was reused had all its prerequisites among the successful records before it. */
  ghost predicate Ordered(cases: seq<Case>, records: seq<CaseRecord>) {
    forall i, k | 0 <= i < |records| && 0 <= k < |cases| :: OrderedAt(cases, records, i, k)
  }

  ghost predicate OrderedAt(cases: seq<Case>, records: seq<CaseRecord>, i: nat, k: nat)
    requires i < |records| && k < |cases|
  {
    records[i].id == cases[k].id && !records[i].source.Stub? ==>
      && Grounded(records, i, cases[k])
      && (records[i].source.Reused? ==> !IsFaultCase(cases[k]))
  }

  lemma GroundedPrefix(records: seq<CaseRecord>, more: seq<CaseRecord>, n: nat, c: Case)
    requires n <= |records| && n <= |more| && forall i | 0 <= i < n :: records[i] == more[i]
    ensures Grounded(records, n, c) <==> Grounded(more, n, c)
  {
    forall id
      ensures Succeeded(records, n, id) <==> Succeeded(more, n, id)
    {
    }
  }

  lemma OrderedAppend(cases: seq<Case>, records: seq<CaseRecord>, r: CaseRecord, n: nat)
    requires Distinct(CaseIds(cases)) && Ordered(cases, records) && n < |cases| && r.id == cases[n].id
    requires !r.source.Stub? ==> Grounded(records, |records|, cases[n]) && (r.source.Reused? ==> !IsFaultCase(cases[n]))
    ensures Ordered(cases, records + [r])
  {
    var more := records + [r];
    forall i, k | 0 <= i < |more| && 0 <= k < |cases|
      ensures OrderedAt(cases, more, i, k)
    {
      if i < |records| {
        assert OrderedAt(cases, records, i, k);
        GroundedPrefix(records, more, i, cases[k]);
      } else if cases[k].id == r.id {
        assert CaseIds(cases)[k] == CaseIds(cases)[n];
        GroundedPrefix(records, more, |records|, cases[k]);
      }
    }
  }

  lemma VisitOrders(cases: seq<Case>, n: nat, l: Ledger, e: Conditions, host: Host)
    requires Distinct(CaseIds(cases)) && n < |cases| && Ordered(cases, l.records)
    ensures Ordered(cases, Visit(l, cases[n], e, host).records)
  {
    var next := Visit(l, cases[n], e, host);
    if |next.records| > |l.records| {
      OrderedAppend(cases, l.records, next.records[|l.records|], n);
    }
  }

  lemma {:induction false} LoopOrders(cases: seq<Case>, env: seq<Conditions>, host: Host, n: nat)
    requires Distinct(CaseIds(cases)) && |env| == |cases| && n <= |cases|
    ensures Ordered(cases, Loop(cases, env, host, n).records)
  {
    if n > 0 {
      LoopOrders(cases, env, host, n - 1);
      var l := Loop(cases, env, host, n - 1);
      if l.stop.None? {
        VisitOrders(cases, n - 1, l, env[n - 1], host);
      }
    }
  }

  /** In the report too: failing the last case at the end takes no prerequisite away from an earlier one. */
  lemma ReportOrdered(cases: seq<Case>, env: seq<Conditions>, host: Host)
    requires Distinct(CaseIds(cases)) && |env| == |cases|
    ensures Ordered(cases, ReportOf(cases, env, host).records)
  {
    var records := Loop(cases, env, host, |cases|).records;
    var final := FinalRecords(records, cases, host);
    LoopOrders(cases, env, host, |cases|);
    forall i, k | 0 <= i < |final| && 0 <= k < |cases|
      ensures OrderedAt(cases, final, i, k)
    {
      if records != [] {
        assert OrderedAt(cases, records, i, k);
        GroundedPrefix(records, final, i, cases[k]);
      }
    }
  }

  // ----- What the records say of the cases -----

  /** The case waits for the case with this id: its baseline, or the normal case of one of its faults. */
  ghost predicate WaitsFor(c: Case, id: string) {
    || c.baselineCaseId == Some(id)
    || exists i :: 0 <= i < |c.evidence| && c.evidence[i].Controlled? && c.evidence[i].normalCaseId == id
  }

  lemma {:induction false} NormalCasesMeaning(evidence: seq<Evidence>, id: string)
    ensures id in NormalCases(evidence)
       <==> exists i :: 0 <= i < |evidence| && evidence[i].Controlled? && evidence[i].normalCaseId == id
  {
    if evidence != [] {
      NormalCasesMeaning(evidence[1..], id);
      assert forall i | 0 < i < |evidence| :: evidence[i] == evidence[1..][i - 1];
    }
  }

  lemma PrerequisitesMeaning(c: Case, id: string)
    ensures id in PrerequisitesOf(c) <==> WaitsFor(c, id)
  {
    NormalCasesMeaning(c.evidence, id);
  }

  /** The run of the case went well: reused as a success, or executed, successful and contained. */
  predicate WentWell(c: Case, e: Conditions) {
    if !IsFaultCase(c) && e.reusable.Some? then e.reusable.value else e.succeeds && e.contained
  }

  /** The workspace found changed at the end, or not found, fails the last case that was returned. */
  predicate FailedAtEnd(host: Host, i: nat, count: nat) {
    host.sealed && !host.final.Unchanged? && i + 1 == count
  }

  /** What a record says of the case it belongs to; failed: it was failed at the end. */
  predicate Tells(c: Case, e: Conditions, host: Host, r: CaseRecord, failed: bool) {
    && r.id == c.id
    && (r.source.Stub? ==> !r.success && r.marks == NoTasks)
    && (!r.source.Stub? ==>
          && e.signal.Running? && host.sealed && host.monitored && e.ready
          && (r.source.Reused? <==> !IsFaultCase(c) && e.reusable.Some?)
          && r.success == (WentWell(c, e) && !failed) && r.marks == e.marks)
  }

  /** Record i belongs to one of the first n cases, and earlier records to earlier cases. */
  ghost predicate TellsAt(cases: seq<Case>, env: seq<Conditions>, host: Host, records: seq<CaseRecord>, i: nat, k: nat)
    requires |env| == |cases| && i < |records| && k < |cases|
  {
    Tells(cases[k], env[k], host, records[i], false)
  }

  ghost predicate InOrder(places: seq<nat>, n: nat) {
    && (forall i | 0 <= i < |places| :: places[i] < n)
    && forall i, j | 0 <= i < j < |places| :: places[i] < places[j]
  }

  lemma VisitTells(l: Ledger, c: Case, e: Conditions, host: Host)
    ensures var next := Visit(l, c, e, host);
            || next.records == l.records
            || (next.records == l.records + [next.records[|l.records|]]
                && Tells(c, e, host, next.records[|l.records|], false))
  {
  }

  /** The records of the loop, with the places of their cases in the plan. */
  lemma {:induction false} LoopTells(cases: seq<Case>, env: seq<Conditions>, host: Host, n: nat) returns (places: seq<nat>)
    requires |env| == |cases| && n <= |cases|
    ensures InOrder(places, n) && |places| == |Loop(cases, env, host, n).records|
    ensures forall i | 0 <= i < |places| :: TellsAt(cases, env, host, Loop(cases, env, host, n).records, i, places[i])
  {
    if n == 0 {
      places := [];
    } else {
      var last := n - 1;
      var l := Loop(cases, env, host, last);
      places := LoopTells(cases, env, host, last);
      if l.stop.None? {
        VisitTells(l, cases[last], env[last], host);
        var next := Visit(l, cases[last], env[last], host);
        if next.records != l.records {
          places := places + [last];
          assert next.records[|l.records|] == next.records[|places| - 1];
        }
      }
    }
  }

  /**
   * Every record of a report belongs to a planned case, in the plan's order, and says of it what the case's own
   * conditions say, unless the case was failed at the end.
   */
  lemma RecordsTell(cases: seq<Case>, env: seq<Conditions>, host: Host) returns (places: seq<nat>)
    requires |env| == |cases|
    ensures var records := ReportOf(cases, env, host).records;
            && InOrder(places, |cases|) && |places| == |records|
            && forall i | 0 <= i < |records| ::
                 Tells(cases[places[i]], env[places[i]], host, records[i], FailedAtEnd(host, i, |records|))
  {
    var records := Loop(cases, env, host, |cases|).records;
    var final := FinalRecords(records, cases, host);
    places := LoopTells(cases, env, host, |cases|);
    if records == [] && final != [] {
      places := [0];
    } else {
      forall i | 0 <= i < |final|
        ensures Tells(cases[places[i]], env[places[i]], host, final[i], FailedAtEnd(host, i, |final|))
      {
        assert TellsAt(cases, env, host, records, i, places[i]);
      }
    }
  }

  // ----- When a trial succeeds -----

  /** The loop came to the case, everything it waits for stands before it, the host was ready, and it went well. */
  ghost predicate Went(cases: seq<Case>, env: seq<Conditions>, k: nat)
    requires |env| == |cases| && k < |cases|
  {
    && env[k].signal.Running? && env[k].ready && WentWell(cases[k], env[k])
    && forall id | WaitsFor(cases[k], id) && id != "" :: Precedes(cases, id, k)
  }

  ghost predicate Precedes(cases: seq<Case>, id: string, k: nat) {
    exists j: nat :: j < k && j < |cases| && cases[j].id == id
  }

  /** The real workspace was verified before, during and after the cases. */
  predicate Verified(host: Host) {
    host.sealed && host.monitored && host.final.Unchanged?
  }

  /** A manual task nobody granted asked for approval, and no task is there to explain a failure. */
  predicate BlockedByManual(env: seq<Conditions>, host: Host) {
    host.manualRequest && forall k | 0 <= k < |env| :: !env[k].marks.failing
  }

  /** In increasing order, as many places as there are are all places. */
  lemma {:induction false} AllPlaces(places: seq<nat>, n: nat)
    requires InOrder(places, n) && |places| == n
    ensures forall i | 0 <= i < n :: places[i] == i
  {
    if n > 0 {
      assert forall i | 0 <= i < n - 1 :: places[i] < places[n - 1];
      AllPlaces(places[..n - 1], n - 1);
      assert forall i | 0 <= i < n - 1 :: places[i] == places[..n - 1][i] == i;
      assert n > 1 ==> places[n - 2] < places[n - 1];
    }
  }

  /** The first n records of a trial in which every case goes well. */
  ghost predicate AllWell(cases: seq<Case>, env: seq<Conditions>, records: seq<CaseRecord>, n: nat)
    requires |env| == |cases| && n <= |cases|
  {
    |records| == n && forall i | 0 <= i < n :: records[i].id == cases[i].id && records[i].success
                                               && records[i].marks == env[i].marks
  }

  lemma WentGrounded(cases: seq<Case>, env: seq<Conditions>, records: seq<CaseRecord>, n: nat)
    requires |env| == |cases| && n < |cases| && AllWell(cases, env, records, n) && Went(cases, env, n)
    ensures Grounded(records, n, cases[n])
  {
    forall id | id in PrerequisitesOf(cases[n])
      ensures id == "" || Succeeded(records, n, id)
    {
      PrerequisitesMeaning(cases[n], id);
      if id != "" {
        var j: nat :| j < n && j < |cases| && cases[j].id == id;
        assert records[j].id == id && records[j].success;
      }
    }
  }

  lemma VisitGoesWell(l: Ledger, c: Case, e: Conditions, host: Host)
    requires l.stop.None? && Grounded(l.records, |l.records|, c) && host.sealed && host.monitored
    requires e.signal.Running? && e.ready && WentWell(c, e)
    ensures var next := Visit(l, c, e, host);
            && next.stop.None? && |next.records| == |l.records| + 1 && next.records[..|l.records|] == l.records
            && next.records[|l.records|].id == c.id && next.records[|l.records|].success
            && next.records[|l.records|].marks == e.marks
  {
  }

  lemma {:induction false} LoopGoesWell(cases: seq<Case>, env: seq<Conditions>, host: Host, n: nat)
    requires |env| == |cases| && n <= |cases| && host.sealed && host.monitored
    requires forall k | 0 <= k < |cases| :: Went(cases, env, k)
    ensures Loop(cases, env, host, n).stop.None? && AllWell(cases, env, Loop(cases, env, host, n).records, n)
  {
    if n > 0 {
      var last := n - 1;
      var l := Loop(cases, env, host, last);
      LoopGoesWell(cases, env, host, last);
      WentGrounded(cases, env, l.records, last);
      VisitGoesWell(l, cases[last], env[last], host);
      var next := Visit(l, cases[last], env[last], host);
      assert forall i | 0 <= i < last :: next.records[i] == next.records[..last][i];
    }
  }

  /** The records of a trial whose cases all succeeded show what went on in the cases. */
  lemma AllSucceeded(cases: seq<Case>, env: seq<Conditions>, host: Host)
    requires Distinct(CaseIds(cases)) && |env| == |cases| && cases != []
    requires Passed(cases, ReportOf(cases, env, host).records, host)
    ensures Verified(host) && AllWell(cases, env, ReportOf(cases, env, host).records, |cases|)
    ensures forall k | 0 <= k < |cases| :: Went(cases, env, k)
  {
    var records := ReportOf(cases, env, host).records;
    var places := RecordsTell(cases, env, host);
    AllPlaces(places, |cases|);
    ReportOrdered(cases, env, host);
    assert Tells(cases[|cases| - 1], env[|cases| - 1], host, records[|cases| - 1], FailedAtEnd(host, |cases| - 1, |cases|))
      by { assert places[|cases| - 1] == |cases| - 1; }
    forall k | 0 <= k < |cases|
      ensures Went(cases, env, k) && records[k].id == cases[k].id && records[k].marks == env[k].marks
    {
      assert Tells(cases[places[k]], env[places[k]], host, records[k], FailedAtEnd(host, k, |records|));
      assert OrderedAt(cases, records, k, k);
      PrecedingCases(cases, records, k);
    }
  }

  lemma PrecedingCases(cases: seq<Case>, records: seq<CaseRecord>, k: nat)
    requires k < |cases| && k < |records| && Grounded(records, k, cases[k])
    requires forall i | 0 <= i < k :: Matches(records[i], cases[i])
    ensures forall id | WaitsFor(cases[k], id) && id != "" :: Precedes(cases, id, k)
  {
    forall id | WaitsFor(cases[k], id) && id != ""
      ensures Precedes(cases, id, k)
    {
      PrerequisitesMeaning(cases[k], id);
      var i :| 0 <= i < k && records[i].id == id && records[i].success;
      assert Matches(records[i], cases[i]);
    }
  }

  predicate Matches(r: CaseRecord, c: Case) {
    r.id == c.id
  }

  lemma ManualMeaning(cases: seq<Case>, env: seq<Conditions>, host: Host, records: seq<CaseRecord>)
    requires |env| == |cases| && AllWell(cases, env, records, |cases|) && Verified(host) && !host.timedOut
    ensures ManualOnly(records, host) <==> BlockedByManual(env, host)
  {
    assert forall k | 0 <= k < |cases| :: records[k].marks.failing == env[k].marks.failing;
  }

  /**
   * A trial succeeds exactly if its time did not run out, the real workspace was verified throughout, every planned
   * case was reached, had everything it waits for before it and went well, and no ungranted manual task blocks it.
   */
  lemma SuccessMeaning(cases: seq<Case>, env: seq<Conditions>, host: Host)
    requires Distinct(CaseIds(cases)) && |env| == |cases| && cases != []
    ensures ReportOf(cases, env, host).success <==>
              && !host.timedOut && Verified(host)
              && (forall k | 0 <= k < |cases| :: Went(cases, env, k))
              && !BlockedByManual(env, host)
  {
    var records := ReportOf(cases, env, host).records;
    if Passed(cases, records, host) {
      AllSucceeded(cases, env, host);
      ManualMeaning(cases, env, host, records);
    }
    if Verified(host) && !host.timedOut && forall k | 0 <= k < |cases| :: Went(cases, env, k) {
      LoopGoesWell(cases, env, host, |cases|);
      assert Passed(cases, records, host);
    }
  }

  /** The kind of a report, in the order in which the reasons take precedence. */
  lemma KindMeaning(cases: seq<Case>, env: seq<Conditions>, host: Host)
    requires |env| == |cases| && cases != []
    ensures var report := ReportOf(cases, env, host);
            var captured := host.sealed && !host.final.NotCaptured?;
            var onlyBlocked := (forall i | 0 <= i < |report.records| :: !report.records[i].marks.failing)
                               && forall i | 0 <= i < |report.records| ::
                                    report.records[i].success || report.records[i].marks.blocked;
            var unready := exists id :: NotReady(cases, env, host, |cases|, id);
            && (report.kind.KindTimedOut? <==> host.timedOut)
            && (report.kind.KindWitnessFailed? <==> !host.timedOut && !captured)
            && (report.kind.KindBlocked? <==> !host.timedOut && captured && onlyBlocked
                                              && (host.manualRequest || (!report.success && unready)))
            && (report.kind.KindPassed? <==> report.success && !host.warned && !unready)
            && (report.kind.KindPassedWithWarnings? <==> report.success && (host.warned || unready))
            && (report.kind.KindPlan? || report.kind.KindFailed? <==>
                  && !host.timedOut && captured && !report.success
                  && !(onlyBlocked && (host.manualRequest || unready)))
            && (report.kind.KindPlan? ==> host.planReview) && (report.kind.KindFailed? ==> !host.planReview)
  {
    KindMatchesSuccess(cases, env, host);
    BlockedMeaning(cases, env, host);
  }

  lemma BlockedMeaning(cases: seq<Case>, env: seq<Conditions>, host: Host)
    requires |env| == |cases|
    ensures Loop(cases, env, host, |cases|).blocked != {} <==> exists id :: NotReady(cases, env, host, |cases|, id)
  {
    var blocked := Loop(cases, env, host, |cases|).blocked;
    if blocked != {} {
      var id :| id in blocked;
      LoopBlockedMeaning(cases, env, host, |cases|, id);
    }
    if id :| NotReady(cases, env, host, |cases|, id) {
      LoopBlockedMeaning(cases, env, host, |cases|, id);
    }
  }

  // ----- Why a case did not run -----

  /** Where a case went. */
  datatype Place = Returned | LeftBlocked | LeftUngrounded | Elsewhere

  function PlaceOf(l: Ledger, id: string): Place {
    if id in RecordIds(l.records) then Returned
    else if id in l.blocked then LeftBlocked
    else if id in l.ungrounded then LeftUngrounded
    else Elsewhere
  }

  /** Where a case goes if the loop does not stop: only its prerequisites and its readiness decide. */
  function Due(l: Ledger, c: Case, e: Conditions): Place {
    if !Grounded(l.records, |l.records|, c) then LeftUngrounded else if !e.ready then LeftBlocked else Returned
  }

  lemma VisitDecides(l: Ledger, c: Case, e: Conditions, host: Host)
    requires l.stop.None? && Visit(l, c, e, host).stop.None? && PlaceOf(l, c.id) == Elsewhere
    ensures PlaceOf(Visit(l, c, e, host), c.id) == Due(l, c, e)
  {
    var next := Visit(l, c, e, host);
    if |next.records| > |l.records| {
      AppendId(l.records, next.records[|l.records|]);
    }
  }

  lemma PlaceKept(l: Ledger, next: Ledger, added: string, id: string)
    requires AddsTo(l, next, added) && id != added
    ensures PlaceOf(next, id) == PlaceOf(l, id)
  {
  }

  lemma NewCaseElsewhere(cases: seq<Case>, n: nat, l: Ledger)
    requires Distinct(CaseIds(cases)) && n < |cases| && Placed(cases, n, l)
    ensures PlaceOf(l, cases[n].id) == Elsewhere
  {
    NewId(cases, n);
  }

  /** As long as the loop has not stopped, every case went where it was due. */
  lemma {:induction false} CasePlace(cases: seq<Case>, env: seq<Conditions>, host: Host, n: nat, k: nat)
    requires Distinct(CaseIds(cases)) && |env| == |cases| && k < n <= |cases|
    requires Loop(cases, env, host, n).stop.None?
    ensures PlaceOf(Loop(cases, env, host, n), cases[k].id) == Due(Loop(cases, env, host, k), cases[k], env[k])
  {
    var l := Loop(cases, env, host, n - 1);
    if k < n - 1 {
      CasePlace(cases, env, host, n - 1, k);
      VisitAdds(l, cases[n - 1], env[n - 1], host);
      assert CaseIds(cases)[k] != CaseIds(cases)[n - 1];
      PlaceKept(l, Visit(l, cases[n - 1], env[n - 1], host), cases[n - 1].id, cases[k].id);
    } else {
      LoopPlaces(cases, env, host, k);
      NewCaseElsewhere(cases, k, l);
      VisitDecides(l, cases[k], env[k], host);
    }
  }

  lemma {:induction false} NotRunReasons(cases: seq<Case>, returned: seq<string>, l: Ledger, stop: Option<Reason>, i: nat)
    requires i < |NotRunCases(cases, returned, l, stop)|
    ensures NotRunCases(cases, returned, l, stop)[i].reason == ReasonFor(l, stop, NotRunCases(cases, returned, l, stop)[i].id)
  {
    var n := |cases| - 1;
    var rest := NotRunCases(cases[..n], returned, l, stop);
    if i < |rest| {
      NotRunReasons(cases[..n], returned, l, stop, i);
    }
  }

  /** The loop came to case k: nothing had stopped it before. */
  ghost predicate CameTo(cases: seq<Case>, env: seq<Conditions>, host: Host, k: nat)
    requires |env| == |cases|
  {
    k < |cases| && Loop(cases, env, host, k).stop.None?
  }

  /** The host lets the case go ahead. */
  predicate Admitted(e: Conditions, host: Host) {
    e.signal.Running? && host.sealed && host.monitored
  }

  /** The case is executed when the loop comes to it. */
  predicate Executes(l: Ledger, c: Case, e: Conditions, host: Host) {
    Admitted(e, host) && Grounded(l.records, |l.records|, c) && e.ready && ReusableRecord(c, e).None?
  }

  /** What stopped the loop at case k: time had run out, a stop was asked for, or the real workspace was not safe. */
  ghost predicate StopsAt(cases: seq<Case>, env: seq<Conditions>, host: Host, k: nat, reason: Reason)
    requires |env| == |cases|
  {
    CameTo(cases, env, host, k) &&
    match reason
    case TimedOut => env[k].signal.TimeExpired?
    case Aborted => env[k].signal.Stopped?
    case VerificationFailed =>
      && env[k].signal.Running?
      && (|| !host.sealed || !host.monitored
          || (Executes(Loop(cases, env, host, k), cases[k], env[k], host) && !env[k].contained))
    case _ => false
  }

  ghost predicate StoppedFor(cases: seq<Case>, env: seq<Conditions>, host: Host, reason: Reason)
    requires |env| == |cases|
  {
    exists k: nat :: StopsAt(cases, env, host, k, reason)
  }

  /** The loop came to the case with this id, whose prerequisite cases had succeeded, and the host was not ready. */
  ghost predicate NotReadyAt(cases: seq<Case>, env: seq<Conditions>, host: Host, k: nat, id: string)
    requires |env| == |cases|
  {
    CameTo(cases, env, host, k) && cases[k].id == id && Admitted(env[k], host)
    && Due(Loop(cases, env, host, k), cases[k], env[k]) == LeftBlocked
  }

  ghost predicate NotReady(cases: seq<Case>, env: seq<Conditions>, host: Host, n: nat, id: string)
    requires |env| == |cases|
  {
    exists k: nat :: k < n && NotReadyAt(cases, env, host, k, id)
  }

  /** The loop came to the case with this id before some prerequisite case of it had succeeded. */
  ghost predicate WithoutPrerequisite(cases: seq<Case>, env: seq<Conditions>, host: Host, id: string)
    requires |env| == |cases|
  {
    exists k: nat, p :: CameTo(cases, env, host, k) && cases[k].id == id && p in PrerequisitesOf(cases[k]) && p != ""
                   && var records := Loop(cases, env, host, k).records; !Succeeded(records, |records|, p)
  }

  lemma {:induction false} LoopStopMeaning(cases: seq<Case>, env: seq<Conditions>, host: Host, n: nat, reason: Reason)
    requires |env| == |cases| && n <= |cases|
    ensures Loop(cases, env, host, n).stop == Some(reason)
       <==> exists k: nat :: k < n && StopsAt(cases, env, host, k, reason)
  {
    if n > 0 {
      LoopStopMeaning(cases, env, host, n - 1, reason);
      VisitStop(cases, env, host, n - 1, reason);
    }
  }

  lemma StopMeaning(cases: seq<Case>, env: seq<Conditions>, host: Host, reason: Reason)
    requires |env| == |cases|
    ensures Loop(cases, env, host, |cases|).stop == Some(reason) <==> StoppedFor(cases, env, host, reason)
    ensures reason.ExecutionStopped? || reason.PrerequisiteUnavailable? ==> !StoppedFor(cases, env, host, reason)
  {
    LoopStopMeaning(cases, env, host, |cases|, reason);
    assert forall k: nat | StopsAt(cases, env, host, k, reason) :: k < |cases|;
  }

  lemma VisitStop(cases: seq<Case>, env: seq<Conditions>, host: Host, k: nat, reason: Reason)
    requires |env| == |cases| && k < |cases|
    ensures StopsAt(cases, env, host, k, reason) <==>
              Loop(cases, env, host, k).stop.None? && Loop(cases, env, host, k + 1).stop == Some(reason)
  {
  }

  lemma {:induction false} LoopBlockedMeaning(cases: seq<Case>, env: seq<Conditions>, host: Host, n: nat, id: string)
    requires |env| == |cases| && n <= |cases|
    ensures id in Loop(cases, env, host, n).blocked <==> NotReady(cases, env, host, n, id)
  {
    if n > 0 {
      LoopBlockedMeaning(cases, env, host, n - 1, id);
      LoopBlocks(cases, env, host, n - 1, id);
    }
  }

  lemma VisitBlocks(l: Ledger, c: Case, e: Conditions, host: Host, id: string)
    ensures id in Visit(l, c, e, host).blocked
       <==> id in l.blocked || (c.id == id && Admitted(e, host) && Due(l, c, e) == LeftBlocked)
  {
  }

  lemma LoopBlocks(cases: seq<Case>, env: seq<Conditions>, host: Host, k: nat, id: string)
    requires |env| == |cases| && k < |cases|
    ensures id in Loop(cases, env, host, k + 1).blocked
       <==> id in Loop(cases, env, host, k).blocked || NotReadyAt(cases, env, host, k, id)
  {
    VisitBlocks(Loop(cases, env, host, k), cases[k], env[k], host, id);
  }

  /**
   * Why a planned case did not run: the host was not ready for it; or else what stopped the loop; or, when nothing
   * did, a prerequisite case of it had not succeeded.
   */
  ghost predicate Explains(cases: seq<Case>, env: seq<Conditions>, host: Host, entry: NotRun)
    requires |env| == |cases|
  {
    var unready := NotReady(cases, env, host, |cases|, entry.id);
    && (entry.reason.PrerequisiteUnavailable? <==> unready)
    && (entry.reason.TimedOut? <==> !unready && StoppedFor(cases, env, host, TimedOut))
    && (entry.reason.Aborted? <==> !unready && StoppedFor(cases, env, host, Aborted))
    && (entry.reason.VerificationFailed? <==> !unready && StoppedFor(cases, env, host, VerificationFailed))
    && (entry.reason.ExecutionStopped? ==> WithoutPrerequisite(cases, env, host, entry.id))
  }

  lemma EntryReason(cases: seq<Case>, env: seq<Conditions>, host: Host, i: nat)
    requires Distinct(CaseIds(cases)) && |env| == |cases|
    requires i < |ReportOf(cases, env, host).notRun|
    ensures var l, entry := Loop(cases, env, host, |cases|), ReportOf(cases, env, host).notRun[i];
            && entry.reason == ReasonFor(l, l.stop, entry.id)
            && entry.id in CaseIds(cases) && entry.id !in RecordIds(l.records)
  {
    var l := Loop(cases, env, host, |cases|);
    var records := FinalRecords(l.records, cases, host);
    var stop := FinalStop(l, records, cases);
    FallbackNeverTaken(cases, env, host);
    NotRunReasons(cases, RecordIds(records), l, stop, i);
    NotRunMatching(cases, RecordIds(records), l, stop);
    MatchingMembers(CaseIds(cases), Outside(RecordIds(records)));
    assert NotRunIds(ReportOf(cases, env, host).notRun)[i] in CaseIds(cases);
    assert l.records != [] ==> RecordIds(records) == RecordIds(l.records);
  }

  /** A case an unstopped loop neither returned nor found unready lacked a prerequisite. */
  lemma LeftWithoutPrerequisite(cases: seq<Case>, env: seq<Conditions>, host: Host, id: string)
    requires Distinct(CaseIds(cases)) && |env| == |cases| && id in CaseIds(cases)
    requires var l := Loop(cases, env, host, |cases|); l.stop.None? && id !in RecordIds(l.records) && id !in l.blocked
    ensures WithoutPrerequisite(cases, env, host, id)
  {
    var k :| 0 <= k < |cases| && CaseIds(cases)[k] == id;
    CasePlace(cases, env, host, |cases|, k);
    LoopUnstopped(cases, env, host, k, |cases|);
    var records := Loop(cases, env, host, k).records;
    var p :| p in PrerequisitesOf(cases[k]) && !(p == "" || Succeeded(records, |records|, p));
    assert CameTo(cases, env, host, k);
  }

  lemma {:induction false} LoopUnstopped(cases: seq<Case>, env: seq<Conditions>, host: Host, n: nat, m: nat)
    requires |env| == |cases| && n <= m <= |cases| && Loop(cases, env, host, m).stop.None?
    ensures Loop(cases, env, host, n).stop.None?
  {
    if n < m {
      LoopUnstopped(cases, env, host, n, m - 1);
    }
  }

  /** The reason of every not-run case in the report is what happened. */
  lemma NotRunExplained(cases: seq<Case>, env: seq<Conditions>, host: Host, i: nat)
    requires Distinct(CaseIds(cases)) && |env| == |cases|
    requires i < |ReportOf(cases, env, host).notRun|
    ensures Explains(cases, env, host, ReportOf(cases, env, host).notRun[i])
  {
    var l, entry := Loop(cases, env, host, |cases|), ReportOf(cases, env, host).notRun[i];
    EntryReason(cases, env, host, i);
    LoopBlockedMeaning(cases, env, host, |cases|, entry.id);
    StopMeaning(cases, env, host, TimedOut);
    StopMeaning(cases, env, host, Aborted);
    StopMeaning(cases, env, host, VerificationFailed);
    StopMeaning(cases, env, host, ExecutionStopped);
    StopMeaning(cases, env, host, PrerequisiteUnavailable);
    if entry.reason.ExecutionStopped? {
      LeftWithoutPrerequisite(cases, env, host, entry.id);
    }
  }

  // ----- Counters -----

  function CountFrom(records: seq<CaseRecord>, source: Source): nat {
    if records == [] then 0
    else CountFrom(records[..|records| - 1], source) + if records[|records| - 1].source == source then 1 else 0
  }

  lemma {:induction false} LoopCounts(cases: seq<Case>, env: seq<Conditions>, host: Host, n: nat)
    requires |env| == |cases| && n <= |cases|
    ensures var l := Loop(cases, env, host, n);
            l.executed == CountFrom(l.records, Executed) && l.reused == CountFrom(l.records, Reused)
  {
    if n > 0 {
      LoopCounts(cases, env, host, n - 1);
      VisitCounts(Loop(cases, env, host, n - 1), cases[n - 1], env[n - 1], host);
    }
  }

  lemma VisitCounts(l: Ledger, c: Case, e: Conditions, host: Host)
    requires l.executed == CountFrom(l.records, Executed) && l.reused == CountFrom(l.records, Reused)
    ensures var next := Visit(l, c, e, host);
            next.executed == CountFrom(next.records, Executed) && next.reused == CountFrom(next.records, Reused)
  {
    var next := Visit(l, c, e, host);
    if |next.records| > |l.records| {
      assert next.records[..|l.records|] == l.records;
    }
  }

  /** The counters count the returned cases that were executed and those that were reused. */
  lemma ReportCounts(cases: seq<Case>, env: seq<Conditions>, host: Host)
    requires |env| == |cases|
    ensures var report := ReportOf(cases, env, host);
            && report.executed == CountFrom(report.records, Executed)
            && report.reused == CountFrom(report.records, Reused)
  {
    var l := Loop(cases, env, host, |cases|);
    var final := FinalRecords(l.records, cases, host);
    LoopCounts(cases, env, host, |cases|);
    if l.records != [] {
      assert final[..|final| - 1] == l.records[..|final| - 1];
    } else if final != [] {
      assert final[..0] == [];
    }
  }

  datatype ResultKind = TimedOutResult | AbortedResult | WitnessFailed | OtherResult

  /** resultWithTrialPlan: a result without a not-run list gets one with a single reason. */
  method ResultWithTrialPlan(cases: seq<Case>, records: seq<CaseRecord>, given: Option<seq<NotRun>>, kind: ResultKind)
    returns (notRun: seq<NotRun>)
    ensures given.Some? ==> notRun == given.value
    ensures given.None? ==> NotRunIds(notRun) == Matching(CaseIds(cases), Outside(RecordIds(records)))
    ensures given.None? ==> forall i | 0 <= i < |notRun| ::
              notRun[i].reason == (match kind case TimedOutResult => TimedOut case AbortedResult => Aborted
                                   case WitnessFailed => VerificationFailed case OtherResult => ExecutionStopped)
  {
    if given.Some? {
      return given.value;
    }
    var reason := match kind
      case TimedOutResult => TimedOut
      case AbortedResult => Aborted
      case WitnessFailed => VerificationFailed
      case OtherResult => ExecutionStopped;
    var returned := RecordIds(records);
    notRun := [];
    for i := 0 to |cases|
      invariant NotRunIds(notRun) == Matching(CaseIds(cases)[..i], Outside(returned))
      invariant forall k | 0 <= k < |notRun| :: notRun[k].reason == reason
    {
      var ids := CaseIds(cases);
      assert ids[..i + 1][..i] == ids[..i];
      if ids[i] !in returned {
        notRun := notRun + [NotRun(ids[i], reason)];
      }
    }
    assert CaseIds(cases)[..|cases|] == CaseIds(cases);
  }

  /** Deriving the not-run list again from a report's records gives the cases the report lists. */
  lemma DerivedNotRun(cases: seq<Case>, env: seq<Conditions>, host: Host)
    requires |env| == |cases|
    ensures var report := ReportOf(cases, env, host);
            NotRunIds(report.notRun) == Matching(CaseIds(cases), Outside(RecordIds(report.records)))
  {
    var l := Loop(cases, env, host, |cases|);
    var records := FinalRecords(l.records, cases, host);
    NotRunMatching(cases, RecordIds(records), l, FinalStop(l, records, cases));
  }
}
