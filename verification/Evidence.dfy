/** inspectEvidence: which resilience obligations a plan's declared evidence meets. */
module Evidence {
  import opened Common
  import opened Json
  import opened JsonPointer
  import opened Plan
  import opened Contrast
  import opened Workspace
  import opened Evaluation
  import opened PreservedLines
  import opened Ordering
  import Graph

  datatype Decision = Decision(kind: EvidenceKind, required: bool, taskIds: seq<string>)

  datatype Issue = Issue(kind: EvidenceKind, caseId: Option<string>, code: string)

  /** What the inspection looks at; tasks are absent when no graph is known. */
  datatype Inspection = Inspection(cases: seq<Case>, decisions: seq<Decision>, tasks: Option<Tasks>, collate: Collation)

  function TasksOf(p: Inspection): Tasks {
    if p.tasks.Some? then p.tasks.value else map[]
  }

  /** The reviewed task scope of a kind of evidence, when the review requires that kind. */
  function Responsible(decisions: seq<Decision>, kind: EvidenceKind): Option<seq<string>> {
    if decisions == [] then None
    else if decisions[0].kind == kind && decisions[0].required then Some(decisions[0].taskIds)
    else Responsible(decisions[1..], kind)
  }

  predicate IsNormalFor(n: Case, c: Case, normalCaseId: string) {
    n.id == normalCaseId && n.id != c.id && !IsFaultCase(n)
  }

  /** The first case that can serve as the normal case, or the number of cases. */
  function NormalIndex(cases: seq<Case>, c: Case, normalCaseId: string): (i: nat)
    ensures i <= |cases|
    ensures i < |cases| ==> IsNormalFor(cases[i], c, normalCaseId)
    ensures forall k | 0 <= k < i :: !IsNormalFor(cases[k], c, normalCaseId)
  {
    if cases == [] || IsNormalFor(cases[0], c, normalCaseId) then 0
    else 1 + NormalIndex(cases[1..], c, normalCaseId)
  }

  function NormalOf(cases: seq<Case>, c: Case, normalCaseId: string): Option<Case> {
    var ni := NormalIndex(cases, c, normalCaseId);
    if ni < |cases| then Some(cases[ni]) else None
  }

  /** The first present fixture at a path. */
  function PresentFixture(fixtures: seq<Fixture>, path: string): (content: Option<string>)
    ensures content.Some? <==> exists i | 0 <= i < |fixtures| :: fixtures[i].path == path && fixtures[i].content.Some?
  {
    if fixtures == [] then None
    else if fixtures[0].path == path && fixtures[0].content.Some? then fixtures[0].content
    else PresentFixture(fixtures[1..], path)
  }

  /** preservedSource: the case asserts that a present fixture keeps its bytes. */
  predicate PreservedSource(c: Case, path: string) {
    match PresentFixture(c.fixtures, path)
    case Some(content) => FileEquals(path, content) in c.expectations
    case None => false
  }

  function ExpectationAt(c: Case, index: Option<nat>): Option<Expectation> {
    if index.Some? && index.value < |c.expectations| then Some(c.expectations[index.value]) else None
  }

  function FaultStatus(f: Fault): TaskStatus {
    if f.TaskTimeout? then Timeout else Failed
  }

  /** The first expected value at a path and pointer. */
  function ExpectedAt(expectations: seq<Expectation>, path: string, pointer: string): Option<Json> {
    if expectations == [] then None
    else match expectations[0]
      case PointerEquals(p, q, expected) =>
        if p == path && q == pointer then Some(expected) else ExpectedAt(expectations[1..], path, pointer)
      case _ => ExpectedAt(expectations[1..], path, pointer)
  }

  function KindOfCollection(value: Json): CollectionKind {
    if value.Arr? then ArrayKind else ObjectKind
  }

  // ----- What sound evidence means -----

  predicate PreservationSound(c: Case, index: nat, responsible: Option<seq<string>>) {
    && index < |c.expectations|
    && c.expectations[index].FilePreservesLines?
    && Fixture(c.expectations[index].sourcePath, Some(c.expectations[index].text)) in c.fixtures
    && exists i | 0 <= i < |c.expectations| ::
         && c.expectations[i].TaskStatusIs? && c.expectations[i].status == Success
         && (responsible.None? || c.expectations[i].taskId in responsible.value)
  }

  /** The fault case follows a single-run normal case with the same inputs, and neither is a negative probe. */
  predicate NormalSound(p: Inspection, ci: nat, ni: nat)
    requires ci < |p.cases|
  {
    && ni < ci
    && p.cases[ci].baselineCaseId.None? && p.cases[ni].baselineCaseId.None?
    && SameInputs(p.cases[ci], p.cases[ni], p.collate)
    && p.cases[ci].runs == 1 && p.cases[ni].runs == 1
  }

  /** Conditions every controlled fault shares. */
  ghost predicate PairSound(p: Inspection, ci: nat, ev: Plan.Evidence)
    requires ci < |p.cases| && ev.Controlled?
  {
    var c, ni := p.cases[ci], NormalIndex(p.cases, p.cases[ci], ev.normalCaseId);
    var responsible := Responsible(p.decisions, ev.kind);
    && NormalSound(p, ci, ni)
    && AssertsStatus(c, ev.recoveredTaskId, Success) && AssertsStatus(p.cases[ni], ev.recoveredTaskId, Success)
    && (responsible.Some? ==> ev.recoveredTaskId in responsible.value)
    && ev.recoveredTaskId in ClosureOf(c.targets, TasksOf(p))
    && (forall k | 0 <= k < |ev.outcomeIndices| :: OutcomeSound(c, Some(p.cases[ni]), ev.outcomeIndices[k]))
  }

  /** A referenced outcome is a concrete assertion, contrasted with the normal case if there is one. */
  predicate OutcomeSound(c: Case, normal: Option<Case>, index: nat) {
    && index < |c.expectations|
    && (c.expectations[index].FileContains? || c.expectations[index].PointerEquals?)
    && (normal.Some? ==> Contrasted(c.expectations[index], normal.value))
  }

  /** A native subprocess fault: a downstream task recovers from a task that fails only in the fault case. */
  ghost predicate NativeFaultSound(p: Inspection, c: Case, normal: Option<Case>, ev: Plan.Evidence)
    requires ev.Controlled?
  {
    var f := ev.fault;
    && (if ev.kind.TimeoutRecovery? then f.TaskTimeout? else f.TaskExit?)
    && f.taskId in TasksOf(p) && f.taskId in ClosureOf(c.targets, TasksOf(p))
    && AssertsStatus(c, f.taskId, FaultStatus(f))
    && (normal.Some? ==> AssertsStatus(normal.value, f.taskId, Success))
    && f.taskId != ev.recoveredTaskId && f.taskId in ClosureOf([ev.recoveredTaskId], TasksOf(p))
    && (TasksOf(p)[f.taskId].onFailure.None? || TasksOf(p)[f.taskId].onFailure == Some(Ignore))
  }

  /** A data fault: a generated artifact is replaced between its producer and a downstream consumer. */
  ghost predicate DataFaultSound(p: Inspection, c: Case, normal: Option<Case>, ev: Plan.Evidence)
    requires ev.Controlled?
  {
    && ev.fault.ArtifactReplace?
    && BoundarySound(p, c, ev)
    && PresentFixture(c.fixtures, ev.fault.path).None?
    && normal.Some? && StatusesSound(c, ev.fault) && StatusesSound(normal.value, ev.fault)
    && ObservationSound(c, normal.value, ev)
  }

  /** The case observes, in the replaced artifact, what the normal case rules out. */
  predicate ObservationSound(c: Case, normal: Case, ev: Plan.Evidence)
    requires ev.Controlled? && ev.fault.ArtifactReplace?
  {
    var f, observation := ev.fault, ExpectationAt(c, ev.observationIndex);
    && f.content.Some?
    && observation.Some?
    && (if ev.kind.EmptyResult? then EmptyObservationSound(normal, f.path, f.content.value, observation.value)
        else SourceObservationSound(c, normal, f.path, f.content.value, observation.value))
  }

  /** The replaced artifact holds an empty collection where the normal case asserts a nonempty one. */
  predicate EmptyObservationSound(normal: Case, path: string, content: Json, observation: Expectation) {
    && observation.PointerEquals? && observation.path == path
    && EmptyCollection(observation.expected)
    && Lookup(content, observation.pointer).Some?
    && SameJson(Lookup(content, observation.pointer).value, observation.expected)
    && (|| PointerCollection(path, observation.pointer, KindOfCollection(observation.expected), true) in normal.expectations
        || (match ExpectedAt(normal.expectations, path, observation.pointer)
            case Some(original) => IsCollection(original, KindOfCollection(observation.expected)) && Size(original) > 0
            case None => false))
  }

  /** The replaced artifact holds a nonempty text absent from a source both cases preserve. */
  predicate SourceObservationSound(c: Case, normal: Case, path: string, content: Json, observation: Expectation) {
    && observation.PointerTextOccurrence? && !observation.present && observation.path == path
    && PreservedSource(c, observation.sourcePath) && PreservedSource(normal, observation.sourcePath)
    && PointerTextOccurrence(path, observation.pointer, observation.sourcePath, true) in normal.expectations
    && (match Lookup(content, observation.pointer)
        case Some(Str(span)) => !Blank(span) && !Includes(PresentFixture(c.fixtures, observation.sourcePath).value, span)
        case _ => false)
  }

  ghost predicate Sound(p: Inspection, ci: nat, ev: Plan.Evidence)
    requires ci < |p.cases|
  {
    var responsible := Responsible(p.decisions, KindOf(ev));
    && (p.tasks.Some? && responsible.Some? ==> forall k | 0 <= k < |responsible.value| :: responsible.value[k] in p.tasks.value)
    && (match ev
        case Preservation(index) => PreservationSound(p.cases[ci], index, responsible)
        case Controlled(kind, normalCaseId, _, _, _, _) =>
          && PairSound(p, ci, ev)
          && var c, normal := p.cases[ci], NormalOf(p.cases, p.cases[ci], normalCaseId);
             if kind.TimeoutRecovery? || kind.FailureRecovery? then NativeFaultSound(p, c, normal, ev)
             else DataFaultSound(p, c, normal, ev))
  }

  // ----- The checks as the program makes them -----

  method CheckNative(p: Inspection, c: Case, normal: Option<Case>, ev: Plan.Evidence, selected: set<string>)
    returns (errors: seq<string>)
    requires ev.Controlled? && (ev.kind.TimeoutRecovery? || ev.kind.FailureRecovery?)
    requires selected == ClosureOf(c.targets, TasksOf(p))
    ensures errors == [] <==> NativeFaultSound(p, c, normal, ev)
  {
    var f := ev.fault;
    errors := [];
    if (if ev.kind.TimeoutRecovery? then !f.TaskTimeout? else !f.TaskExit?) {
      errors := errors + ["native-fault-type-mismatch"];
    }
    if !f.ArtifactReplace? {
      if f.taskId !in selected || f.taskId !in TasksOf(p) {
        errors := errors + ["fault-task-outside-closure"];
      }
      if !AssertsStatus(c, f.taskId, FaultStatus(f)) || (normal.Some? && !AssertsStatus(normal.value, f.taskId, Success)) {
        errors := errors + ["native-fault-status-missing"];
      }
      var upstream := Graph.Closure([ev.recoveredTaskId], DependenciesOf(TasksOf(p)));
      if f.taskId == ev.recoveredTaskId || f.taskId !in upstream {
        errors := errors + ["recovery-dependency-missing"];
      }
      if f.taskId in TasksOf(p) && TasksOf(p)[f.taskId].onFailure.Some? && TasksOf(p)[f.taskId].onFailure.value != Ignore {
        errors := errors + ["failure-policy-stops-recovery"];
      }
    }
  }

  method CheckObservation(c: Case, normal: Option<Case>, ev: Plan.Evidence) returns (errors: seq<string>)
    requires ev.Controlled? && ev.fault.ArtifactReplace?
    ensures errors == [] <==> normal.Some? && ObservationSound(c, normal.value, ev)
  {
    var f, observation := ev.fault, ExpectationAt(c, ev.observationIndex);
    errors := [];
    if f.content.None? {
      errors := errors + ["fault-content-json-invalid"];
    }
    if observation.Some? && observation.value.PointerEquals? {
      var actual := None;
      if f.content.Some? {
        actual := PointerValue(f.content.value, observation.value.pointer);
      }
      if actual.None? || !SameJson(actual.value, observation.value.expected) {
        errors := errors + ["fault-input-value-mismatch"];
      }
    }
    if observation.Some? && observation.value.PointerTextOccurrence? {
      var span := None;
      if f.content.Some? {
        span := PointerValue(f.content.value, observation.value.pointer);
      }
      var source := PresentFixture(c.fixtures, observation.value.sourcePath);
      if span.None? || !span.value.Str? || Blank(span.value.s) || source.None? || Includes(source.value, span.value.s) {
        errors := errors + ["fault-source-span-invalid"];
      }
    }
    if ev.kind.EmptyResult? {
      if observation.None? || !observation.value.PointerEquals? {
        errors := errors + ["empty-observation-missing"];
      } else {
        var o := observation.value;
        if o.path != f.path || !EmptyCollection(o.expected) {
          errors := errors + ["empty-observation-invalid"];
        }
        var original := if normal.Some? then ExpectedAt(normal.value.expectations, o.path, o.pointer) else None;
        var structural := normal.Some? &&
          PointerCollection(o.path, o.pointer, KindOfCollection(o.expected), true) in normal.value.expectations;
        if !structural &&
           (original.None? || Primitive(original.value) || Size(original.value) == 0 ||
            original.value.Arr? != o.expected.Arr?)
        {
          errors := errors + ["normal-collection-missing"];
        }
      }
    } else if || observation.None?
              || !observation.value.PointerTextOccurrence?
              || observation.value.present
              || observation.value.path != f.path
              || !PreservedSource(c, observation.value.sourcePath)
              || normal.None?
              || !PreservedSource(normal.value, observation.value.sourcePath)
              || PresentFixture(c.fixtures, observation.value.sourcePath).None?
              || PointerTextOccurrence(observation.value.path, observation.value.pointer,
                                       observation.value.sourcePath, true) !in normal.value.expectations
    {
      errors := errors + ["source-relation-missing"];
    }
  }

  /** The replaced artifact lies between a producer and a downstream consumer that the case runs. */
  ghost predicate BoundarySound(p: Inspection, c: Case, ev: Plan.Evidence)
    requires ev.Controlled? && ev.fault.ArtifactReplace?
  {
    var f := ev.fault;
    && f.producerTaskId in ClosureOf(c.targets, TasksOf(p)) && f.consumerTaskId in ClosureOf(c.targets, TasksOf(p))
    && f.producerTaskId in ClosureOf([f.consumerTaskId], TasksOf(p)) && f.producerTaskId != f.consumerTaskId
    && f.consumerTaskId in ClosureOf([ev.recoveredTaskId], TasksOf(p))
    && f.path in ArtifactsOf(TasksOf(p), f.producerTaskId)
  }

  predicate StatusesSound(c: Case, f: Fault)
    requires f.ArtifactReplace?
  {
    AssertsStatus(c, f.producerTaskId, Success) && AssertsStatus(c, f.consumerTaskId, Success)
  }

  method CheckBoundary(p: Inspection, c: Case, ev: Plan.Evidence, selected: set<string>) returns (errors: seq<string>)
    requires ev.Controlled? && ev.fault.ArtifactReplace?
    requires selected == ClosureOf(c.targets, TasksOf(p))
    ensures errors == [] <==> BoundarySound(p, c, ev)
  {
    var f := ev.fault;
    errors := [];
    var upstream := Graph.Closure([f.consumerTaskId], DependenciesOf(TasksOf(p)));
    if || f.producerTaskId !in selected || f.consumerTaskId !in selected
       || f.producerTaskId !in upstream || f.producerTaskId == f.consumerTaskId
    {
      errors := errors + ["artifact-boundary-invalid"];
    }
    if f.path !in ArtifactsOf(TasksOf(p), f.producerTaskId) {
      errors := errors + ["artifact-producer-unbound"];
    }
    var recovery := Graph.Closure([ev.recoveredTaskId], DependenciesOf(TasksOf(p)));
    if f.consumerTaskId !in recovery {
      errors := errors + ["artifact-recovery-dependency-missing"];
    }
  }

  method CheckData(p: Inspection, c: Case, normal: Option<Case>, ev: Plan.Evidence, selected: set<string>)
    returns (errors: seq<string>)
    requires ev.Controlled?
    requires selected == ClosureOf(c.targets, TasksOf(p))
    ensures errors == [] <==> DataFaultSound(p, c, normal, ev)
  {
    var f := ev.fault;
    if !f.ArtifactReplace? {
      return ["data-fault-type-mismatch"];
    }
    var boundary := CheckBoundary(p, c, ev, selected);
    var observed := CheckObservation(c, normal, ev);
    errors := boundary + observed;
    if PresentFixture(c.fixtures, f.path).Some? {
      errors := errors + ["source-fixture-replacement-forbidden"];
    }
    if !StatusesSound(c, f) || (normal.Some? && !StatusesSound(normal.value, f)) {
      errors := errors + ["artifact-status-missing"];
    }
  }

  method CheckNormal(p: Inspection, ci: nat, ni: nat) returns (errors: seq<string>)
    requires ci < |p.cases| && ni <= |p.cases|
    ensures errors == [] <==> NormalSound(p, ci, ni)
  {
    var c := p.cases[ci];
    var normal := if ni < |p.cases| then Some(p.cases[ni]) else None;
    errors := [];
    if c.baselineCaseId.Some? || (normal.Some? && normal.value.baselineCaseId.Some?) {
      errors := errors + ["fault-prerequisite-probe-mixed"];
    }
    if normal.None? {
      errors := errors + ["normal-case-missing"];
    } else if !SameInputs(c, normal.value, p.collate) {
      errors := errors + ["normal-inputs-differ"];
    }
    if normal.Some? && ni >= ci {
      errors := errors + ["normal-case-order-invalid"];
    }
    if c.runs != 1 || normal.None? || normal.value.runs != 1 {
      errors := errors + ["fault-run-count-invalid"];
    }
  }

  method CheckOutcomes(c: Case, normal: Option<Case>, indices: seq<nat>) returns (errors: seq<string>)
    ensures errors == [] <==> forall k | 0 <= k < |indices| :: OutcomeSound(c, normal, indices[k])
  {
    errors := [];
    for k := 0 to |indices|
      invariant errors == [] <==> forall j | 0 <= j < k :: OutcomeSound(c, normal, indices[j])
    {
      var e := ExpectationAt(c, Some(indices[k]));
      if e.None? || !(e.value.FileContains? || e.value.PointerEquals?) {
        errors := errors + ["outcome-reference-invalid"];
      } else if normal.Some? && !Contrasted(e.value, normal.value) {
        errors := errors + ["normal-outcome-contrast-missing"];
      }
    }
  }

  method CheckRecovery(p: Inspection, c: Case, normal: Option<Case>, ev: Plan.Evidence, selected: set<string>)
    returns (errors: seq<string>)
    requires ev.Controlled?
    requires selected == ClosureOf(c.targets, TasksOf(p))
    ensures var responsible := Responsible(p.decisions, ev.kind);
            errors == [] <==>
              && AssertsStatus(c, ev.recoveredTaskId, Success)
              && (normal.Some? ==> AssertsStatus(normal.value, ev.recoveredTaskId, Success))
              && (responsible.Some? ==> ev.recoveredTaskId in responsible.value)
              && ev.recoveredTaskId in ClosureOf(c.targets, TasksOf(p))
  {
    var responsible := Responsible(p.decisions, ev.kind);
    errors := [];
    if || !AssertsStatus(c, ev.recoveredTaskId, Success)
       || (normal.Some? && !AssertsStatus(normal.value, ev.recoveredTaskId, Success))
    {
      errors := errors + ["recovery-status-missing"];
    }
    if responsible.Some? && ev.recoveredTaskId !in responsible.value {
      errors := errors + ["recovery-outside-reviewed-scope"];
    }
    if ev.recoveredTaskId !in selected {
      errors := errors + ["recovery-outside-closure"];
    }
  }

  method CheckPair(p: Inspection, ci: nat, ev: Plan.Evidence, selected: set<string>) returns (errors: seq<string>)
    requires ci < |p.cases| && ev.Controlled?
    requires selected == ClosureOf(p.cases[ci].targets, TasksOf(p))
    ensures errors == [] <==> PairSound(p, ci, ev)
  {
    var c, ni := p.cases[ci], NormalIndex(p.cases, p.cases[ci], ev.normalCaseId);
    var normal := NormalOf(p.cases, c, ev.normalCaseId);
    var pairing := CheckNormal(p, ci, ni);
    var recovery := CheckRecovery(p, c, normal, ev, selected);
    var outcomes := CheckOutcomes(c, normal, ev.outcomeIndices);
    errors := pairing + recovery + outcomes;
  }

  /** All checks on one piece of declared evidence. */
  method CheckEvidence(p: Inspection, ci: nat, ev: Plan.Evidence) returns (errors: seq<string>)
    requires ci < |p.cases|
    ensures errors == [] <==> Sound(p, ci, ev)
  {
    var c := p.cases[ci];
    var responsible := Responsible(p.decisions, KindOf(ev));
    errors := [];
    if p.tasks.Some? && responsible.Some? && exists k | 0 <= k < |responsible.value| :: responsible.value[k] !in p.tasks.value {
      errors := errors + ["review-task-unknown"];
    }
    match ev {
      case Preservation(index) =>
        if !PreservationSound(c, index, responsible) {
          errors := errors + ["source-relationship-missing"];
        }
      case Controlled(kind, normalCaseId, _, _, _, _) =>
        var selected := Graph.Closure(c.targets, DependenciesOf(TasksOf(p)));
        var pair := CheckPair(p, ci, ev, selected);
        var normal := NormalOf(p.cases, c, normalCaseId);
        var fault;
        if kind.TimeoutRecovery? || kind.FailureRecovery? {
          fault := CheckNative(p, c, normal, ev, selected);
        } else {
          fault := CheckData(p, c, normal, ev, selected);
        }
        errors := errors + pair + fault;
    }
  }

  // ----- The whole inspection -----

  /** Evidence k of case i has this kind and is sound, or not. */
  ghost predicate Declared(p: Inspection, kind: EvidenceKind, sound: bool, i: nat, k: nat) {
    && i < |p.cases| && k < |p.cases[i].evidence|
    && KindOf(p.cases[i].evidence[k]) == kind
    && Sound(p, i, p.cases[i].evidence[k]) == sound
  }

  ghost predicate Covered(p: Inspection, kind: EvidenceKind) {
    exists i: nat, k: nat :: Declared(p, kind, true, i, k)
  }

  ghost predicate Faulty(p: Inspection, kind: EvidenceKind) {
    exists i: nat, k: nat :: Declared(p, kind, false, i, k)
  }

  function Tagged(kind: EvidenceKind, caseId: string, codes: seq<string>): (issues: seq<Issue>)
    ensures |issues| == |codes|
    ensures forall i | 0 <= i < |issues| :: issues[i].kind == kind
  {
    seq(|codes|, i requires 0 <= i < |codes| => Issue(kind, Some(caseId), codes[i]))
  }

  ghost predicate IssuesFor(issues: seq<Issue>, kind: EvidenceKind) {
    exists i | 0 <= i < |issues| :: issues[i].kind == kind
  }

  /** The issues of one piece of evidence have its kind, and there are some exactly if it is unsound. */
  lemma TaggedIssues(p: Inspection, ci: nat, k: nat, errors: seq<string>)
    requires ci < |p.cases| && k < |p.cases[ci].evidence|
    requires errors == [] <==> Sound(p, ci, p.cases[ci].evidence[k])
    ensures var c := p.cases[ci];
            forall kind ::
              && (IssuesFor(Tagged(KindOf(c.evidence[k]), c.id, errors), kind) <==> Declared(p, kind, false, ci, k))
              && (errors == [] && kind == KindOf(c.evidence[k]) <==> Declared(p, kind, true, ci, k))
  {
    var c := p.cases[ci];
    var more := Tagged(KindOf(c.evidence[k]), c.id, errors);
    assert errors != [] ==> more[0].kind == KindOf(c.evidence[k]);
  }

  /** The missing kinds are exactly the uncovered obligations and the kinds with any unsound evidence. */
  method InspectEvidence(obligations: seq<EvidenceKind>, p: Inspection)
    returns (missing: seq<EvidenceKind>, issues: seq<Issue>)
    ensures Distinct(missing)
    ensures forall kind :: kind in missing <==> (kind in obligations && !Covered(p, kind)) || Faulty(p, kind)
    ensures forall kind :: kind in missing <==> IssuesFor(issues, kind)
  {
    issues := [];
    var covered: set<EvidenceKind> := {};
    for ci := 0 to |p.cases|
      invariant forall kind :: kind in covered <==> DeclaredUpTo(p, kind, true, ci, 0)
      invariant forall kind :: IssuesFor(issues, kind) <==> DeclaredUpTo(p, kind, false, ci, 0)
    {
      var c := p.cases[ci];
      for k := 0 to |c.evidence|
        invariant forall kind :: kind in covered <==> DeclaredUpTo(p, kind, true, ci, k)
        invariant forall kind :: IssuesFor(issues, kind) <==> DeclaredUpTo(p, kind, false, ci, k)
      {
        var ev := c.evidence[k];
        var errors := CheckEvidence(p, ci, ev);
        var more := Tagged(KindOf(ev), c.id, errors);
        TaggedIssues(p, ci, k, errors);
        IssuesAppend(issues, more);
        forall kind
          ensures IssuesFor(issues + more, kind) <==> DeclaredUpTo(p, kind, false, ci, k + 1)
          ensures kind in covered || (errors == [] && kind == KindOf(ev)) <==> DeclaredUpTo(p, kind, true, ci, k + 1)
        {
          UpToNext(p, kind, false, ci, k);
          UpToNext(p, kind, true, ci, k);
        }
        if errors == [] {
          covered := covered + {KindOf(ev)};
        }
        issues := issues + more;
      }
      forall kind, sound {
        UpToRow(p, kind, sound, ci);
      }
    }
    assert forall kind :: DeclaredUpTo(p, kind, true, |p.cases|, 0) == Covered(p, kind);
    assert forall kind :: DeclaredUpTo(p, kind, false, |p.cases|, 0) == Faulty(p, kind);
    missing := [];
    for i := 0 to |obligations|
      invariant Distinct(missing)
      invariant forall kind :: kind in missing <==> kind in obligations[..i] && !Covered(p, kind)
    {
      if obligations[i] !in covered && obligations[i] !in missing {
        missing := missing + [obligations[i]];
      }
    }
    assert obligations[..|obligations|] == obligations;
    for i := 0 to |issues|
      invariant Distinct(missing)
      invariant forall kind :: kind in missing <==>
                  (kind in obligations && !Covered(p, kind)) || (exists j | 0 <= j < i :: issues[j].kind == kind)
    {
      if issues[i].kind !in missing {
        missing := missing + [issues[i].kind];
      }
    }
    ghost var found := issues;
    for i := 0 to |missing|
      invariant found <= issues
      invariant forall kind :: IssuesFor(issues, kind) <==> IssuesFor(found, kind) || kind in missing[..i]
    {
      if !exists j | 0 <= j < |issues| :: issues[j].kind == missing[i] {
        var extra := [Issue(missing[i], None, "typed-evidence-missing")];
        IssuesAppend(issues, extra);
        assert extra[0].kind == missing[i];
        issues := issues + extra;
      }
    }
    assert missing[..|missing|] == missing;
  }

  /** Declared among the first cases and the first pieces of evidence of the next case. */
  ghost predicate DeclaredUpTo(p: Inspection, kind: EvidenceKind, sound: bool, ci: nat, n: nat) {
    exists i: nat, k: nat :: Declared(p, kind, sound, i, k) && (i < ci || (i == ci && k < n))
  }

  lemma UpToNext(p: Inspection, kind: EvidenceKind, sound: bool, ci: nat, n: nat)
    requires ci < |p.cases| && n < |p.cases[ci].evidence|
    ensures DeclaredUpTo(p, kind, sound, ci, n + 1) <==>
              DeclaredUpTo(p, kind, sound, ci, n) || Declared(p, kind, sound, ci, n)
  {
  }

  lemma UpToRow(p: Inspection, kind: EvidenceKind, sound: bool, ci: nat)
    requires ci < |p.cases|
    ensures DeclaredUpTo(p, kind, sound, ci, |p.cases[ci].evidence|) == DeclaredUpTo(p, kind, sound, ci + 1, 0)
  {
  }

  lemma IssuesAppend(a: seq<Issue>, b: seq<Issue>)
    ensures forall kind :: IssuesFor(a + b, kind) <==> IssuesFor(a, kind) || IssuesFor(b, kind)
  {
    forall kind
      ensures IssuesFor(a + b, kind) <==> IssuesFor(a, kind) || IssuesFor(b, kind)
    {
      if IssuesFor(a, kind) {
        var i :| 0 <= i < |a| && a[i].kind == kind;
        assert (a + b)[i].kind == kind;
      }
      if IssuesFor(b, kind) {
        var i :| 0 <= i < |b| && b[i].kind == kind;
        assert (a + b)[|a| + i].kind == kind;
      }
    }
  }

  // ----- What an inspection without missing evidence guarantees -----

  /** What the plan parser guarantees about declared evidence and expected values. */
  ghost predicate ParsedCases(cases: seq<Case>) {
    forall ci | 0 <= ci < |cases| ::
      && CleanCase(cases[ci]) && ValidExpectations(cases[ci])
      && forall k | 0 <= k < |cases[ci].evidence| && cases[ci].evidence[k].Controlled? ::
           cases[ci].evidence[k].kind != SourcePreservation && cases[ci].evidence[k].outcomeIndices != []
  }

  /**
   * A fault case and an earlier normal case, each run once and no probe, on equal inputs, whose deterministic
   * expectations no single set of files can satisfy together.
   */
  ghost predicate ContrastedPair(p: Inspection, ni: nat, ci: nat) {
    && ni < ci < |p.cases|
    && p.cases[ni].id != p.cases[ci].id && IsFaultCase(p.cases[ci]) && !IsFaultCase(p.cases[ni])
    && p.cases[ci].runs == 1 && p.cases[ni].runs == 1
    && p.cases[ci].baselineCaseId == None && p.cases[ni].baselineCaseId == None
    && EqualInputs(p.cases[ci], p.cases[ni])
    && forall fault: Outcome, normal: Outcome | ValidFiles(fault.files) && fault.files == normal.files ::
         !(PassesDeterministic(fault, p.cases[ci].expectations) && PassesDeterministic(normal, p.cases[ni].expectations))
  }

  lemma OutcomeExcludes(c: Case, normal: Case, index: nat, fault: Outcome, other: Outcome)
    requires OutcomeSound(c, Some(normal), index) && ValidExpectations(c) && ValidExpectations(normal)
    requires ValidFiles(fault.files) && fault.files == other.files
    ensures !(PassesDeterministic(fault, c.expectations) && PassesDeterministic(other, normal.expectations))
  {
    assert c.expectations[index] in c.expectations;
    ContrastExcludes(c.expectations[index], normal, fault, other);
  }

  lemma PairContrasts(p: Inspection, ci: nat, ev: Plan.Evidence)
    requires ci < |p.cases| && ev.Controlled? && PairSound(p, ci, ev) && ev.outcomeIndices != []
    requires IsFaultCase(p.cases[ci])
    requires forall i | 0 <= i < |p.cases| :: CleanCase(p.cases[i]) && ValidExpectations(p.cases[i])
    ensures ContrastedPair(p, NormalIndex(p.cases, p.cases[ci], ev.normalCaseId), ci)
  {
    var c, ni := p.cases[ci], NormalIndex(p.cases, p.cases[ci], ev.normalCaseId);
    SameInputsMeaning(c, p.cases[ni], p.collate);
    var index := ev.outcomeIndices[0];
    assert OutcomeSound(c, Some(p.cases[ni]), index);
    forall fault: Outcome, normal: Outcome | ValidFiles(fault.files) && fault.files == normal.files
      ensures !(PassesDeterministic(fault, c.expectations) && PassesDeterministic(normal, p.cases[ni].expectations))
    {
      OutcomeExcludes(c, p.cases[ni], index, fault, normal);
    }
  }

  lemma SoundEvidenceContrasts(p: Inspection, ci: nat, k: nat)
    requires ParsedCases(p.cases)
    requires ci < |p.cases| && k < |p.cases[ci].evidence|
    requires p.cases[ci].evidence[k].Controlled? && Sound(p, ci, p.cases[ci].evidence[k])
    ensures ContrastedPair(p, NormalIndex(p.cases, p.cases[ci], p.cases[ci].evidence[k].normalCaseId), ci)
  {
    PairContrasts(p, ci, p.cases[ci].evidence[k]);
  }

  /**
   * When nothing is missing, every fault obligation has a fault case with an earlier normal case on equal inputs,
   * the recovery task waits for the faulted boundary, and no single set of files passes the deterministic expectations
   * of both.
   */
  lemma NothingMissingMeansContrast(obligations: seq<EvidenceKind>, p: Inspection, kind: EvidenceKind)
    requires ParsedCases(p.cases)
    requires forall other :: !((other in obligations && !Covered(p, other)) || Faulty(p, other))
    requires kind in obligations && kind != SourcePreservation
    ensures exists ni: nat, ci: nat, k: nat :: ci < |p.cases| && k < |p.cases[ci].evidence|
              && p.cases[ci].evidence[k].Controlled? && p.cases[ci].evidence[k].kind == kind
              && ContrastedPair(p, ni, ci)
              && RecoversFromFault(p, p.cases[ci].evidence[k])
  {
    assert Covered(p, kind);
    var ci: nat, k: nat :| Declared(p, kind, true, ci, k);
    SoundEvidenceContrasts(p, ci, k);
    assert RecoversFromFault(p, p.cases[ci].evidence[k]);
  }

  /** The recovery task depends, directly or not, on the task where the fault happens. */
  ghost predicate RecoversFromFault(p: Inspection, ev: Plan.Evidence)
    requires ev.Controlled?
  {
    var boundary := if ev.fault.ArtifactReplace? then ev.fault.consumerTaskId else ev.fault.taskId;
    Graph.Reaches(DependenciesOf(TasksOf(p)), [ev.recoveredTaskId], boundary)
  }

  // ----- What sound evidence shows of a run -----

  /** The fault's replacement lies at its path, and every source the case preserves has its fixture's bytes. */
  ghost predicate ReplacementSeen(c: Case, fault: Fault, files: Files)
    requires fault.ArtifactReplace?
  {
    && Readable(files, fault.path) && files[fault.path].json == fault.content
    && forall path | PreservedSource(c, path) ::
         Readable(files, path) && files[path].text == PresentFixture(c.fixtures, path).value
  }

  /** The expectation looks at one place of a document. */
  predicate Observes(e: Expectation, path: string, pointer: string) {
    (e.PointerEquals? || e.PointerCollection? || e.PointerTextOccurrence?) && e.path == path && e.pointer == pointer
  }

  /** The files pass the observation and fail what the normal case asserts at the same place. */
  ghost predicate Told(normal: Case, path: string, observation: Expectation, o: Outcome) {
    && HasPointer(observation) && observation.path == path
    && Passes(o, observation)
    && exists peer :: peer in normal.expectations && Observes(peer, path, observation.pointer) && !Passes(o, peer)
  }

  /** Files with the replacement pass the declared observation and fail what the normal case asserts at that place. */
  ghost predicate ReplacementTold(c: Case, normal: Case, ev: Plan.Evidence, o: Outcome)
    requires ev.Controlled? && ev.fault.ArtifactReplace?
  {
    var observation := ExpectationAt(c, ev.observationIndex);
    observation.Some? && Told(normal, ev.fault.path, observation.value, o)
  }

  predicate HasPointer(e: Expectation) {
    e.PointerEquals? || e.PointerCollection? || e.PointerTextOccurrence?
  }

  lemma {:induction false} ExpectedAtListed(expectations: seq<Expectation>, path: string, pointer: string)
    requires ExpectedAt(expectations, path, pointer).Some?
    ensures PointerEquals(path, pointer, ExpectedAt(expectations, path, pointer).value) in expectations
  {
    if expectations[0] != PointerEquals(path, pointer, ExpectedAt(expectations, path, pointer).value) {
      ExpectedAtListed(expectations[1..], path, pointer);
    }
  }

  /** A value that is the same JSON as an empty collection is that collection, and deeply equals no other. */
  lemma EmptyValue(value: Json, expected: Json)
    requires SameJson(value, expected) && EmptyCollection(expected)
    ensures DeepStrictEqual(value, expected) && Size(value) == 0 && value.Arr? == expected.Arr? && !Primitive(value)
    ensures forall other | DeepStrictEqual(value, other) :: Size(other) == 0
  {
    SortPermutes(OwnKeys(value), StringLeq);
    SortPermutes(OwnKeys(expected), StringLeq);
    assert |OwnKeys(value)| == |OwnKeys(expected)| == 0;
  }

  lemma EmptyObserved(path: string, pointer: string, content: Json, expected: Json, o: Outcome)
    requires Readable(o.files, path) && o.files[path].json == Some(content)
    requires Lookup(content, pointer).Some? && SameJson(Lookup(content, pointer).value, expected)
    requires EmptyCollection(expected)
    ensures Passes(o, PointerEquals(path, pointer, expected))
  {
    EmptyValue(Lookup(content, pointer).value, expected);
  }

  lemma EmptyPeerFails(path: string, pointer: string, content: Json, expected: Json, o: Outcome, peer: Expectation)
    requires Readable(o.files, path) && o.files[path].json == Some(content)
    requires Lookup(content, pointer).Some? && SameJson(Lookup(content, pointer).value, expected)
    requires EmptyCollection(expected)
    requires || (peer.PointerCollection? && peer.nonempty && peer.path == path && peer.pointer == pointer)
             || (peer.PointerEquals? && Size(peer.expected) > 0 && peer.path == path && peer.pointer == pointer)
    ensures !Passes(o, peer)
  {
    EmptyValue(Lookup(content, pointer).value, expected);
  }

  lemma EmptyReplacementTold(normal: Case, path: string, content: Json, observation: Expectation, o: Outcome)
    requires EmptyObservationSound(normal, path, content, observation)
    requires Readable(o.files, path) && o.files[path].json == Some(content)
    ensures Told(normal, path, observation, o)
  {
    var pointer, expected := observation.pointer, observation.expected;
    EmptyObserved(path, pointer, content, expected, o);
    var peer := PointerCollection(path, pointer, KindOfCollection(expected), true);
    if peer !in normal.expectations {
      ExpectedAtListed(normal.expectations, path, pointer);
      peer := PointerEquals(path, pointer, ExpectedAt(normal.expectations, path, pointer).value);
    }
    EmptyPeerFails(path, pointer, content, expected, o, peer);
    assert Observes(peer, path, pointer);
  }

  lemma SpanReplacementTold(c: Case, normal: Case, path: string, content: Json, observation: Expectation, o: Outcome)
    requires SourceObservationSound(c, normal, path, content, observation)
    requires Readable(o.files, path) && o.files[path].json == Some(content)
    requires Readable(o.files, observation.sourcePath)
    requires o.files[observation.sourcePath].text == PresentFixture(c.fixtures, observation.sourcePath).value
    ensures Told(normal, path, observation, o)
  {
    var peer := PointerTextOccurrence(path, observation.pointer, observation.sourcePath, true);
    assert Observes(peer, path, observation.pointer) && !Passes(o, peer);
  }

  lemma DataShows(c: Case, normal: Case, ev: Plan.Evidence, o: Outcome)
    requires ev.Controlled? && ev.fault.ArtifactReplace?
    requires ObservationSound(c, normal, ev) && ReplacementSeen(c, ev.fault, o.files)
    ensures ReplacementTold(c, normal, ev, o)
  {
    var path, content, observation := ev.fault.path, ev.fault.content.value, ExpectationAt(c, ev.observationIndex).value;
    if ev.kind.EmptyResult? {
      EmptyReplacementTold(normal, path, content, observation, o);
    } else {
      assert PreservedSource(c, observation.sourcePath);
      SpanReplacementTold(c, normal, path, content, observation, o);
    }
  }

  /** The tasks a fault lies between follow one another: the recovery task waits for them, and the case runs them all. */
  ghost predicate FaultInOrder(p: Inspection, c: Case, ev: Plan.Evidence)
    requires ev.Controlled?
  {
    var deps, f := DependenciesOf(TasksOf(p)), ev.fault;
    && Graph.Reaches(deps, c.targets, ev.recoveredTaskId)
    && (if f.ArtifactReplace? then
          && Graph.Reaches(deps, [ev.recoveredTaskId], f.consumerTaskId)
          && Graph.Reaches(deps, [ev.recoveredTaskId], f.producerTaskId)
          && Graph.Reaches(deps, [f.consumerTaskId], f.producerTaskId) && f.producerTaskId != f.consumerTaskId
        else Graph.Reaches(deps, [ev.recoveredTaskId], f.taskId) && f.taskId != ev.recoveredTaskId)
  }

  predicate Ended(o: Outcome, taskId: string, status: TaskStatus) {
    o.run.Some? && taskId in o.run.value.states && o.run.value.states[taskId].status == status
  }

  /** A run that passes the fault case had the task fail natively; one that passes the normal case had it succeed. */
  ghost predicate NativeTold(c: Case, normal: Case, ev: Plan.Evidence, o: Outcome)
    requires ev.Controlled? && !ev.fault.ArtifactReplace?
  {
    && (PassesDeterministic(o, c.expectations) ==>
          Ended(o, ev.fault.taskId, FaultStatus(ev.fault)) && Ended(o, ev.recoveredTaskId, Success))
    && (PassesDeterministic(o, normal.expectations) ==>
          Ended(o, ev.fault.taskId, Success) && Ended(o, ev.recoveredTaskId, Success))
  }

  /** A run that passes the case leaves one of its fixtures at the path as it was. */
  ghost predicate SourceKept(c: Case, path: string, o: Outcome) {
    PassesDeterministic(o, c.expectations) ==>
      exists text :: Fixture(path, Some(text)) in c.fixtures && Readable(o.files, path) && o.files[path].text == text
  }

  /** A run that passes the case had the tasks on both sides of the fault and the recovery task succeed. */
  ghost predicate BoundarySucceeds(c: Case, ev: Plan.Evidence, o: Outcome)
    requires ev.Controlled? && ev.fault.ArtifactReplace?
  {
    PassesDeterministic(o, c.expectations) ==>
      && Ended(o, ev.fault.producerTaskId, Success) && Ended(o, ev.fault.consumerTaskId, Success)
      && Ended(o, ev.recoveredTaskId, Success)
  }

  /**
   * The replaced file is an artifact of its producer and not a fixture; passing runs of either case had the tasks around
   * it succeed, and kept the source that the observation compares with.
   */
  ghost predicate DataTold(p: Inspection, c: Case, normal: Case, ev: Plan.Evidence, o: Outcome)
    requires ev.Controlled? && ev.fault.ArtifactReplace?
  {
    && ev.fault.path in ArtifactsOf(TasksOf(p), ev.fault.producerTaskId)
    && (forall f | f in c.fixtures && f.path == ev.fault.path :: f.content == None)
    && BoundarySucceeds(c, ev, o) && BoundarySucceeds(normal, ev, o)
    && (ev.kind == UnlocatedSource ==>
          && ExpectationAt(c, ev.observationIndex).Some?
          && var observation := ExpectationAt(c, ev.observationIndex).value;
             observation.PointerTextOccurrence?
             && SourceKept(c, observation.sourcePath, o) && SourceKept(normal, observation.sourcePath, o))
  }

  /** A passing run keeps the lines of a source fixture in order in an output, and a responsible task succeeded. */
  ghost predicate PreservationTold(c: Case, index: nat, responsible: Option<seq<string>>, o: Outcome) {
    PassesDeterministic(o, c.expectations) ==>
      && index < |c.expectations| && c.expectations[index].FilePreservesLines?
      && (exists text :: Fixture(c.expectations[index].sourcePath, Some(text)) in c.fixtures
                         && Readable(o.files, c.expectations[index].path)
                         && Preserved(o.files[c.expectations[index].path].text, NonblankLines(text)))
      && exists id :: Ended(o, id, Success) && (responsible.Some? ==> id in responsible.value)
  }

  /** What one piece of sound evidence shows. */
  ghost predicate Shows(p: Inspection, ci: nat, ev: Plan.Evidence, o: Outcome)
    requires ci < |p.cases|
  {
    match ev
    case Preservation(index) => PreservationTold(p.cases[ci], index, Responsible(p.decisions, SourcePreservation), o)
    case Controlled(_, normalCaseId, _, _, fault, _) =>
      var c, normal := p.cases[ci], NormalOf(p.cases, p.cases[ci], normalCaseId);
      && normal.Some? && FaultInOrder(p, c, ev)
      && (if fault.ArtifactReplace? then
            && (ReplacementSeen(c, fault, o.files) ==> ReplacementTold(c, normal.value, ev, o))
            && DataTold(p, c, normal.value, ev, o)
          else NativeTold(c, normal.value, ev, o))
  }

  lemma PreservationShows(c: Case, index: nat, responsible: Option<seq<string>>, o: Outcome)
    requires PreservationSound(c, index, responsible)
    ensures PreservationTold(c, index, responsible, o)
  {
    if PassesDeterministic(o, c.expectations) {
      assert c.expectations[index] in c.expectations;
      assert Passes(o, c.expectations[index]);
      var i :| 0 <= i < |c.expectations| && c.expectations[i].TaskStatusIs? && c.expectations[i].status == Success
               && (responsible.None? || c.expectations[i].taskId in responsible.value);
      assert Passes(o, c.expectations[i]);
      assert Ended(o, c.expectations[i].taskId, Success);
    }
  }

  lemma NativeShows(p: Inspection, c: Case, normal: Case, ev: Plan.Evidence, o: Outcome)
    requires ev.Controlled? && NativeFaultSound(p, c, Some(normal), ev)
    requires AssertsStatus(c, ev.recoveredTaskId, Success) && AssertsStatus(normal, ev.recoveredTaskId, Success)
    ensures NativeTold(c, normal, ev, o)
  {
    if PassesDeterministic(o, c.expectations) {
      assert Passes(o, TaskStatusIs(ev.fault.taskId, FaultStatus(ev.fault)));
      assert Passes(o, TaskStatusIs(ev.recoveredTaskId, Success));
    }
    if PassesDeterministic(o, normal.expectations) {
      assert Passes(o, TaskStatusIs(ev.fault.taskId, Success));
      assert Passes(o, TaskStatusIs(ev.recoveredTaskId, Success));
    }
  }

  lemma BoundaryInOrder(p: Inspection, c: Case, ev: Plan.Evidence)
    requires ev.Controlled? && ev.fault.ArtifactReplace? && BoundarySound(p, c, ev)
    requires ev.recoveredTaskId in ClosureOf(c.targets, TasksOf(p))
    ensures FaultInOrder(p, c, ev)
  {
    Graph.ReachesThrough(DependenciesOf(TasksOf(p)), [ev.recoveredTaskId], ev.fault.consumerTaskId,
                         ev.fault.producerTaskId);
  }

  lemma {:induction false} PresentFixtureListed(fixtures: seq<Fixture>, path: string)
    ensures PresentFixture(fixtures, path).Some? ==> Fixture(path, PresentFixture(fixtures, path)) in fixtures
    ensures PresentFixture(fixtures, path).None? ==> forall f | f in fixtures && f.path == path :: f.content == None
  {
    if fixtures != [] {
      PresentFixtureListed(fixtures[1..], path);
    }
  }

  lemma PreservedIsKept(c: Case, path: string, o: Outcome)
    requires PreservedSource(c, path)
    ensures SourceKept(c, path, o)
  {
    PresentFixtureListed(c.fixtures, path);
    var text := PresentFixture(c.fixtures, path).value;
    if PassesDeterministic(o, c.expectations) {
      assert Passes(o, FileEquals(path, text));
      assert Fixture(path, Some(text)) in c.fixtures;
    }
  }

  lemma StatusesTold(c: Case, ev: Plan.Evidence, o: Outcome)
    requires ev.Controlled? && ev.fault.ArtifactReplace? && StatusesSound(c, ev.fault)
    requires AssertsStatus(c, ev.recoveredTaskId, Success)
    ensures BoundarySucceeds(c, ev, o)
  {
    if PassesDeterministic(o, c.expectations) {
      assert Passes(o, TaskStatusIs(ev.fault.producerTaskId, Success));
      assert Passes(o, TaskStatusIs(ev.fault.consumerTaskId, Success));
      assert Passes(o, TaskStatusIs(ev.recoveredTaskId, Success));
    }
  }

  lemma DataIsTold(p: Inspection, c: Case, normal: Case, ev: Plan.Evidence, o: Outcome)
    requires ev.Controlled? && DataFaultSound(p, c, Some(normal), ev)
    requires AssertsStatus(c, ev.recoveredTaskId, Success) && AssertsStatus(normal, ev.recoveredTaskId, Success)
    ensures DataTold(p, c, normal, ev, o)
  {
    PresentFixtureListed(c.fixtures, ev.fault.path);
    StatusesTold(c, ev, o);
    StatusesTold(normal, ev, o);
    if ev.kind == UnlocatedSource {
      var observation := ExpectationAt(c, ev.observationIndex).value;
      PreservedIsKept(c, observation.sourcePath, o);
      PreservedIsKept(normal, observation.sourcePath, o);
    }
  }

  /** Whatever the run and its files were. */
  lemma SoundEvidenceShows(p: Inspection, ci: nat, ev: Plan.Evidence, o: Outcome)
    requires ci < |p.cases| && Sound(p, ci, ev)
    ensures Shows(p, ci, ev, o)
  {
    var c := p.cases[ci];
    match ev {
      case Preservation(index) =>
        PreservationShows(c, index, Responsible(p.decisions, SourcePreservation), o);
      case Controlled(kind, normalCaseId, _, _, fault, _) =>
        assert PairSound(p, ci, ev);
        var normal := NormalOf(p.cases, c, normalCaseId);
        if kind.TimeoutRecovery? || kind.FailureRecovery? {
          NativeShows(p, c, normal.value, ev, o);
        } else {
          BoundaryInOrder(p, c, ev);
          DataIsTold(p, c, normal.value, ev, o);
          if ReplacementSeen(c, fault, o.files) {
            DataShows(c, normal.value, ev, o);
          }
        }
    }
  }

  /** When nothing is missing, every obligation has a piece of evidence that shows it of every run. */
  lemma NothingMissingMeansShown(obligations: seq<EvidenceKind>, p: Inspection, kind: EvidenceKind)
    requires forall other :: !((other in obligations && !Covered(p, other)) || Faulty(p, other))
    requires kind in obligations
    ensures exists ci: nat, k: nat :: ci < |p.cases| && k < |p.cases[ci].evidence|
              && KindOf(p.cases[ci].evidence[k]) == kind
              && forall o :: Shows(p, ci, p.cases[ci].evidence[k], o)
  {
    assert Covered(p, kind);
    var ci: nat, k: nat :| Declared(p, kind, true, ci, k);
    forall o
      ensures Shows(p, ci, p.cases[ci].evidence[k], o)
    {
      SoundEvidenceShows(p, ci, p.cases[ci].evidence[k], o);
    }
  }

  // ----- The reviewed scope -----

  /** The decision that counts for a kind of evidence: the first one that requires it. */
  ghost predicate Requires(decisions: seq<Decision>, kind: EvidenceKind, i: nat) {
    && i < |decisions| && decisions[i].kind == kind && decisions[i].required
    && forall k | 0 <= k < i :: !(decisions[k].kind == kind && decisions[k].required)
  }

  lemma {:induction false} ResponsibleMeaning(decisions: seq<Decision>, kind: EvidenceKind, scope: seq<string>)
    ensures Responsible(decisions, kind) == Some(scope)
       <==> exists i: nat :: Requires(decisions, kind, i) && decisions[i].taskIds == scope
  {
    if decisions != [] {
      ResponsibleMeaning(decisions[1..], kind, scope);
      if i: nat :| Requires(decisions, kind, i) && decisions[i].taskIds == scope {
        if i > 0 {
          assert Requires(decisions[1..], kind, i - 1);
        }
      }
      if i: nat :| Requires(decisions[1..], kind, i) && decisions[1..][i].taskIds == scope {
        if !(decisions[0].kind == kind && decisions[0].required) {
          assert Requires(decisions, kind, i + 1);
        }
      }
      if decisions[0].kind == kind && decisions[0].required {
        assert Requires(decisions, kind, 0);
      }
    }
  }

  /** Sound evidence that a review requires recovers, or keeps its source, through a task of the reviewed scope. */
  lemma SoundInScope(p: Inspection, ci: nat, ev: Plan.Evidence, i: nat)
    requires ci < |p.cases| && Sound(p, ci, ev) && Requires(p.decisions, KindOf(ev), i)
    ensures ev.Controlled? ==> ev.recoveredTaskId in p.decisions[i].taskIds
    ensures ev.Preservation? ==> exists id :: id in p.decisions[i].taskIds && AssertsStatus(p.cases[ci], id, Success)
    ensures p.tasks.Some? ==> forall id | id in p.decisions[i].taskIds :: id in p.tasks.value
  {
    ResponsibleMeaning(p.decisions, KindOf(ev), p.decisions[i].taskIds);
    var scope, c := p.decisions[i].taskIds, p.cases[ci];
    assert Responsible(p.decisions, KindOf(ev)) == Some(scope);
    match ev {
      case Preservation(index) =>
        assert PreservationSound(c, index, Some(scope));
        var k :| 0 <= k < |c.expectations| && c.expectations[k].TaskStatusIs? && c.expectations[k].status == Success
                 && c.expectations[k].taskId in scope;
        assert AssertsStatus(c, c.expectations[k].taskId, Success);
      case Controlled(_, _, _, _, _, _) =>
        assert PairSound(p, ci, ev);
    }
  }
}
