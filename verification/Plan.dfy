/** The authored trial plan: cases, fixtures, expectations and declared evidence. */
module Plan {
  import opened Common
  import opened Json
  import Graph

  datatype TaskStatus = Success | Failed | Skipped | Timeout | Blocked

  datatype CollectionKind = ArrayKind | ObjectKind

  /** Expected JSON is kept parsed; the parser has already rejected texts that are not JSON. */
  datatype Expectation =
    | PathExists(path: string)
    | PathNotExists(path: string)
    | FileContains(path: string, text: string)
    | FileNotContains(path: string, text: string)
    | FileEquals(path: string, text: string)
    | FilePreservesLines(path: string, sourcePath: string, text: string)
    | JsonValid(path: string)
    | SemanticReview(path: string, taskId: string)
    | SourceTextOccurrence(path: string, sourcePath: string, sourcePointer: string,
                           producerTaskId: string, consumerTaskId: string, present: bool)
    | PointerTextOccurrence(path: string, pointer: string, sourcePath: string, present: bool)
    | PointerEquals(path: string, pointer: string, expected: Json)
    | PointerCollection(path: string, pointer: string, kind: CollectionKind, nonempty: bool)
    | DirectoryEntryCount(path: string, suffix: Option<string>, min: Option<nat>, max: Option<nat>)
    | TaskStatusIs(taskId: string, status: TaskStatus)

  /** content None removes the file from the isolated copy. */
  datatype Fixture = Fixture(path: string, content: Option<string>)

  /** value None removes a declared input. */
  datatype EnvironmentItem = EnvironmentItem(name: string, value: Option<string>)

  datatype EvidenceKind = TimeoutRecovery | FailureRecovery | EmptyResult | UnlocatedSource | SourcePreservation

  /** Replacement content that is not JSON has no parsed value. */
  datatype Fault =
    | TaskTimeout(taskId: string, timeoutMs: nat)
    | TaskExit(taskId: string, exitCode: nat)
    | ArtifactReplace(producerTaskId: string, consumerTaskId: string, path: string, content: Option<Json>)

  datatype Evidence =
    | Preservation(preservationIndex: nat)
    | Controlled(kind: EvidenceKind, normalCaseId: string, recoveredTaskId: string,
                 outcomeIndices: seq<nat>, fault: Fault, observationIndex: Option<nat>)

  function KindOf(evidence: Evidence): EvidenceKind {
    if evidence.Preservation? then SourcePreservation else evidence.kind
  }

  /** Absent optional lists behave as empty ones everywhere in the program. */
  datatype Case = Case(
    id: string,
    runs: nat,
    targets: seq<string>,
    fixtures: seq<Fixture>,
    generatedInputs: seq<string>,
    expectations: seq<Expectation>,
    evidence: seq<Evidence>,
    baselineCaseId: Option<string>,
    environment: seq<EnvironmentItem>,
    deniedManualTasks: seq<string>)

  datatype FailurePolicy = Ignore | SkipDownstream | StopAll

  datatype Task = Task(dependsOn: seq<string>, onFailure: Option<FailurePolicy>, artifactPaths: seq<string>)

  type Tasks = map<string, Task>

  function DependenciesOf(tasks: Tasks): (deps: Graph.Dependencies)
    ensures deps.Keys == tasks.Keys
    ensures forall id | id in tasks :: deps[id] == tasks[id].dependsOn
  {
    map id | id in tasks :: tasks[id].dependsOn
  }

  /** The dependency closure of a selection of tasks. */
  ghost function ClosureOf(roots: seq<string>, tasks: Tasks): set<string> {
    Graph.Reachable(DependenciesOf(tasks), roots)
  }

  function ArtifactsOf(tasks: Tasks, id: string): seq<string> {
    if id in tasks then tasks[id].artifactPaths else []
  }

  function DependsOnOf(tasks: Tasks, id: string): seq<string> {
    if id in tasks then tasks[id].dependsOn else []
  }

  predicate IsFaultCase(c: Case) {
    exists i | 0 <= i < |c.evidence| :: !c.evidence[i].Preservation?
  }

  predicate AssertsStatus(c: Case, taskId: string, status: TaskStatus) {
    TaskStatusIs(taskId, status) in c.expectations
  }

  predicate HasPath(e: Expectation) {
    !e.TaskStatusIs?
  }

  function IndexOfCase(cases: seq<Case>, id: string): (i: nat)
    ensures i <= |cases|
    ensures i < |cases| ==> cases[i].id == id
    ensures forall k | 0 <= k < i :: cases[k].id != id
  {
    if cases == [] || cases[0].id == id then 0 else 1 + IndexOfCase(cases[1..], id)
  }
}
