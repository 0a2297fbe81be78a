/** validateCoreWitness: the positive normal case must account for every task and every declared artifact. */
module CoreWitness {
  import opened Common
  import opened Decimals
  import opened Json
  import opened JsonPointer
  import opened Plan
  import opened Workspace
  import opened Evaluation
  import opened Evidence
  import Graph
  import SourceObserver

  datatype Role = Role(taskId: string, content: bool, indices: seq<nat>)

  datatype GeneratedInput = GeneratedInput(path: string, producerTaskId: string, consumerTaskId: string)

  datatype Witness =
    | CoveredWitness(normalCaseId: string, roles: seq<Role>, generated: seq<GeneratedInput>)
    | BlockedWitness(taskIds: seq<string>)

  datatype RepairScope = PipelineArtifact | DiagnosticOnly | OtherScope

  datatype Finding = Finding(blocking: bool, repairScope: RepairScope)

  datatype Verdict = Accepted | Rejected(reason: string)

  const MAX_MAPPED: nat := 32

  // ----- parseCoreWitness -----

  predicate DistinctItems<T(==)>(items: seq<T>) {
    forall i, j | 0 <= i < j < |items| :: items[i] != items[j]
  }

  predicate WellFormedRole(role: Role) {
    && |role.indices| <= MAX_MAPPED
    && (role.content <==> role.indices != [])
    && (forall k | 0 <= k < |role.indices| :: role.indices[k] < MAX_MAPPED)
    && DistinctItems(role.indices)
  }

  /** Each task is mapped once, as content with expectations or as execution without. */
  predicate WellFormed(w: Witness) {
    match w
    case BlockedWitness(taskIds) => 0 < |taskIds| <= MAX_MAPPED && DistinctItems(taskIds)
    case CoveredWitness(_, roles, generated) =>
      && 0 < |roles| <= MAX_MAPPED && |generated| <= MAX_MAPPED
      && (forall r | 0 <= r < |roles| :: WellFormedRole(roles[r]))
      && (forall r, s | 0 <= r < s < |roles| :: roles[r].taskId != roles[s].taskId)
      && (forall i, j | 0 <= i < j < |generated| :: Lower(generated[i].path) != Lower(generated[j].path))
  }

  // ----- Shared checks -----

  predicate StartsWith(s: string, prefix: string) {
    |prefix| <= |s| && s[..|prefix|] == prefix
  }

  predicate Overlaps(a: string, b: string) {
    var x, y := Lower(a), Lower(b);
    x == y || StartsWith(x, y + "/") || StartsWith(y, x + "/")
  }

  /** A present fixture already puts something at, above or below the path. */
  predicate Seeded(normal: Case, path: string) {
    exists i | 0 <= i < |normal.fixtures| :: normal.fixtures[i].content.Some? && Overlaps(normal.fixtures[i].path, path)
  }

  /** A value that says something: not null, not blank, not an empty collection. */
  predicate Concrete(value: Json) {
    match value
    case Str(s) => !Blank(s)
    case Num(_, _) => true
    case Bool(_) => true
    case Arr(items) => exists i | 0 <= i < |items| :: Concrete(items[i])
    case Obj(members) => exists i | 0 <= i < |members| :: Concrete(members[i].value)
    case Null => false
  }

  predicate IsNormalCore(c: Case) {
    && c.baselineCaseId.None?
    && c.deniedManualTasks == []
    && (forall i | 0 <= i < |c.environment| :: c.environment[i].value.Some?)
    && !IsFaultCase(c)
  }

  /** The producer has its own concrete assertion about the source it writes. */
  predicate IndependentSource(normal: Case, roles: seq<Role>, path: string, producer: string) {
    exists r, k | 0 <= r < |roles| && 0 <= k < |roles[r].indices| ::
      && roles[r].taskId == producer && roles[r].content
      && roles[r].indices[k] < |normal.expectations|
      && match normal.expectations[roles[r].indices[k]]
         case PointerEquals(p, _, expected) => p == path && Concrete(expected)
         case SemanticReview(p, taskId) => p == path && taskId == producer
         case FileEquals(p, text) => p == path && !Blank(text)
         case _ => false
  }

  /** The dependency closure of the selection holds the task. */
  ghost predicate Runs(targets: seq<string>, tasks: Tasks, id: string) {
    Graph.Reaches(DependenciesOf(tasks), targets, id)
  }

  /** Both tasks run, and the consumer depends, directly or not, on the producer. */
  ghost predicate Feeds(targets: seq<string>, tasks: Tasks, producer: string, consumer: string) {
    && producer != consumer
    && Runs(targets, tasks, producer) && Runs(targets, tasks, consumer)
    && Runs(DependsOnOf(tasks, consumer), tasks, producer)
  }

  method CheckFeeds(ghost targets: seq<string>, tasks: Tasks, executed: set<string>, producer: string, consumer: string)
    returns (ok: bool)
    requires executed == ClosureOf(targets, tasks)
    ensures ok <==> Feeds(targets, tasks, producer, consumer)
  {
    var upstream := Graph.Closure(DependsOnOf(tasks, consumer), DependenciesOf(tasks));
    ok := producer != consumer && producer in executed && consumer in executed && producer in upstream;
  }

  /** ownedSourceRelation */
  ghost predicate OwnedRelation(normal: Case, w: Witness, tasks: Tasks, e: Expectation)
    requires w.CoveredWitness?
  {
    && e.SourceTextOccurrence? && e.present
    && GeneratedInput(e.sourcePath, e.producerTaskId, e.consumerTaskId) in w.generated
    && Feeds(normal.targets, tasks, e.producerTaskId, e.consumerTaskId)
    && e.sourcePath in ArtifactsOf(tasks, e.producerTaskId) && e.path in ArtifactsOf(tasks, e.consumerTaskId)
    && !Seeded(normal, e.path) && !Seeded(normal, e.sourcePath) && !Overlaps(e.path, e.sourcePath)
    && IndependentSource(normal, w.roles, e.sourcePath, e.producerTaskId)
  }

  method CheckRelation(normal: Case, w: Witness, tasks: Tasks, executed: set<string>, e: Expectation)
    returns (owned: bool)
    requires w.CoveredWitness? && executed == ClosureOf(normal.targets, tasks)
    ensures owned <==> OwnedRelation(normal, w, tasks, e)
  {
    if !e.SourceTextOccurrence? {
      return false;
    }
    var feeds := CheckFeeds(normal.targets, tasks, executed, e.producerTaskId, e.consumerTaskId);
    owned := && e.present
             && GeneratedInput(e.sourcePath, e.producerTaskId, e.consumerTaskId) in w.generated
             && feeds
             && e.sourcePath in ArtifactsOf(tasks, e.producerTaskId) && e.path in ArtifactsOf(tasks, e.consumerTaskId)
             && !Seeded(normal, e.path) && !Seeded(normal, e.sourcePath) && !Overlaps(e.path, e.sourcePath)
             && IndependentSource(normal, w.roles, e.sourcePath, e.producerTaskId);
  }

  // ----- Semantic review targets -----

  predicate ReviewAt(cases: seq<Case>, ci: nat, i: nat) {
    ci < |cases| && i < |cases[ci].expectations| && cases[ci].expectations[i].SemanticReview?
  }

  /** The review maps to one content role, that of the artifact's only owner. */
  predicate ReviewOwned(roles: seq<Role>, tasks: Tasks, i: nat, e: Expectation)
    requires e.SemanticReview?
  {
    && (exists r | 0 <= r < |roles| ::
          && i in roles[r].indices && roles[r].content && roles[r].taskId == e.taskId
          && forall s | 0 <= s < |roles| && i in roles[s].indices :: s == r)
    && (e.taskId in tasks && e.path in tasks[e.taskId].artifactPaths)
    && (forall id | id in tasks && e.path in tasks[id].artifactPaths :: id == e.taskId)
  }

  predicate Earlier(ci: nat, i: nat, cj: nat, j: nat) {
    ci < cj || (ci == cj && i < j)
  }

  ghost predicate ReviewsSound(cases: seq<Case>, normalId: string, roles: seq<Role>, tasks: Tasks, cj: nat, j: nat) {
    && (forall ci: nat, i: nat | ReviewAt(cases, ci, i) && Earlier(ci, i, cj, j) ::
          cases[ci].id == normalId && ReviewOwned(roles, tasks, i, cases[ci].expectations[i]))
    && (forall ci: nat, i: nat, ck: nat, k: nat |
          && ReviewAt(cases, ci, i) && ReviewAt(cases, ck, k)
          && Earlier(ci, i, ck, k) && Earlier(ck, k, cj, j) ::
          cases[ci].expectations[i] != cases[ck].expectations[k])
  }

  method CheckReviews(cases: seq<Case>, normalId: string, roles: seq<Role>, tasks: Tasks) returns (ok: bool)
    ensures ok <==> ReviewsSound(cases, normalId, roles, tasks, |cases|, 0)
  {
    var seen: set<Expectation> := {};
    for cj := 0 to |cases|
      invariant ReviewsSound(cases, normalId, roles, tasks, cj, 0)
      invariant forall e :: e in seen <==>
                  exists ci: nat, i: nat :: ReviewAt(cases, ci, i) && Earlier(ci, i, cj, 0) && cases[ci].expectations[i] == e
    {
      for j := 0 to |cases[cj].expectations|
        invariant ReviewsSound(cases, normalId, roles, tasks, cj, j)
        invariant forall e :: e in seen <==>
                    exists ci: nat, i: nat :: ReviewAt(cases, ci, i) && Earlier(ci, i, cj, j) && cases[ci].expectations[i] == e
      {
        var e := cases[cj].expectations[j];
        if !e.SemanticReview? {
          continue;
        }
        assert ReviewAt(cases, cj, j);
        if cases[cj].id != normalId || !ReviewOwned(roles, tasks, j, e) || e in seen {
          return false;
        }
        seen := seen + {e};
      }
    }
    return true;
  }

  // ----- Generated inputs -----

  predicate GeneratedMapMatches(w: Witness, normal: Case)
    requires w.CoveredWitness?
  {
    var declared := set p | p in normal.generatedInputs :: Lower(p);
    |w.generated| == |declared| && forall i | 0 <= i < |w.generated| :: Lower(w.generated[i].path) in declared
  }

  ghost predicate ProducedBytes(normal: Case, w: Witness, tasks: Tasks, input: GeneratedInput, e: Expectation)
    requires w.CoveredWitness?
  {
    || (e.FileEquals? && e.path == input.path && e.text != "")
    || (e.SourceTextOccurrence? && e.sourcePath == input.path && OwnedRelation(normal, w, tasks, e))
  }

  /** Some expectation of the normal case pins down the produced bytes. */
  ghost predicate BytesAsserted(normal: Case, w: Witness, tasks: Tasks, input: GeneratedInput)
    requires w.CoveredWitness?
  {
    exists i | 0 <= i < |normal.expectations| :: ProducedBytes(normal, w, tasks, input, normal.expectations[i])
  }

  ghost predicate GeneratedSound(normal: Case, w: Witness, tasks: Tasks, input: GeneratedInput)
    requires w.CoveredWitness?
  {
    && Feeds(normal.targets, tasks, input.producerTaskId, input.consumerTaskId)
    && !Seeded(normal, input.path)
    && Fixture(input.path, None) in normal.fixtures
    && BytesAsserted(normal, w, tasks, input)
    && (ArtifactsOf(tasks, input.producerTaskId) != [] ==> input.path in ArtifactsOf(tasks, input.producerTaskId))
  }

  method CheckBytes(normal: Case, w: Witness, tasks: Tasks, executed: set<string>, input: GeneratedInput)
    returns (ok: bool)
    requires w.CoveredWitness? && executed == ClosureOf(normal.targets, tasks)
    ensures ok <==> BytesAsserted(normal, w, tasks, input)
  {
    for i := 0 to |normal.expectations|
      invariant forall k | 0 <= k < i :: !ProducedBytes(normal, w, tasks, input, normal.expectations[k])
    {
      var e := normal.expectations[i];
      var owned := CheckRelation(normal, w, tasks, executed, e);
      if (e.FileEquals? && e.path == input.path && e.text != "") || (owned && e.sourcePath == input.path) {
        return true;
      }
    }
    return false;
  }

  method CheckGenerated(normal: Case, w: Witness, tasks: Tasks, executed: set<string>, input: GeneratedInput)
    returns (ok: bool)
    requires w.CoveredWitness? && executed == ClosureOf(normal.targets, tasks)
    ensures ok <==> GeneratedSound(normal, w, tasks, input)
  {
    var feeds := CheckFeeds(normal.targets, tasks, executed, input.producerTaskId, input.consumerTaskId);
    var produced := CheckBytes(normal, w, tasks, executed, input);
    ok := && feeds
          && !Seeded(normal, input.path)
          && Fixture(input.path, None) in normal.fixtures
          && produced
          && (ArtifactsOf(tasks, input.producerTaskId) == [] || input.path in ArtifactsOf(tasks, input.producerTaskId));
  }

  // ----- Content roles -----

  /** A source occurrence counts when the source is a preserved nonblank fixture or a mapped generated input. */
  predicate GenuineOccurrence(normal: Case, w: Witness, role: Role, e: Expectation)
    requires w.CoveredWitness? && e.PointerTextOccurrence?
  {
    && e.path != e.sourcePath
    && (|| (PreservedSource(normal, e.sourcePath) &&
            exists i | 0 <= i < |normal.fixtures| ::
              && normal.fixtures[i].path == e.sourcePath
              && normal.fixtures[i].content.Some? && !Blank(normal.fixtures[i].content.value))
        || ((exists i | 0 <= i < |w.generated| ::
               w.generated[i].path == e.sourcePath && w.generated[i].consumerTaskId == role.taskId)
            && exists i | 0 <= i < |normal.expectations| ::
                 && normal.expectations[i].FileEquals? && normal.expectations[i].path == e.sourcePath
                 && normal.expectations[i].text != ""))
  }

  /** An expectation that witnesses produced content: concrete, unseeded and of a supported shape. */
  ghost predicate ContentSound(normal: Case, w: Witness, tasks: Tasks, role: Role, index: nat)
    requires w.CoveredWitness?
  {
    && index < |normal.expectations|
    && HasPath(normal.expectations[index]) && !Seeded(normal, normal.expectations[index].path)
    && match normal.expectations[index]
       case PointerEquals(_, _, expected) => Concrete(expected)
       case FileEquals(_, text) => !Blank(text)
       case SemanticReview(_, _) => true
       case SourceTextOccurrence(_, _, _, _, consumer, _) =>
         consumer == role.taskId && OwnedRelation(normal, w, tasks, normal.expectations[index])
       case PointerTextOccurrence(_, _, _, present) =>
         present && GenuineOccurrence(normal, w, role, normal.expectations[index])
       case _ => false
  }

  method CheckContent(normal: Case, w: Witness, tasks: Tasks, executed: set<string>, role: Role, index: nat)
    returns (ok: bool)
    requires w.CoveredWitness? && executed == ClosureOf(normal.targets, tasks)
    ensures ok <==> ContentSound(normal, w, tasks, role, index)
  {
    if index >= |normal.expectations| || !HasPath(normal.expectations[index]) || Seeded(normal, normal.expectations[index].path) {
      return false;
    }
    var e := normal.expectations[index];
    match e {
      case PointerEquals(_, _, expected) => ok := Concrete(expected);
      case FileEquals(_, text) => ok := !Blank(text);
      case SemanticReview(_, _) => ok := true;
      case SourceTextOccurrence(_, _, _, _, consumer, _) =>
        ok := CheckRelation(normal, w, tasks, executed, e);
        ok := ok && consumer == role.taskId;
      case PointerTextOccurrence(_, _, _, present) => ok := present && GenuineOccurrence(normal, w, role, e);
      case _ => ok := false;
    }
  }

  /** Some content expectation of the role is at the path. */
  predicate ArtifactMapped(normal: Case, role: Role, path: string) {
    exists k | 0 <= k < |role.indices| ::
      && role.indices[k] < |normal.expectations| && HasPath(normal.expectations[role.indices[k]])
      && normal.expectations[role.indices[k]].path == path
  }

  /** Every mapped expectation is a sound content witness, and each declared artifact has one. */
  ghost predicate ContentRoleSound(normal: Case, w: Witness, tasks: Tasks, role: Role)
    requires w.CoveredWitness?
  {
    && (forall k | 0 <= k < |role.indices| :: ContentSound(normal, w, tasks, role, role.indices[k]))
    && (forall path | path in ArtifactsOf(tasks, role.taskId) :: ArtifactMapped(normal, role, path))
  }

  /** The role's task succeeds; only a task that declares no artifact may be execution-only. */
  ghost predicate RoleSound(normal: Case, w: Witness, tasks: Tasks, role: Role)
    requires w.CoveredWitness?
  {
    && AssertsStatus(normal, role.taskId, Success)
    && (if role.content then ContentRoleSound(normal, w, tasks, role) else ArtifactsOf(tasks, role.taskId) == [])
  }

  method CheckContentRole(normal: Case, w: Witness, tasks: Tasks, executed: set<string>, role: Role) returns (ok: bool)
    requires w.CoveredWitness? && executed == ClosureOf(normal.targets, tasks)
    ensures ok <==> ContentRoleSound(normal, w, tasks, role)
  {
    for k := 0 to |role.indices|
      invariant forall j | 0 <= j < k :: ContentSound(normal, w, tasks, role, role.indices[j])
    {
      var sound := CheckContent(normal, w, tasks, executed, role, role.indices[k]);
      if !sound {
        return false;
      }
    }
    return forall path | path in ArtifactsOf(tasks, role.taskId) :: ArtifactMapped(normal, role, path);
  }

  method CheckRole(normal: Case, w: Witness, tasks: Tasks, executed: set<string>, role: Role) returns (ok: bool)
    requires w.CoveredWitness? && executed == ClosureOf(normal.targets, tasks)
    ensures ok <==> RoleSound(normal, w, tasks, role)
  {
    if !AssertsStatus(normal, role.taskId, Success) {
      return false;
    }
    if !role.content {
      return ArtifactsOf(tasks, role.taskId) == [];
    }
    ok := CheckContentRole(normal, w, tasks, executed, role);
  }

  // ----- Relations in other cases -----

  ghost predicate DeclaredRelation(c: Case, tasks: Tasks, e: Expectation)
    requires e.SourceTextOccurrence?
  {
    && e.producerTaskId in tasks && e.consumerTaskId in tasks
    && Feeds(c.targets, tasks, e.producerTaskId, e.consumerTaskId)
    && e.sourcePath in ArtifactsOf(tasks, e.producerTaskId) && e.path in ArtifactsOf(tasks, e.consumerTaskId)
  }

  ghost predicate RelationsDeclared(c: Case, tasks: Tasks) {
    forall i | 0 <= i < |c.expectations| && c.expectations[i].SourceTextOccurrence? ::
      DeclaredRelation(c, tasks, c.expectations[i])
  }

  method CheckOtherCase(c: Case, tasks: Tasks) returns (ok: bool)
    ensures ok <==> RelationsDeclared(c, tasks)
  {
    var executed := Graph.Closure(c.targets, DependenciesOf(tasks));
    for i := 0 to |c.expectations|
      invariant forall k | 0 <= k < i && c.expectations[k].SourceTextOccurrence? ::
                  DeclaredRelation(c, tasks, c.expectations[k])
    {
      var e := c.expectations[i];
      if e.SourceTextOccurrence? {
        var feeds := CheckFeeds(c.targets, tasks, executed, e.producerTaskId, e.consumerTaskId);
        if || e.producerTaskId !in tasks || e.consumerTaskId !in tasks || !feeds
           || e.sourcePath !in ArtifactsOf(tasks, e.producerTaskId) || e.path !in ArtifactsOf(tasks, e.consumerTaskId)
        {
          return false;
        }
      }
    }
    return true;
  }

  // ----- The whole validation -----

  /** The normal case runs every terminal task's closure, and the roles name the tasks it runs. */
  ghost predicate ScopeSound(normal: Case, w: Witness, tasks: Tasks)
    requires w.CoveredWitness?
  {
    && IsNormalCore(normal)
    && (forall t | t in normal.targets :: t in tasks)
    && Graph.Terminals(DependenciesOf(tasks)) <= ClosureOf(normal.targets, tasks)
    && |w.roles| == |ClosureOf(normal.targets, tasks)|
    && (forall r | 0 <= r < |w.roles| :: w.roles[r].taskId in ClosureOf(normal.targets, tasks))
  }

  ghost predicate OwnRelationsSound(normal: Case, w: Witness, tasks: Tasks)
    requires w.CoveredWitness?
  {
    forall i | 0 <= i < |normal.expectations| && normal.expectations[i].SourceTextOccurrence? ::
      OwnedRelation(normal, w, tasks, normal.expectations[i])
  }

  ghost predicate InputsSound(normal: Case, w: Witness, tasks: Tasks)
    requires w.CoveredWitness?
  {
    forall i | 0 <= i < |w.generated| :: GeneratedSound(normal, w, tasks, w.generated[i])
  }

  ghost predicate RolesSound(normal: Case, w: Witness, tasks: Tasks)
    requires w.CoveredWitness?
  {
    forall r | 0 <= r < |w.roles| :: RoleSound(normal, w, tasks, w.roles[r])
  }

  ghost predicate OtherCasesSound(cases: seq<Case>, normalId: string, tasks: Tasks) {
    forall ci | 0 <= ci < |cases| && cases[ci].id != normalId :: RelationsDeclared(cases[ci], tasks)
  }

  /** What an accepted covered witness means. */
  ghost predicate CoreSound(cases: seq<Case>, w: Witness, tasks: Tasks)
    requires w.CoveredWitness?
  {
    var ni := IndexOfCase(cases, w.normalCaseId);
    && WellFormed(w)
    && ni < |cases|
    && ScopeSound(cases[ni], w, tasks)
    && ReviewsSound(cases, w.normalCaseId, w.roles, tasks, |cases|, 0)
    && GeneratedMapMatches(w, cases[ni])
    && OwnRelationsSound(cases[ni], w, tasks)
    && InputsSound(cases[ni], w, tasks)
    && RolesSound(cases[ni], w, tasks)
    && OtherCasesSound(cases, w.normalCaseId, tasks)
  }

  predicate BlockedSound(taskIds: seq<string>, findings: seq<Finding>, tasks: Tasks) {
    && (forall i | 0 <= i < |taskIds| :: taskIds[i] in tasks)
    && (exists i | 0 <= i < |findings| :: findings[i].blocking && findings[i].repairScope != OtherScope)
  }

  method CheckScope(normal: Case, w: Witness, tasks: Tasks, executed: set<string>) returns (v: Verdict)
    requires w.CoveredWitness? && executed == ClosureOf(normal.targets, tasks)
    ensures v.Accepted? <==> ScopeSound(normal, w, tasks)
  {
    if !IsNormalCore(normal) {
      return Rejected("normal-case-not-positive");
    }
    if exists t | t in normal.targets :: t !in tasks {
      return Rejected("unknown-target");
    }
    var dependedOn := set id, d | id in tasks && d in tasks[id].dependsOn :: d;
    if exists id | id in tasks :: id !in dependedOn && id !in executed {
      var id :| id in tasks && id !in dependedOn && id !in executed;
      assert id in Graph.Terminals(DependenciesOf(tasks));
      return Rejected("terminal-not-executed");
    }
    assert Graph.Terminals(DependenciesOf(tasks)) <= executed by {
      forall id | id in Graph.Terminals(DependenciesOf(tasks))
        ensures id in executed
      {
        assert forall other | other in tasks :: id !in DependenciesOf(tasks)[other];
        assert id !in dependedOn;
      }
    }
    if |w.roles| != |executed| || exists r | 0 <= r < |w.roles| :: w.roles[r].taskId !in executed {
      return Rejected("roles-do-not-map-executed-tasks");
    }
    return Accepted;
  }

  method CheckOwnRelations(normal: Case, w: Witness, tasks: Tasks, executed: set<string>) returns (ok: bool)
    requires w.CoveredWitness? && executed == ClosureOf(normal.targets, tasks)
    ensures ok <==> OwnRelationsSound(normal, w, tasks)
  {
    for i := 0 to |normal.expectations|
      invariant forall k | 0 <= k < i && normal.expectations[k].SourceTextOccurrence? ::
                  OwnedRelation(normal, w, tasks, normal.expectations[k])
    {
      var owned := CheckRelation(normal, w, tasks, executed, normal.expectations[i]);
      if normal.expectations[i].SourceTextOccurrence? && !owned {
        return false;
      }
    }
    return true;
  }

  method CheckInputs(normal: Case, w: Witness, tasks: Tasks, executed: set<string>) returns (ok: bool)
    requires w.CoveredWitness? && executed == ClosureOf(normal.targets, tasks)
    ensures ok <==> InputsSound(normal, w, tasks)
  {
    for i := 0 to |w.generated|
      invariant forall k | 0 <= k < i :: GeneratedSound(normal, w, tasks, w.generated[k])
    {
      ok := CheckGenerated(normal, w, tasks, executed, w.generated[i]);
      if !ok {
        return;
      }
    }
    return true;
  }

  method CheckRoles(normal: Case, w: Witness, tasks: Tasks, executed: set<string>) returns (ok: bool)
    requires w.CoveredWitness? && executed == ClosureOf(normal.targets, tasks)
    ensures ok <==> RolesSound(normal, w, tasks)
  {
    for r := 0 to |w.roles|
      invariant forall k | 0 <= k < r :: RoleSound(normal, w, tasks, w.roles[k])
    {
      ok := CheckRole(normal, w, tasks, executed, w.roles[r]);
      if !ok {
        return;
      }
    }
    return true;
  }

  method CheckOtherCases(cases: seq<Case>, normalId: string, tasks: Tasks) returns (ok: bool)
    ensures ok <==> OtherCasesSound(cases, normalId, tasks)
  {
    for ci := 0 to |cases|
      invariant forall k | 0 <= k < ci && cases[k].id != normalId :: RelationsDeclared(cases[k], tasks)
    {
      if cases[ci].id != normalId {
        ok := CheckOtherCase(cases[ci], tasks);
        if !ok {
          return;
        }
      }
    }
    return true;
  }

  method ValidateCovered(cases: seq<Case>, w: Witness, tasks: Tasks) returns (v: Verdict)
    requires w.CoveredWitness? && WellFormed(w)
    ensures v.Accepted? <==> CoreSound(cases, w, tasks)
  {
    var ni := IndexOfCase(cases, w.normalCaseId);
    if ni == |cases| {
      return Rejected("normal-case-missing");
    }
    var executed := Graph.Closure(cases[ni].targets, DependenciesOf(tasks));
    v := CheckScope(cases[ni], w, tasks, executed);
    if v.Rejected? {
      return;
    }
    var reviewed := CheckReviews(cases, w.normalCaseId, w.roles, tasks);
    if !reviewed {
      return Rejected("semantic_owner_role_mapping");
    }
    if !GeneratedMapMatches(w, cases[ni]) {
      return Rejected("generated_input_map");
    }
    var related := CheckOwnRelations(cases[ni], w, tasks, executed);
    if !related {
      return Rejected("source-relation");
    }
    var inputs := CheckInputs(cases[ni], w, tasks, executed);
    if !inputs {
      return Rejected("generated-input");
    }
    var roles := CheckRoles(cases[ni], w, tasks, executed);
    if !roles {
      return Rejected("role");
    }
    var others := CheckOtherCases(cases, w.normalCaseId, tasks);
    return if others then Accepted else Rejected("non-core-relation");
  }

  method ValidateCoreWitness(cases: seq<Case>, findings: seq<Finding>, declared: Option<Witness>, tasks: Tasks,
                             required: bool) returns (v: Verdict)
    ensures v.Accepted? <==>
              (match declared
               case None => !required
               case Some(BlockedWitness(taskIds)) => WellFormed(declared.value) && BlockedSound(taskIds, findings, tasks)
               case Some(w) => CoreSound(cases, w, tasks))
  {
    if declared.None? {
      return if required then Rejected("core-witness-required") else Accepted;
    }
    var w := declared.value;
    if !WellFormed(w) {
      return Rejected("malformed");
    }
    if w.BlockedWitness? {
      return if BlockedSound(w.taskIds, findings, tasks) then Accepted else Rejected("blocked-without-finding");
    }
    v := ValidateCovered(cases, w, tasks);
  }

  // ----- What acceptance guarantees -----

  function RoleIds(roles: seq<Role>): (ids: seq<string>)
    ensures |ids| == |roles|
    ensures forall r | 0 <= r < |roles| :: ids[r] == roles[r].taskId
  {
    seq(|roles|, r requires 0 <= r < |roles| => roles[r].taskId)
  }

  /** The graph has no cycle and every dependency is one of its tasks. */
  ghost predicate SoundGraph(tasks: Tasks) {
    && Graph.Acyclic(DependenciesOf(tasks))
    && forall id, d | id in tasks && d in tasks[id].dependsOn :: d in tasks
  }

  lemma ScopeIsWholeGraph(normal: Case, w: Witness, tasks: Tasks)
    requires w.CoveredWitness? && ScopeSound(normal, w, tasks) && SoundGraph(tasks)
    ensures ClosureOf(normal.targets, tasks) == tasks.Keys
  {
    Graph.TerminalsReachWhole(DependenciesOf(tasks), normal.targets);
  }

  /** The normal case of an accepted witness runs every task of an acyclic graph, without denials, removals or faults. */
  lemma NormalCaseRunsAll(cases: seq<Case>, w: Witness, tasks: Tasks)
    requires w.CoveredWitness? && CoreSound(cases, w, tasks) && SoundGraph(tasks)
    ensures var normal := cases[IndexOfCase(cases, w.normalCaseId)];
            && (forall id :: Graph.Reaches(DependenciesOf(tasks), normal.targets, id) <==> id in tasks)
            && normal.baselineCaseId == None && normal.deniedManualTasks == []
            && (forall item | item in normal.environment :: item.value != None)
            && forall ev | ev in normal.evidence :: ev.Preservation?
  {
    var normal := cases[IndexOfCase(cases, w.normalCaseId)];
    ScopeIsWholeGraph(normal, w, tasks);
    forall id
      ensures Graph.Reaches(DependenciesOf(tasks), normal.targets, id) <==> id in tasks
    {
      assert id in ClosureOf(normal.targets, tasks) <==> id in tasks.Keys;
    }
  }

  lemma RolesFill(roles: seq<Role>, ids: set<string>)
    requires forall r, s | 0 <= r < s < |roles| :: roles[r].taskId != roles[s].taskId
    requires forall r | 0 <= r < |roles| :: roles[r].taskId in ids
    requires |roles| == |ids|
    ensures Distinct(RoleIds(roles)) && (set id | id in RoleIds(roles)) == ids
  {
    DistinctSetSize(RoleIds(roles));
    SubsetOfSameSize((set id | id in RoleIds(roles)), ids);
  }

  /** Over an acyclic graph, the roles of an accepted witness name every task exactly once. */
  lemma RolesAreAllTasks(cases: seq<Case>, w: Witness, tasks: Tasks)
    requires w.CoveredWitness? && CoreSound(cases, w, tasks) && SoundGraph(tasks)
    ensures Distinct(RoleIds(w.roles))
    ensures (set id | id in RoleIds(w.roles)) == tasks.Keys
  {
    var normal := cases[IndexOfCase(cases, w.normalCaseId)];
    ScopeIsWholeGraph(normal, w, tasks);
    RolesFill(w.roles, tasks.Keys);
  }

  /** One of the role's own expectations is a sound content witness at the path. */
  ghost predicate Witnessed(normal: Case, w: Witness, tasks: Tasks, role: Role, path: string)
    requires w.CoveredWitness?
  {
    exists k | 0 <= k < |role.indices| ::
      ContentSound(normal, w, tasks, role, role.indices[k]) && normal.expectations[role.indices[k]].path == path
  }

  lemma RoleWitnesses(normal: Case, w: Witness, tasks: Tasks, role: Role, path: string)
    requires w.CoveredWitness? && RoleSound(normal, w, tasks, role)
    requires path in ArtifactsOf(tasks, role.taskId)
    ensures role.content && Witnessed(normal, w, tasks, role, path)
  {
    assert ArtifactMapped(normal, role, path);
  }

  /** Every artifact any task declares is witnessed by its own task's content role. */
  lemma EveryArtifactWitnessed(cases: seq<Case>, w: Witness, tasks: Tasks, id: string, path: string) returns (r: nat)
    requires w.CoveredWitness? && CoreSound(cases, w, tasks) && SoundGraph(tasks)
    requires id in tasks && path in tasks[id].artifactPaths
    ensures r < |w.roles| && w.roles[r].taskId == id && w.roles[r].content
    ensures Witnessed(cases[IndexOfCase(cases, w.normalCaseId)], w, tasks, w.roles[r], path)
  {
    RolesAreAllTasks(cases, w, tasks);
    var ids := RoleIds(w.roles);
    assert id in (set x | x in ids);
    r :| 0 <= r < |ids| && ids[r] == id;
    RoleWitnesses(cases[IndexOfCase(cases, w.normalCaseId)], w, tasks, w.roles[r], path);
  }

  /** A passed content expectation has a readable file at its path. */
  lemma ContentPassed(normal: Case, w: Witness, tasks: Tasks, role: Role, index: nat, o: Outcome)
    requires w.CoveredWitness? && ContentSound(normal, w, tasks, role, index)
    requires !normal.expectations[index].SemanticReview? && Passes(o, normal.expectations[index])
    ensures Readable(o.files, normal.expectations[index].path)
    ensures !Seeded(normal, normal.expectations[index].path)
  {
  }

  lemma {:induction false} ReviewsNameOwners(cases: seq<Case>, w: Witness, tasks: Tasks, i: nat, id: string)
    requires w.CoveredWitness?
    requires ReviewsSound(cases, w.normalCaseId, w.roles, tasks, |cases|, 0)
    requires ReviewAt(cases, IndexOfCase(cases, w.normalCaseId), i)
    requires id in tasks && cases[IndexOfCase(cases, w.normalCaseId)].expectations[i].path in tasks[id].artifactPaths
    ensures cases[IndexOfCase(cases, w.normalCaseId)].expectations[i].taskId == id
  {
    var ni := IndexOfCase(cases, w.normalCaseId);
    assert Earlier(ni, i, |cases|, 0);
    assert ReviewOwned(w.roles, tasks, i, cases[ni].expectations[i]);
  }

  /**
   * If the normal case of an accepted witness then passes its deterministic expectations, every declared artifact
   * that is not left to semantic review is a readable regular file that no fixture put there, and its task succeeded.
   */
  lemma PassedCoreHasArtifacts(cases: seq<Case>, w: Witness, tasks: Tasks, o: Outcome, id: string, path: string)
    requires w.CoveredWitness? && CoreSound(cases, w, tasks) && SoundGraph(tasks)
    requires id in tasks && path in tasks[id].artifactPaths
    requires var normal := cases[IndexOfCase(cases, w.normalCaseId)];
             PassesDeterministic(o, normal.expectations) && SemanticReview(path, id) !in normal.expectations
    ensures Readable(o.files, path)
    ensures !Seeded(cases[IndexOfCase(cases, w.normalCaseId)], path)
    ensures o.run.Some? && id in o.run.value.states && o.run.value.states[id].status == Success
  {
    var ni := IndexOfCase(cases, w.normalCaseId);
    var normal := cases[ni];
    var r := EveryArtifactWitnessed(cases, w, tasks, id, path);
    var k :| 0 <= k < |w.roles[r].indices| && ContentSound(normal, w, tasks, w.roles[r], w.roles[r].indices[k])
             && normal.expectations[w.roles[r].indices[k]].path == path;
    var i := w.roles[r].indices[k];
    assert normal.expectations[i] in normal.expectations;
    if normal.expectations[i].SemanticReview? {
      ReviewsNameOwners(cases, w, tasks, i, id);
    }
    ContentPassed(normal, w, tasks, w.roles[r], i, o);
    assert RoleSound(normal, w, tasks, w.roles[r]);
    assert Passes(o, TaskStatusIs(id, Success));
  }

  // ----- Concrete content -----

  /** A nonblank text, a number or a truth value. */
  predicate Told(j: Json) {
    match j
    case Str(s) => !Blank(s)
    case Num(_, _) => true
    case Bool(_) => true
    case _ => false
  }

  ghost predicate TellsAt(j: Json, keys: seq<string>) {
    Evaluate(j, keys).Some? && Told(Evaluate(j, keys).value)
  }

  /** A document is concrete exactly if some text, number or truth value can be reached in it. */
  lemma {:induction false} ConcreteMeaning(j: Json)
    requires Valid(j)
    ensures Concrete(j) <==> exists keys :: TellsAt(j, keys)
    decreases j
  {
    if Primitive(j) {
      assert Concrete(j) ==> TellsAt(j, []);
    } else {
      if keys :| TellsAt(j, keys) {
        ConcreteAbove(j, keys);
      }
      if Concrete(j) {
        var keys := ConcreteBelow(j);
      }
    }
  }

  lemma {:induction false} ConcreteAbove(j: Json, keys: seq<string>)
    requires TellsAt(j, keys)
    ensures Concrete(j)
  {
    if keys != [] {
      ConcreteAbove(Own(j, keys[0]).value, keys[1..]);
    }
  }

  lemma {:induction false} ConcreteBelow(j: Json) returns (keys: seq<string>)
    requires Valid(j) && Concrete(j)
    ensures TellsAt(j, keys)
    decreases j
  {
    match j {
      case Arr(items) =>
        var i :| 0 <= i < |items| && Concrete(items[i]);
        ArrayElement(j, i);
        var below := ConcreteBelow(items[i]);
        keys := [ToDecimal(i)] + below;
        assert keys[1..] == below;
      case Obj(members) =>
        var i :| 0 <= i < |members| && Concrete(members[i].value);
        assert Position(members, members[i].key) == i;
        var below := ConcreteBelow(members[i].value);
        keys := [members[i].key] + below;
        assert keys[1..] == below;
      case _ =>
        keys := [];
    }
  }

  /** Equal documents tell the same at the same place. */
  lemma {:induction false} SameTold(left: Json, right: Json, keys: seq<string>)
    requires SameDocument(left, right, true) && TellsAt(right, keys)
    ensures TellsAt(left, keys)
  {
    if keys != [] {
      assert Own(right, keys[0]).Some?;
      SameTold(Own(left, keys[0]).value, Own(right, keys[0]).value, keys[1..]);
    }
  }

  // ----- Generated inputs of an accepted witness -----

  /** Neither path is the other or lies below it, whatever the case of letters. */
  ghost predicate Apart(a: string, b: string) {
    && Lower(a) != Lower(b)
    && forall rest: string :: Lower(a) != Lower(b) + "/" + rest && Lower(b) != Lower(a) + "/" + rest
  }

  /** A file with a text, or with a nonblank string somewhere in its JSON. */
  ghost predicate HoldsText(files: Files, path: string) {
    && path in files && files[path].File?
    && (|| files[path].text != ""
        || (files[path].json.Some? && exists pointer, s ::
              Lookup(files[path].json.value, pointer) == Some(Str(s)) && !Blank(s)))
  }

  /**
   * The case runs a producer and a consumer that waits for it, starts without the input or anything in its place, and
   * passes only if the input is there with content.
   */
  ghost predicate InputTold(normal: Case, tasks: Tasks, input: GeneratedInput) {
    var deps := DependenciesOf(tasks);
    && input.producerTaskId != input.consumerTaskId
    && Graph.Reaches(deps, normal.targets, input.producerTaskId) && Graph.Reaches(deps, normal.targets, input.consumerTaskId)
    && Graph.Reaches(deps, DependsOnOf(tasks, input.consumerTaskId), input.producerTaskId)
    && Fixture(input.path, None) in normal.fixtures
    && (forall f | f in normal.fixtures && f.content.Some? :: Apart(f.path, input.path))
    && forall o :: PassesDeterministic(o, normal.expectations) ==> HoldsText(o.files, input.path)
  }

  lemma PrefixMeaning(a: string, b: string)
    ensures StartsWith(a, b + "/") <==> exists rest: string :: a == b + "/" + rest
  {
    if StartsWith(a, b + "/") {
      assert a == b + "/" + a[|b| + 1..];
    }
    if rest: string :| a == b + "/" + rest {
      assert a[..|b| + 1] == b + "/";
    }
  }

  lemma OverlapMeaning(a: string, b: string)
    ensures !Overlaps(a, b) <==> Apart(a, b)
  {
    PrefixMeaning(Lower(a), Lower(b));
    PrefixMeaning(Lower(b), Lower(a));
  }

  lemma AssertedBytes(normal: Case, w: Witness, tasks: Tasks, input: GeneratedInput, o: Outcome)
    requires w.CoveredWitness? && BytesAsserted(normal, w, tasks, input)
    requires PassesDeterministic(o, normal.expectations)
    ensures HoldsText(o.files, input.path)
  {
    var i :| 0 <= i < |normal.expectations| && ProducedBytes(normal, w, tasks, input, normal.expectations[i]);
    var e := normal.expectations[i];
    assert e in normal.expectations && Passes(o, e);
    if e.SourceTextOccurrence? {
      assert SourceObserver.Source(SourceObserver.RelationOf(e), o.files).Some?;
      assert ReadSource(o.files, e.sourcePath, e.sourcePointer).Some?;
    }
  }

  lemma SoundInputTold(normal: Case, w: Witness, tasks: Tasks, input: GeneratedInput)
    requires w.CoveredWitness? && GeneratedSound(normal, w, tasks, input)
    ensures InputTold(normal, tasks, input)
  {
    forall f | f in normal.fixtures && f.content.Some?
      ensures Apart(f.path, input.path)
    {
      OverlapMeaning(f.path, input.path);
    }
    forall o | PassesDeterministic(o, normal.expectations)
      ensures HoldsText(o.files, input.path)
    {
      AssertedBytes(normal, w, tasks, input, o);
    }
  }

  function LowerPaths(generated: seq<GeneratedInput>): (paths: seq<string>)
    ensures |paths| == |generated| && forall i | 0 <= i < |paths| :: paths[i] == Lower(generated[i].path)
  {
    seq(|generated|, i requires 0 <= i < |generated| => Lower(generated[i].path))
  }

  /** The witness maps every generated input of the case, and no other path. */
  lemma MapsEveryInput(w: Witness, normal: Case)
    requires w.CoveredWitness? && WellFormed(w) && GeneratedMapMatches(w, normal)
    ensures forall p | p in normal.generatedInputs ::
              exists g :: 0 <= g < |w.generated| && Lower(w.generated[g].path) == Lower(p)
    ensures forall g | 0 <= g < |w.generated| ::
              exists p :: p in normal.generatedInputs && Lower(w.generated[g].path) == Lower(p)
  {
    var paths, declared := LowerPaths(w.generated), set p | p in normal.generatedInputs :: Lower(p);
    DistinctSetSize(paths);
    SubsetOfSameSize((set path | path in paths), declared);
    forall p | p in normal.generatedInputs
      ensures exists g :: 0 <= g < |w.generated| && Lower(w.generated[g].path) == Lower(p)
    {
      assert Lower(p) in declared;
      var g :| 0 <= g < |paths| && paths[g] == Lower(p);
    }
  }

  /**
   * The generated inputs of the normal case of an accepted witness are those it maps, and each is truly generated: it is
   * not there at the start, a task of the case makes it for another one that waits for it, and no run passes without it.
   */
  lemma GeneratedInputsTold(cases: seq<Case>, w: Witness, tasks: Tasks)
    requires w.CoveredWitness? && CoreSound(cases, w, tasks)
    ensures var normal := cases[IndexOfCase(cases, w.normalCaseId)];
            && (forall p | p in normal.generatedInputs ::
                  exists g :: 0 <= g < |w.generated| && Lower(w.generated[g].path) == Lower(p))
            && (forall g | 0 <= g < |w.generated| ::
                  exists p :: p in normal.generatedInputs && Lower(w.generated[g].path) == Lower(p))
            && forall g | 0 <= g < |w.generated| :: InputTold(normal, tasks, w.generated[g])
  {
    var normal := cases[IndexOfCase(cases, w.normalCaseId)];
    MapsEveryInput(w, normal);
    forall g | 0 <= g < |w.generated|
      ensures InputTold(normal, tasks, w.generated[g])
    {
      SoundInputTold(normal, w, tasks, w.generated[g]);
    }
  }

  // ----- What the content of a passing core run tells -----

  /** Expected JSON was parsed from text, and a path has one fixture. */
  ghost predicate ValidPlan(normal: Case) {
    && (forall e | e in normal.expectations && e.PointerEquals? :: Valid(e.expected))
    && (forall f, g | f in normal.fixtures && g in normal.fixtures && f.path == g.path :: f == g)
  }

  /** What the pointer leads to holds a nonblank text, a number or a truth value. */
  ghost predicate PointerSays(files: Files, path: string, pointer: string) {
    && path in files && files[path].File? && files[path].json.Some?
    && Lookup(files[path].json.value, pointer).Some?
    && exists keys :: TellsAt(Lookup(files[path].json.value, pointer).value, keys)
  }

  /** The file is not blank, or says something in its JSON. */
  ghost predicate FileTells(files: Files, path: string) {
    && path in files && files[path].File?
    && (!Blank(files[path].text) || exists pointer :: PointerSays(files, path, pointer))
  }

  lemma PointerTells(o: Outcome, e: Expectation)
    requires e.PointerEquals? && Concrete(e.expected) && Valid(e.expected) && ValidFiles(o.files) && Passes(o, e)
    ensures PointerSays(o.files, e.path, e.pointer)
  {
    var document := o.files[e.path].json.value;
    var value := Lookup(document, e.pointer).value;
    EvaluateValid(document, Keys(e.pointer));
    DeepStrictEqualMeaning(value, e.expected);
    var keys := ConcreteBelow(e.expected);
    SameTold(value, e.expected, keys);
  }

  /** The source says something of its own, or its producer has it reviewed. */
  ghost predicate SourceTells(normal: Case, path: string, producer: string, files: Files) {
    SemanticReview(path, producer) in normal.expectations || FileTells(files, path)
  }

  lemma IndependentTells(normal: Case, roles: seq<Role>, path: string, producer: string, o: Outcome)
    requires IndependentSource(normal, roles, path, producer)
    requires PassesDeterministic(o, normal.expectations) && ValidFiles(o.files) && ValidPlan(normal)
    ensures SourceTells(normal, path, producer, o.files)
  {
    var r, k :| 0 <= r < |roles| && 0 <= k < |roles[r].indices|
      && roles[r].taskId == producer && roles[r].content && roles[r].indices[k] < |normal.expectations|
      && match normal.expectations[roles[r].indices[k]]
         case PointerEquals(p, _, expected) => p == path && Concrete(expected)
         case SemanticReview(p, taskId) => p == path && taskId == producer
         case FileEquals(p, text) => p == path && !Blank(text)
         case _ => false;
    var e := normal.expectations[roles[r].indices[k]];
    assert e in normal.expectations;
    if !e.SemanticReview? {
      assert Passes(o, e);
      if e.PointerEquals? {
        PointerTells(o, e);
      }
    }
  }

  /**
   * Producer and consumer own two separate artifacts that no fixture seeds, the consumer waits for the producer, and a
   * passing run found the produced text in the consumer's artifact, with a source that says something of its own.
   */
  ghost predicate RelationTold(normal: Case, tasks: Tasks, e: Expectation, o: Outcome)
    requires e.SourceTextOccurrence?
  {
    && Graph.Reaches(DependenciesOf(tasks), DependsOnOf(tasks, e.consumerTaskId), e.producerTaskId)
    && e.producerTaskId != e.consumerTaskId
    && e.sourcePath in ArtifactsOf(tasks, e.producerTaskId) && e.path in ArtifactsOf(tasks, e.consumerTaskId)
    && Apart(e.path, e.sourcePath)
    && (forall f | f in normal.fixtures && f.content.Some? :: Apart(f.path, e.path) && Apart(f.path, e.sourcePath))
    && Readable(o.files, e.path)
    && (exists read :: ReadSource(o.files, e.sourcePath, e.sourcePointer) == Some(read)
                       && Contains(o.files[e.path].text, read.text))
    && SourceTells(normal, e.sourcePath, e.producerTaskId, o.files)
  }

  lemma RelationIsTold(normal: Case, w: Witness, tasks: Tasks, e: Expectation, o: Outcome)
    requires w.CoveredWitness? && e.SourceTextOccurrence? && OwnedRelation(normal, w, tasks, e) && Passes(o, e)
    requires PassesDeterministic(o, normal.expectations) && ValidFiles(o.files) && ValidPlan(normal)
    ensures RelationTold(normal, tasks, e, o)
  {
    IndependentTells(normal, w.roles, e.sourcePath, e.producerTaskId, o);
    OverlapMeaning(e.path, e.sourcePath);
    forall f | f in normal.fixtures && f.content.Some?
      ensures Apart(f.path, e.path) && Apart(f.path, e.sourcePath)
    {
      OverlapMeaning(f.path, e.path);
      OverlapMeaning(f.path, e.sourcePath);
    }
    var read := SourceObserver.Source(SourceObserver.RelationOf(e), o.files).value;
    assert ReadSource(o.files, e.sourcePath, e.sourcePointer) == Some(read);
  }

  /** A fixture that is not blank lies at the path as it was, or a generated input with the bytes the case asserts. */
  ghost predicate GenuineSource(normal: Case, w: Witness, role: Role, path: string, files: Files)
    requires w.CoveredWitness?
  {
    && Readable(files, path) && files[path].text != ""
    && (|| Fixture(path, Some(files[path].text)) in normal.fixtures
        || exists g :: g in w.generated && g.path == path && g.consumerTaskId == role.taskId)
  }

  /** A text of the artifact occurs in another file, a genuine source. */
  ghost predicate OccurrenceTold(normal: Case, w: Witness, role: Role, e: Expectation, files: Files)
    requires w.CoveredWitness? && e.PointerTextOccurrence?
  {
    && e.path != e.sourcePath && e.path in files && files[e.path].File? && files[e.path].json.Some?
    && GenuineSource(normal, w, role, e.sourcePath, files)
    && exists s :: Lookup(files[e.path].json.value, e.pointer) == Some(Str(s)) && !Blank(s)
                   && Contains(files[e.sourcePath].text, s)
  }

  /** A preserved fixture is the one fixture at its path, and lies there unchanged in every run that passes. */
  lemma KeptFixture(normal: Case, path: string, i: nat, o: Outcome)
    requires PreservedSource(normal, path) && ValidPlan(normal) && PassesDeterministic(o, normal.expectations)
    requires i < |normal.fixtures| && normal.fixtures[i].path == path && normal.fixtures[i].content.Some?
    ensures Readable(o.files, path) && Some(o.files[path].text) == normal.fixtures[i].content
  {
    PresentFixtureListed(normal.fixtures, path);
    var kept := PresentFixture(normal.fixtures, path);
    assert Fixture(path, kept) in normal.fixtures && normal.fixtures[i] in normal.fixtures;
    assert Passes(o, FileEquals(path, kept.value));
  }

  lemma SourceIsGenuine(normal: Case, w: Witness, role: Role, e: Expectation, o: Outcome)
    requires w.CoveredWitness? && e.PointerTextOccurrence? && GenuineOccurrence(normal, w, role, e)
    requires PassesDeterministic(o, normal.expectations) && ValidPlan(normal)
    ensures GenuineSource(normal, w, role, e.sourcePath, o.files)
  {
    var path := e.sourcePath;
    if i: nat :| PreservedSource(normal, path) && i < |normal.fixtures| && normal.fixtures[i].path == path
                 && normal.fixtures[i].content.Some? && !Blank(normal.fixtures[i].content.value)
    {
      KeptFixture(normal, path, i, o);
      assert normal.fixtures[i] == Fixture(path, Some(o.files[path].text));
    } else {
      var i :| 0 <= i < |normal.expectations| && normal.expectations[i].FileEquals?
               && normal.expectations[i].path == path && normal.expectations[i].text != "";
      assert Passes(o, normal.expectations[i]);
      var g :| 0 <= g < |w.generated| && w.generated[g].path == path && w.generated[g].consumerTaskId == role.taskId;
      assert w.generated[g] in w.generated;
    }
  }

  lemma OccurrenceIsTold(normal: Case, w: Witness, role: Role, e: Expectation, o: Outcome)
    requires w.CoveredWitness? && e.PointerTextOccurrence? && e.present && GenuineOccurrence(normal, w, role, e)
    requires PassesDeterministic(o, normal.expectations) && ValidPlan(normal) && Passes(o, e)
    ensures OccurrenceTold(normal, w, role, e, o.files)
  {
    SourceIsGenuine(normal, w, role, e, o);
    var value := Lookup(o.files[e.path].json.value, e.pointer).value;
    assert Lookup(o.files[e.path].json.value, e.pointer) == Some(Str(value.s));
  }

  /** The reviewed artifact is declared by the task that has it reviewed, and by no other. */
  ghost predicate ReviewTold(tasks: Tasks, role: Role, e: Expectation)
    requires e.SemanticReview?
  {
    && e.taskId == role.taskId && e.taskId in tasks && e.path in tasks[e.taskId].artifactPaths
    && forall id | id in tasks && e.path in tasks[id].artifactPaths :: id == e.taskId
  }

  /** What a content expectation of a role tells of a passing run; no other kind counts as content. */
  ghost predicate Tells(normal: Case, w: Witness, tasks: Tasks, role: Role, e: Expectation, o: Outcome)
    requires w.CoveredWitness?
  {
    match e
    case PointerEquals(path, pointer, _) => PointerSays(o.files, path, pointer)
    case FileEquals(path, _) => path in o.files && o.files[path].File? && !Blank(o.files[path].text)
    case SemanticReview(_, _) => ReviewTold(tasks, role, e)
    case SourceTextOccurrence(_, _, _, _, consumer, _) => consumer == role.taskId && RelationTold(normal, tasks, e, o)
    case PointerTextOccurrence(_, _, _, _) => OccurrenceTold(normal, w, role, e, o.files)
    case _ => false
  }

  lemma ContentTells(normal: Case, w: Witness, tasks: Tasks, role: Role, index: nat, o: Outcome)
    requires w.CoveredWitness? && ContentSound(normal, w, tasks, role, index) && !normal.expectations[index].SemanticReview?
    requires PassesDeterministic(o, normal.expectations) && ValidFiles(o.files) && ValidPlan(normal)
    ensures Tells(normal, w, tasks, role, normal.expectations[index], o)
  {
    var e := normal.expectations[index];
    assert e in normal.expectations && Passes(o, e);
    if e.PointerEquals? {
      PointerTells(o, e);
    } else if e.SourceTextOccurrence? {
      RelationIsTold(normal, w, tasks, e, o);
    } else if e.PointerTextOccurrence? {
      OccurrenceIsTold(normal, w, role, e, o);
    }
  }

  lemma {:induction false} ReviewTells(cases: seq<Case>, w: Witness, tasks: Tasks, r: nat, index: nat)
    requires w.CoveredWitness? && ReviewsSound(cases, w.normalCaseId, w.roles, tasks, |cases|, 0)
    requires ReviewAt(cases, IndexOfCase(cases, w.normalCaseId), index) && r < |w.roles| && index in w.roles[r].indices
    ensures ReviewTold(tasks, w.roles[r], cases[IndexOfCase(cases, w.normalCaseId)].expectations[index])
  {
    var ni := IndexOfCase(cases, w.normalCaseId);
    assert Earlier(ni, index, |cases|, 0);
    assert ReviewOwned(w.roles, tasks, index, cases[ni].expectations[index]);
  }

  /**
   * In an accepted witness every content expectation tells something of its own task: of every run that passes, that its
   * file says something, that the text of an upstream artifact or of a genuine source is in it, or that the artifact it
   * leaves to review is the task's alone.
   */
  lemma CoreContentTold(cases: seq<Case>, w: Witness, tasks: Tasks, r: nat, index: nat, o: Outcome)
    requires w.CoveredWitness? && CoreSound(cases, w, tasks) && r < |w.roles| && index in w.roles[r].indices
    requires var normal := cases[IndexOfCase(cases, w.normalCaseId)];
             PassesDeterministic(o, normal.expectations) && ValidFiles(o.files) && ValidPlan(normal)
    ensures var normal := cases[IndexOfCase(cases, w.normalCaseId)];
            index < |normal.expectations| && Tells(normal, w, tasks, w.roles[r], normal.expectations[index], o)
  {
    var ni, role := IndexOfCase(cases, w.normalCaseId), w.roles[r];
    assert RoleSound(cases[ni], w, tasks, role) && WellFormedRole(role);
    var k :| 0 <= k < |role.indices| && role.indices[k] == index;
    assert ContentSound(cases[ni], w, tasks, role, index);
    if cases[ni].expectations[index].SemanticReview? {
      ReviewTells(cases, w, tasks, r, index);
    } else {
      ContentTells(cases[ni], w, tasks, role, index, o);
    }
  }
}
