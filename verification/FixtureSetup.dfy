/** Isolated case workspaces, and the check that a contradictory negative case does not start from the same files. */
module FixtureSetup {
  import opened Common
  import opened Ordering
  import opened JsonPointer
  import opened Plan
  import Evaluation

  // ----- Case paths and workspace paths -----

  const TAGMA := ".tagma/"

  /** A path of a case stays outside the .tagma folder. */
  predicate CasePath(path: string) {
    !(TAGMA <= path)
  }

  /** The pipeline's own folder is addressed by its name. */
  predicate InFolder(path: string, folder: string) {
    path == folder || folder + "/" <= path
  }

  function ToWorkspace(path: string, folder: string): string {
    if InFolder(path, folder) then TAGMA + path else path
  }

  function ToCase(path: string, folder: string): string {
    if TAGMA <= path && InFolder(path[|TAGMA|..], folder) then path[|TAGMA|..] else path
  }

  /** Different case paths are different workspace paths. */
  lemma CasePathRoundTrip(path: string, folder: string)
    requires CasePath(path)
    ensures ToCase(ToWorkspace(path, folder), folder) == path
  {
    assert (TAGMA + path)[|TAGMA|..] == path;
  }

  /** A workspace path survives the way back exactly if it is not in a top folder named like the pipeline's own. */
  lemma WorkspacePathRoundTrip(path: string, folder: string)
    requires InFolder(path, folder) ==> !(TAGMA <= path)
    ensures ToWorkspace(ToCase(path, folder), folder) == path <==> !InFolder(path, folder)
  {
    if TAGMA <= path {
      assert path == TAGMA + path[|TAGMA|..];
    } else {
      assert |TAGMA + path| > |path|;
    }
  }

  // ----- The staged pipeline folder -----

  datatype StagedNode = StagedFile(content: string) | StagedDirectory | StagedLink

  /** Nodes by path relative to the pipeline's folder. */
  type Stage = map<string, StagedNode>

  function PrefixOf(segments: seq<string>, k: nat): string
    requires k <= |segments|
  {
    Join(segments[..k], '/')
  }

  /** Every node lies in a directory. */
  ghost predicate ValidStage(stage: Stage) {
    forall path, k | path in stage && 0 < k < |Split(path, '/')| ::
      PrefixOf(Split(path, '/'), k) in stage && stage[PrefixOf(Split(path, '/'), k)].StagedDirectory?
  }

  /** Reading a base file gives its digest, nothing when there is none, or an error. */
  datatype BaseRead = Digested(value: Option<Digest<string>>) | Illegal

  function Fingerprint(content: Option<string>): Option<Digest<string>> {
    if content.None? then None else Some(Sha256(content.value))
  }

  /** The walk down to a path: no link on the way, and a regular file at its end unless something is missing. */
  function Walk(stage: Stage, segments: seq<string>, k: nat): BaseRead
    requires 1 <= k <= |segments| + 1
    decreases |segments| + 1 - k
  {
    if k > |segments| then
      var path := PrefixOf(segments, |segments|);
      if path in stage && stage[path].StagedFile? then Digested(Some(Sha256(stage[path].content))) else Illegal
    else
      var path := PrefixOf(segments, k);
      if path !in stage then
        if k > 1 && PrefixOf(segments, k - 1) in stage && stage[PrefixOf(segments, k - 1)].StagedFile? then Illegal
        else Digested(None)
      else if stage[path].StagedLink? then Illegal
      else Walk(stage, segments, k + 1)
  }

  /** A file of the staged folder, by its path in a case. */
  function Staged(stage: Stage, folder: string, path: string): Option<string> {
    if folder + "/" <= path && path[|folder| + 1..] in stage && stage[path[|folder| + 1..]].StagedFile?
    then Some(stage[path[|folder| + 1..]].content) else None
  }

  function BaseOf(stage: Stage, folder: string, path: string): BaseRead {
    if folder + "/" <= path then Walk(stage, Split(path[|folder| + 1..], '/'), 1) else Digested(None)
  }

  lemma {:induction false} WalkMeaning(stage: Stage, segments: seq<string>, k: nat)
    requires 1 <= k <= |segments| + 1 && segments != []
    requires k > 1 ==> PrefixOf(segments, k - 1) in stage
    requires var path := PrefixOf(segments, |segments|);
             path in stage ==> forall j | 0 < j < |segments| :: PrefixOf(segments, j) in stage
    ensures var path := PrefixOf(segments, |segments|);
            var read := Walk(stage, segments, k);
            read != Illegal ==>
              read.value == if path in stage && stage[path].StagedFile? then Some(Sha256(stage[path].content)) else None
    decreases |segments| + 1 - k
  {
    if k <= |segments| && PrefixOf(segments, k) in stage && !stage[PrefixOf(segments, k)].StagedLink? {
      WalkMeaning(stage, segments, k + 1);
    }
  }

  /** A base read that succeeds gives the digest of the staged file. */
  lemma BaseMeaning(stage: Stage, folder: string, path: string)
    requires ValidStage(stage) && BaseOf(stage, folder, path) != Illegal
    ensures BaseOf(stage, folder, path).value == Fingerprint(Staged(stage, folder, path))
  {
    if folder + "/" <= path {
      var suffix := path[|folder| + 1..];
      JoinSplit(suffix, '/');
      assert Split(suffix, '/')[..|Split(suffix, '/')|] == Split(suffix, '/');
      WalkMeaning(stage, Split(suffix, '/'), 1);
    }
  }

  type Memo = map<string, Option<Digest<string>>>

  /** The memo holds base reads only. */
  ghost predicate MemoSound(memo: Memo, stage: Stage, folder: string) {
    forall path | path in memo :: BaseOf(stage, folder, path) == Digested(memo[path])
  }

  method WalkStage(stage: Stage, segments: seq<string>) returns (read: BaseRead)
    requires segments != []
    ensures read == Walk(stage, segments, 1)
  {
    var k := 1;
    while k <= |segments|
      invariant 1 <= k <= |segments| + 1
      invariant k > 1 ==> PrefixOf(segments, k - 1) in stage
      invariant Walk(stage, segments, k) == Walk(stage, segments, 1)
    {
      var path := PrefixOf(segments, k);
      if path !in stage {
        if k > 1 && stage[PrefixOf(segments, k - 1)].StagedFile? {
          return Illegal;
        }
        return Digested(None);
      }
      if stage[path].StagedLink? {
        return Illegal;
      }
      k := k + 1;
    }
    var path := PrefixOf(segments, |segments|);
    if path in stage && stage[path].StagedFile? {
      read := Digested(Some(Sha256(stage[path].content)));
    } else {
      read := Illegal;
    }
  }

  /** readBase: a memoised read gives what a fresh one would. */
  method ReadBase(memo: Memo, stage: Stage, folder: string, path: string) returns (memo': Memo, read: BaseRead)
    requires MemoSound(memo, stage, folder)
    ensures read == BaseOf(stage, folder, path)
    ensures MemoSound(memo', stage, folder)
  {
    memo' := memo;
    if path in memo {
      return memo, Digested(memo[path]);
    }
    if folder + "/" <= path {
      read := WalkStage(stage, Split(path[|folder| + 1..], '/'));
    } else {
      read := Digested(None);
    }
    if read.Digested? {
      memo' := memo[path := read.value];
    }
  }

  // ----- Comparing two setups -----

  /** The last fixture of a path counts, as in a Map. */
  function FixtureFor(fixtures: seq<Fixture>, path: string): Option<Fixture> {
    if fixtures == [] then None
    else if fixtures[|fixtures| - 1].path == path then Some(fixtures[|fixtures| - 1])
    else FixtureFor(fixtures[..|fixtures| - 1], path)
  }

  predicate HasFixture(fixtures: seq<Fixture>, path: string) {
    FixtureFor(fixtures, path).Some?
  }

  function Effective(stage: Stage, folder: string, fixtures: seq<Fixture>, path: string): BaseRead {
    var f := FixtureFor(fixtures, path);
    if f.Some? then Digested(Fingerprint(f.value.content)) else BaseOf(stage, folder, path)
  }

  /** No path either case sets up has a different effective content. */
  ghost predicate SameSetup(stage: Stage, folder: string, left: seq<Fixture>, right: seq<Fixture>) {
    forall path | HasFixture(left, path) || HasFixture(right, path) ::
      Effective(stage, folder, left, path) == Effective(stage, folder, right, path)
  }

  /** Some path one of the cases sets up is readable in both and differs. */
  ghost predicate DifferentSetup(stage: Stage, folder: string, left: seq<Fixture>, right: seq<Fixture>) {
    exists path :: (HasFixture(left, path) || HasFixture(right, path)) && DiffersAt(stage, folder, left, right, path)
  }

  predicate DiffersAt(stage: Stage, folder: string, left: seq<Fixture>, right: seq<Fixture>, path: string) {
    var l, r := Effective(stage, folder, left, path), Effective(stage, folder, right, path);
    l.Digested? && r.Digested? && l != r
  }

  lemma {:induction false} FixtureListed(fixtures: seq<Fixture>, path: string)
    ensures HasFixture(fixtures, path) <==> exists i | 0 <= i < |fixtures| :: fixtures[i].path == path
    ensures HasFixture(fixtures, path) ==> FixtureFor(fixtures, path).value in fixtures
    ensures HasFixture(fixtures, path) ==> FixtureFor(fixtures, path).value.path == path
  {
    if fixtures != [] {
      FixtureListed(fixtures[..|fixtures| - 1], path);
    }
  }

  method ReadEffective(memo: Memo, stage: Stage, folder: string, fixtures: seq<Fixture>, path: string)
    returns (memo': Memo, read: BaseRead)
    requires MemoSound(memo, stage, folder)
    ensures MemoSound(memo', stage, folder) && read == Effective(stage, folder, fixtures, path)
  {
    var f := FixtureFor(fixtures, path);
    if f.Some? {
      return memo, Digested(Fingerprint(f.value.content));
    }
    memo', read := ReadBase(memo, stage, folder, path);
  }

  datatype Comparison = Equal | Different | Unreadable(path: string)

  /** What comparing the paths of a fixture list may answer. */
  ghost predicate Compared(stage: Stage, folder: string, left: seq<Fixture>, right: seq<Fixture>,
                           paths: seq<Fixture>, answer: Comparison) {
    match answer
    case Equal =>
      forall i | 0 <= i < |paths| ::
        Effective(stage, folder, left, paths[i].path) == Effective(stage, folder, right, paths[i].path)
    case Different =>
      exists i | 0 <= i < |paths| :: DiffersAt(stage, folder, left, right, paths[i].path)
    case Unreadable(path) =>
      && (exists i | 0 <= i < |paths| :: paths[i].path == path)
      && BaseOf(stage, folder, path) == Illegal
      && !(HasFixture(left, path) && HasFixture(right, path))
  }

  method ComparePaths(memo: Memo, stage: Stage, folder: string, left: seq<Fixture>, right: seq<Fixture>, paths: seq<Fixture>)
    returns (memo': Memo, answer: Comparison)
    requires MemoSound(memo, stage, folder)
    ensures MemoSound(memo', stage, folder) && Compared(stage, folder, left, right, paths, answer)
  {
    memo' := memo;
    for i := 0 to |paths|
      invariant MemoSound(memo', stage, folder)
      invariant forall k | 0 <= k < i ::
                  Effective(stage, folder, left, paths[k].path) == Effective(stage, folder, right, paths[k].path)
    {
      var path := paths[i].path;
      var leftRead, rightRead;
      memo', leftRead := ReadEffective(memo', stage, folder, left, path);
      if leftRead.Illegal? {
        return memo', Unreadable(path);
      }
      memo', rightRead := ReadEffective(memo', stage, folder, right, path);
      if rightRead.Illegal? {
        return memo', Unreadable(path);
      }
      if leftRead != rightRead {
        return memo', Different;
      }
    }
    answer := Equal;
  }

  lemma ComparedMeaning(stage: Stage, folder: string, left: seq<Fixture>, right: seq<Fixture>, answer: Comparison)
    requires Compared(stage, folder, left, right, left + right, answer)
    ensures answer.Equal? ==> SameSetup(stage, folder, left, right)
    ensures answer.Different? ==> DifferentSetup(stage, folder, left, right)
  {
    var paths := left + right;
    if answer.Equal? {
      forall path | HasFixture(left, path) || HasFixture(right, path)
        ensures Effective(stage, folder, left, path) == Effective(stage, folder, right, path)
      {
        FixtureListed(left, path);
        FixtureListed(right, path);
        assert forall i | 0 <= i < |left| :: paths[i] == left[i];
        assert forall i | 0 <= i < |right| :: paths[|left| + i] == right[i];
      }
    }
    if answer.Different? {
      var i :| 0 <= i < |paths| && DiffersAt(stage, folder, left, right, paths[i].path);
      FixtureListed(left, paths[i].path);
      FixtureListed(right, paths[i].path);
    }
  }

  // ----- The validation -----

  predicate OrdinaryNegative(c: Case) {
    c.baselineCaseId.None? && !IsFaultCase(c) && c.environment == [] && c.deniedManualTasks == []
  }

  predicate SameTargets(a: Case, b: Case) {
    SortStrings(a.targets) == SortStrings(b.targets)
  }

  predicate OrdinaryPositive(c: Case, negative: Case) {
    c.baselineCaseId.None? && !IsFaultCase(c) && c.environment == [] && SameTargets(c, negative)
  }

  /** The negative case expects another outcome of a task the positive case expects to succeed. */
  predicate Contradicts(negative: Case, positive: Case) {
    exists i | 0 <= i < |negative.expectations| ::
      var e := negative.expectations[i];
      e.TaskStatusIs? && e.status != Success && TaskStatusIs(e.taskId, Success) in positive.expectations
  }

  predicate Comparable(negative: Case, positive: Case) {
    OrdinaryNegative(negative) && OrdinaryPositive(positive, negative) && Contradicts(negative, positive)
  }

  predicate Omits(negative: Case, positive: Case) {
    exists i | 0 <= i < |positive.fixtures| :: !HasFixture(negative.fixtures, positive.fixtures[i].path)
  }

  datatype Verdict =
    | SetupAccepted
    | OmittedInput(negative: nat, positive: nat)
    | UnchangedSetup(negative: nat, positive: nat)
    | UnreadableBase(negative: nat, positive: nat, path: string)

  ghost predicate SoundPair(stage: Stage, folder: string, negative: Case, positive: Case) {
    !Omits(negative, positive) && DifferentSetup(stage, folder, positive.fixtures, negative.fixtures)
  }

  ghost predicate Judged(stage: Stage, folder: string, cases: seq<Case>, i: nat, j: nat, verdict: Verdict)
    requires i < |cases| && j < |cases|
  {
    i != j && Comparable(cases[i], cases[j]) ==>
      match verdict
      case SetupAccepted => SoundPair(stage, folder, cases[i], cases[j])
      case OmittedInput(_, _) => Omits(cases[i], cases[j])
      case UnchangedSetup(_, _) =>
        !Omits(cases[i], cases[j]) && SameSetup(stage, folder, cases[j].fixtures, cases[i].fixtures)
      case UnreadableBase(_, _, path) =>
        && BaseOf(stage, folder, path) == Illegal
        && HasFixture(cases[i].fixtures, path) && !HasFixture(cases[j].fixtures, path)
  }

  method JudgePair(memo: Memo, stage: Stage, folder: string, cases: seq<Case>, i: nat, j: nat)
    returns (memo': Memo, verdict: Verdict)
    requires MemoSound(memo, stage, folder) && i < |cases| && j < |cases|
    requires i != j && Comparable(cases[i], cases[j])
    ensures MemoSound(memo', stage, folder) && Judged(stage, folder, cases, i, j, verdict)
    ensures verdict.SetupAccepted? || (verdict.negative == i && verdict.positive == j)
  {
    var left, right := cases[j].fixtures, cases[i].fixtures;
    if Omits(cases[i], cases[j]) {
      return memo, OmittedInput(i, j);
    }
    var answer;
    memo', answer := ComparePaths(memo, stage, folder, left, right, left + right);
    ComparedMeaning(stage, folder, left, right, answer);
    match answer {
      case Equal => verdict := UnchangedSetup(i, j);
      case Different => verdict := SetupAccepted;
      case Unreadable(path) =>
        verdict := UnreadableBase(i, j, path);
        FixtureListed(left, path);
        FixtureListed(right, path);
    }
  }

  /** Accepted only if every comparable pair is sound; otherwise the verdict names an offending pair. */
  method ValidateFixtureSetup(stage: Stage, folder: string, cases: seq<Case>) returns (verdict: Verdict)
    ensures verdict.SetupAccepted? ==>
              forall i, j | 0 <= i < |cases| && 0 <= j < |cases| :: Judged(stage, folder, cases, i, j, verdict)
    ensures !verdict.SetupAccepted? ==>
              && verdict.negative < |cases| && verdict.positive < |cases| && verdict.negative != verdict.positive
              && Comparable(cases[verdict.negative], cases[verdict.positive])
              && Judged(stage, folder, cases, verdict.negative, verdict.positive, verdict)
  {
    var memo: Memo := map[];
    for i := 0 to |cases|
      invariant MemoSound(memo, stage, folder)
      invariant forall k, j | 0 <= k < i && 0 <= j < |cases| :: Judged(stage, folder, cases, k, j, SetupAccepted)
    {
      if OrdinaryNegative(cases[i]) {
        memo, verdict := JudgeNegative(memo, stage, folder, cases, i);
        if !verdict.SetupAccepted? {
          return;
        }
      }
    }
    verdict := SetupAccepted;
  }

  method JudgeNegative(memo: Memo, stage: Stage, folder: string, cases: seq<Case>, i: nat)
    returns (memo': Memo, verdict: Verdict)
    requires MemoSound(memo, stage, folder) && i < |cases| && OrdinaryNegative(cases[i])
    ensures MemoSound(memo', stage, folder)
    ensures verdict.SetupAccepted? ==> forall j | 0 <= j < |cases| :: Judged(stage, folder, cases, i, j, verdict)
    ensures !verdict.SetupAccepted? ==>
              && verdict.negative == i && verdict.positive < |cases| && verdict.positive != i
              && Comparable(cases[i], cases[verdict.positive])
              && Judged(stage, folder, cases, i, verdict.positive, verdict)
  {
    memo' := memo;
    for j := 0 to |cases|
      invariant MemoSound(memo', stage, folder)
      invariant forall k | 0 <= k < j :: Judged(stage, folder, cases, i, k, SetupAccepted)
    {
      if i != j && OrdinaryPositive(cases[j], cases[i]) && Contradicts(cases[i], cases[j]) {
        memo', verdict := JudgePair(memo', stage, folder, cases, i, j);
        if !verdict.SetupAccepted? {
          return;
        }
      }
    }
    verdict := SetupAccepted;
  }

  // ----- Prepared workspaces -----

  /** Regular files by workspace path. */
  type Files = map<string, string>

  /** The folders that a path lies in. */
  function Parents(path: string): set<string> {
    set k | 0 <= k < |path| && path[k] == '/' :: path[..k]
  }

  const PLAN_SUFFIX := ".trial-plan.json"

  predicate PlanName(name: string) {
    |name| >= |PLAN_SUFFIX| && name[|name| - |PLAN_SUFFIX|..] == PLAN_SUFFIX
  }

  /** Entries named like a trial plan are not copied. */
  predicate Skipped(path: string) {
    exists i | 0 <= i < |Split(path, '/')| :: PlanName(Split(path, '/')[i])
  }

  function CopiedPath(folder: string, path: string): string {
    TAGMA + (folder + "/" + path)
  }

  lemma CopiedPathInjective(folder: string, a: string, b: string)
    requires CopiedPath(folder, a) == CopiedPath(folder, b)
    ensures a == b
  {
    assert CopiedPath(folder, a)[|TAGMA| + |folder| + 1..] == a;
    assert CopiedPath(folder, b)[|TAGMA| + |folder| + 1..] == b;
  }

  predicate Copied(stage: Stage, path: string) {
    path in stage && stage[path].StagedFile? && !Skipped(path)
  }

  ghost function CopiedFolder(stage: Stage, folder: string): (files: Files)
    ensures forall path | Copied(stage, path) ::
              CopiedPath(folder, path) in files && files[CopiedPath(folder, path)] == stage[path].content
    ensures forall key | key in files :: exists path :: Copied(stage, path) && key == CopiedPath(folder, path)
  {
    forall a, b | CopiedPath(folder, a) == CopiedPath(folder, b)
      ensures a == b
    {
      CopiedPathInjective(folder, a, b);
    }
    map path | path in stage && Copied(stage, path) :: CopiedPath(folder, path) := stage[path].content
  }

  function Get(files: Files, path: string): Option<string> {
    if path in files then Some(files[path]) else None
  }

  function Apply(files: Files, f: Fixture, path: string): Files {
    if f.content.None? then files - {path} else files[path := f.content.value]
  }

  function Overlay(files: Files, folder: string, fixtures: seq<Fixture>): Files {
    if fixtures == [] then files
    else
      var f := fixtures[|fixtures| - 1];
      Apply(Overlay(files, folder, fixtures[..|fixtures| - 1]), f, ToWorkspace(f.path, folder))
  }

  /** The files of a case's prepared workspace. */
  ghost function Prepared(stage: Stage, folder: string, fixtures: seq<Fixture>): Files {
    Overlay(CopiedFolder(stage, folder), folder, fixtures)
  }

  // ----- Copying the pipeline folder -----

  const MAX_COPY_FILES: nat := 256
  const MAX_COPY_BYTES: nat := 16 * 1024 * 1024

  ghost function CopiedPaths(stage: Stage): set<string> {
    set path | path in stage && Copied(stage, path)
  }

  /** The folders of the copy, empty ones included. */
  ghost function CopiedFolders(stage: Stage, folder: string): set<string> {
    Parents(CopiedPath(folder, ""))
    + set path | path in stage && stage[path].StagedDirectory? && !Skipped(path) :: CopiedPath(folder, path)
  }

  ghost function CopiedBytes(stage: Stage, paths: set<string>): nat
    requires forall path | path in paths :: Copied(stage, path)
  {
    if paths == {} then 0
    else
      var path :| path in paths;
      assert Copied(stage, path);
      Utf8Length(stage[path].content) + CopiedBytes(stage, paths - {path})
  }

  lemma {:induction false} BytesWithout(stage: Stage, paths: set<string>, path: string)
    requires path in paths && forall p | p in paths :: Copied(stage, p)
    ensures CopiedBytes(stage, paths) == Utf8Length(stage[path].content) + CopiedBytes(stage, paths - {path})
  {
    var first :| first in paths
      && CopiedBytes(stage, paths) == Utf8Length(stage[first].content) + CopiedBytes(stage, paths - {first});
    if first != path {
      BytesWithout(stage, paths - {first}, path);
      BytesWithout(stage, paths - {path}, first);
      assert paths - {first} - {path} == paths - {path} - {first};
    }
  }

  lemma {:induction false} BytesGrow(stage: Stage, some: set<string>, all: set<string>)
    requires some <= all && forall path | path in all :: Copied(stage, path)
    ensures CopiedBytes(stage, some) <= CopiedBytes(stage, all) && |some| <= |all|
  {
    if path :| path in all && path !in some {
      BytesWithout(stage, all, path);
      BytesGrow(stage, some, all - {path});
    } else {
      assert some == all;
    }
  }

  /** A link among the helpers, too many files or too many bytes. */
  ghost predicate CopyFails(stage: Stage) {
    || (exists path | path in stage :: stage[path].StagedLink? && !Skipped(path))
    || |CopiedPaths(stage)| > MAX_COPY_FILES
    || CopiedBytes(stage, CopiedPaths(stage)) > MAX_COPY_BYTES
  }

  datatype Copy = Copy(files: Files, folders: set<string>)

  /** A fixture cannot be applied: it addresses a folder, or would be written below a file. */
  predicate Blocked(copy: Copy, folder: string, f: Fixture) {
    var path := ToWorkspace(f.path, folder);
    path in copy.folders || (f.content.Some? && exists parent | parent in Parents(path) :: parent in copy.files)
  }

  /** What was copied of the paths that were visited. */
  ghost predicate CopiedSoFar(stage: Stage, folder: string, done: set<string>, copy: Copy) {
    && (forall path | path in done :: Copied(stage, path)
          ==> CopiedPath(folder, path) in copy.files && copy.files[CopiedPath(folder, path)] == stage[path].content)
    && (forall key | key in copy.files ::
          exists path :: path in done && Copied(stage, path) && key == CopiedPath(folder, path))
    && copy.folders == Parents(CopiedPath(folder, ""))
         + set path | path in done && path in stage && stage[path].StagedDirectory? && !Skipped(path) ::
             CopiedPath(folder, path)
  }

  function CopyEntry(stage: Stage, folder: string, copy: Copy, path: string): Copy
    requires path in stage
  {
    if Skipped(path) then copy
    else match stage[path]
      case StagedLink => copy
      case StagedDirectory => copy.(folders := copy.folders + {CopiedPath(folder, path)})
      case StagedFile(content) => copy.(files := copy.files[CopiedPath(folder, path) := content])
  }

  lemma CopyOne(stage: Stage, folder: string, done: set<string>, copy: Copy, path: string)
    requires CopiedSoFar(stage, folder, done, copy) && path in stage
    ensures CopiedSoFar(stage, folder, done + {path}, CopyEntry(stage, folder, copy, path))
  {
    forall other | CopiedPath(folder, other) == CopiedPath(folder, path)
      ensures other == path
    {
      CopiedPathInjective(folder, other, path);
    }
  }

  lemma CopiedAll(stage: Stage, folder: string, copy: Copy)
    requires CopiedSoFar(stage, folder, stage.Keys, copy)
    ensures copy == Copy(CopiedFolder(stage, folder), CopiedFolders(stage, folder))
  {
    SameCopies(stage, folder, copy.files, CopiedFolder(stage, folder));
  }

  datatype Budget = Budget(files: nat, bytes: nat)

  ghost function CopiedIn(stage: Stage, done: set<string>): set<string> {
    set path | path in done && Copied(stage, path)
  }

  /** What the files copied so far cost, within the limits. */
  ghost predicate Spent(stage: Stage, done: set<string>, b: Budget) {
    b == Budget(|CopiedIn(stage, done)|, CopiedBytes(stage, CopiedIn(stage, done))) && !Exceeded(b)
  }

  predicate Exceeded(b: Budget) {
    b.files > MAX_COPY_FILES || b.bytes > MAX_COPY_BYTES
  }

  function Pay(stage: Stage, b: Budget, path: string): Budget {
    if Copied(stage, path) then Budget(b.files + 1, b.bytes + Utf8Length(stage[path].content)) else b
  }

  /** One more entry is paid for, or the whole copy was too large. */
  lemma SpendOne(stage: Stage, done: set<string>, b: Budget, path: string)
    requires Spent(stage, done, b) && path !in done
    ensures if Exceeded(Pay(stage, b, path)) then CopyFails(stage) else Spent(stage, done + {path}, Pay(stage, b, path))
  {
    var before, after := CopiedIn(stage, done), CopiedIn(stage, done + {path});
    if Copied(stage, path) {
      BytesWithout(stage, after, path);
      assert after - {path} == before && |after| == |before| + 1;
      BytesGrow(stage, after, CopiedPaths(stage));
    } else {
      assert after == before;
    }
  }

  /** Nothing that was visited keeps the folder from being copied, and everything visited was copied and paid for. */
  ghost predicate Copying(stage: Stage, folder: string, done: set<string>, copy: Copy, b: Budget) {
    && (forall path | path in done && path in stage :: !(stage[path].StagedLink? && !Skipped(path)))
    && CopiedSoFar(stage, folder, done, copy) && Spent(stage, done, b)
  }

  lemma CopyingStarts(stage: Stage, folder: string)
    ensures Copying(stage, folder, {}, Copy(map[], Parents(CopiedPath(folder, ""))), Budget(0, 0))
  {
    assert CopiedIn(stage, {}) == {};
  }

  lemma CopyingStep(stage: Stage, folder: string, done: set<string>, copy: Copy, b: Budget, path: string)
    requires Copying(stage, folder, done, copy, b) && path in stage && path !in done
    ensures if (stage[path].StagedLink? && !Skipped(path)) || Exceeded(Pay(stage, b, path)) then CopyFails(stage)
            else Copying(stage, folder, done + {path}, CopyEntry(stage, folder, copy, path), Pay(stage, b, path))
  {
    CopyOne(stage, folder, done, copy, path);
    SpendOne(stage, done, b, path);
  }

  lemma CopyingDone(stage: Stage, folder: string, copy: Copy, b: Budget)
    requires Copying(stage, folder, stage.Keys, copy, b)
    ensures !CopyFails(stage) && copy == Copy(CopiedFolder(stage, folder), CopiedFolders(stage, folder))
  {
    CopiedAll(stage, folder, copy);
    assert CopiedIn(stage, stage.Keys) == CopiedPaths(stage);
  }

  method CopyTree(stage: Stage, folder: string) returns (copy: Option<Copy>)
    ensures copy == if CopyFails(stage) then None
                    else Some(Copy(CopiedFolder(stage, folder), CopiedFolders(stage, folder)))
  {
    var copied, budget := Copy(map[], Parents(CopiedPath(folder, ""))), Budget(0, 0);
    var pending := stage.Keys;
    CopyingStarts(stage, folder);
    while pending != {}
      invariant pending <= stage.Keys
      invariant Copying(stage, folder, stage.Keys - pending, copied, budget)
      decreases |pending|
    {
      var path :| path in pending;
      CopyingStep(stage, folder, stage.Keys - pending, copied, budget, path);
      assert stage.Keys - (pending - {path}) == stage.Keys - pending + {path};
      pending := pending - {path};
      budget := Pay(stage, budget, path);
      if (stage[path].StagedLink? && !Skipped(path)) || Exceeded(budget) {
        return None;
      }
      copied := CopyEntry(stage, folder, copied, path);
    }
    assert stage.Keys - pending == stage.Keys;
    CopyingDone(stage, folder, copied, budget);
    copy := Some(copied);
  }

  ghost predicate CopyOf(stage: Stage, folder: string, files: Files) {
    && (forall path | Copied(stage, path) ::
          CopiedPath(folder, path) in files && files[CopiedPath(folder, path)] == stage[path].content)
    && (forall key | key in files :: exists path :: Copied(stage, path) && key == CopiedPath(folder, path))
  }

  lemma CopyWithin(stage: Stage, folder: string, a: Files, b: Files, key: string)
    requires CopyOf(stage, folder, a) && CopyOf(stage, folder, b)
    ensures key in a ==> Get(b, key) == Get(a, key)
  {
    if key in a {
      var path :| Copied(stage, path) && key == CopiedPath(folder, path);
    }
  }

  lemma SameCopies(stage: Stage, folder: string, a: Files, b: Files)
    requires CopyOf(stage, folder, a) && CopyOf(stage, folder, b)
    ensures a == b
  {
    forall key
      ensures Get(a, key) == Get(b, key)
    {
      CopyWithin(stage, folder, a, b, key);
      CopyWithin(stage, folder, b, a, key);
    }
    SameFiles(a, b);
  }

  lemma SameFiles(a: Files, b: Files)
    requires forall key :: Get(a, key) == Get(b, key)
    ensures a == b
  {
    assert forall key :: key in a <==> Get(a, key).Some?;
    assert forall key :: key in b <==> Get(b, key).Some?;
    assert forall key | key in a :: a[key] == Get(a, key).value == b[key];
  }

  /** Writing a file makes the folders it lies in; removing one leaves them. */
  function Applied(copy: Copy, folder: string, f: Fixture): Copy {
    var path := ToWorkspace(f.path, folder);
    Copy(Apply(copy.files, f, path), copy.folders + if f.content.Some? then Parents(path) else {})
  }

  function After(copy: Copy, folder: string, fixtures: seq<Fixture>): Copy {
    if fixtures == [] then copy
    else Applied(After(copy, folder, fixtures[..|fixtures| - 1]), folder, fixtures[|fixtures| - 1])
  }

  lemma {:induction false} AfterFiles(copy: Copy, folder: string, fixtures: seq<Fixture>)
    ensures After(copy, folder, fixtures).files == Overlay(copy.files, folder, fixtures)
  {
    if fixtures != [] {
      AfterFiles(copy, folder, fixtures[..|fixtures| - 1]);
    }
  }

  /** Each of the first n fixtures can be applied when its turn comes. */
  ghost predicate Applicable(copy: Copy, folder: string, fixtures: seq<Fixture>, n: nat)
    requires n <= |fixtures|
  {
    forall i | 0 <= i < n :: ApplicableAt(copy, folder, fixtures, i)
  }

  ghost predicate ApplicableAt(copy: Copy, folder: string, fixtures: seq<Fixture>, i: nat)
    requires i < |fixtures|
  {
    !Blocked(After(copy, folder, fixtures[..i]), folder, fixtures[i])
  }

  lemma ApplyStep(copy: Copy, folder: string, fixtures: seq<Fixture>, i: nat)
    requires i < |fixtures| && Applicable(copy, folder, fixtures, i)
    ensures After(copy, folder, fixtures[..i + 1]) == Applied(After(copy, folder, fixtures[..i]), folder, fixtures[i])
    ensures if Blocked(After(copy, folder, fixtures[..i]), folder, fixtures[i])
            then !Applicable(copy, folder, fixtures, |fixtures|) else Applicable(copy, folder, fixtures, i + 1)
  {
    assert fixtures[..i + 1][..i] == fixtures[..i];
    assert ApplicableAt(copy, folder, fixtures, i) <==>
           !Blocked(After(copy, folder, fixtures[..i]), folder, fixtures[i]);
  }

  method ApplyFixtures(copy: Copy, folder: string, fixtures: seq<Fixture>) returns (result: Option<Files>)
    ensures result.Some? <==> Applicable(copy, folder, fixtures, |fixtures|)
    ensures result.Some? ==> result.value == Overlay(copy.files, folder, fixtures)
  {
    var current := copy;
    for i := 0 to |fixtures|
      invariant current == After(copy, folder, fixtures[..i])
      invariant Applicable(copy, folder, fixtures, i)
    {
      ApplyStep(copy, folder, fixtures, i);
      if Blocked(current, folder, fixtures[i]) {
        return None;
      }
      current := Applied(current, folder, fixtures[i]);
    }
    assert fixtures[..|fixtures|] == fixtures;
    AfterFiles(copy, folder, fixtures);
    result := Some(current.files);
  }

  method PrepareTrialCaseWorkspace(stage: Stage, folder: string, fixtures: seq<Fixture>) returns (files: Option<Files>)
    ensures files.Some? ==> files.value == Prepared(stage, folder, fixtures)
    ensures files.Some? <==>
              && !CopyFails(stage)
              && Applicable(Copy(CopiedFolder(stage, folder), CopiedFolders(stage, folder)), folder, fixtures, |fixtures|)
  {
    var copy := CopyTree(stage, folder);
    if copy.None? {
      return None;
    }
    files := ApplyFixtures(copy.value, folder, fixtures);
  }

  // ----- Before each run -----

  /** A declared file cannot be reset: it lies below a file, is a folder, or is there and no fixture removes it. */
  predicate ResetBlocked(copy: Copy, folder: string, fixtures: seq<Fixture>, path: string) {
    var key := ToWorkspace(path, folder);
    || (exists parent | parent in Parents(key) :: parent in copy.files)
    || key in copy.folders
    || (key in copy.files && Fixture(path, None) !in fixtures)
  }

  function Cleared(files: Files, folder: string, paths: seq<string>): Files {
    if paths == [] then files
    else Cleared(files, folder, paths[..|paths| - 1]) - {ToWorkspace(paths[|paths| - 1], folder)}
  }

  ghost predicate Clears(folder: string, paths: seq<string>, key: string) {
    exists i :: 0 <= i < |paths| && ToWorkspace(paths[i], folder) == key
  }

  lemma ClearsLast(folder: string, paths: seq<string>, key: string)
    requires paths != []
    ensures Clears(folder, paths, key) <==>
              Clears(folder, paths[..|paths| - 1], key) || ToWorkspace(paths[|paths| - 1], folder) == key
  {
    var n := |paths| - 1;
    if Clears(folder, paths, key) {
      var i :| 0 <= i < |paths| && ToWorkspace(paths[i], folder) == key;
      assert i < n ==> paths[..n][i] == paths[i];
    }
  }

  lemma {:induction false} ClearedMeaning(files: Files, folder: string, paths: seq<string>, key: string)
    ensures Get(Cleared(files, folder, paths), key) == if Clears(folder, paths, key) then None else Get(files, key)
  {
    if paths != [] {
      ClearedMeaning(files, folder, paths[..|paths| - 1], key);
      ClearsLast(folder, paths, key);
    }
  }

  /** Each of the first n declared files can be reset when its turn comes. */
  ghost predicate Resettable(copy: Copy, folder: string, fixtures: seq<Fixture>, declared: seq<string>, n: nat)
    requires n <= |declared|
  {
    forall i | 0 <= i < n :: ResettableAt(copy, folder, fixtures, declared, i)
  }

  ghost predicate ResettableAt(copy: Copy, folder: string, fixtures: seq<Fixture>, declared: seq<string>, i: nat)
    requires i < |declared|
  {
    !ResetBlocked(copy.(files := Cleared(copy.files, folder, declared[..i])), folder, fixtures, declared[i])
  }

  /** resetGeneratedTrialInputs */
  method ResetGeneratedInputs(copy: Copy, folder: string, fixtures: seq<Fixture>, declared: seq<string>)
    returns (result: Option<Copy>)
    ensures result.Some? <==> Resettable(copy, folder, fixtures, declared, |declared|)
    ensures result.Some? ==> result.value == copy.(files := Cleared(copy.files, folder, declared))
  {
    var current := copy;
    for i := 0 to |declared|
      invariant current == copy.(files := Cleared(copy.files, folder, declared[..i]))
      invariant Resettable(copy, folder, fixtures, declared, i)
    {
      assert declared[..i + 1][..i] == declared[..i];
      var blocked := ResetBlocked(current, folder, fixtures, declared[i]);
      assert blocked == !ResettableAt(copy, folder, fixtures, declared, i);
      if blocked {
        return None;
      }
      current := current.(files := current.files - {ToWorkspace(declared[i], folder)});
    }
    assert declared[..|declared|] == declared;
    result := Some(current);
  }

  // ----- What a case finds at a path -----

  /** A staged file that no workspace receives. */
  predicate HiddenPlan(stage: Stage, folder: string, path: string) {
    Staged(stage, folder, path).Some? && Skipped(path[|folder| + 1..])
  }

  lemma CopiedAt(stage: Stage, folder: string, path: string)
    requires CasePath(path)
    ensures Get(CopiedFolder(stage, folder), ToWorkspace(path, folder)) ==
              if HiddenPlan(stage, folder, path) then None else Staged(stage, folder, path)
  {
    var files, key := CopiedFolder(stage, folder), ToWorkspace(path, folder);
    if folder + "/" <= path {
      assert path == folder + "/" + path[|folder| + 1..];
      assert key == CopiedPath(folder, path[|folder| + 1..]);
    }
    if key in files {
      var p :| Copied(stage, p) && key == CopiedPath(folder, p);
      CopiedIsBelow(folder, p, path);
    }
  }

  /** Only a path below the folder is translated to a copied file's path. */
  lemma CopiedIsBelow(folder: string, copied: string, path: string)
    requires CasePath(path) && ToWorkspace(path, folder) == CopiedPath(folder, copied)
    ensures folder + "/" <= path && path[|folder| + 1..] == copied
  {
    var below := folder + "/" + copied;
    assert (TAGMA + below)[|TAGMA|..] == below;
    assert TAGMA <= TAGMA + below;
    assert (TAGMA + path)[|TAGMA|..] == path;
  }

  ghost predicate CasePaths(fixtures: seq<Fixture>) {
    forall i | 0 <= i < |fixtures| :: CasePath(fixtures[i].path)
  }

  lemma {:induction false} OverlayAt(files: Files, folder: string, fixtures: seq<Fixture>, path: string)
    requires CasePaths(fixtures) && CasePath(path)
    ensures Get(Overlay(files, folder, fixtures), ToWorkspace(path, folder)) ==
              if HasFixture(fixtures, path) then FixtureFor(fixtures, path).value.content
              else Get(files, ToWorkspace(path, folder))
  {
    if fixtures != [] {
      var n := |fixtures| - 1;
      OverlayAt(files, folder, fixtures[..n], path);
      CasePathRoundTrip(path, folder);
      CasePathRoundTrip(fixtures[n].path, folder);
    }
  }

  lemma FixtureCasePath(fixtures: seq<Fixture>, path: string)
    requires CasePaths(fixtures) && HasFixture(fixtures, path)
    ensures CasePath(path)
  {
    FixtureListed(fixtures, path);
    var i :| 0 <= i < |fixtures| && fixtures[i].path == path;
    assert CasePath(fixtures[i].path);
  }

  lemma {:induction false} OverlayElsewhere(files: Files, folder: string, fixtures: seq<Fixture>, key: string)
    requires forall i | 0 <= i < |fixtures| :: ToWorkspace(fixtures[i].path, folder) != key
    ensures Get(Overlay(files, folder, fixtures), key) == Get(files, key)
  {
    if fixtures != [] {
      OverlayElsewhere(files, folder, fixtures[..|fixtures| - 1], key);
    }
  }

  /** The content a prepared workspace has at a case path. */
  ghost function Found(stage: Stage, folder: string, fixtures: seq<Fixture>, path: string): Option<string> {
    Get(Prepared(stage, folder, fixtures), ToWorkspace(path, folder))
  }

  lemma FoundMeaning(stage: Stage, folder: string, fixtures: seq<Fixture>, path: string)
    requires CasePaths(fixtures) && CasePath(path)
    ensures Found(stage, folder, fixtures, path) ==
              if HasFixture(fixtures, path) then FixtureFor(fixtures, path).value.content
              else if HiddenPlan(stage, folder, path) then None else Staged(stage, folder, path)
  {
    OverlayAt(CopiedFolder(stage, folder), folder, fixtures, path);
    CopiedAt(stage, folder, path);
  }

  /** The check sees what the workspace holds, unless it reads a staged file that no workspace receives. */
  lemma EffectiveMeaning(stage: Stage, folder: string, fixtures: seq<Fixture>, path: string)
    requires ValidStage(stage) && CasePaths(fixtures) && CasePath(path)
    requires Effective(stage, folder, fixtures, path).Digested?
    ensures Effective(stage, folder, fixtures, path).value ==
              Fingerprint(if HasFixture(fixtures, path) || !HiddenPlan(stage, folder, path)
                          then Found(stage, folder, fixtures, path) else Staged(stage, folder, path))
  {
    FoundMeaning(stage, folder, fixtures, path);
    if !HasFixture(fixtures, path) {
      BaseMeaning(stage, folder, path);
    }
  }

  ghost predicate Controlled(left: seq<Fixture>, right: seq<Fixture>, path: string) {
    HasFixture(left, path) || HasFixture(right, path)
  }

  /** Outside the paths the cases set up, every workspace is the copied folder. */
  lemma ControlledPathsDecide(stage: Stage, folder: string, left: seq<Fixture>, right: seq<Fixture>)
    requires CasePaths(left) && CasePaths(right)
    ensures Prepared(stage, folder, left) == Prepared(stage, folder, right) <==>
              forall path | Controlled(left, right, path) ::
                Found(stage, folder, left, path) == Found(stage, folder, right, path)
  {
    if forall path | Controlled(left, right, path) ::
         Found(stage, folder, left, path) == Found(stage, folder, right, path) {
      forall key
        ensures Get(Prepared(stage, folder, left), key) == Get(Prepared(stage, folder, right), key)
      {
        if i :| 0 <= i < |left| && ToWorkspace(left[i].path, folder) == key {
          FixtureListed(left, left[i].path);
          assert Controlled(left, right, left[i].path);
        } else if i :| 0 <= i < |right| && ToWorkspace(right[i].path, folder) == key {
          FixtureListed(right, right[i].path);
          assert Controlled(left, right, right[i].path);
        } else {
          OverlayElsewhere(CopiedFolder(stage, folder), folder, left, key);
          OverlayElsewhere(CopiedFolder(stage, folder), folder, right, key);
        }
      }
      SameFiles(Prepared(stage, folder, left), Prepared(stage, folder, right));
    }
  }

  /** A path set up by one case only, at which the other is compared with a file its workspace does not receive. */
  ghost predicate Misread(stage: Stage, folder: string, left: seq<Fixture>, right: seq<Fixture>, path: string) {
    && Controlled(left, right, path) && !(HasFixture(left, path) && HasFixture(right, path))
    && HiddenPlan(stage, folder, path)
  }

  ghost predicate Readable(stage: Stage, folder: string, left: seq<Fixture>, right: seq<Fixture>) {
    forall path | Controlled(left, right, path) ::
      CasePath(path) && Effective(stage, folder, left, path).Digested? && Effective(stage, folder, right, path).Digested?
  }

  lemma FingerprintInjective(a: Option<string>, b: Option<string>)
    ensures Fingerprint(a) == Fingerprint(b) <==> a == b
  {
  }

  /** At a path that is not misread, the check and the workspaces agree. */
  lemma PathJudged(stage: Stage, folder: string, left: seq<Fixture>, right: seq<Fixture>, path: string)
    requires ValidStage(stage) && CasePaths(left) && CasePaths(right) && CasePath(path)
    requires Effective(stage, folder, left, path).Digested? && Effective(stage, folder, right, path).Digested?
    requires Controlled(left, right, path) && !Misread(stage, folder, left, right, path)
    ensures Effective(stage, folder, left, path) == Effective(stage, folder, right, path)
       <==> Found(stage, folder, left, path) == Found(stage, folder, right, path)
  {
    EffectiveMeaning(stage, folder, left, path);
    EffectiveMeaning(stage, folder, right, path);
    FingerprintInjective(Found(stage, folder, left, path), Found(stage, folder, right, path));
  }

  /** What the only fixture at a misread path writes. */
  ghost function Written(left: seq<Fixture>, right: seq<Fixture>, path: string): Option<string>
    requires Controlled(left, right, path)
  {
    if HasFixture(left, path) then FixtureFor(left, path).value.content else FixtureFor(right, path).value.content
  }

  /** At a misread path the workspaces agree exactly if the only fixture removes the file. */
  lemma MisreadFound(stage: Stage, folder: string, left: seq<Fixture>, right: seq<Fixture>, path: string)
    requires CasePaths(left) && CasePaths(right) && CasePath(path) && Misread(stage, folder, left, right, path)
    ensures Found(stage, folder, left, path) == Found(stage, folder, right, path) <==> Written(left, right, path) == None
  {
    FoundMeaning(stage, folder, left, path);
    FoundMeaning(stage, folder, right, path);
  }

  lemma MisreadJudged(stage: Stage, folder: string, left: seq<Fixture>, right: seq<Fixture>, path: string)
    requires ValidStage(stage) && CasePaths(left) && CasePaths(right) && CasePath(path)
    requires Effective(stage, folder, left, path).Digested? && Effective(stage, folder, right, path).Digested?
    requires Misread(stage, folder, left, right, path)
    ensures Effective(stage, folder, left, path) == Effective(stage, folder, right, path)
       <==> Written(left, right, path) == Staged(stage, folder, path)
    ensures Found(stage, folder, left, path) == Found(stage, folder, right, path) <==> Written(left, right, path) == None
  {
    EffectiveMeaning(stage, folder, left, path);
    EffectiveMeaning(stage, folder, right, path);
    MisreadFound(stage, folder, left, right, path);
    FingerprintInjective(Written(left, right, path), Staged(stage, folder, path));
  }

  /**
   * Comparing the union of the fixture paths, with base reads, decides whether the whole prepared workspaces are
   * equal, as long as no case leaves to the base a staged file named like a trial plan.
   */
  lemma FixturePathsDecide(stage: Stage, folder: string, left: seq<Fixture>, right: seq<Fixture>)
    requires ValidStage(stage) && CasePaths(left) && CasePaths(right) && Readable(stage, folder, left, right)
    requires forall path :: !Misread(stage, folder, left, right, path)
    ensures SameSetup(stage, folder, left, right) <==> Prepared(stage, folder, left) == Prepared(stage, folder, right)
  {
    ControlledPathsDecide(stage, folder, left, right);
    forall path | Controlled(left, right, path)
      ensures Effective(stage, folder, left, path) == Effective(stage, folder, right, path)
         <==> Found(stage, folder, left, path) == Found(stage, folder, right, path)
    {
      PathJudged(stage, folder, left, right, path);
    }
  }

  /** The other paths agree, and all misread fixtures restore the staged bytes, or all remove the file. */
  ghost predicate Misled(stage: Stage, folder: string, left: seq<Fixture>, right: seq<Fixture>) {
    && (exists path :: Misread(stage, folder, left, right, path))
    && (forall path | Controlled(left, right, path) && !Misread(stage, folder, left, right, path) ::
          Found(stage, folder, left, path) == Found(stage, folder, right, path))
    && ((forall path | Misread(stage, folder, left, right, path) ::
           Written(left, right, path) == Staged(stage, folder, path))
        || (forall path | Misread(stage, folder, left, right, path) :: Written(left, right, path) == None))
  }

  /** Exactly when the comparison is wrong about the workspaces. */
  lemma ComparisonMisled(stage: Stage, folder: string, left: seq<Fixture>, right: seq<Fixture>)
    requires ValidStage(stage) && CasePaths(left) && CasePaths(right) && Readable(stage, folder, left, right)
    ensures (SameSetup(stage, folder, left, right) <==> Prepared(stage, folder, left) == Prepared(stage, folder, right))
       <==> !Misled(stage, folder, left, right)
  {
    ControlledPathsDecide(stage, folder, left, right);
    forall path | Controlled(left, right, path) && !Misread(stage, folder, left, right, path)
      ensures Effective(stage, folder, left, path) == Effective(stage, folder, right, path)
         <==> Found(stage, folder, left, path) == Found(stage, folder, right, path)
    {
      PathJudged(stage, folder, left, right, path);
    }
    forall path | Misread(stage, folder, left, right, path)
      ensures Effective(stage, folder, left, path) == Effective(stage, folder, right, path)
         <==> Written(left, right, path) == Staged(stage, folder, path)
      ensures Found(stage, folder, left, path) == Found(stage, folder, right, path)
         <==> Written(left, right, path) == None
    {
      MisreadJudged(stage, folder, left, right, path);
    }
  }

  /** Removing a staged trial plan file of another pipeline is accepted, and changes nothing. */
  lemma RemovingPlanChangesNothing(stage: Stage, folder: string, name: string)
    requires ValidStage(stage) && name in stage && stage[name].StagedFile? && Skipped(name) && CasePath(folder + "/" + name)
    requires BaseOf(stage, folder, folder + "/" + name).Digested?
    ensures var right := [Fixture(folder + "/" + name, None)];
            && DifferentSetup(stage, folder, [], right)
            && Prepared(stage, folder, []) == Prepared(stage, folder, right)
  {
    var path := folder + "/" + name;
    var left: seq<Fixture>, right := [], [Fixture(path, None)];
    assert path[|folder| + 1..] == name;
    FixtureListed(right, path);
    FixtureListed(left, path);
    assert Misread(stage, folder, left, right, path);
    MisreadJudged(stage, folder, left, right, path);
    forall other | Controlled(left, right, other)
      ensures other == path
    {
      FixtureListed(right, other);
    }
    ControlledPathsDecide(stage, folder, left, right);
    assert DiffersAt(stage, folder, left, right, path);
  }

  lemma NothingOmitted(negative: Case, positive: Case, path: string)
    requires !Omits(negative, positive) && HasFixture(positive.fixtures, path)
    ensures HasFixture(negative.fixtures, path)
  {
    FixtureListed(positive.fixtures, path);
    var i :| 0 <= i < |positive.fixtures| && positive.fixtures[i].path == path;
    assert HasFixture(negative.fixtures, positive.fixtures[i].path);
  }

  lemma ControlledCasePath(left: seq<Fixture>, right: seq<Fixture>, path: string)
    requires CasePaths(left) && CasePaths(right) && Controlled(left, right, path)
    ensures CasePath(path)
  {
    if HasFixture(left, path) {
      FixtureCasePath(left, path);
    } else {
      FixtureCasePath(right, path);
    }
  }

  /** A difference that was found is one of the workspaces, unless it lies at misread paths whose files all go. */
  lemma FoundDifference(stage: Stage, folder: string, left: seq<Fixture>, right: seq<Fixture>)
    requires ValidStage(stage) && CasePaths(left) && CasePaths(right)
    requires DifferentSetup(stage, folder, left, right)
    ensures Prepared(stage, folder, left) != Prepared(stage, folder, right) <==> !Misled(stage, folder, left, right)
  {
    ControlledPathsDecide(stage, folder, left, right);
    var path :| Controlled(left, right, path) && DiffersAt(stage, folder, left, right, path);
    ControlledCasePath(left, right, path);
    if Misread(stage, folder, left, right, path) {
      MisreadJudged(stage, folder, left, right, path);
    } else {
      PathJudged(stage, folder, left, right, path);
    }
    forall other | Misread(stage, folder, left, right, other)
      ensures Found(stage, folder, left, other) == Found(stage, folder, right, other)
         <==> Written(left, right, other) == None
    {
      ControlledCasePath(left, right, other);
      MisreadFound(stage, folder, left, right, other);
    }
  }

  /**
   * Two cases of an accepted plan with the same targets, of which one expects a task to fail that the other expects
   * to succeed, start from different workspaces exactly if the comparison was not misled; and then they differ in a
   * file the negative case sets up itself.
   */
  lemma AcceptedSetupsDiffer(stage: Stage, folder: string, cases: seq<Case>, i: nat, j: nat)
    requires ValidStage(stage) && i < |cases| && j < |cases| && i != j && Comparable(cases[i], cases[j])
    requires CasePaths(cases[i].fixtures) && CasePaths(cases[j].fixtures)
    requires Judged(stage, folder, cases, i, j, SetupAccepted)
    ensures var negative, positive := cases[i].fixtures, cases[j].fixtures;
            && (Prepared(stage, folder, positive) != Prepared(stage, folder, negative)
                <==> !Misled(stage, folder, positive, negative))
            && (!Misled(stage, folder, positive, negative) ==>
                  exists path :: HasFixture(negative, path)
                                 && Found(stage, folder, positive, path) != Found(stage, folder, negative, path))
  {
    var left, right := cases[j].fixtures, cases[i].fixtures;
    FoundDifference(stage, folder, left, right);
    ControlledPathsDecide(stage, folder, left, right);
    if !Misled(stage, folder, left, right) {
      var path :| Controlled(left, right, path)
                  && Found(stage, folder, left, path) != Found(stage, folder, right, path);
      if HasFixture(left, path) {
        NothingOmitted(cases[i], cases[j], path);
      }
    }
  }

  /**
   * A negative and a positive case that are compared run the same targets under no control but their files, and no
   * outcome passes both: they expect different ends of a task.
   */
  lemma ComparedCases(negative: Case, positive: Case)
    requires Comparable(negative, positive)
    ensures multiset(negative.targets) == multiset(positive.targets)
    ensures negative.environment == [] && positive.environment == [] && negative.deniedManualTasks == []
    ensures forall ev | ev in negative.evidence + positive.evidence :: ev.Preservation?
    ensures negative.baselineCaseId == None && positive.baselineCaseId == None
    ensures forall o :: !(Evaluation.PassesDeterministic(o, negative.expectations)
                          && Evaluation.PassesDeterministic(o, positive.expectations))
  {
    SortStringsCanonical(positive.targets, negative.targets);
    forall o {
      ComparedCasesExclude(negative, positive, o);
    }
  }

  lemma ComparedCasesExclude(negative: Case, positive: Case, o: Evaluation.Outcome)
    requires Comparable(negative, positive)
    ensures !(Evaluation.PassesDeterministic(o, negative.expectations)
              && Evaluation.PassesDeterministic(o, positive.expectations))
  {
    var i :| 0 <= i < |negative.expectations| && negative.expectations[i].TaskStatusIs?
             && negative.expectations[i].status != Success
             && TaskStatusIs(negative.expectations[i].taskId, Success) in positive.expectations;
    var e := negative.expectations[i];
    if Evaluation.PassesDeterministic(o, negative.expectations) {
      assert Evaluation.Passes(o, e);
      assert !Evaluation.Passes(o, TaskStatusIs(e.taskId, Success));
    }
  }
}
