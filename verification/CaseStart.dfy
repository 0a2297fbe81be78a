/** The workspace a case starts from: which core artifacts its run must make, and whether a probe starts as its baseline. */
module CaseStart {
  import opened Common
  import opened Json
  import opened Plan
  import opened Workspace
  import opened Evaluation
  import opened CoreWitness
  import Prerequisites
  import FixtureSetup
  import Graph

  function GeneratedPaths(generated: seq<GeneratedInput>): (paths: seq<string>)
    ensures |paths| == |generated| && forall i | 0 <= i < |paths| :: paths[i] == generated[i].path
  {
    seq(|generated|, i requires 0 <= i < |generated| => generated[i].path)
  }

  function ReviewedPaths(expectations: seq<Expectation>): (paths: seq<string>)
    ensures forall path :: path in paths <==>
              exists i :: 0 <= i < |expectations| && expectations[i].SemanticReview? && expectations[i].path == path
    ensures (forall i | 0 <= i < |expectations| :: !expectations[i].SemanticReview?) ==> paths == []
  {
    if expectations == [] then []
    else (if expectations[0].SemanticReview? then [expectations[0].path] else []) + ReviewedPaths(expectations[1..])
  }

  /** The files that are reset before each run: mapped generated inputs, and artifacts under semantic review. */
  function ResetPaths(c: Case, generated: seq<string>): seq<string> {
    generated + ReviewedPaths(c.expectations)
  }

  /** The files the first run of a case starts from; generated are the inputs a core witness maps for it. */
  ghost function StartFiles(stage: FixtureSetup.Stage, folder: string, c: Case, generated: seq<string>)
    : FixtureSetup.Files
  {
    FixtureSetup.Cleared(FixtureSetup.Prepared(stage, folder, c.fixtures), folder, ResetPaths(c, generated))
  }

  /** The file was not there when the first run started, and it is a readable regular file at the end. */
  ghost predicate Produced(start: FixtureSetup.Files, folder: string, o: Outcome, path: string) {
    FixtureSetup.ToWorkspace(path, folder) !in start && Readable(o.files, path)
  }

  /** No copied file is at the path of the case. */
  predicate NotCopied(stage: FixtureSetup.Stage, folder: string, path: string) {
    FixtureSetup.Staged(stage, folder, path).None? || FixtureSetup.HiddenPlan(stage, folder, path)
  }

  /** Paths of a case are apart from the .tagma folder, as its parser demands. */
  ghost predicate CasePathsOnly(c: Case, generated: seq<string>) {
    FixtureSetup.CasePaths(c.fixtures) && forall path | path in ResetPaths(c, generated) :: FixtureSetup.CasePath(path)
  }

  /** Different case paths are different keys of a workspace. */
  lemma ClearsPath(folder: string, paths: seq<string>, path: string)
    requires FixtureSetup.CasePath(path) && forall p | p in paths :: FixtureSetup.CasePath(p)
    ensures FixtureSetup.Clears(folder, paths, FixtureSetup.ToWorkspace(path, folder)) <==> path in paths
  {
    FixtureSetup.CasePathRoundTrip(path, folder);
    forall i | 0 <= i < |paths| && FixtureSetup.ToWorkspace(paths[i], folder) == FixtureSetup.ToWorkspace(path, folder)
      ensures paths[i] == path
    {
      assert paths[i] in paths;
      FixtureSetup.CasePathRoundTrip(paths[i], folder);
    }
  }

  lemma UnseededFixture(normal: Case, path: string)
    requires !Seeded(normal, path) && FixtureSetup.HasFixture(normal.fixtures, path)
    ensures FixtureSetup.FixtureFor(normal.fixtures, path).value.content.None?
  {
    FixtureSetup.FixtureListed(normal.fixtures, path);
    var f := FixtureSetup.FixtureFor(normal.fixtures, path).value;
    var i :| 0 <= i < |normal.fixtures| && normal.fixtures[i] == f;
    assert Overlaps(f.path, path);
  }

  lemma StartsAbsent(stage: FixtureSetup.Stage, folder: string, c: Case, generated: seq<string>, path: string)
    requires CasePathsOnly(c, generated) && FixtureSetup.CasePath(path) && !Seeded(c, path)
    ensures FixtureSetup.ToWorkspace(path, folder) !in StartFiles(stage, folder, c, generated) <==>
              || path in ResetPaths(c, generated)
              || FixtureSetup.HasFixture(c.fixtures, path)
              || NotCopied(stage, folder, path)
  {
    FixtureSetup.ClearedMeaning(FixtureSetup.Prepared(stage, folder, c.fixtures), folder, ResetPaths(c, generated),
                                FixtureSetup.ToWorkspace(path, folder));
    ClearsPath(folder, ResetPaths(c, generated), path);
    FixtureSetup.FoundMeaning(stage, folder, c.fixtures, path);
    if FixtureSetup.HasFixture(c.fixtures, path) {
      UnseededFixture(c, path);
    }
  }

  /**
   * If the normal case of an accepted witness passes its deterministic expectations, a declared artifact that is not
   * left to semantic review came into being while its task succeeded exactly if the file is reset before the run, a
   * fixture removes it, or the staged folder holds no file that is copied to its path.
   */
  lemma PassedCoreProduces(cases: seq<Case>, w: Witness, tasks: Tasks, o: Outcome, id: string, path: string,
                           stage: FixtureSetup.Stage, folder: string)
    requires w.CoveredWitness? && CoreSound(cases, w, tasks) && SoundGraph(tasks)
    requires id in tasks && path in tasks[id].artifactPaths && FixtureSetup.CasePath(path)
    requires var normal := cases[IndexOfCase(cases, w.normalCaseId)];
             && CasePathsOnly(normal, GeneratedPaths(w.generated))
             && PassesDeterministic(o, normal.expectations) && SemanticReview(path, id) !in normal.expectations
    ensures o.run.Some? && id in o.run.value.states && o.run.value.states[id].status == Success
    ensures var normal := cases[IndexOfCase(cases, w.normalCaseId)];
            Produced(StartFiles(stage, folder, normal, GeneratedPaths(w.generated)), folder, o, path) <==>
              || path in ResetPaths(normal, GeneratedPaths(w.generated))
              || FixtureSetup.HasFixture(normal.fixtures, path)
              || NotCopied(stage, folder, path)
  {
    PassedCoreHasArtifacts(cases, w, tasks, o, id, path);
    StartsAbsent(stage, folder, cases[IndexOfCase(cases, w.normalCaseId)], GeneratedPaths(w.generated), path);
  }

  // ----- A staged answer -----

  function OneTask(id: string, path: string): Tasks {
    map[id := Task([], None, [path])]
  }

  function OneCase(id: string, path: string, text: string): Case {
    Case("n", 1, [id], [], [], [TaskStatusIs(id, Success), FileEquals(path, text)], [], None, [], [])
  }

  function OneWitness(id: string): Witness {
    CoveredWitness("n", [Role(id, true, [1])], [])
  }

  /** A run that leaves the workspace as it was. */
  function IdleRun(id: string, path: string, text: string): Outcome {
    Outcome(map[path := File(text, Utf8Length(text), None)],
            Some(RunResult("r", map[id := TaskState(Success, true, Some(path), [])])), "r", map[])
  }

  lemma OneTaskGraph(id: string, path: string)
    ensures SoundGraph(OneTask(id, path))
    ensures ClosureOf([id], OneTask(id, path)) == {id}
  {
    var deps := DependenciesOf(OneTask(id, path));
    assert Graph.Ranked(deps, map[id := 0]);
    Graph.ReachableKnown(deps, [id]);
    Graph.RootReached(deps, [id], id);
  }

  lemma OneScope(id: string, path: string, text: string)
    ensures ScopeSound(OneCase(id, path, text), OneWitness(id), OneTask(id, path))
  {
    OneTaskGraph(id, path);
    Graph.RootReached(DependenciesOf(OneTask(id, path)), [id], id);
  }

  lemma OneRole(id: string, path: string, text: string)
    requires !Blank(text)
    ensures RolesSound(OneCase(id, path, text), OneWitness(id), OneTask(id, path))
  {
    var normal, w, tasks := OneCase(id, path, text), OneWitness(id), OneTask(id, path);
    var role := w.roles[0];
    assert role.indices[0] == 1 && ContentSound(normal, w, tasks, role, 1);
    assert normal.expectations[0] == TaskStatusIs(id, Success);
    assert ArtifactMapped(normal, role, path);
    assert RoleSound(normal, w, tasks, role);
  }

  lemma OneCoreSound(id: string, path: string, text: string)
    requires !Blank(text)
    ensures CoreSound([OneCase(id, path, text)], OneWitness(id), OneTask(id, path))
  {
    var normal, w, tasks := OneCase(id, path, text), OneWitness(id), OneTask(id, path);
    OneScope(id, path, text);
    OneRole(id, path, text);
    assert IndexOfCase([normal], "n") == 0;
    assert forall ci: nat, i: nat :: !ReviewAt([normal], ci, i);
    assert WellFormed(w);
  }

  lemma IdleRunPasses(id: string, path: string, text: string)
    requires Utf8Length(text) <= MAX_ASSERTION_FILE_BYTES
    ensures PassesDeterministic(IdleRun(id, path, text), OneCase(id, path, text).expectations)
  {
    var o := IdleRun(id, path, text);
    assert Passes(o, TaskStatusIs(id, Success));
    assert Passes(o, FileEquals(path, text));
  }

  lemma StartsStaged(stage: FixtureSetup.Stage, folder: string, id: string, path: string, text: string)
    requires FixtureSetup.CasePath(path)
    requires FixtureSetup.Staged(stage, folder, path) == Some(text) && !FixtureSetup.HiddenPlan(stage, folder, path)
    ensures FixtureSetup.Get(StartFiles(stage, folder, OneCase(id, path, text), []),
                             FixtureSetup.ToWorkspace(path, folder)) == Some(text)
  {
    FixtureSetup.FoundMeaning(stage, folder, [], path);
    assert ResetPaths(OneCase(id, path, text), []) == [];
  }

  /** A file copied from the staged folder passes an accepted core without being touched by any task. */
  lemma StagedAnswerPasses(stage: FixtureSetup.Stage, folder: string, id: string, path: string, text: string)
    requires !Blank(text) && Utf8Length(text) <= MAX_ASSERTION_FILE_BYTES && FixtureSetup.CasePath(path)
    requires FixtureSetup.Staged(stage, folder, path) == Some(text) && !FixtureSetup.HiddenPlan(stage, folder, path)
    ensures CoreSound([OneCase(id, path, text)], OneWitness(id), OneTask(id, path)) && SoundGraph(OneTask(id, path))
    ensures PassesDeterministic(IdleRun(id, path, text), OneCase(id, path, text).expectations)
    ensures FixtureSetup.Get(StartFiles(stage, folder, OneCase(id, path, text), []),
                             FixtureSetup.ToWorkspace(path, folder)) == Some(text)
  {
    OneCoreSound(id, path, text);
    OneTaskGraph(id, path);
    IdleRunPasses(id, path, text);
    StartsStaged(stage, folder, id, path, text);
  }

  // ----- The start of a probe and of its baseline -----

  ghost predicate DistinctPaths(fixtures: seq<Fixture>) {
    forall i, j | 0 <= i < j < |fixtures| :: fixtures[i].path != fixtures[j].path
  }

  lemma {:induction false} OnlyFixture(fixtures: seq<Fixture>, f: Fixture)
    requires DistinctPaths(fixtures) && f in fixtures
    ensures FixtureSetup.FixtureFor(fixtures, f.path) == Some(f)
  {
    if fixtures[|fixtures| - 1] != f {
      OnlyFixture(fixtures[..|fixtures| - 1], f);
    }
  }

  /** The order of fixtures does not matter when their paths are distinct. */
  lemma SameFixture(a: seq<Fixture>, b: seq<Fixture>, path: string)
    requires DistinctPaths(a) && DistinctPaths(b) && multiset(a) == multiset(b)
    ensures FixtureSetup.FixtureFor(a, path) == FixtureSetup.FixtureFor(b, path)
  {
    FixtureSetup.FixtureListed(a, path);
    FixtureSetup.FixtureListed(b, path);
    forall f
      ensures f in a <==> f in b
    {
      assert f in a <==> f in multiset(a);
      assert f in b <==> f in multiset(b);
    }
    if FixtureSetup.HasFixture(a, path) {
      OnlyFixture(b, FixtureSetup.FixtureFor(a, path).value);
    }
  }

  lemma SamePrepared(stage: FixtureSetup.Stage, folder: string, a: seq<Fixture>, b: seq<Fixture>)
    requires DistinctPaths(a) && DistinctPaths(b) && multiset(a) == multiset(b)
    requires FixtureSetup.CasePaths(a) && FixtureSetup.CasePaths(b)
    ensures FixtureSetup.Prepared(stage, folder, a) == FixtureSetup.Prepared(stage, folder, b)
  {
    FixtureSetup.ControlledPathsDecide(stage, folder, a, b);
    forall path | FixtureSetup.Controlled(a, b, path)
      ensures FixtureSetup.Found(stage, folder, a, path) == FixtureSetup.Found(stage, folder, b, path)
    {
      FixtureSetup.ControlledCasePath(a, b, path);
      SameFixture(a, b, path);
      FixtureSetup.FoundMeaning(stage, folder, a, path);
      FixtureSetup.FoundMeaning(stage, folder, b, path);
    }
  }

  /** Reset in one of the cases, left alone in the other. */
  ghost predicate ResetInOne(a: seq<string>, b: seq<string>, path: string) {
    (path in a) != (path in b)
  }

  /** No file is there that only one of the lists names. */
  ghost predicate NothingInOne(files: FixtureSetup.Files, folder: string, a: seq<string>, b: seq<string>) {
    forall path | ResetInOne(a, b, path) :: FixtureSetup.ToWorkspace(path, folder) !in files
  }

  /** Two ways of clearing a workspace agree exactly if no file is cleared by one of them only. */
  lemma ClearedAlike(files: FixtureSetup.Files, folder: string, a: seq<string>, b: seq<string>)
    requires forall path | path in a + b :: FixtureSetup.CasePath(path)
    ensures FixtureSetup.Cleared(files, folder, a) == FixtureSetup.Cleared(files, folder, b) <==>
              NothingInOne(files, folder, a, b)
  {
    var left, right := FixtureSetup.Cleared(files, folder, a), FixtureSetup.Cleared(files, folder, b);
    forall path | path in a + b
      ensures FixtureSetup.Get(left, FixtureSetup.ToWorkspace(path, folder))
           == if path in a then None else FixtureSetup.Get(files, FixtureSetup.ToWorkspace(path, folder))
      ensures FixtureSetup.Get(right, FixtureSetup.ToWorkspace(path, folder))
           == if path in b then None else FixtureSetup.Get(files, FixtureSetup.ToWorkspace(path, folder))
    {
      ClearsPath(folder, a, path);
      ClearsPath(folder, b, path);
      FixtureSetup.ClearedMeaning(files, folder, a, FixtureSetup.ToWorkspace(path, folder));
      FixtureSetup.ClearedMeaning(files, folder, b, FixtureSetup.ToWorkspace(path, folder));
    }
    if NothingInOne(files, folder, a, b) {
      forall key
        ensures FixtureSetup.Get(left, key) == FixtureSetup.Get(right, key)
      {
        SameKey(files, folder, a, b, key);
      }
      FixtureSetup.SameFiles(left, right);
    }
  }

  lemma SameKey(files: FixtureSetup.Files, folder: string, a: seq<string>, b: seq<string>, key: string)
    requires NothingInOne(files, folder, a, b)
    ensures FixtureSetup.Get(FixtureSetup.Cleared(files, folder, a), key)
         == FixtureSetup.Get(FixtureSetup.Cleared(files, folder, b), key)
  {
    FixtureSetup.ClearedMeaning(files, folder, a, key);
    FixtureSetup.ClearedMeaning(files, folder, b, key);
    if i :| 0 <= i < |a| && FixtureSetup.ToWorkspace(a[i], folder) == key {
      assert a[i] in b || ResetInOne(a, b, a[i]);
    } else if i :| 0 <= i < |b| && FixtureSetup.ToWorkspace(b[i], folder) == key {
      assert b[i] in a || ResetInOne(a, b, b[i]);
    }
  }

  /** Resetting absent files as well makes no difference. */
  lemma AbsentResets(files: FixtureSetup.Files, folder: string, absent: seq<string>, a: seq<string>, b: seq<string>)
    requires forall path | path in absent :: FixtureSetup.ToWorkspace(path, folder) !in files
    ensures NothingInOne(files, folder, absent + a, b) <==> NothingInOne(files, folder, a, b)
  {
    forall path
      ensures path in absent || (ResetInOne(absent + a, b, path) <==> ResetInOne(a, b, path))
    {
    }
  }

  lemma GeneratedAbsent(stage: FixtureSetup.Stage, folder: string, fixtures: seq<Fixture>, path: string)
    requires DistinctPaths(fixtures) && FixtureSetup.CasePaths(fixtures) && Fixture(path, None) in fixtures
    ensures FixtureSetup.Found(stage, folder, fixtures, path).None?
  {
    OnlyFixture(fixtures, Fixture(path, None));
    FixtureSetup.FixtureCasePath(fixtures, path);
    FixtureSetup.FoundMeaning(stage, folder, fixtures, path);
  }

  /**
   * A probe starts from its baseline's files exactly if no file is there that only one of the cases has reviewed, for
   * such a file is reset in that case alone. Generated inputs of a core baseline are removed by its fixtures anyway.
   */
  lemma ProbeStartsAsBaseline(stage: FixtureSetup.Stage, folder: string, base: Case, c: Case, generated: seq<string>)
    requires Prerequisites.SameTestSetup(c, base) && DistinctPaths(base.fixtures) && DistinctPaths(c.fixtures)
    requires CasePathsOnly(base, generated) && CasePathsOnly(c, [])
    requires forall path | path in generated :: Fixture(path, None) in base.fixtures
    ensures StartFiles(stage, folder, base, generated) == StartFiles(stage, folder, c, []) <==>
              NothingInOne(FixtureSetup.Prepared(stage, folder, base.fixtures), folder,
                           ReviewedPaths(base.expectations), ReviewedPaths(c.expectations))
  {
    var files := FixtureSetup.Prepared(stage, folder, base.fixtures);
    var a, b := ReviewedPaths(base.expectations), ReviewedPaths(c.expectations);
    SamePrepared(stage, folder, c.fixtures, base.fixtures);
    assert ResetPaths(c, []) == b;
    ClearedAlike(files, folder, ResetPaths(base, generated), b);
    forall path | path in generated
      ensures FixtureSetup.ToWorkspace(path, folder) !in files
    {
      GeneratedAbsent(stage, folder, base.fixtures, path);
    }
    AbsentResets(files, folder, generated, a, b);
  }

  function ReviewedBaseline(id: string, path: string): Case {
    Case("b", 1, [id], [], [], [TaskStatusIs(id, Success), SemanticReview(path, id)], [], None, [], [])
  }

  function UnreviewedProbe(id: string): Case {
    Case("p", 1, [id], [], [], [TaskStatusIs(id, Blocked)], [], Some("b"), [], [id])
  }

  lemma UnreviewedProbeGrounded(t: Prerequisites.JsonTexts, id: string, path: string)
    ensures Prerequisites.ProbesBaseline(UnreviewedProbe(id), ReviewedBaseline(id, path), t)
  {
    assert ReviewedBaseline(id, path).expectations[0] == TaskStatusIs(id, Success);
    assert UnreviewedProbe(id).expectations[0] == TaskStatusIs(id, Blocked);
  }

  lemma ReviewedOnlyInBaseline(id: string, path: string)
    ensures path in ReviewedPaths(ReviewedBaseline(id, path).expectations)
    ensures ReviewedPaths(UnreviewedProbe(id).expectations) == []
    ensures forall p | p in ReviewedPaths(ReviewedBaseline(id, path).expectations) :: p == path
  {
    assert ReviewedBaseline(id, path).expectations[1] == SemanticReview(path, id);
  }

  /** Validation accepts a probe that finds a staged file its baseline, which has the file reviewed, does not. */
  lemma ProbeFindsReviewedFile(t: Prerequisites.JsonTexts, stage: FixtureSetup.Stage, folder: string, id: string,
                               path: string)
    requires FixtureSetup.CasePath(path)
    requires FixtureSetup.Staged(stage, folder, path).Some? && !FixtureSetup.HiddenPlan(stage, folder, path)
    ensures Prerequisites.ProbesBaseline(UnreviewedProbe(id), ReviewedBaseline(id, path), t)
    ensures StartFiles(stage, folder, ReviewedBaseline(id, path), []) != StartFiles(stage, folder, UnreviewedProbe(id), [])
  {
    var files := FixtureSetup.Prepared(stage, folder, []);
    var reviewed := ReviewedPaths(ReviewedBaseline(id, path).expectations);
    UnreviewedProbeGrounded(t, id, path);
    ReviewedOnlyInBaseline(id, path);
    FixtureSetup.FoundMeaning(stage, folder, [], path);
    assert ResetInOne(reviewed, [], path);
    assert ResetPaths(ReviewedBaseline(id, path), []) == reviewed && ResetPaths(UnreviewedProbe(id), []) == [];
    ClearedAlike(files, folder, reviewed, []);
  }
}
