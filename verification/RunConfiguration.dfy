/** The environment, policy, approvals and fault of one case run, and what a negative probe changes in them. */
module RunConfiguration {
  import opened Common
  import opened Plan
  import opened Prerequisites
  import Evaluation

  type Env = map<string, string>

  function Get(env: Env, name: string): Option<string> {
    if name in env then Some(env[name]) else None
  }

  /**
   * What every run of a trial starts from: required names, the variables of the Python agent, and the synthetic values
   * of required and of all declared names.
   */
  datatype Inputs = Inputs(preflight: seq<string>, python: Env, global: Env, scoped: Env)

  /** allowlist None: no environment policy is passed at all. */
  datatype RunConfig = RunConfig(injected: Env, scoped: Env, allowlist: Option<seq<string>>, denied: set<string>,
                                 fault: Option<Fault>)

  // ----- Merging the baseline's environment with the case's -----

  /** Map construction: a repeated name keeps its place and takes the later value. */
  function Put(environment: seq<EnvironmentItem>, item: EnvironmentItem): seq<EnvironmentItem> {
    if environment == [] then [item]
    else if environment[0].name == item.name then [item] + environment[1..]
    else [environment[0]] + Put(environment[1..], item)
  }

  function Collect(items: seq<EnvironmentItem>): seq<EnvironmentItem> {
    if items == [] then [] else Put(Collect(items[..|items| - 1]), items[|items| - 1])
  }

  /** The items of a Map built from both lists. */
  function Merge(base: seq<EnvironmentItem>, own: seq<EnvironmentItem>): seq<EnvironmentItem> {
    Collect(base + own)
  }

  /** The last item of a name. */
  function Find(environment: seq<EnvironmentItem>, name: string): Option<EnvironmentItem> {
    if environment == [] then None
    else if environment[|environment| - 1].name == name then Some(environment[|environment| - 1])
    else Find(environment[..|environment| - 1], name)
  }

  ghost predicate DistinctKeys(environment: seq<EnvironmentItem>) {
    forall i, j | 0 <= i < j < |environment| :: environment[i].name != environment[j].name
  }

  /** One item a name: the case's own last one, or else the baseline's last one, and no other names. */
  ghost predicate MergesByName(base: seq<EnvironmentItem>, own: seq<EnvironmentItem>, merged: seq<EnvironmentItem>) {
    && DistinctKeys(merged)
    && forall name :: Find(merged, name) == if Find(own, name).Some? then Find(own, name) else Find(base, name)
  }

  lemma {:induction false} FindMeaning(environment: seq<EnvironmentItem>, name: string)
    ensures Find(environment, name).None? <==> forall item | item in environment :: item.name != name
    ensures Find(environment, name).Some? ==>
              Find(environment, name).value in environment && Find(environment, name).value.name == name
  {
    if environment != [] {
      FindMeaning(environment[..|environment| - 1], name);
    }
  }

  lemma {:induction false} FindDistinct(environment: seq<EnvironmentItem>, item: EnvironmentItem)
    requires DistinctKeys(environment) && item in environment
    ensures Find(environment, item.name) == Some(item)
  {
    if environment[|environment| - 1] != item {
      FindDistinct(environment[..|environment| - 1], item);
    }
  }

  lemma {:induction false} FindAppend(base: seq<EnvironmentItem>, own: seq<EnvironmentItem>, name: string)
    ensures Find(base + own, name) == if Find(own, name).Some? then Find(own, name) else Find(base, name)
  {
    if own == [] {
      assert base + own == base;
    } else {
      FindAppend(base, own[..|own| - 1], name);
      assert (base + own)[..|base + own| - 1] == base + own[..|own| - 1];
    }
  }

  lemma {:induction false} PutNames(environment: seq<EnvironmentItem>, item: EnvironmentItem)
    requires DistinctKeys(environment)
    ensures DistinctKeys(Put(environment, item))
    ensures forall x :: x in Put(environment, item) <==> x == item || (x in environment && x.name != item.name)
  {
    if environment != [] && environment[0].name != item.name {
      PutNames(environment[1..], item);
    }
  }

  lemma PutFinds(environment: seq<EnvironmentItem>, item: EnvironmentItem, name: string)
    requires DistinctKeys(environment)
    ensures Find(Put(environment, item), name) == if name == item.name then Some(item) else Find(environment, name)
  {
    PutNames(environment, item);
    FindMeaning(environment, name);
    FindMeaning(Put(environment, item), name);
    if name == item.name {
      FindDistinct(Put(environment, item), item);
    } else if Find(environment, name).Some? {
      FindDistinct(Put(environment, item), Find(environment, name).value);
    }
  }

  /** Building a Map keeps the last item of each name. */
  lemma {:induction false} CollectKeepsLast(items: seq<EnvironmentItem>)
    ensures DistinctKeys(Collect(items))
    ensures forall name :: Find(Collect(items), name) == Find(items, name)
  {
    if items != [] {
      var rest, last := items[..|items| - 1], items[|items| - 1];
      CollectKeepsLast(rest);
      PutNames(Collect(rest), last);
      forall name
        ensures Find(Collect(items), name) == Find(items, name)
      {
        PutFinds(Collect(rest), last, name);
      }
    }
  }

  lemma MergeMeaning(base: seq<EnvironmentItem>, own: seq<EnvironmentItem>)
    ensures MergesByName(base, own, Merge(base, own))
  {
    CollectKeepsLast(base + own);
    forall name
      ensures Find(Merge(base, own), name) == if Find(own, name).Some? then Find(own, name) else Find(base, name)
    {
      FindAppend(base, own, name);
    }
  }

  method MergeEnvironment(base: seq<EnvironmentItem>, own: seq<EnvironmentItem>) returns (merged: seq<EnvironmentItem>)
    ensures MergesByName(base, own, merged)
    ensures merged == Merge(base, own)
  {
    var items := base + own;
    merged := [];
    for i := 0 to |items|
      invariant merged == Collect(items[..i])
    {
      merged := Put(merged, items[i]);
      assert items[..i + 1][..i] == items[..i];
    }
    assert items[..|items|] == items;
    MergeMeaning(base, own);
  }

  // ----- The override loop -----

  datatype Overrides = Overrides(global: Env, scoped: Env, omitted: set<string>)

  function Override(preflight: seq<string>, o: Overrides, item: EnvironmentItem): Overrides {
    match item.value
    case None => Overrides(o.global - {item.name}, o.scoped - {item.name}, o.omitted + {Upper(item.name)})
    case Some(v) =>
      Overrides(if item.name in preflight then o.global[item.name := v] else o.global, o.scoped[item.name := v], o.omitted)
  }

  function Overridden(preflight: seq<string>, o: Overrides, environment: seq<EnvironmentItem>): Overrides {
    if environment == [] then o
    else Override(preflight, Overridden(preflight, o, environment[..|environment| - 1]), environment[|environment| - 1])
  }

  function Kept(preflight: seq<string>, omitted: set<string>): seq<string> {
    if preflight == [] then []
    else (if Upper(preflight[0]) in omitted then [] else [preflight[0]]) + Kept(preflight[1..], omitted)
  }

  /** The fault of the first controlled evidence. */
  function FaultOf(evidence: seq<Evidence>): Option<Fault> {
    if evidence == [] then None
    else if evidence[0].Controlled? then Some(evidence[0].fault) else FaultOf(evidence[1..])
  }

  function ConfigOf(inputs: Inputs, c: Case): RunConfig {
    var o := Overridden(inputs.preflight, Overrides(inputs.global, inputs.scoped, {}), c.environment);
    RunConfig(inputs.python + o.global, o.scoped,
              if inputs.preflight != [] || o.omitted != {} then Some(Kept(inputs.preflight, o.omitted)) else None,
              (set id | id in c.deniedManualTasks), FaultOf(c.evidence))
  }

  /** The configuring part of runTrialPipelineOnce; the case has its merged environment. */
  method Configure(inputs: Inputs, c: Case) returns (config: RunConfig)
    ensures config == ConfigOf(inputs, c)
  {
    var globalEnv, scopedEnv := inputs.global, inputs.scoped;
    var omitted: set<string> := {};
    for i := 0 to |c.environment|
      invariant Overrides(globalEnv, scopedEnv, omitted)
             == Overridden(inputs.preflight, Overrides(inputs.global, inputs.scoped, {}), c.environment[..i])
    {
      var item := c.environment[i];
      assert c.environment[..i + 1][..i] == c.environment[..i];
      if item.value.None? {
        globalEnv := globalEnv - {item.name};
        scopedEnv := scopedEnv - {item.name};
        omitted := omitted + {Upper(item.name)};
      } else {
        scopedEnv := scopedEnv[item.name := item.value.value];
        if item.name in inputs.preflight {
          globalEnv := globalEnv[item.name := item.value.value];
        }
      }
    }
    assert c.environment[..|c.environment|] == c.environment;
    var keys := Kept(inputs.preflight, omitted);
    config := RunConfig(inputs.python + globalEnv, scopedEnv,
                        if inputs.preflight != [] || omitted != {} then Some(keys) else None,
                        (set id | id in c.deniedManualTasks), FaultOf(c.evidence));
  }

  // ----- What a run can see -----

  /** selectTrialSecretEnv hands out nonempty values only. */
  function Resolved(config: RunConfig, name: string): Option<string> {
    if name in config.scoped && config.scoped[name] != "" then Some(config.scoped[name]) else None
  }

  function SelectedFrom(source: Env, names: seq<string>): Env {
    if names == [] then map[]
    else
      var rest := SelectedFrom(source, names[..|names| - 1]);
      var name := names[|names| - 1];
      if name in source && source[name] != "" then rest[name := source[name]] else rest
  }

  lemma {:induction false} SelectedNames(source: Env, names: seq<string>, name: string)
    ensures Get(SelectedFrom(source, names), name) ==
              if name in names && name in source && source[name] != "" then Some(source[name]) else None
  {
    if names != [] {
      SelectedNames(source, names[..|names| - 1], name);
    }
  }

  method SelectTrialSecretEnv(source: Env, names: seq<string>) returns (selected: Env)
    ensures selected == SelectedFrom(source, names)
  {
    selected := map[];
    for i := 0 to |names|
      invariant selected == SelectedFrom(source, names[..i])
    {
      assert names[..i + 1][..i] == names[..i];
      if names[i] in source && source[names[i]] != "" {
        selected := selected[names[i] := source[names[i]]];
      }
    }
    assert names[..|names|] == names;
  }

  // ----- The environment of a task's process -----

  /** The secrets a task declares, and the variables its driver sets for it. */
  datatype TaskNeeds = TaskNeeds(secrets: seq<string>, own: Env)

  /** A task that misses a secret is blocked before it starts. */
  datatype Start = NotStarted(missing: set<string>) | Started(env: Env)

  /** The variables of the host process, and the names every child process takes over. */
  datatype HostProcess = HostProcess(env: Env, minimal: set<string>)

  function MinimalKeys(): set<string> {
    USER_NAMES + TEMP_NAMES + WINDOWS_NAMES + {"Path", "SystemRoot"}
  }

  /** Every name taken over is reserved, in upper case. */
  ghost predicate TakesReserved(host: HostProcess) {
    forall key | key in host.minimal :: Upper(key) in Reserved()
  }

  function Picked(process: Env, keys: set<string>): Env {
    map name | name in keys && name in process :: process[name]
  }

  /** No policy is the minimal one; an allowlist takes over more of the host process; what is injected wins. */
  function ChildEnv(allowlist: Option<seq<string>>, host: HostProcess, overrides: Env): Env {
    Picked(host.env, host.minimal + if allowlist.Some? then set key | key in allowlist.value else {}) + overrides
  }

  function StartOf(config: RunConfig, host: HostProcess, t: TaskNeeds): Start {
    var resolved := SelectedFrom(config.scoped, t.secrets);
    var missing := set name | name in t.secrets && name !in resolved;
    if missing != {} then NotStarted(missing)
    else Started(ChildEnv(config.allowlist, host, config.injected + (resolved + t.own)))
  }

  /** A variable as it reaches a task that does not declare it as a secret, and one that does; None blocks the latter. */
  datatype Sight = Sight(plain: Option<string>, declared: Option<string>)

  const Hidden := Sight(None, None)

  function See(config: RunConfig, host: HostProcess, name: string): Sight {
    Sight(Get(ChildEnv(config.allowlist, host, config.injected), name), Resolved(config, name))
  }

  /** How a task starts is decided by what can be seen of each variable. */
  lemma SightsDecideStart(config: RunConfig, host: HostProcess, t: TaskNeeds)
    ensures var start := StartOf(config, host, t);
            && (start.NotStarted? <==> exists name :: name in t.secrets && See(config, host, name).declared.None?)
            && (start.Started? ==> forall name ::
                  Get(start.env, name) == if name in t.own then Some(t.own[name])
                                          else if name in t.secrets then See(config, host, name).declared
                                          else See(config, host, name).plain)
  {
    var resolved := SelectedFrom(config.scoped, t.secrets);
    forall name
      ensures Get(resolved, name) == if name in t.secrets then See(config, host, name).declared else None
    {
      SelectedNames(config.scoped, t.secrets, name);
    }
    var missing := set name | name in t.secrets && name !in resolved;
    assert forall name :: name in missing <==> name in t.secrets && See(config, host, name).declared.None?;
  }

  /** The runs differ in exactly one variable, which the second cannot see at all. */
  ghost predicate RemovesOneVariable(base: RunConfig, probe: RunConfig, host: HostProcess, name: string) {
    && base.denied == probe.denied && base.fault == probe.fault
    && (forall other | other != name :: See(base, host, other) == See(probe, host, other))
    && See(base, host, name) != Hidden && See(probe, host, name) == Hidden
  }

  /** Then a task starts as before, but without the variable; and it is blocked if it declares the variable. */
  lemma RemovalReachesTask(base: RunConfig, probe: RunConfig, host: HostProcess, name: string, t: TaskNeeds)
    requires RemovesOneVariable(base, probe, host, name)
    ensures var before, after := StartOf(base, host, t), StartOf(probe, host, t);
            && (before.Started? && name !in t.secrets ==> after.Started?)
            && (after.Started? ==>
                  && before.Started? && name !in t.secrets
                  && (forall other | other != name :: Get(before.env, other) == Get(after.env, other))
                  && (name !in t.own ==> name !in after.env))
  {
    SightsDecideStart(base, host, t);
    SightsDecideStart(probe, host, t);
    var after := StartOf(probe, host, t);
    assert after.Started? ==> Get(after.env, name) == if name in t.own then Some(t.own[name]) else None;
  }

  /** The runs differ in exactly one manual task, which the second denies. */
  ghost predicate DeniesOneTask(base: RunConfig, probe: RunConfig, id: string) {
    && id !in base.denied && probe == base.(denied := base.denied + {id})
  }

  // ----- Override loop, name by name -----

  /** What the loop leaves of one name. */
  ghost predicate OverriddenName(preflight: seq<string>, start: Overrides, o: Overrides, item: Option<EnvironmentItem>,
                                 name: string) {
    match item
    case None => Get(o.global, name) == Get(start.global, name) && Get(o.scoped, name) == Get(start.scoped, name)
    case Some(i) =>
      if i.value.None? then name !in o.global && name !in o.scoped
      else
        && Get(o.scoped, name) == i.value
        && Get(o.global, name) == if name in preflight then i.value else Get(start.global, name)
  }

  lemma {:induction false} OverridesByName(preflight: seq<string>, start: Overrides, environment: seq<EnvironmentItem>,
                                           name: string)
    requires DistinctKeys(environment)
    ensures OverriddenName(preflight, start, Overridden(preflight, start, environment), Find(environment, name), name)
  {
    if environment != [] {
      var n := |environment| - 1;
      OverridesByName(preflight, start, environment[..n], name);
      FindMeaning(environment[..n], name);
    }
  }

  /** The names the loop omits are those of the removing items. */
  lemma {:induction false} OmittedNames(preflight: seq<string>, start: Overrides, environment: seq<EnvironmentItem>, u: string)
    ensures u in Overridden(preflight, start, environment).omitted <==>
              u in start.omitted || exists item :: item in environment && item.value.None? && Upper(item.name) == u
  {
    if environment != [] {
      OmittedNames(preflight, start, environment[..|environment| - 1], u);
    }
  }

  lemma {:induction false} KeptNames(preflight: seq<string>, omitted: set<string>, name: string)
    ensures name in Kept(preflight, omitted) <==> name in preflight && Upper(name) !in omitted
  {
    if preflight != [] {
      KeptNames(preflight[1..], omitted, name);
    }
  }

  // ----- Merging, name by name -----

  lemma {:induction false} PutKnown(environment: seq<EnvironmentItem>, item: EnvironmentItem)
    requires DistinctKeys(environment) && item in environment
    ensures Put(environment, item) == environment
  {
    assert environment == [environment[0]] + environment[1..];
    if environment[0].name != item.name {
      assert item in environment[1..];
      PutKnown(environment[1..], item);
    } else {
      assert environment[0] == item;
    }
  }

  /** Environments with the same items find the same names. */
  lemma FindByMembers(a: seq<EnvironmentItem>, b: seq<EnvironmentItem>, name: string)
    requires DistinctKeys(a) && DistinctKeys(b)
    requires forall x: EnvironmentItem | x.name == name :: x in a <==> x in b
    ensures Find(a, name) == Find(b, name)
  {
    FindMeaning(a, name);
    FindMeaning(b, name);
    if Find(a, name).Some? {
      FindDistinct(b, Find(a, name).value);
    }
  }

  /** Every item of a negative case repeats one of the baseline's, except the one that removes a name. */
  ghost predicate RemovesOnly(base: seq<EnvironmentItem>, own: seq<EnvironmentItem>, name: string) {
    forall item | item in own :: if item.value.None? then item.name == name else item in base
  }

  lemma {:induction false} PutNew(environment: seq<EnvironmentItem>, item: EnvironmentItem)
    requires forall x | x in environment :: x.name != item.name
    ensures Put(environment, item) == environment + [item]
  {
    if environment != [] {
      PutNew(environment[1..], item);
      assert environment + [item] == [environment[0]] + (environment[1..] + [item]);
    }
  }

  /** A list without repeated names is the Map it builds. */
  lemma {:induction false} CollectDistinct(items: seq<EnvironmentItem>)
    requires DistinctKeys(items)
    ensures Collect(items) == items
  {
    if items != [] {
      var rest, last := items[..|items| - 1], items[|items| - 1];
      CollectDistinct(rest);
      PutNew(rest, last);
    }
  }

  lemma MergeLast(base: seq<EnvironmentItem>, own: seq<EnvironmentItem>)
    requires own != []
    ensures Merge(base, own) == Put(Merge(base, own[..|own| - 1]), own[|own| - 1])
  {
    assert (base + own)[..|base + own| - 1] == base + own[..|own| - 1];
  }

  lemma {:induction false} MergeRemoval(base: seq<EnvironmentItem>, own: seq<EnvironmentItem>, name: string)
    requires DistinctKeys(base) && DistinctKeys(own) && RemovesOnly(base, own, name)
    ensures DistinctKeys(Merge(base, own))
    ensures EnvironmentItem(name, None) !in own ==> Merge(base, own) == base
    ensures EnvironmentItem(name, None) in own ==>
              forall x :: x in Merge(base, own) <==> x == EnvironmentItem(name, None) || (x in base && x.name != name)
  {
    if own == [] {
      CollectDistinct(base);
      assert base + own == base;
    } else {
      var n := |own| - 1;
      var rest, last := own[..n], own[n];
      MergeLast(base, own);
      MergeRemoval(base, rest, name);
      assert forall x :: x in own <==> x in rest || x == last;
      if last.value.None? {
        assert EnvironmentItem(name, None) !in rest;
        PutNames(Merge(base, rest), last);
      } else {
        assert EnvironmentItem(name, None) in rest ==> last.name != name;
        PutKnown(Merge(base, rest), last);
      }
    }
  }

  lemma {:induction false} NullItems(environment: seq<EnvironmentItem>)
    ensures NullCount(environment) == 0 <==> forall item | item in environment :: item.value.Some?
    ensures NullCount(environment) <= 1 ==>
              forall a, b | a in environment && b in environment && a.value.None? && b.value.None? :: a == b
  {
    if environment != [] {
      NullItems(environment[1..]);
      assert environment == [environment[0]] + environment[1..];
    }
  }

  lemma ValidKeys(environment: seq<EnvironmentItem>)
    requires Distinct(UpperNames(environment))
    ensures DistinctKeys(environment)
  {
    forall i, j | 0 <= i < j < |environment|
      ensures environment[i].name != environment[j].name
    {
      assert UpperNames(environment)[i] != UpperNames(environment)[j];
    }
  }

  /** What validation says of a baseline and a probe of it, as far as their environments go. */
  ghost predicate Probes(base: Case, c: Case) {
    && DistinctKeys(base.environment) && DistinctKeys(c.environment)
    && (forall item | item in c.environment :: Upper(item.name) !in Reserved())
    && base.deniedManualTasks == [] && (forall item | item in base.environment :: item.value.Some?)
    && FaultCount(c) == 1
    && (forall item | item in c.environment && item.value.Some? :: item in base.environment)
  }

  lemma AcceptedProbes(base: Case, c: Case, t: JsonTexts)
    requires ValidControls(base) && ValidControls(c) && c.baselineCaseId.Some? && ProbesBaseline(c, base, t)
    ensures Probes(base, c)
  {
    ValidKeys(base.environment);
    ValidKeys(c.environment);
    NullItems(base.environment);
  }

  ghost predicate OnlyRemoval(environment: seq<EnvironmentItem>, i: nat) {
    && i < |environment| && environment[i].value == None
    && forall k | 0 <= k < |environment| && k != i :: environment[k].value.Some?
  }

  /** One manual task is denied, or one variable is removed, and nothing else is. */
  ghost predicate OneControl(c: Case) {
    || (|c.deniedManualTasks| == 1 && forall item | item in c.environment :: item.value.Some?)
    || (c.deniedManualTasks == [] && exists i: nat :: OnlyRemoval(c.environment, i))
  }

  lemma {:induction false} OneNull(environment: seq<EnvironmentItem>) returns (i: nat)
    requires NullCount(environment) == 1
    ensures OnlyRemoval(environment, i)
  {
    var rest := environment[1..];
    assert forall k | 1 <= k < |environment| :: environment[k] == rest[k - 1];
    if environment[0].value.None? {
      NullItems(rest);
      assert forall k | 0 <= k < |rest| :: rest[k] in rest;
      i := 0;
    } else {
      var j := OneNull(rest);
      i := j + 1;
    }
  }

  predicate EndedAs(o: Evaluation.Outcome, taskId: string, status: TaskStatus) {
    o.run.Some? && taskId in o.run.value.states && o.run.value.states[taskId].status == status
  }

  /**
   * A validated probe has one control, and both cases say how it ends: an outcome that passes the baseline had every
   * target succeed, one that passes the probe decided every target and had the denied task blocked.
   */
  lemma ProbeTold(base: Case, c: Case, t: JsonTexts, o: Evaluation.Outcome)
    requires ValidControls(base) && ValidControls(c) && c.baselineCaseId.Some? && ProbesBaseline(c, base, t) && Faithful(t)
    ensures OneControl(c) && SameTestSetup(c, base)
    ensures forall item | item in c.environment && item.value.Some? :: item in base.environment
    ensures base.baselineCaseId == None && base.deniedManualTasks == []
    ensures forall item | item in base.environment :: item.value.Some?
    ensures Evaluation.PassesDeterministic(o, base.expectations) ==> forall id | id in c.targets :: EndedAs(o, id, Success)
    ensures Evaluation.PassesDeterministic(o, c.expectations) ==>
              && (forall id | id in c.targets :: o.run.Some? && id in o.run.value.states)
              && (forall id | id in c.deniedManualTasks :: EndedAs(o, id, Blocked))
  {
    AcceptedProbes(base, c, t);
    SameListMeaning(c.targets, base.targets, t.ofString);
    SameListMeaning(c.fixtures, base.fixtures, t.ofFixture);
    SameListMeaning(c.generatedInputs, base.generatedInputs, t.ofString);
    if c.deniedManualTasks == [] {
      var i := OneNull(c.environment);
    } else {
      NullItems(c.environment);
    }
    if Evaluation.PassesDeterministic(o, base.expectations) {
      forall id | id in c.targets
        ensures EndedAs(o, id, Success)
      {
        assert Evaluation.Passes(o, TaskStatusIs(id, Success));
      }
    }
    if Evaluation.PassesDeterministic(o, c.expectations) {
      ProbeOutcome(base, c, t, o);
    }
  }

  lemma ProbeOutcome(base: Case, c: Case, t: JsonTexts, o: Evaluation.Outcome)
    requires ProbesBaseline(c, base, t) && Evaluation.PassesDeterministic(o, c.expectations)
    ensures forall id | id in c.targets :: o.run.Some? && id in o.run.value.states
    ensures forall id | id in c.deniedManualTasks :: EndedAs(o, id, Blocked)
  {
    forall id | id in c.targets
      ensures o.run.Some? && id in o.run.value.states
    {
      var i :| 0 <= i < |c.expectations| && c.expectations[i].TaskStatusIs? && c.expectations[i].taskId == id;
      assert Evaluation.Passes(o, c.expectations[i]);
    }
    forall id | id in c.deniedManualTasks
      ensures EndedAs(o, id, Blocked)
    {
      assert Evaluation.Passes(o, TaskStatusIs(id, Blocked));
    }
  }

  /** A case that is no probe runs in its own environment. */
  function BaselineConfig(inputs: Inputs, base: Case): RunConfig {
    ConfigOf(inputs, base.(environment := Merge([], base.environment)))
  }

  function ProbeConfig(inputs: Inputs, base: Case, c: Case): RunConfig {
    ConfigOf(inputs, c.(environment := Merge(base.environment, c.environment)))
  }

  lemma OwnEnvironment(inputs: Inputs, base: Case)
    requires DistinctKeys(base.environment)
    ensures BaselineConfig(inputs, base) == ConfigOf(inputs, base)
  {
    assert [] + base.environment == base.environment;
    CollectDistinct(base.environment);
  }

  lemma DenialMerged(base: Case, c: Case, id: string)
    requires Probes(base, c) && id in c.deniedManualTasks
    ensures Merge(base.environment, c.environment) == base.environment
    ensures c.deniedManualTasks == [id] && base.deniedManualTasks == []
  {
    NullItems(c.environment);
    assert EnvironmentItem("", None) !in c.environment;
    MergeRemoval(base.environment, c.environment, "");
  }

  /**
   * A probe that denies a manual task runs as its baseline does but for that task exactly if both run with the same
   * fault, or none.
   */
  lemma DenialIsOneControl(inputs: Inputs, base: Case, c: Case, id: string)
    requires Probes(base, c) && id in c.deniedManualTasks
    ensures DeniesOneTask(BaselineConfig(inputs, base), ProbeConfig(inputs, base, c), id)
       <==> FaultOf(base.evidence) == FaultOf(c.evidence)
  {
    OwnEnvironment(inputs, base);
    DenialMerged(base, c, id);
    assert BaselineConfig(inputs, base).denied == {} && ProbeConfig(inputs, base, c).denied == {id};
  }

  function FaultyBaseline(evidence: Evidence): Case {
    Case("b", 1, ["t.a"], [], [], [TaskStatusIs("t.a", Success)], [evidence], None, [], [])
  }

  function DenyingProbe(): Case {
    Case("p", 1, ["t.a"], [], [], [TaskStatusIs("t.a", Blocked)], [], Some("b"), [], ["t.a"])
  }

  lemma DenyingProbeValid()
    ensures ValidControls(DenyingProbe())
  {
    assert ValidTaskId("t.a") by {
      assert "t.a"[1] == '.' && "t.a"[..1] == "t" && "t.a"[2..] == "a";
    }
  }

  lemma DenyingProbeGrounded(t: JsonTexts, evidence: Evidence)
    ensures ProbesBaseline(DenyingProbe(), FaultyBaseline(evidence), t)
  {
    assert FaultyBaseline(evidence).expectations[0] == TaskStatusIs("t.a", Success);
    assert DenyingProbe().expectations[0] == TaskStatusIs("t.a", Blocked);
  }

  /** Validation accepts a probe of a case that runs with a fault: it denies a task, and lifts the fault. */
  lemma ProbeOfFaultyCase(inputs: Inputs, t: JsonTexts, evidence: Evidence)
    requires evidence.Controlled?
    ensures var base, c := FaultyBaseline(evidence), DenyingProbe();
            && ValidControls(base) && ValidControls(c) && ProbesBaseline(c, base, t)
            && !DeniesOneTask(BaselineConfig(inputs, base), ProbeConfig(inputs, base, c), "t.a")
  {
    DenyingProbeValid();
    DenyingProbeGrounded(t, evidence);
    AcceptedProbes(FaultyBaseline(evidence), DenyingProbe(), t);
    DenialIsOneControl(inputs, FaultyBaseline(evidence), DenyingProbe(), "t.a");
  }

  // ----- Removing a variable -----

  /** Required and declared names have nonempty synthetic values; the required ones are injected. */
  ghost predicate Sandbox(inputs: Inputs) {
    && (forall name | name in inputs.scoped :: inputs.scoped[name] != "")
    && (forall name :: Get(inputs.global, name) == if name in inputs.preflight then Get(inputs.scoped, name) else None)
    && (forall name | name in inputs.preflight :: name in inputs.scoped)
  }

  const SYNTHETIC_PREFIX := "tagma-sandbox-trial-synthetic-"

  /** syntheticTrialSecretEnv; digest is the shortened hash of a name. */
  function SyntheticEnv(names: seq<string>, digest: string -> string): Env {
    map name | name in names :: SYNTHETIC_PREFIX + digest(name)
  }

  function TrialInputs(preflight: seq<string>, declared: seq<string>, python: Env, digest: string -> string): Inputs {
    var scoped := SyntheticEnv(preflight + declared, digest);
    Inputs(preflight, python, SelectedFrom(scoped, preflight), scoped)
  }

  lemma TrialInputsAreSandbox(preflight: seq<string>, declared: seq<string>, python: Env, digest: string -> string)
    ensures Sandbox(TrialInputs(preflight, declared, python, digest))
    ensures forall name | name in preflight + declared :: name in TrialInputs(preflight, declared, python, digest).scoped
  {
    var scoped := SyntheticEnv(preflight + declared, digest);
    forall name
      ensures Get(SelectedFrom(scoped, preflight), name) == if name in preflight then Get(scoped, name) else None
    {
      SelectedNames(scoped, preflight, name);
    }
  }

  /** The baseline's value of a variable: its own, or the synthetic one. */
  function BaselineValue(inputs: Inputs, base: Case, name: string): Option<string> {
    var item := Find(base.environment, name);
    if item.Some? then item.value.value else Get(inputs.scoped, name)
  }

  /**
   * When removing a variable is exactly one control: both runs have the same fault, or none; the Python agent does not
   * supply the variable; and the variable is either required or not empty in the baseline, since an empty secret is
   * never handed out.
   */
  predicate RemovalIsolated(inputs: Inputs, base: Case, c: Case, name: string) {
    && FaultOf(base.evidence) == FaultOf(c.evidence)
    && name !in inputs.python
    && (name in inputs.preflight || BaselineValue(inputs, base, name) != Some(""))
  }

  ghost predicate RemovingProbe(base: Case, c: Case, name: string) {
    Probes(base, c) && EnvironmentItem(name, None) in c.environment
  }

  /** The loop's results for a baseline and its removing probe. */
  ghost predicate LoopsDiffer(inputs: Inputs, base: Case, name: string, b: Overrides, p: Overrides) {
    && b.omitted == {} && p.omitted == {Upper(name)}
    && name !in p.global && name !in p.scoped
    && (forall other | other != name ::
          Get(b.global, other) == Get(p.global, other) && Get(b.scoped, other) == Get(p.scoped, other))
    && Get(b.scoped, name) == BaselineValue(inputs, base, name)
    && (name !in inputs.preflight ==> Get(b.global, name) == Get(inputs.global, name))
  }

  /** The merged environment is the baseline's, with the removed name. */
  lemma RemovalMerged(base: Case, c: Case, name: string)
    requires RemovingProbe(base, c, name)
    ensures var merged := Merge(base.environment, c.environment);
            && DistinctKeys(merged)
            && Find(merged, name) == Some(EnvironmentItem(name, None))
            && (forall other | other != name :: Find(merged, other) == Find(base.environment, other))
            && (forall item | item in merged && item.value.None? :: item.name == name)
            && EnvironmentItem(name, None) in merged
  {
    var merged := Merge(base.environment, c.environment);
    NullItems(c.environment);
    MergeRemoval(base.environment, c.environment, name);
    FindDistinct(merged, EnvironmentItem(name, None));
    forall other | other != name
      ensures Find(merged, other) == Find(base.environment, other)
    {
      FindByMembers(base.environment, merged, other);
    }
  }

  lemma RemovalOmits(preflight: seq<string>, start: Overrides, base: Case, c: Case, name: string)
    requires RemovingProbe(base, c, name) && start.omitted == {}
    ensures Overridden(preflight, start, base.environment).omitted == {}
    ensures Overridden(preflight, start, Merge(base.environment, c.environment)).omitted == {Upper(name)}
  {
    var merged := Merge(base.environment, c.environment);
    RemovalMerged(base, c, name);
    forall u
      ensures u !in Overridden(preflight, start, base.environment).omitted
      ensures u in Overridden(preflight, start, merged).omitted <==> u == Upper(name)
    {
      OmittedNames(preflight, start, base.environment, u);
      OmittedNames(preflight, start, merged, u);
    }
  }

  lemma RemovalLoops(inputs: Inputs, base: Case, c: Case, name: string)
    requires RemovingProbe(base, c, name)
    ensures var start := Overrides(inputs.global, inputs.scoped, {});
            LoopsDiffer(inputs, base, name, Overridden(inputs.preflight, start, base.environment),
                        Overridden(inputs.preflight, start, Merge(base.environment, c.environment)))
  {
    var start := Overrides(inputs.global, inputs.scoped, {});
    var merged := Merge(base.environment, c.environment);
    RemovalMerged(base, c, name);
    RemovalOmits(inputs.preflight, start, base, c, name);
    OverridesByName(inputs.preflight, start, merged, name);
    BaselineName(inputs, base, name);
    forall other | other != name
      ensures var b, p := Overridden(inputs.preflight, start, base.environment), Overridden(inputs.preflight, start, merged);
              Get(b.global, other) == Get(p.global, other) && Get(b.scoped, other) == Get(p.scoped, other)
    {
      FindMeaning(base.environment, other);
      OverridesByName(inputs.preflight, start, base.environment, other);
      OverridesByName(inputs.preflight, start, merged, other);
    }
  }

  lemma BaselineName(inputs: Inputs, base: Case, name: string)
    requires DistinctKeys(base.environment) && forall item | item in base.environment :: item.value.Some?
    ensures var b := Overridden(inputs.preflight, Overrides(inputs.global, inputs.scoped, {}), base.environment);
            && Get(b.scoped, name) == BaselineValue(inputs, base, name)
            && (name !in inputs.preflight ==> Get(b.global, name) == Get(inputs.global, name))
  {
    FindMeaning(base.environment, name);
    OverridesByName(inputs.preflight, Overrides(inputs.global, inputs.scoped, {}), base.environment, name);
  }

  lemma {:induction false} UpperAt(text: string)
    ensures |Upper(text)| == |text| && forall i | 0 <= i < |text| :: Upper(text)[i] == UpperChar(text[i])
  {
    if text != [] {
      UpperAt(text[1..]);
    }
  }

  /** The names the program takes over are reserved. */
  lemma MinimalReserved(process: Env)
    ensures TakesReserved(HostProcess(process, MinimalKeys()))
  {
    forall key | key in MinimalKeys()
      ensures Upper(key) in Reserved()
    {
      if key in USER_NAMES + TEMP_NAMES + WINDOWS_NAMES {
        UpperName(key);
      } else {
        MixedName(key);
      }
    }
  }

  lemma MixedName(key: string)
    requires key in {"Path", "SystemRoot"}
    ensures Upper(key) in Reserved()
  {
    if key == "Path" {
      UpperIs(key, "PATH");
      assert Upper(key) in USER_NAMES;
    } else {
      UpperIs(key, "SYSTEMROOT");
      assert Upper(key) in OTHER_NAMES;
    }
  }

  predicate NoLower(text: string) {
    forall i | 0 <= i < |text| :: !('a' <= text[i] <= 'z')
  }

  lemma UpperName(key: string)
    requires key in USER_NAMES + TEMP_NAMES + WINDOWS_NAMES
    ensures Upper(key) == key
  {
    NoLowerNames(key);
    UpperIs(key, key);
  }

  lemma NoLowerNames(key: string)
    ensures key in USER_NAMES ==> NoLower(key)
    ensures key in TEMP_NAMES ==> NoLower(key)
    ensures key in WINDOWS_NAMES ==> NoLower(key)
  {
  }

  lemma UpperIs(text: string, upper: string)
    requires |text| == |upper| && forall i | 0 <= i < |text| :: UpperChar(text[i]) == upper[i]
    ensures Upper(text) == upper
  {
    UpperAt(text);
  }

  /** What can be seen of a variable, from what the override loop leaves. */
  function SeenAfter(inputs: Inputs, o: Overrides, host: HostProcess, name: string): Sight {
    Sight(if name in o.global then Some(o.global[name])
          else if name in inputs.python then Some(inputs.python[name])
          else if name in host.minimal || (name in inputs.preflight && Upper(name) !in o.omitted)
          then Get(host.env, name) else None,
          if name in o.scoped && o.scoped[name] != "" then Some(o.scoped[name]) else None)
  }

  lemma SeenOf(inputs: Inputs, c: Case, host: HostProcess, name: string)
    ensures See(ConfigOf(inputs, c), host, name) ==
              SeenAfter(inputs, Overridden(inputs.preflight, Overrides(inputs.global, inputs.scoped, {}), c.environment),
                        host, name)
  {
    var o := Overridden(inputs.preflight, Overrides(inputs.global, inputs.scoped, {}), c.environment);
    KeptNames(inputs.preflight, o.omitted, name);
  }

  lemma OtherSeen(inputs: Inputs, base: Case, b: Overrides, p: Overrides, host: HostProcess, name: string, other: string)
    requires LoopsDiffer(inputs, base, name, b, p) && other != name
    requires other in inputs.preflight ==> other in b.global
    ensures SeenAfter(inputs, b, host, other) == SeenAfter(inputs, p, host, other)
  {
    assert Get(b.global, other) == Get(p.global, other) && Get(b.scoped, other) == Get(p.scoped, other);
  }

  /** Every required variable is injected into the runs of a baseline. */
  lemma RequiredInjected(inputs: Inputs, base: Case, name: string)
    requires Sandbox(inputs) && DistinctKeys(base.environment) && name in inputs.preflight
    requires forall item | item in base.environment :: item.value.Some?
    ensures name in Overridden(inputs.preflight, Overrides(inputs.global, inputs.scoped, {}), base.environment).global
  {
    FindMeaning(base.environment, name);
    OverridesByName(inputs.preflight, Overrides(inputs.global, inputs.scoped, {}), base.environment, name);
  }

  /** The variable itself is gone, but for the value the Python agent gives it. */
  lemma RemovedSight(inputs: Inputs, base: Case, c: Case, host: HostProcess, name: string)
    requires Sandbox(inputs) && RemovingProbe(base, c, name) && TakesReserved(host)
    ensures See(ProbeConfig(inputs, base, c), host, name) == Sight(Get(inputs.python, name), None)
    ensures See(BaselineConfig(inputs, base), host, name) == Hidden
       <==> name !in inputs.python && name !in inputs.preflight && BaselineValue(inputs, base, name) in {None, Some("")}
  {
    OwnEnvironment(inputs, base);
    RemovalLoops(inputs, base, c, name);
    SeenOf(inputs, base, host, name);
    SeenOf(inputs, c.(environment := Merge(base.environment, c.environment)), host, name);
    assert Upper(name) !in Reserved();
    if name in inputs.preflight {
      RequiredInjected(inputs, base, name);
    }
  }

  /** No other variable changes for any task: a required name that is no longer listed is still injected. */
  lemma OtherSight(inputs: Inputs, base: Case, c: Case, host: HostProcess, name: string, other: string)
    requires Sandbox(inputs) && RemovingProbe(base, c, name) && other != name
    ensures See(BaselineConfig(inputs, base), host, other) == See(ProbeConfig(inputs, base, c), host, other)
  {
    var merged := c.(environment := Merge(base.environment, c.environment));
    var start := Overrides(inputs.global, inputs.scoped, {});
    OwnEnvironment(inputs, base);
    RemovalLoops(inputs, base, c, name);
    SeenOf(inputs, base, host, other);
    SeenOf(inputs, merged, host, other);
    if other in inputs.preflight {
      RequiredInjected(inputs, base, other);
    }
    OtherSeen(inputs, base, Overridden(inputs.preflight, start, base.environment),
              Overridden(inputs.preflight, start, merged.environment), host, name, other);
  }

  /**
   * What every removal does: no other variable changes for any task; and the variable itself is gone, but for the
   * value the Python agent gives it.
   */
  lemma RemovalSights(inputs: Inputs, base: Case, c: Case, host: HostProcess, name: string)
    requires Sandbox(inputs) && RemovingProbe(base, c, name) && TakesReserved(host)
    ensures var b, p := BaselineConfig(inputs, base), ProbeConfig(inputs, base, c);
            && (forall other | other != name :: See(b, host, other) == See(p, host, other))
            && See(p, host, name) == Sight(Get(inputs.python, name), None)
            && (See(b, host, name) == Hidden <==> name !in inputs.python && name !in inputs.preflight
                                                     && BaselineValue(inputs, base, name) in {None, Some("")})
  {
    RemovedSight(inputs, base, c, host, name);
    forall other | other != name
      ensures See(BaselineConfig(inputs, base), host, other) == See(ProbeConfig(inputs, base, c), host, other)
    {
      OtherSight(inputs, base, c, host, name, other);
    }
  }

  /**
   * A probe that removes a declared variable differs from its baseline in exactly that variable, for every task and on
   * every host, exactly if the removal is isolated.
   */
  lemma RemovalIsOneControl(inputs: Inputs, base: Case, c: Case, host: HostProcess, name: string)
    requires Sandbox(inputs) && RemovingProbe(base, c, name) && name in inputs.scoped && TakesReserved(host)
    ensures RemovesOneVariable(BaselineConfig(inputs, base), ProbeConfig(inputs, base, c), host, name)
       <==> RemovalIsolated(inputs, base, c, name)
  {
    var b, p := BaselineConfig(inputs, base), ProbeConfig(inputs, base, c);
    OwnEnvironment(inputs, base);
    NullItems(c.environment);
    assert c.deniedManualTasks == [];
    assert b.denied == {} && p.denied == {};
    RemovalSights(inputs, base, c, host, name);
    FindMeaning(base.environment, name);
  }

  /** The Python agent's variable stays although validation accepts the probe that removes it. */
  lemma PythonAgentKeepsVariable(t: JsonTexts, host: HostProcess, name: string, venv: string)
    requires ValidName(name) && TakesReserved(host)
    ensures var inputs := Inputs([name], map[name := venv], map[name := "v"], map[name := "v"]);
            var base := Case("b", 1, [], [], [], [], [], None, [], []);
            var c := base.(id := "p", baselineCaseId := Some("b"), environment := [EnvironmentItem(name, None)]);
            && ValidControls(base) && ValidControls(c) && ProbesBaseline(c, base, t) && Sandbox(inputs)
            && See(ProbeConfig(inputs, base, c), host, name).plain == Some(venv)
  {
    var item := EnvironmentItem(name, None);
    var inputs := Inputs([name], map[name := venv], map[name := "v"], map[name := "v"]);
    var base := Case("b", 1, [], [], [], [], [], None, [], []);
    var c := base.(id := "p", baselineCaseId := Some("b"), environment := [item]);
    assert ValidItem(c.environment[0]);
    assert NullCount([item]) == 1 + NullCount([item][1..]) && NullCount([item][1..]) == 0;
    assert ProbesBaseline(c, base, t);
    AcceptedProbes(base, c, t);
    RemovedSight(inputs, base, c, host, name);
  }

  lemma NoReservedV(name: string)
    ensures name in USER_NAMES ==> name[0] != 'V'
    ensures name in TEMP_NAMES ==> name[0] != 'V'
    ensures name in WINDOWS_NAMES ==> name[0] != 'V'
    ensures name in OTHER_NAMES ==> name[0] != 'V'
  {
  }

  lemma NoPrefixV(name: string, i: nat)
    requires i < |RESERVED_PREFIXES| && name != "" && name[0] == 'V'
    ensures !(RESERVED_PREFIXES[i] <= name)
  {
    assert RESERVED_PREFIXES[i] != "" && RESERVED_PREFIXES[i][0] != 'V';
  }

  lemma NameWithV(name: string)
    requires 1 <= |name| <= 128 && name[0] == 'V' && NoLower(name) && forall i | 0 <= i < |name| :: IsWord(name[i])
    ensures ValidName(name)
  {
    UpperIs(name, name);
    NoReservedV(name);
    forall i | 0 <= i < |RESERVED_PREFIXES|
      ensures !(RESERVED_PREFIXES[i] <= name)
    {
      NoPrefixV(name, i);
    }
  }

  /** One of the agent's variables is a valid input of a case. */
  lemma VirtualEnvironmentIsInput()
    ensures ValidName("VIRTUAL_ENV")
  {
    NameWithV("VIRTUAL_ENV");
  }

  /** Whether no policy is passed or an allowlist without names makes no difference to any task. */
  lemma EmptyAllowlistIsNone(config: RunConfig, host: HostProcess, t: TaskNeeds)
    ensures StartOf(config.(allowlist := None), host, t) == StartOf(config.(allowlist := Some([])), host, t)
  {
  }
}
