/** Observing, during a run, that a consumer started from the text its producer wrote. */
module SourceObserver {
  import opened Common
  import opened Plan
  import opened Workspace
  import PreservedLines
  import Graph

  datatype EventStatus = Running | Ended(status: TaskStatus) | OtherStatus

  datatype Event =
    | TaskUpdate(runId: string, taskId: string, status: EventStatus, exitCode: Option<int>)
    | OtherEvent

  /** One event together with the files as they are when the callback runs. */
  datatype Moment = Moment(event: Event, files: Files)

  /** The identity of a source-text relation; whether the text must be present is not part of it. */
  datatype Relation = Relation(path: string, sourcePath: string, sourcePointer: string,
                               producerTaskId: string, consumerTaskId: string)

  datatype Observation =
    | Captured(read: SourceRead, consumerStarted: bool)
    | Unavailable

  type Observations = map<Relation, Observation>

  function RelationOf(e: Expectation): Relation
    requires e.SourceTextOccurrence?
  {
    Relation(e.path, e.sourcePath, e.sourcePointer, e.producerTaskId, e.consumerTaskId)
  }

  predicate ProducerSucceeded(r: Relation, event: Event) {
    event.TaskUpdate? && event.taskId == r.producerTaskId && event.status == Ended(Success)
  }

  predicate ConsumerStarted(r: Relation, event: Event) {
    event.TaskUpdate? && event.taskId == r.consumerTaskId && event.status == Running
  }

  predicate Relevant(r: Relation, runId: string, event: Event) {
    event.TaskUpdate? && event.runId == runId && (ProducerSucceeded(r, event) || ConsumerStarted(r, event))
  }

  function Source(r: Relation, files: Files): Option<SourceRead> {
    ReadSource(files, r.sourcePath, r.sourcePointer)
  }

  predicate SameSource(a: SourceRead, b: SourceRead) {
    a.digest == b.digest && a.text == b.text
  }

  /** How one relevant event changes the observation of one relation. */
  function Observe(r: Relation, before: Option<Observation>, m: Moment): Observation {
    if ProducerSucceeded(r, m.event) then
      if m.event.exitCode != Some(0) || before.Some? then Unavailable
      else match Source(r, m.files)
        case None => Unavailable
        case Some(read) => Captured(read, false)
    else match before
      case Some(Captured(read, false)) =>
        (match Source(r, m.files)
         case Some(current) => if SameSource(current, read) then Captured(read, true) else Unavailable
         case None => Unavailable)
      case _ => Unavailable
  }

  function Get(observations: Observations, r: Relation): Option<Observation> {
    if r in observations then Some(observations[r]) else None
  }

  predicate Declares(expectations: seq<Expectation>, r: Relation) {
    exists i | 0 <= i < |expectations| :: expectations[i].SourceTextOccurrence? && RelationOf(expectations[i]) == r
  }

  /** What the callback must leave in the map: one step for each declared relation the event is about. */
  ghost predicate Stepped(before: Observations, m: Moment, runId: string, expectations: seq<Expectation>,
                          after: Observations) {
    forall r: Relation ::
      Get(after, r) == if Declares(expectations, r) && Relevant(r, runId, m.event)
                       then Some(Observe(r, Get(before, r), m)) else Get(before, r)
  }

  /** One relation, one event. */
  method ObserveOne(key: Relation, m: Moment, observations: Observations) returns (after: Observations)
    requires m.event.TaskUpdate?
    ensures after == if ProducerSucceeded(key, m.event) || ConsumerStarted(key, m.event)
                     then observations[key := Observe(key, Get(observations, key), m)] else observations
  {
    after := observations;
    if ProducerSucceeded(key, m.event) {
      if m.event.exitCode != Some(0) || key in observations {
        after := after[key := Unavailable];
      } else {
        var read := Source(key, m.files);
        after := after[key := if read.Some? then Captured(read.value, false) else Unavailable];
      }
    } else if ConsumerStarted(key, m.event) {
      if key !in observations || !observations[key].Captured? || observations[key].consumerStarted {
        after := after[key := Unavailable];
      } else {
        var produced := observations[key];
        var current := Source(key, m.files);
        if current.None? || !SameSource(current.value, produced.read) {
          after := after[key := Unavailable];
        } else {
          after := after[key := produced.(consumerStarted := true)];
        }
      }
    }
  }

  lemma DeclaresNext(expectations: seq<Expectation>, i: nat, r: Relation)
    requires i < |expectations|
    ensures Declares(expectations[..i + 1], r) <==>
              Declares(expectations[..i], r) ||
              (expectations[i].SourceTextOccurrence? && RelationOf(expectations[i]) == r)
  {
    var longer := expectations[..i + 1];
    assert longer == expectations[..i] + [expectations[i]];
    if Declares(expectations[..i], r) {
      var k :| 0 <= k < i && expectations[..i][k].SourceTextOccurrence? && RelationOf(expectations[..i][k]) == r;
      assert longer[k] == expectations[..i][k];
    }
    if expectations[i].SourceTextOccurrence? && RelationOf(expectations[i]) == r {
      assert longer[i] == expectations[i];
    }
  }

  /** observeTrialSourceTextRelations */
  method ObserveRelations(m: Moment, runId: string, expectations: seq<Expectation>, observations: Observations)
    returns (after: Observations)
    ensures Stepped(observations, m, runId, expectations, after)
  {
    after := observations;
    if !m.event.TaskUpdate? || m.event.runId != runId {
      return;
    }
    var handled: set<Relation> := {};
    for i := 0 to |expectations|
      invariant forall r :: r in handled <==> Declares(expectations[..i], r)
      invariant Stepped(observations, m, runId, expectations[..i], after)
    {
      forall r {
        DeclaresNext(expectations, i, r);
      }
      if expectations[i].SourceTextOccurrence? && RelationOf(expectations[i]) !in handled {
        var key := RelationOf(expectations[i]);
        handled := handled + {key};
        after := ObserveOne(key, m, after);
      }
    }
    assert expectations[..|expectations|] == expectations;
  }

  // ----- Whole runs -----

  /** The maps a run goes through, one event after another. */
  ghost predicate Run(states: seq<Observations>, trace: seq<Moment>, runId: string, expectations: seq<Expectation>) {
    && |states| == |trace| + 1
    && states[0] == map[]
    && forall i | 0 <= i < |trace| :: Stepped(states[i], trace[i], runId, expectations, states[i + 1])
  }

  /** The moments that matter to a relation, in order. */
  function RelevantMoments(r: Relation, runId: string, trace: seq<Moment>): seq<Moment> {
    if trace == [] then []
    else
      var front := RelevantMoments(r, runId, trace[..|trace| - 1]);
      if Relevant(r, runId, trace[|trace| - 1].event) then front + [trace[|trace| - 1]] else front
  }

  /** A producer's clean success with a readable source. */
  ghost predicate Produces(r: Relation, m: Moment, read: SourceRead) {
    ProducerSucceeded(r, m.event) && m.event.exitCode == Some(0) && Source(r, m.files) == Some(read)
  }

  /** A consumer start at which the source is still the one that was read. */
  ghost predicate Consumes(r: Relation, m: Moment, read: SourceRead) {
    && ConsumerStarted(r, m.event)
    && Source(r, m.files).Some?
    && SameSource(Source(r, m.files).value, read)
  }

  /**
   * After any run, the observation of a declared relation says exactly which relevant events there were: none,
   * a clean success, or a clean success followed by one consumer start with the same source. Anything else,
   * including any later relevant event, is unavailable.
   */
  lemma {:induction false} ObservationMeaning(states: seq<Observations>, trace: seq<Moment>, runId: string,
                                              expectations: seq<Expectation>, r: Relation)
    requires Run(states, trace, runId, expectations) && Declares(expectations, r)
    ensures var observed := Get(states[|trace|], r);
            var moments := RelevantMoments(r, runId, trace);
            && (observed == None <==> moments == [])
            && (forall read :: observed == Some(Captured(read, false)) <==> |moments| == 1 && Produces(r, moments[0], read))
            && (forall read :: observed == Some(Captured(read, true)) <==>
                 |moments| == 2 && Produces(r, moments[0], read) && Consumes(r, moments[1], read))
    ensures forall m | m in RelevantMoments(r, runId, trace) :: Relevant(r, runId, m.event)
  {
    if trace != [] {
      var n := |trace| - 1;
      ObservationMeaning(states[..n + 1], trace[..n], runId, expectations, r);
      assert Stepped(states[n], trace[n], runId, expectations, states[n + 1]);
    }
  }

  /** Once unavailable, a relation stays unavailable for the rest of the run. */
  lemma {:induction false} UnavailableIsAbsorbing(states: seq<Observations>, trace: seq<Moment>, runId: string,
                                                  expectations: seq<Expectation>, r: Relation, i: nat, j: nat)
    requires Run(states, trace, runId, expectations) && i <= j <= |trace|
    requires Get(states[i], r) == Some(Unavailable)
    ensures Get(states[j], r) == Some(Unavailable)
    decreases j
  {
    if i < j {
      UnavailableIsAbsorbing(states, trace, runId, expectations, r, i, j - 1);
      assert Stepped(states[j - 1], trace[j - 1], runId, expectations, states[j]);
    }
  }

  // ----- The final check -----

  /** The task succeeded with a result and declares exactly this artifact. */
  predicate Owns(run: RunResult, taskId: string, artifact: string) {
    && taskId in run.states
    && run.states[taskId].status == Success
    && run.states[taskId].hasResult
    && run.states[taskId].declaredArtifact == Some(artifact)
  }

  function DependenciesIn(run: RunResult): Graph.Dependencies {
    map id | id in run.states :: run.states[id].dependsOn
  }

  /** A task waits for another one, directly or not. */
  ghost predicate WaitsFor(deps: Graph.Dependencies, id: string, other: string) {
    id in deps && Graph.Reaches(deps, deps[id], other)
  }

  ghost predicate Upstream(run: RunResult, producer: string, consumer: string) {
    WaitsFor(DependenciesIn(run), consumer, producer)
  }

  /** The dependencies of a task were all looked at, and none is the one searched for. */
  ghost predicate Done(deps: Graph.Dependencies, producer: string, id: string, seen: set<string>) {
    id in deps ==> forall d | d in deps[id] :: d != producer && d in seen
  }

  lemma WaitsThrough(deps: Graph.Dependencies, id: string, d: string, producer: string)
    requires id in deps && d in deps[id]
    requires d == producer || WaitsFor(deps, d, producer)
    ensures WaitsFor(deps, id, producer)
  {
    Graph.ReachableClosed(deps, deps[id]);
    if d != producer {
      var path: seq<string> :| Graph.Path(deps, path) && path[0] in deps[d] && path[|path| - 1] == producer;
      Graph.ClosedHoldsPath(deps, Graph.Reachable(deps, deps[id]), path);
    }
  }

  /** The recursive search over depends_on; seen tasks are not searched again. */
  method Search(deps: Graph.Dependencies, producer: string, id: string, seen: set<string>, ghost universe: set<string>)
    returns (found: bool, seen': set<string>)
    requires id in universe && forall x, d | x in deps && d in deps[x] :: d in universe
    ensures seen <= seen' && id in seen'
    ensures found ==> WaitsFor(deps, id, producer)
    ensures !found ==> forall x | x in seen' && x !in seen :: Done(deps, producer, x, seen')
    decreases |universe - seen|
  {
    seen' := seen;
    if id in seen {
      return false, seen';
    }
    seen' := seen' + {id};
    if id !in deps {
      return false, seen';
    }
    for i := 0 to |deps[id]|
      invariant seen + {id} <= seen'
      invariant forall d | d in deps[id][..i] :: d != producer && d in seen'
      invariant forall x | x in seen' && x !in seen && x != id :: Done(deps, producer, x, seen')
    {
      var d := deps[id][i];
      assert deps[id][..i + 1] == deps[id][..i] + [d];
      if d == producer {
        WaitsThrough(deps, id, d, producer);
        return true, seen';
      }
      SearchShrinks(universe, seen, seen', id);
      found, seen' := Search(deps, producer, d, seen', universe);
      if found {
        WaitsThrough(deps, id, d, producer);
        return;
      }
    }
    assert deps[id][..|deps[id]|] == deps[id];
    found := false;
  }

  lemma SearchShrinks(universe: set<string>, seen: set<string>, more: set<string>, id: string)
    requires id in universe && id !in seen && seen + {id} <= more
    ensures |universe - more| < |universe - seen|
  {
    SubsetSize(universe - more, universe - seen - {id});
    assert id in universe - seen;
  }

  lemma SearchedPath(deps: Graph.Dependencies, producer: string, id: string, seen: set<string>, path: seq<string>)
    requires id in seen && forall x | x in seen :: Done(deps, producer, x, seen)
    requires Graph.Path(deps, path) && id in deps && path[0] in deps[id]
    ensures path[|path| - 1] != producer
  {
    assert Done(deps, producer, id, seen);
    if |path| > 1 {
      var before := path[..|path| - 1];
      assert Graph.Closed(deps, seen) by {
        forall x, d | x in seen && x in deps && d in deps[x]
          ensures d in seen
        {
          assert Done(deps, producer, x, seen);
        }
      }
      Graph.ClosedHoldsPath(deps, seen, before);
      assert Done(deps, producer, path[|path| - 2], seen);
      assert path[|path| - 2 + 1] in deps[path[|path| - 2]];
    }
  }

  /** A set that was searched completely without finding the producer holds no task that waits for it. */
  lemma SearchedAll(deps: Graph.Dependencies, producer: string, id: string, seen: set<string>)
    requires id in seen && forall x | x in seen :: Done(deps, producer, x, seen)
    ensures !WaitsFor(deps, id, producer)
  {
    if WaitsFor(deps, id, producer) {
      var path: seq<string> :| Graph.Path(deps, path) && path[0] in deps[id] && path[|path| - 1] == producer;
      SearchedPath(deps, producer, id, seen, path);
    }
  }

  method IsUpstream(run: RunResult, producer: string, consumer: string) returns (upstream: bool)
    ensures upstream <==> Upstream(run, producer, consumer)
  {
    var deps := DependenciesIn(run);
    ghost var universe := Graph.Universe(deps, [consumer]);
    var seen;
    upstream, seen := Search(deps, producer, consumer, {}, universe);
    if !upstream {
      SearchedAll(deps, producer, consumer, seen);
    }
  }

  /** The file-source-text-occurrence branch of evaluateTrialExpectation; None is the absent last result. */
  ghost predicate RelationPasses(files: Files, e: Expectation, run: Option<RunResult>, observedRunId: string,
                                 observations: Observations)
    requires e.SourceTextOccurrence?
  {
    var r := RelationOf(e);
    && Readable(files, e.path)
    && (match Get(observations, r)
        case Some(Captured(read, true)) =>
          && run.Some? && run.value.runId == observedRunId
          && e.sourcePath != e.path
          && Owns(run.value, e.producerTaskId, e.sourcePath)
          && Owns(run.value, e.consumerTaskId, e.path)
          && Upstream(run.value, e.producerTaskId, e.consumerTaskId)
          && (match Source(r, files)
              case Some(final) => SameSource(final, read) && (Contains(files[e.path].text, read.text) <==> e.present)
              case None => false)
        case _ => false)
  }

  method CheckRelation(files: Files, e: Expectation, run: Option<RunResult>, observedRunId: string,
                       observations: Observations) returns (passed: bool)
    requires e.SourceTextOccurrence?
    ensures passed <==> RelationPasses(files, e, run, observedRunId, observations)
  {
    var r := RelationOf(e);
    if !Readable(files, e.path) || r !in observations {
      return false;
    }
    var observed := observations[r];
    if !observed.Captured? || !observed.consumerStarted || run.None? || observedRunId != run.value.runId {
      return false;
    }
    var upstream := IsUpstream(run.value, e.producerTaskId, e.consumerTaskId);
    if || e.sourcePath == e.path || !Owns(run.value, e.producerTaskId, e.sourcePath)
       || !Owns(run.value, e.consumerTaskId, e.path) || !upstream
    {
      return false;
    }
    var final := Source(r, files);
    if final.None? || final.value.digest != observed.read.digest || final.value.text != observed.read.text {
      return false;
    }
    var present := PreservedLines.Includes(files[e.path].text, observed.read.text);
    passed := present == e.present;
  }

  /**
   * A relation passes only if the source file was byte for byte the same when its producer completed, when the
   * consumer started and at the final check, there was exactly one of each event, in that order, and the text
   * selected then is present in, or absent from, the output as demanded.
   */
  lemma PassedRelationIsGenuine(states: seq<Observations>, trace: seq<Moment>, runId: string,
                                expectations: seq<Expectation>, e: Expectation, files: Files, run: Option<RunResult>)
    requires e in expectations && e.SourceTextOccurrence?
    requires Run(states, trace, runId, expectations)
    requires RelationPasses(files, e, run, runId, states[|trace|])
    ensures var r, moments := RelationOf(e), RelevantMoments(RelationOf(e), runId, trace);
            && |moments| == 2
            && ProducerSucceeded(r, moments[0].event) && moments[0].event.exitCode == Some(0)
            && ConsumerStarted(r, moments[1].event)
            && Readable(moments[0].files, e.sourcePath) && Readable(moments[1].files, e.sourcePath)
            && Readable(files, e.sourcePath)
            && moments[0].files[e.sourcePath].text == moments[1].files[e.sourcePath].text == files[e.sourcePath].text
            && Source(r, files).Some? && Source(r, moments[0].files).Some?
            && Source(r, moments[0].files).value.text == Source(r, files).value.text
            && (Contains(files[e.path].text, Source(r, moments[0].files).value.text) <==> e.present)
  {
    var i :| 0 <= i < |expectations| && expectations[i] == e;
    assert Declares(expectations, RelationOf(e));
    ObservationMeaning(states, trace, runId, expectations, RelationOf(e));
  }

  /** The task ended well in the run, left a result, and declares this artifact. */
  predicate Produced(run: RunResult, taskId: string, artifact: string) {
    && taskId in run.states && run.states[taskId].status == Success && run.states[taskId].hasResult
    && run.states[taskId].declaredArtifact == Some(artifact)
  }

  /** Two events of the run concern the relation: the producer's clean end, then the consumer's start on the same source. */
  ghost predicate HandedOver(r: Relation, runId: string, trace: seq<Moment>, read: SourceRead) {
    var moments := RelevantMoments(r, runId, trace);
    && |moments| == 2
    && moments[0].event == TaskUpdate(runId, r.producerTaskId, Ended(Success), Some(0))
    && moments[1].event.TaskUpdate? && moments[1].event.taskId == r.consumerTaskId && moments[1].event.status == Running
    && Source(r, moments[0].files) == Some(read)
    && Source(r, moments[1].files).Some?
    && Source(r, moments[1].files).value.digest == read.digest && Source(r, moments[1].files).value.text == read.text
  }

  /**
   * A relation passes exactly if the result is of the observed run, producer and consumer succeeded as the owners of
   * two different artifacts, the consumer waited for the producer, the source was handed over during the run and is
   * still the same, and its text is in the readable output or not, as demanded.
   */
  lemma RelationPassesExactly(states: seq<Observations>, trace: seq<Moment>, runId: string,
                              expectations: seq<Expectation>, e: Expectation, files: Files, run: Option<RunResult>)
    requires e in expectations && e.SourceTextOccurrence?
    requires Run(states, trace, runId, expectations)
    ensures RelationPasses(files, e, run, runId, states[|trace|]) <==>
              && run.Some? && run.value.runId == runId && e.sourcePath != e.path
              && Produced(run.value, e.producerTaskId, e.sourcePath) && Produced(run.value, e.consumerTaskId, e.path)
              && WaitsFor(DependenciesIn(run.value), e.consumerTaskId, e.producerTaskId)
              && Readable(files, e.path)
              && exists read :: HandedOver(RelationOf(e), runId, trace, read)
                   && Source(RelationOf(e), files).Some? && Source(RelationOf(e), files).value.digest == read.digest
                   && Source(RelationOf(e), files).value.text == read.text
                   && (Contains(files[e.path].text, read.text) <==> e.present)
  {
    var r := RelationOf(e);
    var i :| 0 <= i < |expectations| && expectations[i] == e;
    assert Declares(expectations, r);
    ObservationMeaning(states, trace, runId, expectations, r);
    forall read
      ensures HandedOver(r, runId, trace, read) <==> Get(states[|trace|], r) == Some(Captured(read, true))
    {
      var moments := RelevantMoments(r, runId, trace);
      if |moments| == 2 {
        assert Relevant(r, runId, moments[0].event);
      }
    }
  }
}
