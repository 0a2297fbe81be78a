/** Plan coverage of the task graph: an uncovered terminal task is an uncovered task, and conversely. */
module Coverage {
  import opened Common
  import opened Plan
  import opened Graph

  function DependedOn(order: seq<string>, deps: Dependencies): (ids: set<string>)
    requires forall id | id in order :: id in deps
    ensures forall d :: d in ids <==> exists id :: id in order && d in deps[id]
  {
    set id, d | id in order && d in deps[id] :: d
  }

  function TargetedByPositiveCases(cases: seq<Case>): (ids: set<string>)
    ensures forall t :: t in ids <==>
              exists i | 0 <= i < |cases| :: cases[i].baselineCaseId.None? && t in cases[i].targets
  {
    set c, t | c in cases && c.baselineCaseId.None? && t in c.targets :: t
  }

  /** findUncoveredChatPipelineTrialTerminalTaskIds */
  function UncoveredTerminals(cases: seq<Case>, order: seq<string>, deps: Dependencies): seq<string>
    requires forall id | id in order :: id in deps
  {
    KeepIn(order, (set id | id in order) - DependedOn(order, deps) - TargetedByPositiveCases(cases))
  }

  /** Some case that is not a negative probe runs the task. */
  ghost predicate Exercised(cases: seq<Case>, deps: Dependencies, id: string) {
    exists i | 0 <= i < |cases| :: cases[i].baselineCaseId.None? && Reaches(deps, cases[i].targets, id)
  }

  lemma ExercisedClosed(cases: seq<Case>, deps: Dependencies, id: string, d: string)
    requires Exercised(cases, deps, id) && id in deps && d in deps[id]
    ensures Exercised(cases, deps, d)
  {
    var i :| 0 <= i < |cases| && cases[i].baselineCaseId.None? && Reaches(deps, cases[i].targets, id);
    DependencyReached(deps, cases[i].targets, id, d);
  }

  /** A terminal task can only be run by selecting it. */
  lemma TerminalIsTarget(deps: Dependencies, targets: seq<string>, id: string)
    requires id in Terminals(deps) && Reaches(deps, targets, id)
    ensures id in targets
  {
    var path: seq<string> :| Path(deps, path) && path[0] in targets && path[|path| - 1] == id;
    PathEnds(deps, path);
  }

  /** The plan has no uncovered terminal task exactly when its positive cases together run every task. */
  lemma NoUncoveredTerminalMeansAllExercised(cases: seq<Case>, order: seq<string>, deps: Dependencies)
    requires forall id :: id in order <==> id in deps
    requires Acyclic(deps)
    ensures UncoveredTerminals(cases, order, deps) == [] <==> forall id | id in deps :: Exercised(cases, deps, id)
  {
    var uncovered := UncoveredTerminals(cases, order, deps);
    forall id
      ensures id in uncovered <==> id in Terminals(deps) && id !in TargetedByPositiveCases(cases)
    {
    }
    if uncovered == [] {
      var ids := set id | id in deps && Exercised(cases, deps, id);
      forall id | id in Terminals(deps)
        ensures id in ids
      {
        assert id !in uncovered;
        var i :| 0 <= i < |cases| && cases[i].baselineCaseId.None? && id in cases[i].targets;
        RootReached(deps, cases[i].targets, id);
      }
      var all := ids + (set id | id in Universe(deps, order) && Exercised(cases, deps, id));
      assert Closed(deps, all) by {
        forall id, d | id in all && id in deps && d in deps[id]
          ensures d in all
        {
          ExercisedClosed(cases, deps, id, d);
          assert d in Universe(deps, order);
        }
      }
      TerminalsReachAll(deps, all);
    } else {
      var id := uncovered[0];
      assert id in uncovered;
      if Exercised(cases, deps, id) {
        var i :| 0 <= i < |cases| && cases[i].baselineCaseId.None? && Reaches(deps, cases[i].targets, id);
        TerminalIsTarget(deps, cases[i].targets, id);
      }
    }
  }
}
