/** Dependency graphs: the program's three worklist searches and what terminal tasks reach. */
module Graph {
  import opened Common

  /** The tasks each task waits for. */
  type Dependencies = map<string, seq<string>>

  /** A chain of dependencies; unknown tasks have none. */
  ghost predicate Path(deps: Dependencies, path: seq<string>) {
    && path != []
    && forall i | 0 <= i < |path| - 1 :: path[i] in deps && path[i + 1] in deps[path[i]]
  }

  ghost predicate Reaches(deps: Dependencies, roots: seq<string>, id: string) {
    exists path: seq<string> :: Path(deps, path) && path[0] in roots && path[|path| - 1] == id
  }

  ghost function Universe(deps: Dependencies, roots: seq<string>): set<string> {
    (set id | id in roots) + deps.Keys + (set id, d | id in deps && d in deps[id] :: d)
  }

  /** The dependency closure of a selection. */
  ghost function Reachable(deps: Dependencies, roots: seq<string>): (r: set<string>)
    ensures forall id :: id in r <==> Reaches(deps, roots, id)
  {
    forall id | Reaches(deps, roots, id)
      ensures id in Universe(deps, roots)
    {
      var path: seq<string> :| Path(deps, path) && path[0] in roots && path[|path| - 1] == id;
      assert |path| > 1 ==> path[|path| - 1] in deps[path[|path| - 2]];
    }
    set id | id in Universe(deps, roots) && Reaches(deps, roots, id)
  }

  ghost predicate Closed(deps: Dependencies, ids: set<string>) {
    forall id, d | id in ids && id in deps && d in deps[id] :: d in ids
  }

  /** A closed selection that holds the roots holds everything they reach. */
  lemma {:induction false} ClosedHoldsPath(deps: Dependencies, ids: set<string>, path: seq<string>)
    requires Closed(deps, ids) && Path(deps, path) && path[0] in ids
    ensures path[|path| - 1] in ids
  {
    if |path| > 1 {
      assert path[1] in deps[path[0]];
      ClosedHoldsPath(deps, ids, path[1..]);
    }
  }

  /** The last task of a proper path is a dependency of some task. */
  lemma PathEnds(deps: Dependencies, path: seq<string>)
    requires Path(deps, path)
    ensures |path| == 1 || exists other :: other in deps && path[|path| - 1] in deps[other]
  {
    if |path| > 1 {
      assert path[|path| - 2 + 1] in deps[path[|path| - 2]];
    }
  }

  lemma RootReached(deps: Dependencies, roots: seq<string>, id: string)
    requires id in roots
    ensures Reaches(deps, roots, id)
  {
    assert Path(deps, [id]);
  }

  lemma DependencyReached(deps: Dependencies, roots: seq<string>, id: string, d: string)
    requires Reaches(deps, roots, id) && id in deps && d in deps[id]
    ensures Reaches(deps, roots, d)
  {
    var path: seq<string> :| Path(deps, path) && path[0] in roots && path[|path| - 1] == id;
    var longer := path + [d];
    assert Path(deps, longer) && longer[0] in roots && longer[|longer| - 1] == d;
  }

  lemma ReachableClosed(deps: Dependencies, roots: seq<string>)
    ensures Closed(deps, Reachable(deps, roots))
    ensures forall id | id in roots :: id in Reachable(deps, roots)
  {
    forall id | id in roots
      ensures Reaches(deps, roots, id)
    {
      RootReached(deps, roots, id);
    }
    forall id, d | id in Reachable(deps, roots) && id in deps && d in deps[id]
      ensures d in Reachable(deps, roots)
    {
      DependencyReached(deps, roots, id, d);
    }
  }

  /** What is reached from a reached task is reached. */
  lemma ReachesThrough(deps: Dependencies, roots: seq<string>, via: string, id: string)
    requires Reaches(deps, roots, via) && Reaches(deps, [via], id)
    ensures Reaches(deps, roots, id)
  {
    var path: seq<string> :| Path(deps, path) && path[0] in [via] && path[|path| - 1] == id;
    ReachableClosed(deps, roots);
    ClosedHoldsPath(deps, Reachable(deps, roots), path);
  }

  /** When every dependency is known, known roots reach known tasks only. */
  lemma ReachableKnown(deps: Dependencies, roots: seq<string>)
    requires forall id | id in roots :: id in deps
    requires forall id, d | id in deps && d in deps[id] :: d in deps
    ensures Reachable(deps, roots) <= deps.Keys
  {
    forall id | Reaches(deps, roots, id)
      ensures id in deps
    {
      var path: seq<string> :| Path(deps, path) && path[0] in roots && path[|path| - 1] == id;
      PathEnds(deps, path);
    }
  }

  /** What a worklist knows between two steps. */
  ghost predicate Explored(deps: Dependencies, roots: seq<string>, seen: set<string>, pending: seq<string>) {
    && (forall id | id in seen || id in pending :: Reaches(deps, roots, id))
    && (forall id | id in roots :: id in seen || id in pending)
    && (forall id, d | id in seen && id in deps && d in deps[id] :: d in seen || d in pending)
  }

  lemma ExploreStep(deps: Dependencies, roots: seq<string>, seen: set<string>, pending: seq<string>)
    requires Explored(deps, roots, seen, pending) && pending != []
    ensures var id := pending[|pending| - 1];
            if id in seen then Explored(deps, roots, seen, pending[..|pending| - 1])
            else Explored(deps, roots, seen + {id}, pending[..|pending| - 1] + if id in deps then deps[id] else [])
  {
    var id := pending[|pending| - 1];
    var rest := pending[..|pending| - 1];
    assert forall x :: x in pending <==> x in rest || x == id;
    if id !in seen && id in deps {
      forall d | d in deps[id]
        ensures Reaches(deps, roots, d)
      {
        DependencyReached(deps, roots, id, d);
      }
    }
  }

  lemma ExploreShrinks(deps: Dependencies, roots: seq<string>, seen: set<string>, id: string)
    requires id !in seen && Reaches(deps, roots, id)
    ensures |Reachable(deps, roots) - (seen + {id})| < |Reachable(deps, roots) - seen|
  {
    var left := Reachable(deps, roots) - seen;
    assert id in left;
    assert Reachable(deps, roots) - (seen + {id}) == left - {id};
  }

  lemma ExploredAll(deps: Dependencies, roots: seq<string>, seen: set<string>)
    requires Explored(deps, roots, seen, [])
    ensures seen == Reachable(deps, roots)
  {
    forall id | Reaches(deps, roots, id)
      ensures id in seen
    {
      var path: seq<string> :| Path(deps, path) && path[0] in roots && path[|path| - 1] == id;
      ClosedHoldsPath(deps, seen, path);
    }
  }

  /** closure and targetTaskClosure: unknown tasks are kept and have no dependencies. */
  method Closure(roots: seq<string>, deps: Dependencies) returns (seen: set<string>)
    ensures seen == Reachable(deps, roots)
  {
    seen := {};
    var pending := roots;
    forall id | id in roots
      ensures Reaches(deps, roots, id)
    {
      RootReached(deps, roots, id);
    }
    while pending != []
      invariant Explored(deps, roots, seen, pending)
      decreases |Reachable(deps, roots) - seen|, |pending|
    {
      ExploreStep(deps, roots, seen, pending);
      var id := pending[|pending| - 1];
      pending := pending[..|pending| - 1];
      if id in seen {
        continue;
      }
      ExploreShrinks(deps, roots, seen, id);
      seen := seen + {id};
      pending := pending + if id in deps then deps[id] else [];
    }
    ExploredAll(deps, roots, seen);
  }

  /** targetSelectionRunsTask: stops as soon as the required task is popped. */
  method TargetSelectionRunsTask(deps: Dependencies, targets: seq<string>, required: string) returns (runs: bool)
    ensures runs <==> Reaches(deps, targets, required)
  {
    var pending := targets;
    var visited: set<string> := {};
    forall id | id in targets
      ensures Reaches(deps, targets, id)
    {
      RootReached(deps, targets, id);
    }
    while pending != []
      invariant Explored(deps, targets, visited, pending)
      invariant required !in visited
      decreases |Reachable(deps, targets) - visited|, |pending|
    {
      ExploreStep(deps, targets, visited, pending);
      var id := pending[|pending| - 1];
      pending := pending[..|pending| - 1];
      if id == required {
        return true;
      }
      if id in visited {
        continue;
      }
      ExploreShrinks(deps, targets, visited, id);
      visited := visited + {id};
      pending := pending + if id in deps then deps[id] else [];
    }
    ExploredAll(deps, targets, visited);
    return false;
  }

  function KeepIn(order: seq<string>, ids: set<string>): (kept: seq<string>)
    ensures forall id :: id in kept <==> id in order && id in ids
    ensures Distinct(order) ==> Distinct(kept)
  {
    if order == [] then []
    else if order[0] in ids then [order[0]] + KeepIn(order[1..], ids)
    else KeepIn(order[1..], ids)
  }

  /** taskIdsInTargetClosure: an unknown task anywhere in the closure is an error; the result keeps graph order. */
  method TaskIdsInTargetClosure(order: seq<string>, deps: Dependencies, targets: seq<string>)
    returns (r: Option<seq<string>>)
    requires forall id :: id in order <==> id in deps
    ensures r.None? <==> exists id :: Reaches(deps, targets, id) && id !in deps
    ensures r.Some? ==> (forall id :: id in r.value <==> Reaches(deps, targets, id))
    ensures r.Some? && Distinct(order) ==> Distinct(r.value)
  {
    var pending := targets;
    var visited: set<string> := {};
    forall id | id in targets
      ensures Reaches(deps, targets, id)
    {
      RootReached(deps, targets, id);
    }
    while pending != []
      invariant Explored(deps, targets, visited, pending)
      invariant forall id | id in visited :: id in deps
      decreases |Reachable(deps, targets) - visited|, |pending|
    {
      ExploreStep(deps, targets, visited, pending);
      var id := pending[|pending| - 1];
      pending := pending[..|pending| - 1];
      if id in visited {
        continue;
      }
      ExploreShrinks(deps, targets, visited, id);
      visited := visited + {id};
      if id !in deps {
        assert Reaches(deps, targets, id);
        return None;
      }
      pending := pending + deps[id];
    }
    ExploredAll(deps, targets, visited);
    return Some(KeepIn(order, visited));
  }

  // ----- Terminal tasks -----

  /** Tasks no other task waits for. */
  ghost function Terminals(deps: Dependencies): set<string> {
    set id | id in deps && forall other | other in deps :: id !in deps[other]
  }

  /** A rank that decreases along every dependency rules out cycles. */
  ghost predicate Ranked(deps: Dependencies, rank: map<string, nat>) {
    && deps.Keys <= rank.Keys
    && forall id, d | id in deps && d in deps[id] && d in deps :: rank[d] < rank[id]
  }

  ghost predicate Acyclic(deps: Dependencies) {
    exists rank :: Ranked(deps, rank)
  }

  lemma {:induction false} RankBound(rank: map<string, nat>, ids: set<string>) returns (bound: nat)
    requires ids <= rank.Keys
    ensures forall id | id in ids :: rank[id] <= bound
  {
    if ids == {} {
      bound := 0;
    } else {
      var id :| id in ids;
      var rest := RankBound(rank, ids - {id});
      bound := if rank[id] > rest then rank[id] else rest;
    }
  }

  lemma {:induction false} Descends(deps: Dependencies, rank: map<string, nat>, bound: nat, ids: set<string>, id: string)
    requires Ranked(deps, rank) && Closed(deps, ids) && Terminals(deps) <= ids
    requires id in deps && forall other | other in deps :: rank[other] <= bound
    ensures id in ids
    decreases bound - rank[id]
  {
    if id !in Terminals(deps) {
      var other :| other in deps && id in deps[other];
      Descends(deps, rank, bound, ids, other);
    }
  }

  /** In an acyclic graph, a dependency-closed selection that holds every terminal task is the whole graph. */
  lemma TerminalsReachAll(deps: Dependencies, ids: set<string>)
    requires Acyclic(deps) && Closed(deps, ids) && Terminals(deps) <= ids
    ensures deps.Keys <= ids
  {
    var rank :| Ranked(deps, rank);
    var bound := RankBound(rank, deps.Keys);
    forall id | id in deps
      ensures id in ids
    {
      Descends(deps, rank, bound, ids, id);
    }
  }

  lemma TerminalsReachWhole(deps: Dependencies, roots: seq<string>)
    requires Acyclic(deps) && Terminals(deps) <= Reachable(deps, roots)
    requires forall id | id in roots :: id in deps
    requires forall id, d | id in deps && d in deps[id] :: d in deps
    ensures Reachable(deps, roots) == deps.Keys
  {
    ReachableClosed(deps, roots);
    TerminalsReachAll(deps, Reachable(deps, roots));
    ReachableKnown(deps, roots);
  }

  /**
   * On any graph: a dependency-closed selection that holds the terminal tasks must be the whole graph exactly if the
   * terminal tasks reach every task.
   */
  lemma TerminalsDecide(deps: Dependencies, terminals: seq<string>)
    requires forall id :: id in terminals <==> id in Terminals(deps)
    ensures (forall ids | Closed(deps, ids) && Terminals(deps) <= ids :: deps.Keys <= ids)
       <==> deps.Keys <= Reachable(deps, terminals)
  {
    ReachableClosed(deps, terminals);
    if deps.Keys <= Reachable(deps, terminals) {
      forall ids | Closed(deps, ids) && Terminals(deps) <= ids
        ensures deps.Keys <= ids
      {
        forall id | id in deps
          ensures id in ids
        {
          assert id in Reachable(deps, terminals);
          var path: seq<string> :| Path(deps, path) && path[0] in terminals && path[|path| - 1] == id;
          ClosedHoldsPath(deps, ids, path);
        }
      }
    }
  }

  /** Two tasks waiting for each other leave no terminal task to ask about. */
  lemma CycleHasNoTerminal()
    ensures var deps: Dependencies := map["a.x" := ["a.y"], "a.y" := ["a.x"]];
            Terminals(deps) == {} && Closed(deps, {}) && !(deps.Keys <= {})
  {
    var deps: Dependencies := map["a.x" := ["a.y"], "a.y" := ["a.x"]];
    assert "a.y" in deps["a.x"] && "a.x" in deps["a.y"];
    assert "a.x" in deps.Keys;
  }
}
