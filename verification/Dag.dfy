/** buildDag: the topological order of a pipeline's tasks, and which dependency maps it refuses. */
module Dag {
  import opened Common
  import opened Ordering
  import opened Graph

  // ----- The order as a function of the graph -----

  ghost function Listed(ids: set<string>): (list: seq<string>)
    ensures Distinct(list) && forall id :: id in list <==> id in ids
  {
    if ids == {} then []
    else
      var id :| id in ids;
      [id] + Listed(ids - {id})
  }

  ghost function InOrder(ids: set<string>): seq<string> {
    SortStrings(Listed(ids))
  }

  function Members(list: seq<string>): set<string> {
    set id | id in list
  }

  /** Tasks whose last open dependency is the current task. */
  ghost function Released(deps: Dependencies, done: set<string>, current: string): set<string> {
    set id | id in deps && current in deps[id] && Members(deps[id]) <= done + {current}
  }

  ghost function Independent(deps: Dependencies): set<string> {
    set id | id in deps && deps[id] == []
  }

  /** The ready queue once its first n tasks were taken, or all of them if there are fewer. */
  ghost function Queue(deps: Dependencies, n: nat): seq<string> {
    if n == 0 then InOrder(Independent(deps))
    else
      var q := Queue(deps, n - 1);
      if n - 1 < |q| then q + InOrder(Released(deps, Members(q[..n - 1]), q[n - 1])) else q
  }

  function Taken(q: seq<string>, n: nat): seq<string> {
    if n <= |q| then q[..n] else q
  }

  /** The queue holds exactly the tasks whose dependencies were all taken, each once and after its dependencies. */
  ghost predicate Scheduled(deps: Dependencies, q: seq<string>, n: nat) {
    && Distinct(q)
    && (forall id :: id in q <==> id in deps && Members(deps[id]) <= Members(Taken(q, n)))
    && forall i, d | 0 <= i < |q| && q[i] in deps && d in deps[q[i]] :: d in q[..i]
  }

  lemma InOrderMembers(ids: set<string>)
    ensures Distinct(InOrder(ids)) && forall id :: id in InOrder(ids) <==> id in ids
  {
    SortPermutes(Listed(ids), StringLeq);
    SortKeepsDistinct(Listed(ids), StringLeq);
  }

  /** Taking the next task releases the tasks that waited for nothing else. */
  lemma TakeNext(deps: Dependencies, q: seq<string>, n: nat, more: seq<string>)
    requires Scheduled(deps, q, n) && n < |q| && Distinct(more)
    requires forall id :: id in more <==> id in Released(deps, Members(q[..n]), q[n])
    ensures Scheduled(deps, q + more, n + 1)
  {
    var longer := q + more;
    assert longer[..n + 1] == q[..n] + [q[n]];
    assert Members(longer[..n + 1]) == Members(q[..n]) + {q[n]};
    assert Taken(q, n) == q[..n] && Taken(longer, n + 1) == longer[..n + 1];
    assert q[n] !in q[..n];
    forall id | id in more
      ensures id !in q
    {
      assert q[n] in Members(deps[id]);
    }
    forall i, j | 0 <= i < j < |longer|
      ensures longer[i] != longer[j]
    {
      assert i < |q| ==> longer[i] in q;
      assert j >= |q| ==> longer[j] in more;
    }
    assert forall i | 0 <= i < |q| :: longer[..i] == q[..i];
    forall i, d | |q| <= i < |longer| && longer[i] in deps && d in deps[longer[i]]
      ensures d in longer[..i]
    {
      assert longer[i] in more && d in Members(deps[longer[i]]);
      assert d in q;
      assert longer[..i] == q + more[..i - |q|];
    }
  }

  lemma {:induction false} QueueScheduled(deps: Dependencies, n: nat)
    ensures Scheduled(deps, Queue(deps, n), n)
  {
    if n == 0 {
      InOrderMembers(Independent(deps));
      assert Taken(Queue(deps, 0), 0) == [];
      forall id | id in deps
        ensures Members(deps[id]) <= Members([]) <==> deps[id] == []
      {
        assert deps[id] != [] ==> deps[id][0] in Members(deps[id]);
      }
    } else {
      QueueScheduled(deps, n - 1);
      var q := Queue(deps, n - 1);
      if n - 1 < |q| {
        InOrderMembers(Released(deps, Members(q[..n - 1]), q[n - 1]));
        TakeNext(deps, q, n - 1, InOrder(Released(deps, Members(q[..n - 1]), q[n - 1])));
      }
    }
  }

  /** The final queue. */
  ghost function Order(deps: Dependencies): seq<string> {
    Queue(deps, |deps|)
  }

  lemma OrderBound(deps: Dependencies, n: nat)
    ensures |Queue(deps, n)| <= |deps|
    ensures |Queue(deps, n)| == |deps| <==> forall id | id in deps :: id in Queue(deps, n)
  {
    QueueScheduled(deps, n);
    var q := Queue(deps, n);
    DistinctSetSize(q);
    assert Members(q) <= deps.Keys;
    SubsetSize(Members(q), deps.Keys);
    if |q| == |deps| {
      SubsetOfSameSize(Members(q), deps.Keys);
    }
    if forall id | id in deps :: id in q {
      assert Members(q) == deps.Keys;
    }
  }

  lemma {:induction false} RanksScheduled(deps: Dependencies, rank: map<string, nat>, q: seq<string>, n: nat, id: string)
    requires Ranked(deps, rank) && Scheduled(deps, q, n) && n >= |q| && id in deps
    requires forall other, d | other in deps && d in deps[other] :: d in deps
    ensures id in q
    decreases rank[id]
  {
    forall d | d in deps[id]
      ensures d in q
    {
      RanksScheduled(deps, rank, q, n, d);
    }
  }

  /** Every task gets a place exactly if the graph has no cycle. */
  lemma OrderCompleteIffAcyclic(deps: Dependencies)
    requires forall id, d | id in deps && d in deps[id] :: d in deps
    ensures |Order(deps)| == |deps| <==> Acyclic(deps)
  {
    var q := Order(deps);
    QueueScheduled(deps, |deps|);
    OrderBound(deps, |deps|);
    if |q| == |deps| {
      var rank := map id | id in deps :: PlaceIn(q, id);
      forall id, d | id in deps && d in deps[id]
        ensures rank[d] < rank[id]
      {
        assert d in q[..PlaceIn(q, id)];
        PlaceBefore(q, d, PlaceIn(q, id));
      }
      assert Ranked(deps, rank);
    }
    if Acyclic(deps) {
      var rank :| Ranked(deps, rank);
      forall id | id in deps
        ensures id in q
      {
        RanksScheduled(deps, rank, q, |deps|, id);
      }
    }
  }

  function PlaceIn(q: seq<string>, id: string): (i: nat)
    ensures i <= |q| && (id in q ==> i < |q| && q[i] == id)
  {
    if q == [] || q[0] == id then 0 else 1 + PlaceIn(q[1..], id)
  }

  lemma PlaceBefore(q: seq<string>, id: string, n: nat)
    requires Distinct(q) && n <= |q| && id in q[..n]
    ensures PlaceIn(q, id) < n
  {
    var i :| 0 <= i < n && q[i] == id;
    assert q[PlaceIn(q, id)] == id;
  }

  /** The same tasks with the same dependencies, in any order and with any repetitions. */
  ghost predicate SameShape(a: Dependencies, b: Dependencies) {
    a.Keys == b.Keys && forall id | id in a :: Members(a[id]) == Members(b[id])
  }

  lemma {:induction false} QueueOfShape(a: Dependencies, b: Dependencies, n: nat)
    requires SameShape(a, b)
    ensures Queue(a, n) == Queue(b, n)
  {
    if n == 0 {
      forall id | id in a
        ensures a[id] == [] <==> b[id] == []
      {
        assert a[id] != [] ==> a[id][0] in Members(a[id]);
        assert b[id] != [] ==> b[id][0] in Members(b[id]);
      }
      assert Independent(a) == Independent(b);
    } else {
      QueueOfShape(a, b, n - 1);
      var q := Queue(a, n - 1);
      if n - 1 < |q| {
        forall id | id in a
          ensures q[n - 1] in a[id] <==> q[n - 1] in b[id]
        {
          assert q[n - 1] in a[id] <==> q[n - 1] in Members(a[id]);
        }
        assert Released(a, Members(q[..n - 1]), q[n - 1]) == Released(b, Members(q[..n - 1]), q[n - 1]);
      }
    }
  }

  /** Pipelines of the same shape get the same order, however they are written down. */
  lemma OrderOfShape(a: Dependencies, b: Dependencies)
    requires SameShape(a, b)
    ensures Order(a) == Order(b)
  {
    assert |a| == |a.Keys| == |b.Keys| == |b|;
    QueueOfShape(a, b, |a|);
  }

  lemma {:induction false} QueueEnds(deps: Dependencies, n: nat, m: nat)
    requires n <= m && |Queue(deps, n)| <= n
    ensures Queue(deps, m) == Queue(deps, n)
  {
    if n < m {
      QueueEnds(deps, n, m - 1);
    }
  }

  // ----- Cycles -----

  /** A chain of dependencies leads from the task back to it. */
  ghost predicate OnCycle(deps: Dependencies, id: string) {
    exists path: seq<string> :: Path(deps, path) && |path| > 1 && path[0] == id && path[|path| - 1] == id
  }

  /** The task waits for a task on a cycle, directly or not, or is on one itself. */
  ghost predicate WaitsForCycle(deps: Dependencies, id: string) {
    exists c :: Reaches(deps, [id], c) && OnCycle(deps, c)
  }

  /** Along dependencies, places in the queue go down. */
  lemma {:induction false} PathPlaces(deps: Dependencies, q: seq<string>, n: nat, path: seq<string>)
    requires Scheduled(deps, q, n) && Path(deps, path) && path[0] in q
    ensures path[|path| - 1] in q
    ensures |path| > 1 ==> PlaceIn(q, path[|path| - 1]) < PlaceIn(q, path[0])
  {
    if |path| > 1 {
      assert path[1] in deps[path[0]];
      assert path[1] in q[..PlaceIn(q, path[0])];
      PlaceBefore(q, path[1], PlaceIn(q, path[0]));
      PathPlaces(deps, q, n, path[1..]);
    }
  }

  lemma ScheduledOffCycles(deps: Dependencies, q: seq<string>, n: nat, id: string)
    requires Scheduled(deps, q, n) && id in q
    ensures !WaitsForCycle(deps, id)
  {
    if WaitsForCycle(deps, id) {
      var c :| Reaches(deps, [id], c) && OnCycle(deps, c);
      var path: seq<string> :| Path(deps, path) && path[0] in [id] && path[|path| - 1] == c;
      PathPlaces(deps, q, n, path);
      var cycle: seq<string> :| Path(deps, cycle) && |cycle| > 1 && cycle[0] == c && cycle[|cycle| - 1] == c;
      PathPlaces(deps, q, n, cycle);
    }
  }

  /** Every task of the set waits for another task of the set. */
  ghost predicate Stuck(deps: Dependencies, left: set<string>) {
    forall id {:trigger WaitsIn(deps, left, id)} | id in left :: WaitsIn(deps, left, id)
  }

  ghost predicate WaitsIn(deps: Dependencies, left: set<string>, id: string) {
    id in deps && exists d :: d in deps[id] && d in left
  }

  lemma UnplacedStuck(deps: Dependencies, q: seq<string>, n: nat)
    requires Scheduled(deps, q, n) && n >= |q|
    requires forall id, d | id in deps && d in deps[id] :: d in deps
    ensures Stuck(deps, deps.Keys - Members(q))
  {
    forall id | id in deps.Keys - Members(q)
      ensures WaitsIn(deps, deps.Keys - Members(q), id)
    {
      assert !(Members(deps[id]) <= Members(q));
      var d :| d in Members(deps[id]) && d !in Members(q);
      assert d in deps[id];
    }
  }

  /** From a stuck task a chain of stuck tasks goes on as far as one likes. */
  lemma {:induction false} StuckChain(deps: Dependencies, left: set<string>, id: string, length: nat)
    returns (path: seq<string>)
    requires Stuck(deps, left) && id in left && length > 0
    ensures |path| == length && path[0] == id && Path(deps, path) && forall i | 0 <= i < |path| :: path[i] in left
    decreases length
  {
    path := [id];
    assert WaitsIn(deps, left, id);
    if length > 1 {
      var d :| d in deps[id] && d in left;
      var rest := StuckChain(deps, left, d, length - 1);
      path := [id] + rest;
      PathFrom(deps, id, rest);
    }
  }

  lemma PathFrom(deps: Dependencies, id: string, rest: seq<string>)
    requires Path(deps, rest) && id in deps && rest[0] in deps[id]
    ensures Path(deps, [id] + rest)
  {
  }

  lemma LongPathRepeats(deps: Dependencies, path: seq<string>) returns (i: nat, j: nat)
    requires |path| > |deps| && forall k | 0 <= k < |path| :: path[k] in deps
    ensures i < j < |path| && path[i] == path[j]
  {
    if Distinct(path) {
      DistinctSetSize(path);
      assert Members(path) <= deps.Keys;
      SubsetSize(Members(path), deps.Keys);
      assert false;
    }
    i, j :| 0 <= i < j < |path| && path[i] == path[j];
  }

  lemma PartOfPath(deps: Dependencies, path: seq<string>, i: nat, j: nat)
    requires Path(deps, path) && i < j <= |path|
    ensures Path(deps, path[i..j])
  {
    var part := path[i..j];
    forall k | 0 <= k < |part| - 1
      ensures part[k] in deps && part[k + 1] in deps[part[k]]
    {
      assert path[i + k] in deps && path[i + k + 1] in deps[path[i + k]];
    }
  }

  lemma StuckWaits(deps: Dependencies, left: set<string>, id: string)
    requires Stuck(deps, left) && id in left
    ensures WaitsForCycle(deps, id)
  {
    var path := StuckChain(deps, left, id, |deps| + 1);
    forall k | 0 <= k < |path|
      ensures path[k] in deps
    {
      assert WaitsIn(deps, left, path[k]);
    }
    var i, j := LongPathRepeats(deps, path);
    ChainWaits(deps, path, i, j);
  }

  lemma ChainWaits(deps: Dependencies, path: seq<string>, i: nat, j: nat)
    requires Path(deps, path) && i < j < |path| && path[i] == path[j]
    ensures WaitsForCycle(deps, path[0])
  {
    PartOfPath(deps, path, i, j + 1);
    PartOfPath(deps, path, 0, i + 1);
    var cycle, before := path[i..j + 1], path[0..i + 1];
    assert cycle[0] == path[i] && cycle[|cycle| - 1] == path[j];
    assert OnCycle(deps, path[i]);
    assert before[0] in [path[0]] && before[|before| - 1] == path[i];
    assert Reaches(deps, [path[0]], path[i]);
  }

  /** The tasks without a place are exactly those that wait for a cycle. */
  lemma OrderLeavesOut(deps: Dependencies, id: string)
    requires id in deps && forall other, d | other in deps && d in deps[other] :: d in deps
    ensures id !in Order(deps) <==> WaitsForCycle(deps, id)
  {
    QueueScheduled(deps, |deps|);
    OrderBound(deps, |deps|);
    if id in Order(deps) {
      ScheduledOffCycles(deps, Order(deps), |deps|, id);
    } else {
      UnplacedStuck(deps, Order(deps), |deps|);
      StuckWaits(deps, deps.Keys - Members(Order(deps)), id);
    }
  }

  lemma {:induction false} CycleSpreads(deps: Dependencies, path: seq<string>)
    requires forall id, d | id in deps && d in deps[id] && OnCycle(deps, d) :: OnCycle(deps, id)
    requires Path(deps, path) && OnCycle(deps, path[|path| - 1])
    ensures OnCycle(deps, path[0])
  {
    if |path| > 1 {
      CycleSpreads(deps, path[1..]);
      assert path[1] in deps[path[0]];
    }
  }

  /**
   * The tasks left out are reported as the members of the cycles. That is what they are exactly if no task off the
   * cycles depends on one.
   */
  lemma ReportNamesCyclesOnly(deps: Dependencies)
    requires forall id, d | id in deps && d in deps[id] :: d in deps
    ensures (forall id | id in deps && id !in Order(deps) :: OnCycle(deps, id))
       <==> (forall id, d | id in deps && d in deps[id] && OnCycle(deps, d) :: OnCycle(deps, id))
  {
    if forall id | id in deps && id !in Order(deps) :: OnCycle(deps, id) {
      forall id, d | id in deps && d in deps[id] && OnCycle(deps, d)
        ensures OnCycle(deps, id)
      {
        assert Path(deps, [id, d]) && Reaches(deps, [id], d);
        OrderLeavesOut(deps, id);
      }
    } else if forall id, d | id in deps && d in deps[id] && OnCycle(deps, d) :: OnCycle(deps, id) {
      var id :| id in deps && id !in Order(deps) && !OnCycle(deps, id);
      OrderLeavesOut(deps, id);
      var c :| Reaches(deps, [id], c) && OnCycle(deps, c);
      var path: seq<string> :| Path(deps, path) && path[0] in [id] && path[|path| - 1] == c;
      CycleSpreads(deps, path);
    }
  }

  lemma NotDependedOn(deps: Dependencies, id: string)
    requires forall other | other in deps :: id !in deps[other]
    ensures !OnCycle(deps, id)
  {
    if OnCycle(deps, id) {
      var path: seq<string> :| Path(deps, path) && |path| > 1 && path[0] == id && path[|path| - 1] == id;
      PathEnds(deps, path);
    }
  }

  /** A task behind a cycle is reported as a member of it. */
  lemma BystanderReported()
    ensures var deps: Dependencies := map["a.x" := ["a.y"], "a.y" := ["a.x"], "a.z" := ["a.x"]];
            "a.z" !in Order(deps) && !OnCycle(deps, "a.z")
  {
    var deps: Dependencies := map["a.x" := ["a.y"], "a.y" := ["a.x"], "a.z" := ["a.x"]];
    var cycle := ["a.x", "a.y", "a.x"];
    assert "a.x" in deps["a.z"] && "a.y" in deps["a.x"] && "a.x" in deps["a.y"];
    assert Path(deps, cycle) && OnCycle(deps, "a.x");
    assert Path(deps, ["a.z", "a.x"]) && Reaches(deps, ["a.z"], "a.x");
    OrderLeavesOut(deps, "a.z");
    NotDependedOn(deps, "a.z");
  }

  // ----- The algorithm -----

  /** Dependencies, counted with repetitions, that are not done. */
  function Unmet(list: seq<string>, done: set<string>): nat {
    if list == [] then 0
    else Unmet(list[..|list| - 1], done) + if list[|list| - 1] in done then 0 else 1
  }

  lemma {:induction false} UnmetNone(list: seq<string>, done: set<string>)
    ensures Unmet(list, done) == 0 <==> Members(list) <= done
    ensures done == {} ==> Unmet(list, done) == |list|
  {
    if list != [] {
      UnmetNone(list[..|list| - 1], done);
      assert Members(list) == Members(list[..|list| - 1]) + {list[|list| - 1]};
    }
  }

  lemma {:induction false} UnmetStep(list: seq<string>, done: set<string>, id: string)
    requires id !in done
    ensures Unmet(list, done) == Unmet(list, done + {id}) + multiset(list)[id]
  {
    if list != [] {
      UnmetStep(list[..|list| - 1], done, id);
      assert list == list[..|list| - 1] + [list[|list| - 1]];
    }
  }

  type Adjacency = map<string, seq<string>>

  /** How often a task waits for another. */
  ghost function Edges(deps: Dependencies, id: string, d: string): nat {
    if id in deps then multiset(deps[id])[d] else 0
  }

  /** Each task is listed under a dependency as often as it waits for it. */
  ghost predicate Mirrors(adjacency: Adjacency, deps: Dependencies) {
    && adjacency.Keys == deps.Keys
    && forall d, id | d in adjacency :: multiset(adjacency[d])[id] == Edges(deps, id, d)
  }

  ghost predicate MirrorsUpTo(adjacency: Adjacency, deps: Dependencies, nodes: seq<string>, i: nat, j: nat)
    requires i <= |nodes| && forall id | id in nodes :: id in deps
    requires i < |nodes| ==> j <= |deps[nodes[i]]|
  {
    && adjacency.Keys == deps.Keys
    && forall d, id | d in adjacency ::
         multiset(adjacency[d])[id] == if id in nodes[..i] then Edges(deps, id, d)
                                       else if i < |nodes| && id == nodes[i] then multiset(deps[id][..j])[d] else 0
  }

  lemma NoEdges(adjacency: Adjacency, deps: Dependencies, nodes: seq<string>)
    requires forall id | id in nodes :: id in deps
    requires adjacency.Keys == deps.Keys && forall d | d in adjacency :: adjacency[d] == []
    ensures MirrorsUpTo(adjacency, deps, nodes, 0, 0)
  {
  }

  lemma EdgeAdded(adjacency: Adjacency, deps: Dependencies, nodes: seq<string>, i: nat, j: nat)
    requires Distinct(nodes) && i < |nodes| && (forall id | id in nodes :: id in deps) && j < |deps[nodes[i]]|
    requires deps[nodes[i]][j] in deps && MirrorsUpTo(adjacency, deps, nodes, i, j)
    ensures var d := deps[nodes[i]][j];
            MirrorsUpTo(adjacency[d := adjacency[d] + [nodes[i]]], deps, nodes, i, j + 1)
  {
    var list := deps[nodes[i]];
    assert list[..j + 1] == list[..j] + [list[j]];
  }

  lemma NodeAdded(adjacency: Adjacency, deps: Dependencies, nodes: seq<string>, i: nat)
    requires Distinct(nodes) && i < |nodes| && forall id | id in nodes :: id in deps
    requires MirrorsUpTo(adjacency, deps, nodes, i, |deps[nodes[i]]|)
    ensures MirrorsUpTo(adjacency, deps, nodes, i + 1, 0)
  {
    var list := deps[nodes[i]];
    assert list[..|list|] == list;
    assert nodes[..i + 1] == nodes[..i] + [nodes[i]];
  }

  lemma AllAdded(adjacency: Adjacency, deps: Dependencies, nodes: seq<string>)
    requires forall id :: id in nodes <==> id in deps
    requires MirrorsUpTo(adjacency, deps, nodes, |nodes|, 0)
    ensures Mirrors(adjacency, deps)
  {
    assert nodes[..|nodes|] == nodes;
  }

  method Adjacencies(nodes: seq<string>, deps: Dependencies) returns (adjacency: Adjacency)
    requires Distinct(nodes) && forall id :: id in nodes <==> id in deps
    requires forall id, d | id in deps && d in deps[id] :: d in deps
    ensures Mirrors(adjacency, deps)
  {
    adjacency := map id | id in deps :: [];
    NoEdges(adjacency, deps, nodes);
    for i := 0 to |nodes|
      invariant MirrorsUpTo(adjacency, deps, nodes, i, 0)
    {
      var id := nodes[i];
      for j := 0 to |deps[id]|
        invariant MirrorsUpTo(adjacency, deps, nodes, i, j)
      {
        var d := deps[id][j];
        EdgeAdded(adjacency, deps, nodes, i, j);
        adjacency := adjacency[d := adjacency[d] + [id]];
      }
      NodeAdded(adjacency, deps, nodes, i);
    }
    AllAdded(adjacency, deps, nodes);
  }

  /** The open dependencies of every task. */
  ghost predicate Counted(degree: map<string, int>, deps: Dependencies, done: set<string>) {
    degree.Keys == deps.Keys && forall id | id in deps :: degree[id] == Unmet(deps[id], done)
  }

  /** Counts down once for each child, and collects those that come to zero. */
  method CountDown(degree: map<string, int>, children: seq<string>)
    returns (degree': map<string, int>, released: seq<string>)
    requires forall id | id in children :: id in degree && degree[id] >= multiset(children)[id]
    ensures degree'.Keys == degree.Keys
    ensures forall id | id in degree :: degree'[id] == degree[id] - multiset(children)[id]
    ensures Distinct(released)
    ensures forall id :: id in released <==> id in children && degree[id] == multiset(children)[id]
  {
    degree', released := degree, [];
    for k := 0 to |children|
      invariant degree'.Keys == degree.Keys
      invariant forall id | id in degree :: degree'[id] == degree[id] - multiset(children[..k])[id]
      invariant Distinct(released)
      invariant forall id :: id in released <==> id in children[..k] && degree[id] == multiset(children[..k])[id]
    {
      var child := children[k];
      TakeChild(children, k);
      degree' := degree'[child := degree'[child] - 1];
      if degree'[child] == 0 {
        released := released + [child];
      }
    }
    assert children[..|children|] == children;
  }

  lemma TakeChild(children: seq<string>, k: nat)
    requires k < |children|
    ensures children[..k + 1] == children[..k] + [children[k]]
    ensures forall id :: multiset(children[..k + 1])[id] ==
                         multiset(children[..k])[id] + if id == children[k] then 1 else 0
    ensures multiset(children)[children[k]] > multiset(children[..k])[children[k]]
  {
    assert children[..k + 1] == children[..k] + [children[k]];
    assert children == children[..k] + [children[k]] + children[k + 1..];
  }

  /** Counting down the tasks that wait for the current one finds those it releases. */
  method Release(deps: Dependencies, adjacency: Adjacency, degree: map<string, int>, ghost done: set<string>,
                 current: string)
    returns (degree': map<string, int>, released: seq<string>)
    requires Mirrors(adjacency, deps) && current in deps && current !in done
    requires Counted(degree, deps, done)
    ensures Counted(degree', deps, done + {current})
    ensures released == InOrder(Released(deps, done, current))
  {
    ChildrenKnown(deps, adjacency, current);
    ChildrenOpen(deps, adjacency, degree, done, current);
    degree', released := CountDown(degree, adjacency[current]);
    ReleasedFound(deps, adjacency, done, current, degree, released);
    released := SortStrings(released);
  }

  lemma ChildrenKnown(deps: Dependencies, adjacency: Adjacency, current: string)
    requires Mirrors(adjacency, deps) && current in deps
    ensures forall id :: id in adjacency[current] <==> id in deps && current in deps[id]
  {
    forall id
      ensures id in adjacency[current] <==> id in deps && current in deps[id]
    {
      assert id in adjacency[current] <==> multiset(adjacency[current])[id] > 0;
      assert id in deps ==> (current in deps[id] <==> multiset(deps[id])[current] > 0);
    }
  }

  /** Counting down leaves the dependencies that are open once the current task is done. */
  lemma ChildrenOpen(deps: Dependencies, adjacency: Adjacency, degree: map<string, int>, done: set<string>,
                     current: string)
    requires Mirrors(adjacency, deps) && current in deps && current !in done && Counted(degree, deps, done)
    ensures forall id | id in deps ::
              degree[id] - multiset(adjacency[current])[id] == Unmet(deps[id], done + {current})
  {
    forall id | id in deps
      ensures degree[id] - multiset(adjacency[current])[id] == Unmet(deps[id], done + {current})
    {
      UnmetStep(deps[id], done, current);
      assert multiset(adjacency[current])[id] == Edges(deps, id, current);
    }
  }

  lemma ReleasedFound(deps: Dependencies, adjacency: Adjacency, done: set<string>, current: string,
                      degree: map<string, int>, released: seq<string>)
    requires Mirrors(adjacency, deps) && current in deps && current !in done && Counted(degree, deps, done)
    requires Distinct(released) && forall id | id in adjacency[current] :: id in degree
    requires forall id :: id in released <==>
                          id in adjacency[current] && degree[id] == multiset(adjacency[current])[id]
    ensures SortStrings(released) == InOrder(Released(deps, done, current))
  {
    var expected := Listed(Released(deps, done, current));
    ChildrenKnown(deps, adjacency, current);
    ChildrenOpen(deps, adjacency, degree, done, current);
    forall id
      ensures id in released <==> id in expected
    {
      if id in deps {
        UnmetNone(deps[id], done + {current});
      }
    }
    DistinctSame(released, expected);
    SortStringsCanonical(released, expected);
  }

  lemma DistinctSame(a: seq<string>, b: seq<string>)
    requires Distinct(a) && Distinct(b) && forall id :: id in a <==> id in b
    ensures multiset(a) == multiset(b)
  {
    DistinctCounts(a);
    DistinctCounts(b);
    forall id
      ensures multiset(a)[id] == multiset(b)[id]
    {
      assert id in a <==> multiset(a)[id] > 0;
      assert id in b <==> multiset(b)[id] > 0;
    }
  }

  lemma InitiallyReady(nodes: seq<string>, deps: Dependencies, ready: seq<string>)
    requires Distinct(nodes) && forall id :: id in nodes <==> id in deps
    requires Distinct(ready) && forall id :: id in ready <==> id in nodes && deps[id] == []
    ensures SortStrings(ready) == InOrder(Independent(deps))
  {
    DistinctSame(ready, Listed(Independent(deps)));
    SortStringsCanonical(ready, Listed(Independent(deps)));
  }

  datatype Built = Sorted(order: seq<string>) | Circular(members: seq<string>)

  /**
   * References are resolved: every dependency is a task. A map is refused exactly if it has a cycle, with the tasks
   * that wait for one; otherwise every task comes once, after its dependencies.
   */
  method BuildDag(nodes: seq<string>, deps: Dependencies) returns (built: Built)
    requires Distinct(nodes) && forall id :: id in nodes <==> id in deps
    requires forall id, d | id in deps && d in deps[id] :: d in deps
    ensures built.Sorted? <==> Acyclic(deps)
    ensures built.Sorted? ==> built.order == Order(deps) && Scheduled(deps, built.order, |nodes|)
                              && forall id :: id in built.order <==> id in deps
    ensures built.Circular? ==> forall id :: id in built.members <==> id in deps && WaitsForCycle(deps, id)
  {
    var adjacency := Adjacencies(nodes, deps);
    var degree: map<string, int> := map id | id in deps :: |deps[id]|;
    InitialCounts(deps, degree);
    var ready := Roots(nodes, deps);
    var qi := 0;
    assert Members(ready[..0]) == {};
    while qi < |ready|
      invariant 0 <= qi <= |ready|
      invariant ready == Queue(deps, qi)
      invariant Counted(degree, deps, Members(ready[..qi]))
      decreases |deps| - qi
    {
      var current := ready[qi];
      NextTaken(deps, ready, qi);
      var more;
      degree, more := Release(deps, adjacency, degree, Members(ready[..qi]), current);
      QueueGrows(deps, ready, qi, more);
      ready := ready + more;
      qi := qi + 1;
    }
    Finished(nodes, deps, ready, qi);
    if |ready| == |nodes| {
      return Sorted(ready);
    }
    LeftOver(deps, degree, ready);
    built := Circular(KeepIn(nodes, (set id | id in nodes && id !in ready && degree[id] > 0)));
  }

  /** After the loop, exactly the tasks without a place have open dependencies: those that wait for a cycle. */
  lemma LeftOver(deps: Dependencies, degree: map<string, int>, ready: seq<string>)
    requires forall id, d | id in deps && d in deps[id] :: d in deps
    requires ready == Order(deps) && Counted(degree, deps, Members(ready[..|ready|]))
    ensures forall id | id in deps :: id !in ready <==> WaitsForCycle(deps, id)
    ensures forall id | id in deps && id !in ready :: degree[id] > 0
  {
    assert ready[..|ready|] == ready;
    QueueScheduled(deps, |deps|);
    OrderBound(deps, |deps|);
    forall id | id in deps
      ensures id !in ready <==> WaitsForCycle(deps, id)
      ensures id !in ready ==> degree[id] > 0
    {
      OrderLeavesOut(deps, id);
      UnmetNone(deps[id], Members(ready));
    }
  }

  method Roots(nodes: seq<string>, deps: Dependencies) returns (ready: seq<string>)
    requires Distinct(nodes) && forall id :: id in nodes <==> id in deps
    ensures ready == InOrder(Independent(deps))
  {
    ready := [];
    for i := 0 to |nodes|
      invariant Distinct(ready) && forall id :: id in ready <==> id in nodes[..i] && deps[id] == []
    {
      assert nodes[..i + 1] == nodes[..i] + [nodes[i]];
      if |deps[nodes[i]]| == 0 {
        ready := ready + [nodes[i]];
      }
    }
    assert nodes[..|nodes|] == nodes;
    InitiallyReady(nodes, deps, ready);
    ready := SortStrings(ready);
  }

  lemma NextTaken(deps: Dependencies, ready: seq<string>, n: nat)
    requires ready == Queue(deps, n) && n < |ready|
    ensures ready[n] in deps && ready[n] !in Members(ready[..n]) && n < |deps|
  {
    QueueScheduled(deps, n);
    OrderBound(deps, n);
    assert ready[n] in ready;
  }

  lemma QueueGrows(deps: Dependencies, ready: seq<string>, n: nat, more: seq<string>)
    requires ready == Queue(deps, n) && n < |ready|
    requires more == InOrder(Released(deps, Members(ready[..n]), ready[n]))
    ensures ready + more == Queue(deps, n + 1)
    ensures Members((ready + more)[..n + 1]) == Members(ready[..n]) + {ready[n]}
  {
    assert (ready + more)[..n + 1] == ready[..n] + [ready[n]];
  }

  /** The queue holds every task exactly if there is no cycle. */
  lemma Finished(nodes: seq<string>, deps: Dependencies, ready: seq<string>, n: nat)
    requires Distinct(nodes) && forall id :: id in nodes <==> id in deps
    requires forall id, d | id in deps && d in deps[id] :: d in deps
    requires ready == Queue(deps, n) && n == |ready|
    ensures ready == Order(deps) && Scheduled(deps, ready, |nodes|)
    ensures |ready| == |nodes| <==> Acyclic(deps)
    ensures |ready| == |nodes| ==> forall id :: id in ready <==> id in deps
  {
    DistinctSetSize(nodes);
    assert Members(nodes) == deps.Keys;
    OrderBound(deps, n);
    QueueEnds(deps, n, |deps|);
    OrderCompleteIffAcyclic(deps);
    QueueScheduled(deps, |deps|);
  }

  lemma InitialCounts(deps: Dependencies, degree: map<string, int>)
    requires degree.Keys == deps.Keys && forall id | id in deps :: degree[id] == |deps[id]|
    ensures Counted(degree, deps, {})
  {
    forall id | id in deps
      ensures Unmet(deps[id], {}) == |deps[id]|
    {
      UnmetNone(deps[id], {});
    }
  }
}
