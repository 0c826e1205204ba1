/** Planning over the weighted agent graph: which agents matter, and which may run side by side. */
module Scheduling {
  import opened Options

  datatype Weights = Weights(rows: seq<seq<real>>, threshold: real)

  /** A square matrix of edge weights with the threshold above which a weight is an edge. */
  type Graph = g: Weights | forall row | row in g.rows :: |row| == |g.rows| witness Weights([], 0.0)

  function Size(g: Graph): nat {
    |g.rows|
  }

  predicate Edge(g: Graph, i: int, j: int) {
    0 <= i < Size(g) && 0 <= j < Size(g) && g.rows[i][j] > g.threshold
  }

  function UpTo(n: nat): (s: set<nat>)
    ensures forall i :: i in s <==> 0 <= i < n
  {
    if n == 0 then {} else UpTo(n - 1) + {n - 1}
  }

  function Agents(g: Graph): set<nat> {
    UpTo(Size(g))
  }

  predicate Distinct(ids: seq<string>) {
    forall i, j | 0 <= i < j < |ids| :: ids[i] != ids[j]
  }

  /** The names of the chosen agents, in the order of `ids`. */
  function Pick(ids: seq<string>, chosen: set<nat>): seq<string> {
    if ids == [] then []
    else Pick(ids[..|ids| - 1], chosen) + (if |ids| - 1 in chosen then [ids[|ids| - 1]] else [])
  }

  // ---------------------------------------------------------------- walks

  predicate IsWalk(g: Graph, p: seq<nat>) {
    && p != []
    && (forall k | 0 <= k < |p| :: p[k] < Size(g))
    && (forall k | 0 < k < |p| :: Edge(g, p[k - 1], p[k]))
  }

  predicate Joins(g: Graph, p: seq<nat>, i: nat, j: nat) {
    IsWalk(g, p) && p[0] == i && p[|p| - 1] == j
  }

  ghost predicate Reaches(g: Graph, i: nat, j: nat) {
    exists p :: Joins(g, p, i, j)
  }

  /** Some walk from `s` to `e` visits `v`. */
  ghost predicate OnRoute(g: Graph, s: nat, e: nat, v: nat) {
    exists p :: Joins(g, p, s, e) && v in p
  }

  lemma OnRouteIff(g: Graph, s: nat, e: nat, v: nat)
    ensures OnRoute(g, s, e, v) <==> Reaches(g, s, v) && Reaches(g, v, e)
  {
    if OnRoute(g, s, e, v) {
      var p :| Joins(g, p, s, e) && v in p;
      var k :| 0 <= k < |p| && p[k] == v;
      assert Joins(g, p[..k + 1], s, v);
      assert Joins(g, p[k..], v, e);
    }
    if Reaches(g, s, v) && Reaches(g, v, e) {
      var p :| Joins(g, p, s, v);
      var q :| Joins(g, q, v, e);
      var r := p[..|p| - 1] + q;
      assert Joins(g, r, s, e) && r[|p| - 1] == v;
    }
  }

  lemma ReachesStep(g: Graph, s: nat, i: nat, j: nat)
    requires Reaches(g, s, i) && Edge(g, i, j)
    ensures Reaches(g, s, j)
  {
    var p :| Joins(g, p, s, i);
    assert Joins(g, p + [j], s, j);
  }

  ghost predicate Closed(g: Graph, found: set<nat>) {
    forall i, j | i in found && Edge(g, i, j) :: j in found
  }

  lemma {:induction false} ClosedHoldsWalk(g: Graph, found: set<nat>, p: seq<nat>)
    requires Closed(g, found) && IsWalk(g, p) && p[0] in found
    ensures p[|p| - 1] in found
    decreases |p|
  {
    if |p| > 1 {
      var init := p[..|p| - 1];
      ClosedHoldsWalk(g, found, init);
      assert Edge(g, init[|init| - 1], p[|p| - 1]);
    }
  }

  // ---------------------------------------------------------------- breadth-first search

  /** Takes in the successors of `current` that are new, and queues them. */
  method Expand(g: Graph, current: nat, found: set<nat>, queue: seq<nat>) returns (found': set<nat>, queue': seq<nat>)
    requires found <= Agents(g)
    ensures found <= found' <= Agents(g)
    ensures forall j :: j in found' <==> j in found || Edge(g, current, j)
    ensures forall v :: v in queue' <==> v in queue || v in found' - found
    ensures found' == found ==> queue' == queue
  {
    found', queue' := found, queue;
    for j := 0 to Size(g)
      invariant found <= found' <= Agents(g)
      invariant forall v :: v in found' <==> v in found || (v < j && Edge(g, current, v))
      invariant forall v :: v in queue' <==> v in queue || v in found' - found
      invariant found' == found ==> queue' == queue
    {
      if j !in found' && Edge(g, current, j) {
        found' := found' + {j};
        queue' := queue' + [j];
      }
    }
  }

  /** The agents found are exactly those that a walk from `src` reaches. */
  method Explore(g: Graph, src: nat) returns (found: set<nat>)
    requires src < Size(g)
    ensures found <= Agents(g)
    ensures forall v :: v in found <==> Reaches(g, src, v)
  {
    found := {src};
    var queue := [src];
    assert Joins(g, [src], src, src);
    while queue != []
      invariant src in found && found <= Agents(g)
      invariant forall v | v in found :: Reaches(g, src, v)
      invariant forall v | v in queue :: v in found
      invariant forall v, j | v in found && v !in queue && Edge(g, v, j) :: j in found
      decreases Agents(g) - found, |queue|
    {
      var current := queue[0];
      ghost var before, waiting := found, queue;
      assert waiting == [current] + waiting[1..];
      found, queue := Expand(g, current, found, queue[1..]);
      forall v | v in found
        ensures Reaches(g, src, v)
      {
        if v !in before {
          ReachesStep(g, src, current, v);
        }
      }
    }
    assert Closed(g, found);
    forall v
      ensures v in found <==> Reaches(g, src, v)
    {
      if Reaches(g, src, v) {
        var p :| Joins(g, p, src, v);
        ClosedHoldsWalk(g, found, p);
      }
    }
  }

  // ---------------------------------------------------------------- the agents that matter

  /** The position of a name, if it is there. */
  function IndexOf(ids: seq<string>, name: string): (i: Option<nat>)
    ensures i.Some? ==> i.value < |ids| && ids[i.value] == name
    ensures i == None ==> name !in ids
  {
    if ids == [] then None
    else if ids[0] == name then Some(0)
    else match IndexOf(ids[1..], name)
      case None => None
      case Some(i) => Some(i + 1)
  }

  predicate IsSource(g: Graph, j: nat) {
    forall i | 0 <= i < Size(g) :: !Edge(g, i, j)
  }

  predicate IsSink(g: Graph, i: nat) {
    forall j | 0 <= j < Size(g) :: !Edge(g, i, j)
  }

  /** The first agent without incoming edges, else the first. */
  function DefaultStart(g: Graph, from: nat): (i: nat)
    requires from <= Size(g) && Size(g) > 0
    ensures i < Size(g)
    ensures IsSource(g, i) ==> forall j | from <= j < i :: !IsSource(g, j)
    ensures !IsSource(g, i) ==> forall j | from <= j < Size(g) :: !IsSource(g, j)
    decreases Size(g) - from
  {
    if from == Size(g) then 0 else if IsSource(g, from) then from else DefaultStart(g, from + 1)
  }

  /** The last agent below `to` without outgoing edges, else the last of all. */
  function DefaultEnd(g: Graph, to: nat): (i: nat)
    requires to <= Size(g) && Size(g) > 0
    ensures i < Size(g)
    ensures IsSink(g, i) ==> forall j | i < j < to :: !IsSink(g, j)
    ensures !IsSink(g, i) ==> forall j | 0 <= j < to :: !IsSink(g, j)
  {
    if to == 0 then Size(g) - 1 else if IsSink(g, to - 1) then to - 1 else DefaultEnd(g, to - 1)
  }

  /** Where the routes start and end; a name that is not there gives none. */
  function Endpoint(ids: seq<string>, name: Option<string>, default: nat): Option<nat> {
    match name
    case None => Some(default)
    case Some(id) => IndexOf(ids, id)
  }

  ghost function Relevant(g: Graph, start: Option<nat>, end: Option<nat>): set<nat> {
    if start == None || end == None then {}
    else set v | v in Agents(g) && OnRoute(g, start.value, end.value, v)
  }

  function Reversed(g: Graph): (r: Graph)
    ensures Size(r) == Size(g)
    ensures forall i, j :: Edge(r, i, j) <==> Edge(g, j, i)
  {
    Weights(seq(Size(g), i requires 0 <= i < Size(g) => seq(Size(g), j requires 0 <= j < Size(g) => g.rows[j][i])),
            g.threshold)
  }

  function Back(p: seq<nat>): (r: seq<nat>)
    ensures |r| == |p| && forall k | 0 <= k < |p| :: r[k] == p[|p| - 1 - k]
  {
    if p == [] then [] else Back(p[1..]) + [p[0]]
  }

  lemma BackJoins(g: Graph, h: Graph, p: seq<nat>, i: nat, j: nat)
    requires Size(h) == Size(g) && forall a, b :: Edge(g, a, b) <==> Edge(h, b, a)
    requires Joins(g, p, i, j)
    ensures Joins(h, Back(p), j, i)
  {
    var r := Back(p);
    forall k | 0 < k < |r|
      ensures Edge(h, r[k - 1], r[k])
    {
      assert Edge(g, p[|p| - 1 - k], p[|p| - k]);
    }
  }

  lemma ReversedReaches(g: Graph, i: nat, j: nat)
    ensures Reaches(Reversed(g), i, j) <==> Reaches(g, j, i)
  {
    var h := Reversed(g);
    if Reaches(h, i, j) {
      var p :| Joins(h, p, i, j);
      BackJoins(h, g, p, i, j);
    }
    if Reaches(g, j, i) {
      var p :| Joins(g, p, j, i);
      BackJoins(g, h, p, j, i);
    }
  }

  method ExploreFrom(g: Graph, src: Option<nat>) returns (found: set<nat>)
    requires src.Some? ==> src.value < Size(g)
    ensures found <= Agents(g)
    ensures forall v :: v in found <==> src.Some? && Reaches(g, src.value, v)
  {
    found := {};
    if src.Some? {
      found := Explore(g, src.value);
    }
  }

  /** The relevant agents are exactly those on some walk from the start to the end; the others are excluded. */
  method FilterReachableAgents(g: Graph, ids: seq<string>, startAgent: Option<string>, endAgent: Option<string>)
    returns (relevant: seq<string>, excluded: seq<string>)
    requires |ids| == Size(g) && Distinct(ids)
    ensures ids == [] ==> relevant == [] && excluded == []
    ensures ids != [] ==>
      var chosen := Relevant(g, Endpoint(ids, startAgent, DefaultStart(g, 0)), Endpoint(ids, endAgent, DefaultEnd(g, Size(g))));
      relevant == Pick(ids, chosen) && excluded == Pick(ids, Agents(g) - chosen)
  {
    if ids == [] {
      return [], [];
    }
    var start := Endpoint(ids, startAgent, DefaultStart(g, 0));
    var end := Endpoint(ids, endAgent, DefaultEnd(g, Size(g)));
    var reachable := ExploreFrom(g, start);
    var reaching := ExploreFrom(Reversed(g), end);
    var chosen := reachable * reaching;
    forall v
      ensures v in chosen <==> v in Relevant(g, start, end)
    {
      if start.Some? && end.Some? {
        ReversedReaches(g, end.value, v);
        OnRouteIff(g, start.value, end.value, v);
      }
    }
    assert chosen == Relevant(g, start, end);
    relevant := Pick(ids, chosen);
    excluded := Pick(ids, Agents(g) - chosen);
  }

  /** Nothing is lost: every relevant agent lies on a walk that stays among the relevant agents. */
  lemma RoutesStayInside(g: Graph, s: nat, e: nat, v: nat)
    requires v in Relevant(g, Some(s), Some(e))
    ensures exists p :: Joins(g, p, s, e) && v in p && forall u | u in p :: u in Relevant(g, Some(s), Some(e))
  {
    var p :| Joins(g, p, s, e) && v in p;
    forall u | u in p
      ensures u in Relevant(g, Some(s), Some(e))
    {
      assert OnRoute(g, s, e, u);
    }
  }

  // ---------------------------------------------------------------- parallel groups

  /** Not yet executed, but everything before it is. */
  predicate IsReady(g: Graph, done: set<nat>, i: nat) {
    i < Size(g) && i !in done && forall j | 0 <= j < Size(g) && Edge(g, j, i) :: j in done
  }

  function ReadySet(g: Graph, done: set<nat>): set<nat> {
    set i | i in Agents(g) && IsReady(g, done, i)
  }

  /** The first agent from `from` upwards that is not executed. */
  function FirstOpen(g: Graph, done: set<nat>, from: nat): (i: nat)
    requires from <= Size(g) && exists k :: from <= k < Size(g) && k !in done
    ensures from <= i < Size(g) && i !in done
    decreases Size(g) - from
  {
    if from !in done then from else FirstOpen(g, done, from + 1)
  }

  /** The next group: the ready agents, or the first open one when a cycle leaves none ready. */
  function Layer(g: Graph, done: set<nat>): (layer: set<nat>)
    requires !(Agents(g) <= done)
    ensures layer != {} && layer <= Agents(g) && layer !! done
  {
    var ready := ReadySet(g, done);
    if ready != {} then ready else {FirstOpen(g, done, 0)}
  }

  /** The open predecessors of an agent. */
  function OpenBefore(g: Graph, done: set<nat>, j: nat): set<nat> {
    set i | i in Agents(g) && i !in done && Edge(g, i, j)
  }

  lemma OneLessOpen(g: Graph, done: set<nat>, i: nat, j: nat)
    requires i < Size(g) && i !in done
    ensures |OpenBefore(g, done + {i}, j)| == |OpenBefore(g, done, j)| - (if Edge(g, i, j) then 1 else 0)
  {
    if Edge(g, i, j) {
      assert OpenBefore(g, done, j) == OpenBefore(g, done + {i}, j) + {i};
    } else {
      assert OpenBefore(g, done, j) == OpenBefore(g, done + {i}, j);
    }
  }

  /** One more agent executed: its successors wait for one agent less. */
  method Release(g: Graph, remaining: array<int>, done: set<nat>, i: nat)
    requires remaining.Length == Size(g) && i < Size(g) && i !in done
    requires forall j | 0 <= j < Size(g) :: remaining[j] == |OpenBefore(g, done, j)|
    modifies remaining
    ensures forall j | 0 <= j < Size(g) :: remaining[j] == |OpenBefore(g, done + {i}, j)|
  {
    for j := 0 to Size(g)
      invariant forall k | 0 <= k < j :: remaining[k] == |OpenBefore(g, done + {i}, k)|
      invariant forall k | j <= k < Size(g) :: remaining[k] == |OpenBefore(g, done, k)|
    {
      OneLessOpen(g, done, i, j);
      if Edge(g, i, j) {
        remaining[j] := if remaining[j] - 1 > 0 then remaining[j] - 1 else 0;
      }
    }
  }

  /** The members of a set below `n`, in rising order. */
  function Ascending(n: nat, chosen: set<nat>): (r: seq<nat>)
    ensures forall i :: i in r <==> i < n && i in chosen
    ensures forall a | 0 <= a < |r| :: r[a] < n
    ensures forall a, b | 0 <= a < b < |r| :: r[a] < r[b]
  {
    if n == 0 then [] else Ascending(n - 1, chosen) + (if n - 1 in chosen then [n - 1] else [])
  }

  lemma AscendingOne(n: nat, i: nat)
    requires i < n
    ensures Ascending(n, {i}) == [i]
  {
    var r := Ascending(n, {i});
    assert i in r;
    assert r[0] in r && r[|r| - 1] in r;
  }

  lemma ReadyIffNoneOpen(g: Graph, done: set<nat>, i: nat)
    requires i < Size(g)
    ensures IsReady(g, done, i) <==> i !in done && |OpenBefore(g, done, i)| == 0
  {
    var open := OpenBefore(g, done, i);
    assert |open| == 0 <==> open == {};
    if open == {} {
      forall j | 0 <= j < Size(g) && Edge(g, j, i)
        ensures j in done
      {
        assert j !in open;
      }
    }
  }

  method CollectReady(g: Graph, remaining: array<int>, done: set<nat>) returns (group: seq<nat>)
    requires remaining.Length == Size(g)
    requires forall j | 0 <= j < Size(g) :: remaining[j] == |OpenBefore(g, done, j)|
    ensures group == Ascending(Size(g), ReadySet(g, done))
  {
    group := [];
    for i := 0 to Size(g)
      invariant group == Ascending(i, ReadySet(g, done))
    {
      ReadyIffNoneOpen(g, done, i);
      if i !in done && remaining[i] == 0 {
        group := group + [i];
      }
    }
  }

  /** The positions of the ready agents, or the first open one. */
  method NextGroup(g: Graph, remaining: array<int>, done: set<nat>) returns (group: seq<nat>)
    requires remaining.Length == Size(g) && !(Agents(g) <= done)
    requires forall j | 0 <= j < Size(g) :: remaining[j] == |OpenBefore(g, done, j)|
    ensures group == Ascending(Size(g), Layer(g, done))
  {
    group := CollectReady(g, remaining, done);
    if group == [] {
      assert ReadySet(g, done) == {} by { assert forall i | i in ReadySet(g, done) :: i in group; }
      var i := FirstOpen(g, done, 0);
      AscendingOne(Size(g), i);
      group := [i];
    } else {
      assert group[0] in ReadySet(g, done);
    }
  }

  function Members(group: seq<nat>): (r: set<nat>)
    ensures forall v :: v in r <==> v in group
  {
    set v | v in group
  }

  /** The agents in any of the groups. */
  function Taken(groups: seq<seq<nat>>): (r: set<nat>)
    ensures forall v :: v in r <==> exists k :: 0 <= k < |groups| && v in groups[k]
  {
    if groups == [] then {}
    else Taken(groups[..|groups| - 1]) + Members(groups[|groups| - 1])
  }

  method ReleaseAll(g: Graph, remaining: array<int>, done: set<nat>, group: seq<nat>) returns (done': set<nat>)
    requires remaining.Length == Size(g)
    requires forall a, b | 0 <= a < b < |group| :: group[a] < group[b]
    requires forall i | i in group :: i < Size(g) && i !in done
    requires forall j | 0 <= j < Size(g) :: remaining[j] == |OpenBefore(g, done, j)|
    modifies remaining
    ensures done' == done + Members(group)
    ensures forall j | 0 <= j < Size(g) :: remaining[j] == |OpenBefore(g, done', j)|
  {
    done' := done;
    for k := 0 to |group|
      invariant done' == done + Members(group[..k])
      invariant forall j | 0 <= j < Size(g) :: remaining[j] == |OpenBefore(g, done', j)|
    {
      assert group[k] in group;
      assert group[..k + 1] == group[..k] + [group[k]];
      Release(g, remaining, done', group[k]);
      done' := done' + {group[k]};
    }
    assert group[..|group|] == group;
  }

  /** Group `k` is the next group after the agents of the groups before it. */
  ghost predicate NextAt(g: Graph, groups: seq<seq<nat>>, k: nat)
    requires k < |groups|
  {
    var done := Taken(groups[..k]);
    !(Agents(g) <= done) && groups[k] == Ascending(Size(g), Layer(g, done))
  }

  ghost predicate Greedy(g: Graph, groups: seq<seq<nat>>) {
    forall k | 0 <= k < |groups| :: NextAt(g, groups, k)
  }

  lemma GreedySnoc(g: Graph, groups: seq<seq<nat>>)
    requires Greedy(g, groups) && !(Agents(g) <= Taken(groups))
    ensures Greedy(g, groups + [Ascending(Size(g), Layer(g, Taken(groups)))])
  {
    var all := groups + [Ascending(Size(g), Layer(g, Taken(groups)))];
    forall k | 0 <= k < |all|
      ensures NextAt(g, all, k)
    {
      if k < |groups| {
        assert all[..k] == groups[..k];
        assert NextAt(g, groups, k);
      } else {
        assert all[..k] == groups;
      }
    }
  }

  /** The agents, by position, in groups to be executed one after the other. */
  method ParallelGroups(g: Graph) returns (groups: seq<seq<nat>>)
    ensures Greedy(g, groups) && Agents(g) <= Taken(groups)
  {
    groups := [];
    var done: set<nat> := {};
    var remaining := new int[Size(g)](j => |OpenBefore(g, {}, j)|);
    while !(Agents(g) <= done)
      invariant Greedy(g, groups) && done == Taken(groups)
      invariant forall j | 0 <= j < Size(g) :: remaining[j] == |OpenBefore(g, done, j)|
      decreases Agents(g) - done
    {
      var group := NextGroup(g, remaining, done);
      GreedySnoc(g, groups);
      GroupOpen(g, done);
      assert (groups + [group])[..|groups|] == groups;
      groups := groups + [group];
      done := ReleaseAll(g, remaining, done, group);
    }
  }

  /** A group has an agent, and only open ones. */
  lemma GroupOpen(g: Graph, done: set<nat>)
    requires !(Agents(g) <= done)
    ensures var group := Ascending(Size(g), Layer(g, done));
      group != [] && group[0] in Agents(g) - done && forall v | v in group :: v < Size(g) && v !in done
  {
    var layer := Layer(g, done);
    var v :| v in layer;
    assert v in Ascending(Size(g), layer);
    assert Ascending(Size(g), layer)[0] in layer;
  }

  // ---------------------------------------------------------------- what the groups mean

  /** Cycles or not, every agent is in exactly one group, once, and no group is empty. */
  lemma EachAgentOnce(g: Graph, groups: seq<seq<nat>>)
    requires Greedy(g, groups) && Agents(g) <= Taken(groups)
    ensures Taken(groups) == Agents(g)
    ensures forall k | 0 <= k < |groups| :: groups[k] != []
    ensures forall k, a, b | 0 <= k < |groups| && 0 <= a < b < |groups[k]| :: groups[k][a] != groups[k][b]
    ensures forall k, l, v | 0 <= k < l < |groups| && v in groups[k] :: v !in groups[l]
  {
    forall l | 0 <= l < |groups|
      ensures groups[l] != []
      ensures forall v | v in groups[l] :: v in Agents(g) && v !in Taken(groups[..l])
    {
      assert NextAt(g, groups, l);
      GroupOpen(g, Taken(groups[..l]));
    }
    forall k, a, b | 0 <= k < |groups| && 0 <= a < b < |groups[k]|
      ensures groups[k][a] != groups[k][b]
    {
      assert NextAt(g, groups, k);
    }
    forall k, l, v | 0 <= k < l < |groups| && v in groups[k]
      ensures v !in groups[l]
    {
      assert groups[..l][k] == groups[k];
    }
  }

  /** An agent joins a group before all its predecessors are done only alone, and only if no open agent was ready. */
  lemma ForcedOnlyWhenStuck(g: Graph, groups: seq<seq<nat>>, k: nat, v: nat)
    requires Greedy(g, groups) && k < |groups| && v in groups[k]
    ensures var done := Taken(groups[..k]);
      IsReady(g, done, v) || ((forall u | u in groups[k] :: u == v) && forall u | u in Agents(g) :: !IsReady(g, done, u))
  {
    assert NextAt(g, groups, k);
    var done := Taken(groups[..k]);
    assert forall u | u in Agents(g) && IsReady(g, done, u) :: u in ReadySet(g, done);
  }

  /** A numbering that rises along every edge. */
  ghost predicate IsLayering(g: Graph, rank: seq<nat>) {
    |rank| == Size(g) && forall i, j | Edge(g, i, j) :: rank[i] < rank[j]
  }

  lemma {:induction false} SomeReady(g: Graph, rank: seq<nat>, done: set<nat>, v: nat)
    requires IsLayering(g, rank) && v in Agents(g) && v !in done
    ensures ReadySet(g, done) != {}
    decreases rank[v]
  {
    if IsReady(g, done, v) {
      assert v in ReadySet(g, done);
    } else {
      var j :| 0 <= j < Size(g) && Edge(g, j, v) && j !in done;
      SomeReady(g, rank, done, j);
    }
  }

  /** Without a cycle a group holds all ready agents and no others. */
  lemma AllReady(g: Graph, rank: seq<nat>, groups: seq<seq<nat>>, k: nat, v: nat)
    requires IsLayering(g, rank) && Greedy(g, groups) && k < |groups|
    ensures v in groups[k] <==> IsReady(g, Taken(groups[..k]), v)
  {
    assert NextAt(g, groups, k);
    var done := Taken(groups[..k]);
    var u :| u in Agents(g) && u !in done;
    SomeReady(g, rank, done, u);
    assert IsReady(g, done, v) <==> v in ReadySet(g, done);
  }

  /** Everything numbered below `k` is done before group `k`. */
  lemma {:induction false} LowDone(g: Graph, rank: seq<nat>, groups: seq<seq<nat>>, k: nat, v: nat)
    requires IsLayering(g, rank) && Greedy(g, groups) && k <= |groups|
    requires v < Size(g) && rank[v] < k
    ensures v in Taken(groups[..k])
    decreases k
  {
    var done := Taken(groups[..k - 1]);
    assert groups[..k][..k - 1] == groups[..k - 1];
    if v !in done {
      forall j | 0 <= j < Size(g) && Edge(g, j, v)
        ensures j in done
      {
        LowDone(g, rank, groups, k - 1, j);
      }
      AllReady(g, rank, groups, k - 1, v);
    }
  }

  /**
   * The groups are the least layering: no numbering that rises along every edge gives any agent a
   * number below its group.
   */
  lemma LeastLayering(g: Graph, rank: seq<nat>, groups: seq<seq<nat>>, k: nat, v: nat)
    requires IsLayering(g, rank) && Greedy(g, groups) && k < |groups| && v in groups[k]
    ensures v < Size(g) && k <= rank[v]
  {
    AllReady(g, rank, groups, k, v);
    if rank[v] < k {
      LowDone(g, rank, groups, k, v);
    }
  }

  /** No other order of the edges makes do with fewer groups. */
  lemma FewestGroups(g: Graph, rank: seq<nat>, groups: seq<seq<nat>>, m: nat)
    requires IsLayering(g, rank) && Greedy(g, groups)
    requires forall v | 0 <= v < Size(g) :: rank[v] < m
    ensures |groups| <= m
  {
    if groups != [] {
      var k := |groups| - 1;
      assert NextAt(g, groups, k);
      GroupOpen(g, Taken(groups[..k]));
      LeastLayering(g, rank, groups, k, groups[k][0]);
    }
  }

  /** Every edge leads from an earlier group to a later one. */
  ghost predicate EdgesRise(g: Graph, groups: seq<seq<nat>>) {
    forall i, j, l | Edge(g, i, j) && 0 <= l < |groups| && j in groups[l] :: i in Taken(groups[..l])
  }

  function LevelOf(groups: seq<seq<nat>>, v: nat): (k: nat)
    requires v in Taken(groups)
    ensures k < |groups| && v in groups[k] && v !in Taken(groups[..k])
  {
    var n := |groups| - 1;
    if v in Taken(groups[..n]) then
      var k := LevelOf(groups[..n], v);
      assert groups[..n][..k] == groups[..k];
      k
    else n
  }

  lemma TakenRises(groups: seq<seq<nat>>, k: nat, l: nat)
    requires k <= l <= |groups|
    ensures Taken(groups[..k]) <= Taken(groups[..l])
  {
    forall v | v in Taken(groups[..k])
      ensures v in Taken(groups[..l])
    {
      var m := LevelOf(groups[..k], v);
      assert groups[..l][m] == groups[..k][m];
    }
  }

  lemma LevelRises(g: Graph, groups: seq<seq<nat>>, i: nat, j: nat)
    requires EdgesRise(g, groups) && Agents(g) <= Taken(groups) && Edge(g, i, j)
    ensures LevelOf(groups, i) < LevelOf(groups, j)
  {
    var k, l := LevelOf(groups, i), LevelOf(groups, j);
    if l <= k {
      TakenRises(groups, l, k);
    }
  }

  /** The groups order every edge if and only if some numbering does. */
  lemma OrderedIffLayering(g: Graph, groups: seq<seq<nat>>)
    requires Greedy(g, groups) && Agents(g) <= Taken(groups)
    ensures EdgesRise(g, groups) <==> exists rank :: IsLayering(g, rank)
  {
    if rank :| IsLayering(g, rank) {
      forall i, j, l | Edge(g, i, j) && 0 <= l < |groups| && j in groups[l]
        ensures i in Taken(groups[..l])
      {
        AllReady(g, rank, groups, l, j);
      }
    }
    if EdgesRise(g, groups) {
      var rank := seq(Size(g), v requires 0 <= v < Size(g) => LevelOf(groups, v));
      forall i, j | Edge(g, i, j)
        ensures rank[i] < rank[j]
      {
        LevelRises(g, groups, i, j);
      }
      assert IsLayering(g, rank);
    }
  }

  // ---------------------------------------------------------------- cycles

  predicate IsCycle(g: Graph, p: seq<nat>) {
    IsWalk(g, p) && |p| > 1 && p[0] == p[|p| - 1]
  }

  lemma {:induction false} WalkRises(g: Graph, rank: seq<nat>, p: seq<nat>)
    requires IsLayering(g, rank) && IsWalk(g, p)
    ensures |p| > 1 ==> rank[p[0]] < rank[p[|p| - 1]]
    decreases |p|
  {
    if |p| > 1 {
      var init := p[..|p| - 1];
      WalkRises(g, rank, init);
      assert Edge(g, p[|p| - 2], p[|p| - 1]);
    }
  }

  lemma {:induction false} UpToSize(n: nat)
    ensures |UpTo(n)| == n
  {
    if n > 0 {
      UpToSize(n - 1);
    }
  }

  lemma {:induction false} SubsetSize<A>(a: set<A>, b: set<A>)
    requires a <= b
    ensures |a| <= |b|
    decreases a
  {
    if a != {} {
      var x :| x in a;
      SubsetSize(a - {x}, b - {x});
    }
  }

  lemma {:induction false} DistinctSize(p: seq<nat>)
    requires forall a, b | 0 <= a < b < |p| :: p[a] != p[b]
    ensures |Members(p)| == |p|
  {
    if p != [] {
      var n := |p| - 1;
      DistinctSize(p[..n]);
      assert Members(p) == Members(p[..n]) + {p[n]} by { assert p == p[..n] + [p[n]]; }
    }
  }

  /** More positions than agents: one agent comes twice. */
  lemma Pigeonhole(p: seq<nat>, n: nat) returns (a: nat, b: nat)
    requires |p| > n && forall k | 0 <= k < |p| :: p[k] < n
    ensures a < b < |p| && p[a] == p[b]
  {
    if forall a, b | 0 <= a < b < |p| :: p[a] != p[b] {
      DistinctSize(p);
      SubsetSize(Members(p), UpTo(n));
      UpToSize(n);
      assert false;
    }
    a, b :| 0 <= a < b < |p| && p[a] == p[b];
  }

  /** When no open agent is ready, walks of any length lead backward through open agents. */
  lemma {:induction false} BackWalk(g: Graph, done: set<nat>, v: nat, length: nat) returns (p: seq<nat>)
    requires v in Agents(g) && v !in done
    requires forall u | u in Agents(g) :: !IsReady(g, done, u)
    ensures IsWalk(g, p) && |p| == length + 1 && p[0] !in done
    decreases length
  {
    if length == 0 {
      p := [v];
    } else {
      var q := BackWalk(g, done, v, length - 1);
      assert q[0] in Agents(g);
      var j :| 0 <= j < Size(g) && Edge(g, j, q[0]) && j !in done;
      p := [j] + q;
    }
  }

  lemma StuckHasCycle(g: Graph, done: set<nat>, v: nat)
    requires v in Agents(g) && v !in done
    requires forall u | u in Agents(g) :: !IsReady(g, done, u)
    ensures exists p :: IsCycle(g, p)
  {
    var p := BackWalk(g, done, v, Size(g));
    var a, b := Pigeonhole(p, Size(g));
    ReturnIsCycle(g, p, a, b);
  }

  lemma ReturnIsCycle(g: Graph, p: seq<nat>, a: nat, b: nat)
    requires IsWalk(g, p) && a < b < |p| && p[a] == p[b]
    ensures IsCycle(g, p[a..b + 1])
  {
    var q := p[a..b + 1];
    forall k | 0 < k < |q|
      ensures Edge(g, q[k - 1], q[k])
    {
      assert Edge(g, p[a + k - 1], p[a + k]);
    }
  }

  /** The groups order every edge if and only if the graph has no cycle. */
  lemma OrderedIffAcyclic(g: Graph, groups: seq<seq<nat>>)
    requires Greedy(g, groups) && Agents(g) <= Taken(groups)
    ensures EdgesRise(g, groups) <==> forall p :: !IsCycle(g, p)
  {
    OrderedIffLayering(g, groups);
    if rank :| IsLayering(g, rank) {
      forall p
        ensures !IsCycle(g, p)
      {
        if IsCycle(g, p) {
          WalkRises(g, rank, p);
        }
      }
    }
    if !EdgesRise(g, groups) {
      var i, j, l :| Edge(g, i, j) && 0 <= l < |groups| && j in groups[l] && i !in Taken(groups[..l]);
      ForcedOnlyWhenStuck(g, groups, l, j);
      StuckHasCycle(g, Taken(groups[..l]), i);
    }
  }

  // ---------------------------------------------------------------- groups of names

  predicate Within(group: seq<nat>, n: nat) {
    forall k | 0 <= k < |group| :: group[k] < n
  }

  predicate AllWithin(groups: seq<seq<nat>>, n: nat) {
    forall k | 0 <= k < |groups| :: Within(groups[k], n)
  }

  function Named(ids: seq<string>, group: seq<nat>): (r: seq<string>)
    requires Within(group, |ids|)
    ensures |r| == |group| && forall k | 0 <= k < |r| :: r[k] == ids[group[k]]
  {
    if group == [] then [] else Named(ids, group[..|group| - 1]) + [ids[group[|group| - 1]]]
  }

  function NamedAll(ids: seq<string>, groups: seq<seq<nat>>): (r: seq<seq<string>>)
    requires AllWithin(groups, |ids|)
    ensures |r| == |groups| && forall k | 0 <= k < |r| :: r[k] == Named(ids, groups[k])
  {
    if groups == [] then []
    else NamedAll(ids, groups[..|groups| - 1]) + [Named(ids, groups[|groups| - 1])]
  }

  /** The groups as the names of their agents. */
  method GetParallelGroups(g: Graph, ids: seq<string>) returns (names: seq<seq<string>>)
    requires |ids| == Size(g) && Distinct(ids)
    ensures exists groups :: (
      && Greedy(g, groups) && Taken(groups) == Agents(g)
      && AllWithin(groups, |ids|) && names == NamedAll(ids, groups))
  {
    var groups := ParallelGroups(g);
    EachAgentOnce(g, groups);
    forall k | 0 <= k < |groups|
      ensures Within(groups[k], |ids|)
    {
      assert forall i | 0 <= i < |groups[k]| :: groups[k][i] in groups[k] && groups[k][i] in Taken(groups);
    }
    names := NamedAll(ids, groups);
  }
}
