/**
  The bounded breadth-first walk behind `TraceDecision`, and what it computes:
  hops and visited nodes are exactly those of the distance layers of the graph.
 */
module DecisionTrace {
  import opened Prelude

  type Id = string

  /** The columns of a node row that a trace reports besides its key. */
  datatype NodeRow = NodeRow(namespace: string, memoryType: string, subject: string, body: string,
                             lifecycleState: string, sourceUri: string, sourceHash: string,
                             originPeerId: string, authoredAtMS: int)

  datatype TracedNode = TracedNode(memoryId: Id, row: NodeRow)

  datatype Edge = Edge(edgeId: Id, from: Id, to: Id, relation: string, authoredAtMS: int)

  datatype Hop = Hop(relation: string, depth: nat, memory: TracedNode)

  /**
    One memory space. `edges` holds the rows of the edge table in the order the
    tracer's query returns them, (authored_at_ms, edge_id). `suspended` holds the ids
    with an unresolved suspension; the private space is traced without any.
   */
  datatype Graph = Graph(nodes: map<Id, NodeRow>, edges: seq<Edge>, suspended: set<Id>)

  predicate IsContradictionRelation(relation: string) {
    TrimSpace(relation) in {"contradicts", "contradiction", "denies"}
  }

  // ---------------------------------------------------------------- specification

  predicate Live(g: Graph, e: Edge) {
    e.edgeId !in g.suspended
  }

  /** A live edge whose target exists: the edges a walk can follow. */
  predicate Walkable(g: Graph, e: Edge) {
    Live(g, e) && e.to in g.nodes
  }

  /** `p` is a walk from `source` to `target` along walkable edges of the table. */
  ghost predicate IsPath(g: Graph, source: Id, target: Id, p: seq<Edge>)
    decreases |p|
  {
    if |p| == 0 then source == target
    else
      var last := p[|p| - 1];
      last in g.edges && Walkable(g, last) && last.to == target && IsPath(g, source, last.from, p[..|p| - 1])
  }

  function Targets(g: Graph, sources: set<Id>): set<Id> {
    set e | e in g.edges && Walkable(g, e) && e.from in sources :: e.to
  }

  /** Everything within `k` hops of `root`. */
  function Reach(g: Graph, root: Id, k: nat): set<Id> {
    if k == 0 then {root} else Reach(g, root, k - 1) + Targets(g, Reach(g, root, k - 1))
  }

  /** The nodes at distance exactly `k`. */
  function Ring(g: Graph, root: Id, k: nat): set<Id> {
    if k == 0 then {root} else Reach(g, root, k) - Reach(g, root, k - 1)
  }

  /** An edge together with the depth at which the walk reports it. */
  datatype Step = Step(edge: Edge, depth: nat)

  function Layer(g: Graph, ring: set<Id>, depth: nat, edges: seq<Edge>): seq<Step> {
    if |edges| == 0 then []
    else
      var e := edges[|edges| - 1];
      Layer(g, ring, depth, edges[..|edges| - 1]) +
      (if Walkable(g, e) && e.from in ring then [Step(e, depth)] else [])
  }

  /** The steps of a walk of depth `depth`, layer by layer. */
  function Trace(g: Graph, root: Id, depth: nat): seq<Step> {
    if depth == 0 then []
    else Trace(g, root, depth - 1) + Layer(g, Ring(g, root, depth - 1), depth, g.edges)
  }

  predicate WalkableSteps(g: Graph, steps: seq<Step>) {
    forall s <- steps :: s.edge.to in g.nodes
  }

  /** The reported hops of the steps on one side of the support/contradiction partition. */
  function Hops(g: Graph, steps: seq<Step>, contradiction: bool): seq<Hop>
    requires WalkableSteps(g, steps)
  {
    if |steps| == 0 then []
    else
      var s := steps[|steps| - 1];
      Hops(g, steps[..|steps| - 1], contradiction) +
      (if IsContradictionRelation(s.edge.relation) == contradiction
       then [Hop(s.edge.relation, s.depth, TracedNode(s.edge.to, g.nodes[s.edge.to]))]
       else [])
  }

  // ---------------------------------------------------------------- the walk

  /** `loadTraceEdges`: the live edges leaving the frontier, in table order. */
  method LoadTraceEdges(g: Graph, frontier: seq<Id>) returns (out: seq<Edge>)
    ensures out == LiveFrom(g, ToSet(frontier), g.edges)
  {
    out := [];
    for i := 0 to |g.edges|
      invariant out == LiveFrom(g, ToSet(frontier), g.edges[..i])
    {
      assert g.edges[..i + 1][..i] == g.edges[..i];
      var e := g.edges[i];
      if e.from in frontier && Live(g, e) {
        out := out + [e];
      }
    }
    assert g.edges[..|g.edges|] == g.edges;
  }

  function LiveFrom(g: Graph, sources: set<Id>, edges: seq<Edge>): seq<Edge> {
    if |edges| == 0 then []
    else
      var e := edges[|edges| - 1];
      LiveFrom(g, sources, edges[..|edges| - 1]) + (if Live(g, e) && e.from in sources then [e] else [])
  }

  /** The steps contributed by edges already known to be live and to leave the frontier. */
  function Present(g: Graph, depth: nat, edges: seq<Edge>): seq<Step> {
    if |edges| == 0 then []
    else
      var e := edges[|edges| - 1];
      Present(g, depth, edges[..|edges| - 1]) + (if e.to in g.nodes then [Step(e, depth)] else [])
  }

  /** The two hop lists report exactly these steps. */
  ghost predicate Reports(g: Graph, steps: seq<Step>, supports: seq<Hop>, contradictions: seq<Hop>) {
    WalkableSteps(g, steps) && supports == Hops(g, steps, false) && contradictions == Hops(g, steps, true)
  }

  method WalkTraceDecision(g: Graph, root: Id, maxDepth: int)
    returns (supports: seq<Hop>, contradictions: seq<Hop>, visited: set<Id>)
    requires 1 <= maxDepth
    ensures visited == Reach(g, root, maxDepth)
    ensures Reports(g, Trace(g, root, maxDepth), supports, contradictions)
  {
    supports, contradictions, visited := [], [], {root};
    var frontier := [root];
    var depth := 1;
    while depth <= maxDepth && |frontier| > 0
      invariant 1 <= depth <= maxDepth + 1
      invariant Walked(g, root, depth - 1, supports, contradictions, visited, frontier)
      decreases maxDepth - depth
    {
      supports, contradictions, visited, frontier :=
        WalkLayer(g, root, depth, supports, contradictions, visited, frontier);
      depth := depth + 1;
    }
    if depth <= maxDepth {
      EmptyFrontier(frontier);
      StoppedEarly(g, root, depth - 1, maxDepth, supports, contradictions);
    }
  }

  /** What the loop holds after k layers. */
  ghost predicate Walked(g: Graph, root: Id, k: nat, supports: seq<Hop>, contradictions: seq<Hop>, visited: set<Id>,
                         frontier: seq<Id>)
  {
    visited == Reach(g, root, k) && ToSet(frontier) == Ring(g, root, k) &&
    Reports(g, Trace(g, root, k), supports, contradictions)
  }

  method WalkLayer(g: Graph, ghost root: Id, depth: nat, supports0: seq<Hop>, contradictions0: seq<Hop>,
                   visited0: set<Id>, frontier0: seq<Id>)
    returns (supports: seq<Hop>, contradictions: seq<Hop>, visited: set<Id>, frontier: seq<Id>)
    requires depth > 0 && Walked(g, root, depth - 1, supports0, contradictions0, visited0, frontier0)
    ensures Walked(g, root, depth, supports, contradictions, visited, frontier)
  {
    var edges := LoadTraceEdges(g, frontier0);
    NextLayer(g, root, depth, edges);
    supports, contradictions, visited, frontier :=
      ExpandLayer(g, edges, depth, Trace(g, root, depth - 1), supports0, contradictions0, visited0);
  }

  lemma StoppedEarly(g: Graph, root: Id, k: nat, maxDepth: nat, supports: seq<Hop>, contradictions: seq<Hop>)
    requires k <= maxDepth && Ring(g, root, k) == {} && Reports(g, Trace(g, root, k), supports, contradictions)
    ensures Reach(g, root, k) == Reach(g, root, maxDepth)
    ensures Reports(g, Trace(g, root, maxDepth), supports, contradictions)
  {
    EmptyRingStops(g, root, k, maxDepth);
  }

  lemma EmptyFrontier(frontier: seq<Id>)
    requires |frontier| == 0
    ensures ToSet(frontier) == {}
  {}

  /** Expanding the live edges of the last ring gives the next layer of the trace and the next ring. */
  lemma NextLayer(g: Graph, root: Id, depth: nat, edges: seq<Edge>)
    requires depth > 0 && edges == LiveFrom(g, Ring(g, root, depth - 1), g.edges)
    ensures Trace(g, root, depth - 1) + Present(g, depth, edges) == Trace(g, root, depth)
    ensures Reach(g, root, depth - 1) + FoundTargets(g, edges) == Reach(g, root, depth)
    ensures FoundTargets(g, edges) - Reach(g, root, depth - 1) == Ring(g, root, depth)
  {
    LayerFromLive(g, Ring(g, root, depth - 1), depth, g.edges);
    TargetsOfRing(g, root, depth - 1, edges);
  }

  /** The body of the depth loop: report each edge whose target exists, and collect unseen targets. */
  method ExpandLayer(g: Graph, edges: seq<Edge>, depth: nat, ghost done: seq<Step>,
                     supports0: seq<Hop>, contradictions0: seq<Hop>, visited0: set<Id>)
    returns (supports: seq<Hop>, contradictions: seq<Hop>, visited: set<Id>, nextFrontier: seq<Id>)
    requires Reports(g, done, supports0, contradictions0)
    ensures visited == visited0 + FoundTargets(g, edges)
    ensures ToSet(nextFrontier) == FoundTargets(g, edges) - visited0
    ensures Reports(g, done + Present(g, depth, edges), supports, contradictions)
  {
    supports, contradictions, visited, nextFrontier := supports0, contradictions0, visited0, [];
    assert edges[..0] == [] && done + Present(g, depth, edges[..0]) == done;
    assert FoundTargets(g, edges[..0]) == {};
    for j := 0 to |edges|
      invariant Collected(visited0, FoundTargets(g, edges[..j]), visited, nextFrontier)
      invariant Reports(g, done + Present(g, depth, edges[..j]), supports, contradictions)
    {
      var edge := edges[j];
      assert edges[..j + 1] == edges[..j] + [edge];
      PresentSnoc(g, depth, edges[..j], edge);
      FoundTargetsSnoc(g, edges[..j], edge);
      if edge.to in g.nodes {
        AppendStep(done, Present(g, depth, edges[..j]), Step(edge, depth));
        supports, contradictions :=
          Report(g, edge, depth, done + Present(g, depth, edges[..j]), supports, contradictions);
        visited, nextFrontier := Visit(edge.to, visited0, FoundTargets(g, edges[..j]), visited, nextFrontier);
      }
    }
    assert edges[..|edges|] == edges;
  }

  /** The targets found so far are visited, and the next frontier holds those not visited before. */
  ghost predicate Collected(visited0: set<Id>, found: set<Id>, visited: set<Id>, frontier: seq<Id>) {
    visited == visited0 + found && ToSet(frontier) == found - visited0
  }

  method Visit(target: Id, ghost visited0: set<Id>, ghost found: set<Id>, visited: set<Id>, frontier: seq<Id>)
    returns (visited': set<Id>, frontier': seq<Id>)
    requires Collected(visited0, found, visited, frontier)
    ensures Collected(visited0, found + {target}, visited', frontier')
  {
    visited', frontier' := visited, frontier;
    if target !in visited {
      visited' := visited + {target};
      ToSetSnoc(frontier, target);
      frontier' := frontier + [target];
    }
  }

  lemma AppendStep(done: seq<Step>, more: seq<Step>, s: Step)
    ensures done + (more + [s]) == done + more + [s]
  {}

  method Report(g: Graph, edge: Edge, depth: nat, ghost steps: seq<Step>, supports0: seq<Hop>, contradictions0: seq<Hop>)
    returns (supports: seq<Hop>, contradictions: seq<Hop>)
    requires Reports(g, steps, supports0, contradictions0) && edge.to in g.nodes
    ensures Reports(g, steps + [Step(edge, depth)], supports, contradictions)
  {
    supports, contradictions := supports0, contradictions0;
    ReportsSnoc(g, steps, supports, contradictions, Step(edge, depth));
    var hop := Hop(edge.relation, depth, TracedNode(edge.to, g.nodes[edge.to]));
    if IsContradictionRelation(edge.relation) {
      contradictions := contradictions + [hop];
    } else {
      supports := supports + [hop];
    }
  }

  lemma ReportsSnoc(g: Graph, steps: seq<Step>, supports: seq<Hop>, contradictions: seq<Hop>, s: Step)
    requires Reports(g, steps, supports, contradictions) && s.edge.to in g.nodes
    ensures var hop := [Hop(s.edge.relation, s.depth, TracedNode(s.edge.to, g.nodes[s.edge.to]))];
            if IsContradictionRelation(s.edge.relation) then Reports(g, steps + [s], supports, contradictions + hop)
            else Reports(g, steps + [s], supports + hop, contradictions)
  {
    HopsSnoc(g, steps, s, false);
    HopsSnoc(g, steps, s, true);
  }

  lemma ToSetSnoc(xs: seq<Id>, x: Id)
    ensures ToSet(xs + [x]) == ToSet(xs) + {x}
  {}

  lemma FoundTargetsSnoc(g: Graph, edges: seq<Edge>, e: Edge)
    ensures FoundTargets(g, edges + [e]) ==
            if e.to in g.nodes then FoundTargets(g, edges) + {e.to} else FoundTargets(g, edges)
  {}

  lemma PresentSnoc(g: Graph, depth: nat, edges: seq<Edge>, e: Edge)
    ensures Present(g, depth, edges + [e]) ==
            if e.to in g.nodes then Present(g, depth, edges) + [Step(e, depth)] else Present(g, depth, edges)
  {
    assert (edges + [e])[..|edges|] == edges;
  }

  ghost function FoundTargets(g: Graph, edges: seq<Edge>): set<Id> {
    set e | e in edges && e.to in g.nodes :: e.to
  }

  lemma HopsSnoc(g: Graph, steps: seq<Step>, s: Step, contradiction: bool)
    requires WalkableSteps(g, steps) && s.edge.to in g.nodes
    ensures WalkableSteps(g, steps + [s])
    ensures Hops(g, steps + [s], contradiction) ==
            Hops(g, steps, contradiction) +
            (if IsContradictionRelation(s.edge.relation) == contradiction
             then [Hop(s.edge.relation, s.depth, TracedNode(s.edge.to, g.nodes[s.edge.to]))]
             else [])
  {
    assert (steps + [s])[..|steps|] == steps;
  }

  lemma {:induction false} LayerFromLive(g: Graph, ring: set<Id>, depth: nat, edges: seq<Edge>)
    ensures Present(g, depth, LiveFrom(g, ring, edges)) == Layer(g, ring, depth, edges)
  {
    if |edges| > 0 {
      var e, before := edges[|edges| - 1], edges[..|edges| - 1];
      LayerFromLive(g, ring, depth, before);
      if Live(g, e) && e.from in ring {
        PresentSnoc(g, depth, LiveFrom(g, ring, before), e);
      } else {
        assert LiveFrom(g, ring, edges) == LiveFrom(g, ring, before);
      }
    }
  }

  lemma {:induction false} LiveFromMember(g: Graph, sources: set<Id>, edges: seq<Edge>, e: Edge)
    ensures e in LiveFrom(g, sources, edges) <==> e in edges && Live(g, e) && e.from in sources
  {
    if |edges| > 0 {
      LiveFromMember(g, sources, edges[..|edges| - 1], e);
      assert edges == edges[..|edges| - 1] + [edges[|edges| - 1]];
    }
  }

  /** Expanding only the last ring reaches everything that expanding the whole ball does. */
  lemma TargetsOfRing(g: Graph, root: Id, k: nat, edges: seq<Edge>)
    requires edges == LiveFrom(g, Ring(g, root, k), g.edges)
    ensures Reach(g, root, k) + FoundTargets(g, edges) == Reach(g, root, k + 1)
    ensures FoundTargets(g, edges) - Reach(g, root, k) == Ring(g, root, k + 1)
  {
    forall e {
      LiveFromMember(g, Ring(g, root, k), g.edges, e);
    }
    assert FoundTargets(g, edges) == Targets(g, Ring(g, root, k));
    RingsCoverReach(g, root, k);
  }

  lemma RingsCoverReach(g: Graph, root: Id, k: nat)
    ensures Reach(g, root, k) + Targets(g, Ring(g, root, k)) == Reach(g, root, k + 1)
  {
    if k > 0 {
      assert Targets(g, Reach(g, root, k)) <= Targets(g, Ring(g, root, k)) + Targets(g, Reach(g, root, k - 1));
    }
  }

  /** Once a ring is empty no deeper walk finds anything more. */
  lemma {:induction false} EmptyRingStops(g: Graph, root: Id, k: nat, depth: nat)
    requires Ring(g, root, k) == {} && k <= depth
    ensures Reach(g, root, depth) == Reach(g, root, k)
    ensures Ring(g, root, depth) == {}
    ensures Trace(g, root, depth) == Trace(g, root, k)
    decreases depth
  {
    if k < depth {
      EmptyRingStops(g, root, k, depth - 1);
      RingsCoverReach(g, root, depth - 1);
      assert Targets(g, {}) == {};
      EmptyLayer(g, depth, g.edges);
    }
  }

  lemma EmptyLayer(g: Graph, depth: nat, edges: seq<Edge>)
    ensures Layer(g, {}, depth, edges) == []
  {}

  // ---------------------------------------------------------------- exactness

  /** Visited nodes are exactly those some walk of at most `k` edges reaches. */
  lemma {:induction false} ReachIffPath(g: Graph, root: Id, k: nat, v: Id)
    ensures v in Reach(g, root, k) <==> exists p :: IsPath(g, root, v, p) && |p| <= k
  {
    if v in Reach(g, root, k) {
      var p := PathTo(g, root, k, v);
    }
    forall p | IsPath(g, root, v, p) && |p| <= k
      ensures v in Reach(g, root, k)
    {
      PathStaysInReach(g, root, k, v, p);
    }
  }

  lemma PathTo(g: Graph, root: Id, k: nat, v: Id) returns (p: seq<Edge>)
    requires v in Reach(g, root, k)
    ensures IsPath(g, root, v, p) && |p| <= k
  {
    if k == 0 {
      p := [];
    } else if v in Reach(g, root, k - 1) {
      p := PathTo(g, root, k - 1, v);
    } else {
      var e :| e in g.edges && Walkable(g, e) && e.from in Reach(g, root, k - 1) && e.to == v;
      var before := PathTo(g, root, k - 1, e.from);
      p := before + [e];
      assert p[..|p| - 1] == before;
    }
  }

  lemma {:induction false} PathStaysInReach(g: Graph, root: Id, k: nat, v: Id, p: seq<Edge>)
    requires IsPath(g, root, v, p) && |p| <= k
    ensures v in Reach(g, root, k)
  {
    if |p| == 0 {
      ReachMonotone(g, root, 0, k);
    } else {
      PathStaysInReach(g, root, k - 1, p[|p| - 1].from, p[..|p| - 1]);
    }
  }

  lemma ReachMonotone(g: Graph, root: Id, j: nat, k: nat)
    requires j <= k
    ensures Reach(g, root, j) <= Reach(g, root, k)
  {
    if j < k {
      ReachMonotone(g, root, j, k - 1);
    }
  }

  /** `k` is the number of edges of a shortest walk from `root` to `v`. */
  ghost predicate Distance(g: Graph, root: Id, v: Id, k: nat) {
    (exists p :: IsPath(g, root, v, p) && |p| == k) &&
    (forall p :: IsPath(g, root, v, p) ==> k <= |p|)
  }

  lemma RingIsDistance(g: Graph, root: Id, v: Id, k: nat)
    ensures v in Ring(g, root, k) <==> Distance(g, root, v, k)
  {
    ReachIffPath(g, root, k, v);
    if k > 0 {
      ReachIffPath(g, root, k - 1, v);
    } else {
      assert IsPath(g, root, root, []);
    }
  }

  /** The steps of a trace are exactly the walkable edges leaving a node at distance below `depth`. */
  lemma TraceExact(g: Graph, root: Id, depth: nat, s: Step)
    ensures s in Trace(g, root, depth) <==>
            s.edge in g.edges && Walkable(g, s.edge) &&
            1 <= s.depth <= depth && Distance(g, root, s.edge.from, s.depth - 1)
  {
    TraceInRings(g, root, depth, s);
    if s.depth > 0 {
      RingIsDistance(g, root, s.edge.from, s.depth - 1);
    }
  }

  lemma {:induction false} TraceInRings(g: Graph, root: Id, depth: nat, s: Step)
    ensures s in Trace(g, root, depth) <==>
            s.edge in g.edges && Walkable(g, s.edge) &&
            1 <= s.depth <= depth && s.edge.from in Ring(g, root, s.depth - 1)
  {
    if depth > 0 {
      TraceInRings(g, root, depth - 1, s);
      LayerExact(g, Ring(g, root, depth - 1), depth, g.edges, s);
    }
  }

  lemma {:induction false} LayerExact(g: Graph, ring: set<Id>, depth: nat, edges: seq<Edge>, s: Step)
    ensures s in Layer(g, ring, depth, edges) <==>
            s.edge in edges && Walkable(g, s.edge) && s.edge.from in ring && s.depth == depth
  {
    if |edges| > 0 {
      LayerExact(g, ring, depth, edges[..|edges| - 1], s);
      assert edges == edges[..|edges| - 1] + [edges[|edges| - 1]];
    }
  }

  ghost predicate DistinctEdges(steps: seq<Step>) {
    forall i, j :: 0 <= i < j < |steps| ==> steps[i].edge != steps[j].edge
  }

  /** No edge of the table is reported twice, at one depth or at two. */
  lemma {:induction false} TraceReportsEdgesOnce(g: Graph, root: Id, depth: nat)
    requires NoDuplicates(g.edges)
    ensures DistinctEdges(Trace(g, root, depth))
  {
    if depth > 0 {
      var ring := Ring(g, root, depth - 1);
      var earlier, last := Trace(g, root, depth - 1), Layer(g, ring, depth, g.edges);
      TraceReportsEdgesOnce(g, root, depth - 1);
      LayerReportsEdgesOnce(g, ring, depth, g.edges);
      forall a, b | a in earlier && b in last
        ensures a.edge != b.edge
      {
        LastStepsDiffer(g, root, depth - 1, a, b);
      }
      DistinctEdgesConcat(earlier, last);
    }
  }

  /** What was reported before started within the ball that the last ring lies outside of. */
  lemma LastStepsDiffer(g: Graph, root: Id, depth: nat, a: Step, b: Step)
    requires a in Trace(g, root, depth) && b in Layer(g, Ring(g, root, depth), depth + 1, g.edges)
    ensures a.edge != b.edge
  {
    LayerSource(g, Ring(g, root, depth), depth + 1, b);
    if depth > 0 {
      SourceInReach(g, root, depth, a);
      OutsideBall(g, root, depth, b.edge.from);
    }
  }

  lemma SourceInReach(g: Graph, root: Id, depth: nat, s: Step)
    requires depth > 0 && s in Trace(g, root, depth)
    ensures s.edge.from in Reach(g, root, depth - 1)
  {
    var k := RingOfStep(g, root, depth, s);
    RingInReach(g, root, k, s.edge.from);
    ReachMonotone(g, root, k, depth - 1);
  }

  lemma RingInReach(g: Graph, root: Id, k: nat, v: Id)
    requires v in Ring(g, root, k)
    ensures v in Reach(g, root, k)
  {}

  lemma OutsideBall(g: Graph, root: Id, k: nat, v: Id)
    requires k > 0 && v in Ring(g, root, k)
    ensures v !in Reach(g, root, k - 1)
  {}

  lemma LayerSource(g: Graph, ring: set<Id>, depth: nat, s: Step)
    requires s in Layer(g, ring, depth, g.edges)
    ensures s.edge.from in ring
  {
    LayerExact(g, ring, depth, g.edges, s);
  }

  lemma RingOfStep(g: Graph, root: Id, depth: nat, s: Step) returns (k: nat)
    requires s in Trace(g, root, depth)
    ensures k < depth && s.edge.from in Ring(g, root, k)
  {
    TraceInRings(g, root, depth, s);
    k := s.depth - 1;
  }

  lemma DistinctEdgesConcat(a: seq<Step>, b: seq<Step>)
    requires DistinctEdges(a) && DistinctEdges(b)
    requires forall s, t :: s in a && t in b ==> s.edge != t.edge
    ensures DistinctEdges(a + b)
  {
    forall i, j | 0 <= i < j < |a + b|
      ensures (a + b)[i].edge != (a + b)[j].edge
    {
      if i < |a| <= j {
        assert a[i] in a && b[j - |a|] in b;
      }
    }
  }

  lemma {:induction false} LayerReportsEdgesOnce(g: Graph, ring: set<Id>, depth: nat, edges: seq<Edge>)
    requires NoDuplicates(edges)
    ensures DistinctEdges(Layer(g, ring, depth, edges))
  {
    if |edges| > 0 {
      var before := edges[..|edges| - 1];
      LayerReportsEdgesOnce(g, ring, depth, before);
      forall s | s in Layer(g, ring, depth, before)
        ensures s.edge != edges[|edges| - 1]
      {
        LayerExact(g, ring, depth, before, s);
      }
    }
  }

  // ---------------------------------------------------------------- saturation

  lemma ReachWithinNodes(g: Graph, root: Id, k: nat)
    ensures Reach(g, root, k) <= g.nodes.Keys + {root}
  {}

  /** Until a ring is empty, every extra hop of depth adds at least one node. */
  lemma {:induction false} ReachGrows(g: Graph, root: Id, k: nat)
    ensures |Reach(g, root, k)| > k || exists j :: 0 <= j <= k && Ring(g, root, j) == {}
  {
    if k > 0 {
      ReachGrows(g, root, k - 1);
      if Ring(g, root, k) != {} {
        assert Reach(g, root, k) == Reach(g, root, k - 1) + Ring(g, root, k);
        assert |Reach(g, root, k)| == |Reach(g, root, k - 1)| + |Ring(g, root, k)|;
      }
    }
  }

  lemma SubsetCardinality<T>(a: set<T>, b: set<T>)
    requires a <= b
    ensures |a| <= |b|
  {
    if a != {} {
      var x :| x in a;
      SubsetCardinality(a - {x}, b - {x});
    }
  }

  /** Every node any walk reaches. */
  function Reachable(g: Graph, root: Id): set<Id> {
    Reach(g, root, |g.nodes| + 1)
  }

  /** Some ring no deeper than the number of reachable nodes is empty. */
  lemma SomeRingEmpty(g: Graph, root: Id) returns (j: nat)
    ensures j <= |Reachable(g, root)| <= |g.nodes| + 1 && Ring(g, root, j) == {}
  {
    var n := |Reachable(g, root)|;
    ReachWithinNodes(g, root, |g.nodes| + 1);
    SubsetCardinality(Reachable(g, root), g.nodes.Keys + {root});
    ReachMonotone(g, root, n, |g.nodes| + 1);
    SubsetCardinality(Reach(g, root, n), Reachable(g, root));
    ReachGrows(g, root, n);
    j :| 0 <= j <= n && Ring(g, root, j) == {};
  }

  /**
    The result stops changing once the depth reaches the number of reachable nodes.
   */
  lemma TraceSaturates(g: Graph, root: Id, depth: nat)
    requires |Reachable(g, root)| <= depth
    ensures Trace(g, root, depth) == Trace(g, root, |Reachable(g, root)|)
    ensures Reach(g, root, depth) == Reachable(g, root)
  {
    var j := SomeRingEmpty(g, root);
    EmptyRingStops(g, root, j, |Reachable(g, root)|);
    EmptyRingStops(g, root, j, depth);
    EmptyRingStops(g, root, j, |g.nodes| + 1);
  }

  /** `Reachable` is what walks of any length reach, not just of length up to the node count. */
  lemma ReachableIffPath(g: Graph, root: Id, v: Id)
    ensures v in Reachable(g, root) <==> exists p :: IsPath(g, root, v, p)
  {
    ReachIffPath(g, root, |g.nodes| + 1, v);
    forall p | IsPath(g, root, v, p)
      ensures v in Reachable(g, root)
    {
      var j := SomeRingEmpty(g, root);
      var far := |p| + j;
      PathStaysInReach(g, root, far, v, p);
      EmptyRingStops(g, root, j, far);
      EmptyRingStops(g, root, j, |g.nodes| + 1);
    }
  }

  // ---------------------------------------------------------------- TraceDecision

  datatype TraceError = InvalidMemorySpace | MemoryIdRequired | MemoryNotFound

  datatype TraceRequest = TraceRequest(memorySpace: string, memoryId: Id, depth: int)

  datatype Traced = Traced(decision: TracedNode, supports: seq<Hop>, contradictions: seq<Hop>, visited: set<Id>)

  /** What a trace request answers, as a function of the graph. */
  function TraceAnswer(g: Graph, root: Id, depth: int): Result<Traced, TraceError> {
    if root !in g.nodes then Err(MemoryNotFound)
    else
      var d := if depth <= 0 then 1 else depth;
      TraceWalkable(g, root, d);
      Ok(Traced(TracedNode(root, g.nodes[root]),
                Hops(g, Trace(g, root, d), false), Hops(g, Trace(g, root, d), true), Reach(g, root, d)))
  }

  lemma TraceWalkable(g: Graph, root: Id, depth: nat)
    ensures WalkableSteps(g, Trace(g, root, depth))
  {
    forall s | s in Trace(g, root, depth)
      ensures s.edge.to in g.nodes
    {
      TraceExact(g, root, depth, s);
    }
  }

  // ---------------------------------------------------------------- what an answer holds

  /** A row of the edge table, reported at a depth. */
  datatype Place = Place(depth: nat, index: nat)

  /** Reported is every walkable edge that leaves a node at the distance before its depth, on its own side. */
  ghost predicate Reported(g: Graph, root: Id, depth: nat, contradiction: bool, p: Place) {
    p.index < |g.edges| && 1 <= p.depth <= depth &&
    Live(g, g.edges[p.index]) && g.edges[p.index].to in g.nodes &&
    Distance(g, root, g.edges[p.index].from, p.depth - 1) &&
    (TrimSpace(g.edges[p.index].relation) in {"contradicts", "contradiction", "denies"} <==> contradiction)
  }

  /** By depth, and within a depth by table position. */
  ghost predicate InOrder(places: seq<Place>) {
    forall i, j :: 0 <= i < j < |places| ==>
      places[i].depth < places[j].depth || (places[i].depth == places[j].depth && places[i].index < places[j].index)
  }

  /** The hops tell what stands at these places. */
  predicate TellsOf(g: Graph, places: seq<Place>, hops: seq<Hop>) {
    |hops| == |places| && forall i :: 0 <= i < |places| ==> TellsOfPlace(g, places[i], hops[i])
  }

  predicate TellsOfPlace(g: Graph, p: Place, hop: Hop) {
    p.index < |g.edges| && hop.depth == p.depth && hop.relation == g.edges[p.index].relation &&
    hop.memory.memoryId == g.edges[p.index].to && hop.memory.memoryId in g.nodes &&
    hop.memory.row == g.nodes[hop.memory.memoryId]
  }

  /** The list tells of all reported places of one side, each once and in order, and of nothing else. */
  ghost predicate ListsExactly(g: Graph, root: Id, depth: nat, contradiction: bool, hops: seq<Hop>) {
    exists places: seq<Place> ::
      InOrder(places) && TellsOf(g, places, hops) &&
      forall p :: p in places <==> Reported(g, root, depth, contradiction, p)
  }

  /** What a trace of a stored decision must answer. */
  ghost predicate AnswersExactly(g: Graph, root: Id, depth: nat, t: Traced) {
    root in g.nodes && t.decision.memoryId == root && t.decision.row == g.nodes[root] &&
    ListsExactly(g, root, depth, false, t.supports) && ListsExactly(g, root, depth, true, t.contradictions) &&
    forall v :: v in t.visited <==> exists p :: IsPath(g, root, v, p) && |p| <= depth
  }

  function LayerPlaces(g: Graph, ring: set<Id>, depth: nat, n: nat, contradiction: bool): seq<Place>
    requires n <= |g.edges|
  {
    if n == 0 then []
    else
      LayerPlaces(g, ring, depth, n - 1, contradiction) +
      (if Walkable(g, g.edges[n - 1]) && g.edges[n - 1].from in ring &&
          IsContradictionRelation(g.edges[n - 1].relation) == contradiction
       then [Place(depth, n - 1)] else [])
  }

  function Places(g: Graph, root: Id, depth: nat, contradiction: bool): seq<Place> {
    if depth == 0 then []
    else
      Places(g, root, depth - 1, contradiction) +
      LayerPlaces(g, Ring(g, root, depth - 1), depth, |g.edges|, contradiction)
  }

  lemma {:induction false} LayerPlacesExact(g: Graph, ring: set<Id>, depth: nat, n: nat, contradiction: bool)
    requires n <= |g.edges|
    ensures InOrder(LayerPlaces(g, ring, depth, n, contradiction))
    ensures forall p :: p in LayerPlaces(g, ring, depth, n, contradiction) <==>
              p.depth == depth && p.index < n && Walkable(g, g.edges[p.index]) && g.edges[p.index].from in ring &&
              IsContradictionRelation(g.edges[p.index].relation) == contradiction
  {
    if n > 0 {
      LayerPlacesExact(g, ring, depth, n - 1, contradiction);
    }
  }

  ghost predicate InRings(g: Graph, root: Id, depth: nat, contradiction: bool, p: Place) {
    1 <= p.depth <= depth && p.index < |g.edges| && Walkable(g, g.edges[p.index]) &&
    g.edges[p.index].from in Ring(g, root, p.depth - 1) &&
    IsContradictionRelation(g.edges[p.index].relation) == contradiction
  }

  lemma {:induction false} PlacesExact(g: Graph, root: Id, depth: nat, contradiction: bool)
    ensures InOrder(Places(g, root, depth, contradiction))
    ensures forall p :: p in Places(g, root, depth, contradiction) <==> InRings(g, root, depth, contradiction, p)
  {
    if depth > 0 {
      PlacesExact(g, root, depth - 1, contradiction);
      var ring := Ring(g, root, depth - 1);
      LayerPlacesExact(g, ring, depth, |g.edges|, contradiction);
      InOrderConcat(Places(g, root, depth - 1, contradiction), LayerPlaces(g, ring, depth, |g.edges|, contradiction), depth);
    }
  }

  lemma InOrderConcat(a: seq<Place>, b: seq<Place>, depth: nat)
    requires InOrder(a) && InOrder(b) && (forall p :: p in a ==> p.depth < depth) && forall p :: p in b ==> p.depth == depth
    ensures InOrder(a + b)
  {
    forall i, j | 0 <= i < j < |a + b| && i < |a| <= j
      ensures (a + b)[i].depth < (a + b)[j].depth
    {
      assert a[i] in a && b[j - |a|] in b;
    }
  }

  lemma {:induction false} LayerTells(g: Graph, ring: set<Id>, depth: nat, n: nat, contradiction: bool)
    requires n <= |g.edges|
    ensures WalkableSteps(g, Layer(g, ring, depth, g.edges[..n]))
    ensures TellsOf(g, LayerPlaces(g, ring, depth, n, contradiction),
                    Hops(g, Layer(g, ring, depth, g.edges[..n]), contradiction))
  {
    if n > 0 {
      LayerTells(g, ring, depth, n - 1, contradiction);
      assert g.edges[..n][..n - 1] == g.edges[..n - 1];
      var e, before := g.edges[n - 1], Layer(g, ring, depth, g.edges[..n - 1]);
      if Walkable(g, e) && e.from in ring {
        assert Layer(g, ring, depth, g.edges[..n]) == before + [Step(e, depth)];
        HopsSnoc(g, before, Step(e, depth), contradiction);
      } else {
        assert Layer(g, ring, depth, g.edges[..n]) == before;
      }
    }
  }

  lemma {:induction false} HopsConcat(g: Graph, a: seq<Step>, b: seq<Step>, contradiction: bool)
    requires WalkableSteps(g, a) && WalkableSteps(g, b)
    ensures WalkableSteps(g, a + b) && Hops(g, a + b, contradiction) == Hops(g, a, contradiction) + Hops(g, b, contradiction)
  {
    if |b| == 0 {
      assert a + b == a;
    } else {
      var before, last := b[..|b| - 1], b[|b| - 1];
      HopsConcat(g, a, before, contradiction);
      HopsSnoc(g, a + before, last, contradiction);
      assert a + b == a + before + [last];
    }
  }

  lemma {:induction false} TraceTells(g: Graph, root: Id, depth: nat, contradiction: bool)
    ensures WalkableSteps(g, Trace(g, root, depth))
    ensures TellsOf(g, Places(g, root, depth, contradiction), Hops(g, Trace(g, root, depth), contradiction))
  {
    if depth > 0 {
      var ring := Ring(g, root, depth - 1);
      TraceTells(g, root, depth - 1, contradiction);
      LayerTells(g, ring, depth, |g.edges|, contradiction);
      assert g.edges[..|g.edges|] == g.edges;
      HopsConcat(g, Trace(g, root, depth - 1), Layer(g, ring, depth, g.edges), contradiction);
    }
  }

  lemma PlaceReported(g: Graph, root: Id, depth: nat, contradiction: bool, p: Place)
    ensures p in Places(g, root, depth, contradiction) <==> Reported(g, root, depth, contradiction, p)
  {
    PlacesExact(g, root, depth, contradiction);
    RingsAreDistances(g, root, depth, contradiction, p);
  }

  lemma RingsAreDistances(g: Graph, root: Id, depth: nat, contradiction: bool, p: Place)
    ensures InRings(g, root, depth, contradiction, p) <==> Reported(g, root, depth, contradiction, p)
  {
    if p.index < |g.edges| && p.depth > 0 {
      RingIsDistance(g, root, g.edges[p.index].from, p.depth - 1);
    }
  }

  lemma SideExact(g: Graph, root: Id, depth: nat, contradiction: bool)
    requires WalkableSteps(g, Trace(g, root, depth))
    ensures ListsExactly(g, root, depth, contradiction, Hops(g, Trace(g, root, depth), contradiction))
  {
    PlacesInOrder(g, root, depth, contradiction);
    TraceTells(g, root, depth, contradiction);
    forall p
      ensures p in Places(g, root, depth, contradiction) <==> Reported(g, root, depth, contradiction, p)
    {
      PlaceReported(g, root, depth, contradiction, p);
    }
  }

  lemma PlacesInOrder(g: Graph, root: Id, depth: nat, contradiction: bool)
    ensures InOrder(Places(g, root, depth, contradiction))
  {
    PlacesExact(g, root, depth, contradiction);
  }

  /** A trace answers exactly that, for every graph, root and depth; depths below one count as one. */
  lemma AnswerExact(g: Graph, root: Id, depth: int)
    ensures TraceAnswer(g, root, depth) == Err(MemoryNotFound) <==> root !in g.nodes
    ensures root in g.nodes ==>
              TraceAnswer(g, root, depth).Ok? &&
              AnswersExactly(g, root, if depth < 1 then 1 else depth, TraceAnswer(g, root, depth).value)
  {
    if root in g.nodes {
      var d: nat := if depth < 1 then 1 else depth;
      TraceWalkable(g, root, d);
      SideExact(g, root, d, false);
      SideExact(g, root, d, true);
      forall v
        ensures v in Reach(g, root, d) <==> exists p :: IsPath(g, root, v, p) && |p| <= d
      {
        ReachIffPath(g, root, d, v);
      }
    }
  }

  /** The edge accounts for the hop: it leaves a node at the distance before the hop's depth, on that side. */
  ghost predicate AccountsFor(g: Graph, root: Id, contradiction: bool, e: Edge, hop: Hop)
    requires hop.depth > 0
  {
    e in g.edges && Live(g, e) && e.to == hop.memory.memoryId && e.relation == hop.relation &&
    Distance(g, root, e.from, hop.depth - 1) &&
    (TrimSpace(e.relation) in {"contradicts", "contradiction", "denies"} <==> contradiction)
  }

  /** So a hop is listed exactly when it tells of a stored target that an edge of the table accounts for. */
  lemma HopListedIff(g: Graph, root: Id, depth: nat, contradiction: bool, hops: seq<Hop>, hop: Hop)
    requires ListsExactly(g, root, depth, contradiction, hops)
    ensures hop in hops <==>
            1 <= hop.depth <= depth && hop.memory.memoryId in g.nodes && hop.memory.row == g.nodes[hop.memory.memoryId] &&
            exists e :: AccountsFor(g, root, contradiction, e, hop)
  {
    var places: seq<Place> :| InOrder(places) && TellsOf(g, places, hops) &&
                              forall p :: p in places <==> Reported(g, root, depth, contradiction, p);
    if hop in hops {
      var i :| 0 <= i < |hops| && hops[i] == hop;
      assert TellsOfPlace(g, places[i], hop) && places[i] in places;
      PlaceAccounts(g, root, depth, contradiction, places[i], hop);
    }
    if 1 <= hop.depth <= depth && hop.memory.memoryId in g.nodes && hop.memory.row == g.nodes[hop.memory.memoryId] {
      forall e | AccountsFor(g, root, contradiction, e, hop)
        ensures hop in hops
      {
        var p := PlaceOf(g, root, depth, contradiction, e, hop);
        var i :| 0 <= i < |places| && places[i] == p;
        SameHop(g, p, hop, hops[i]);
      }
    }
  }

  lemma SameHop(g: Graph, p: Place, a: Hop, b: Hop)
    requires TellsOfPlace(g, p, a) && TellsOfPlace(g, p, b)
    ensures a == b
  {}

  lemma PlaceAccounts(g: Graph, root: Id, depth: nat, contradiction: bool, p: Place, hop: Hop)
    requires Reported(g, root, depth, contradiction, p) && TellsOfPlace(g, p, hop)
    ensures 1 <= hop.depth <= depth && hop.memory.memoryId in g.nodes && hop.memory.row == g.nodes[hop.memory.memoryId]
    ensures AccountsFor(g, root, contradiction, g.edges[p.index], hop)
  {}

  lemma PlaceOf(g: Graph, root: Id, depth: nat, contradiction: bool, e: Edge, hop: Hop) returns (p: Place)
    requires 1 <= hop.depth <= depth && hop.memory.memoryId in g.nodes && hop.memory.row == g.nodes[hop.memory.memoryId]
    requires AccountsFor(g, root, contradiction, e, hop)
    ensures Reported(g, root, depth, contradiction, p) && TellsOfPlace(g, p, hop)
  {
    var k :| 0 <= k < |g.edges| && g.edges[k] == e;
    p := Place(hop.depth, k);
  }

  /** The request is trimmed and checked; the edge query of the private space knows no suspensions. */
  method TraceDecision(shared: Graph, priv: Graph, req: TraceRequest) returns (r: Result<Traced, TraceError>)
    ensures var space, id := TrimSpace(req.memorySpace), TrimSpace(req.memoryId);
            var g := if space == "private" then priv.(suspended := {}) else shared;
            (r == Err(InvalidMemorySpace) <==> space !in {"shared", "private"}) &&
            (r == Err(MemoryIdRequired) <==> space in {"shared", "private"} && id == "") &&
            (space in {"shared", "private"} && id != "" ==>
              r == TraceAnswer(g, id, req.depth) &&
              (r == Err(MemoryNotFound) <==> id !in g.nodes) &&
              (r.Ok? ==> AnswersExactly(g, id, if req.depth < 1 then 1 else req.depth, r.value)))
  {
    var space, id := TrimSpace(req.memorySpace), TrimSpace(req.memoryId);
    if space != "shared" && space != "private" {
      return Err(InvalidMemorySpace);
    }
    if id == "" {
      return Err(MemoryIdRequired);
    }
    var g := if space == "private" then priv.(suspended := {}) else shared;
    AnswerExact(g, id, req.depth);
    r := TraceIn(g, id, req.depth);
  }

  method TraceIn(g: Graph, root: Id, depth: int) returns (r: Result<Traced, TraceError>)
    ensures r == TraceAnswer(g, root, depth)
  {
    if root !in g.nodes {
      return Err(MemoryNotFound);
    }
    var d := if depth <= 0 then 1 else depth;
    var supports, contradictions, visited := WalkTraceDecision(g, root, d);
    ReachMonotone(g, root, 0, d);
    assert visited + {root} == visited;
    return Ok(Traced(TracedNode(root, g.nodes[root]), supports, contradictions, visited + {root}));
  }
}
