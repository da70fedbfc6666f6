/** The journey canvas as a graph: reachability and the search for a loop. */
module FlowGraph {
  import opened Prelude

  datatype NodeType = Trigger | Delay | SendEmail | SendSms | Condition | Exit

  datatype SendCondition =
    | Always
    | OpenedPrevious | NotOpenedPrevious
    | ClickedPrevious | NotClickedPrevious
    | Replied | NotReplied

  datatype NodeData = NodeData(
    delayMinutes: Option<int>,
    waitMinutes: Option<int>,
    condition: Option<SendCondition>,
    subject: Option<string>,
    body: Option<string>,
    html: Option<string>)

  datatype NodeId = NodeId(name: string)

  datatype Node = Node(id: NodeId, kind: NodeType, data: NodeData)

  datatype Edge = Edge(source: NodeId, target: NodeId, sourceHandle: Option<string>)

  datatype Graph = Graph(nodes: seq<Node>, edges: seq<Edge>)

  function Ids(g: Graph): set<NodeId> {
    set i | 0 <= i < |g.nodes| :: g.nodes[i].id
  }

  predicate HasEdge(g: Graph, a: NodeId, b: NodeId) {
    exists i :: 0 <= i < |g.edges| && g.edges[i].source == a && g.edges[i].target == b
  }

  /** A walk along edges, given by the nodes it visits. */
  ghost predicate IsPath(g: Graph, p: seq<NodeId>) {
    p != [] && forall i, j :: 0 <= i < j < |p| && j == i + 1 ==> HasEdge(g, p[i], p[j])
  }

  /** A closed walk over declared nodes. */
  ghost predicate IsCycle(g: Graph, c: seq<NodeId>) {
    && IsPath(g, c)
    && HasEdge(g, c[|c| - 1], c[0])
    && forall i :: 0 <= i < |c| ==> c[i] in Ids(g)
  }

  ghost predicate Acyclic(g: Graph) {
    forall c :: !IsCycle(g, c)
  }

  predicate Distinct<T(==)>(s: seq<T>) {
    forall i, j :: 0 <= i < j < |s| ==> s[i] != s[j]
  }

  /** The targets of a node's edges, in edge order. */
  function Targets(edges: seq<Edge>, n: NodeId): seq<NodeId> {
    if edges == [] then []
    else
      var last := edges[|edges| - 1];
      Targets(edges[..|edges| - 1], n) + (if last.source == n then [last.target] else [])
  }

  lemma {:induction false} TargetsAreEdges(edges: seq<Edge>, n: NodeId, t: NodeId)
    ensures t in Targets(edges, n) <==> exists i :: 0 <= i < |edges| && edges[i].source == n && edges[i].target == t
  {
    if edges != [] {
      var rest := edges[..|edges| - 1];
      TargetsAreEdges(rest, n, t);
      assert forall i :: 0 <= i < |rest| ==> rest[i] == edges[i];
    }
  }

  lemma TargetsOf(g: Graph, n: NodeId, t: NodeId)
    ensures t in Targets(g.edges, n) <==> HasEdge(g, n, t)
  {
    TargetsAreEdges(g.edges, n, t);
  }

  // ------------------------------------------------------------- reachableFrom

  ghost predicate Reaches(g: Graph, a: NodeId, b: NodeId) {
    exists p :: IsPath(g, p) && p[0] == a && p[|p| - 1] == b
  }

  lemma ReachesItself(g: Graph, a: NodeId)
    ensures Reaches(g, a, a)
  {
    assert IsPath(g, [a]);
  }

  lemma ReachesAlongEdge(g: Graph, a: NodeId, b: NodeId, c: NodeId)
    requires Reaches(g, a, b) && HasEdge(g, b, c)
    ensures Reaches(g, a, c)
  {
    var p :| IsPath(g, p) && p[0] == a && p[|p| - 1] == b;
    assert IsPath(g, p + [c]);
  }

  lemma {:induction false} ClosedSetHoldsPath(g: Graph, s: set<NodeId>, p: seq<NodeId>)
    requires IsPath(g, p) && p[0] in s
    requires forall a, b :: a in s && HasEdge(g, a, b) ==> b in s
    ensures p[|p| - 1] in s
    decreases |p|
  {
    if |p| > 1 {
      assert IsPath(g, p[..|p| - 1]);
      ClosedSetHoldsPath(g, s, p[..|p| - 1]);
      assert HasEdge(g, p[|p| - 2], p[|p| - 1]);
    }
  }

  method PushTargets(g: Graph, current: NodeId, stack: seq<NodeId>) returns (stack': seq<NodeId>)
    ensures stack' == stack + Targets(g.edges, current)
    ensures forall n :: n in stack' <==> n in stack || HasEdge(g, current, n)
  {
    stack' := stack;
    for i := 0 to |g.edges|
      invariant stack' == stack + Targets(g.edges[..i], current)
    {
      assert g.edges[..i + 1][..i] == g.edges[..i];
      if g.edges[i].source == current {
        stack' := stack' + [g.edges[i].target];
      }
    }
    assert g.edges[..|g.edges|] == g.edges;
    forall n ensures n in stack' <==> n in stack || HasEdge(g, current, n) {
      TargetsOf(g, current, n);
    }
  }

  ghost predicate Closed(g: Graph, seen: set<NodeId>, stack: seq<NodeId>) {
    forall a, b :: a in seen && HasEdge(g, a, b) ==> b in seen || b in stack
  }

  /** reachableFrom: exactly the nodes some edge walk from `start` leads to. */
  method ReachableFrom(g: Graph, start: Option<NodeId>) returns (seen: set<NodeId>)
    ensures start.None? || start.value.name == "" ==> seen == {}
    ensures start.Some? && start.value.name != "" ==> forall n :: n in seen <==> Reaches(g, start.value, n)
  {
    seen := {};
    if start.None? || start.value.name == "" {
      return;
    }
    var stack := [start.value];
    ghost var universe := {start.value} + set i | 0 <= i < |g.edges| :: g.edges[i].target;
    ReachesItself(g, start.value);
    while |stack| > 0
      invariant seen <= universe && forall n :: n in stack ==> n in universe
      invariant start.value in seen || start.value in stack
      invariant forall n :: n in seen || n in stack ==> Reaches(g, start.value, n)
      invariant Closed(g, seen, stack)
      decreases universe - seen, |stack|
    {
      var current := stack[|stack| - 1];
      var rest := stack[..|stack| - 1];
      assert forall n :: n in stack <==> n == current || n in rest;
      if current in seen {
        stack := rest;
        continue;
      }
      stack := PushTargets(g, current, rest);
      forall n | n in stack && n !in rest ensures Reaches(g, start.value, n) {
        ReachesAlongEdge(g, start.value, current, n);
      }
      seen := seen + {current};
    }
    forall n | Reaches(g, start.value, n) ensures n in seen {
      var p :| IsPath(g, p) && p[0] == start.value && p[|p| - 1] == n;
      ClosedSetHoldsPath(g, seen, p);
    }
  }

  // ----------------------------------------------------------------- findCycle

  datatype Colour = White | Grey | Black

  datatype Frame = Frame(id: NodeId, next: nat)

  type Colours = map<NodeId, Colour>

  /** The variables of the depth-first search: `path` and `stack` grow and shrink together. */
  datatype Search = Search(colour: Colours, path: seq<NodeId>, stack: seq<Frame>) {

    ghost predicate Shaped() {
      |path| == |stack| && forall i :: 0 <= i < |stack| ==> stack[i].id == path[i]
    }

    function Top(): Frame
      requires stack != []
    {
      stack[|stack| - 1]
    }

    /** Both of the frame's branches: it is finished, or it tries its next target. */
    function Popped(): Search
      requires stack != [] && path != []
    {
      Search(colour[Top().id := Black], path[..|path| - 1], stack[..|stack| - 1])
    }

    function Skipped(): Search
      requires stack != []
    {
      this.(stack := stack[|stack| - 1 := Top().(next := Top().next + 1)])
    }

    function Pushed(n: NodeId): Search
      requires stack != []
    {
      Search(colour[n := Grey], path + [n], Skipped().stack + [Frame(n, 0)])
    }
  }

  function Start(colour: Colours, n: NodeId): Search {
    Search(colour[n := Grey], [n], [Frame(n, 0)])
  }

  type Edges = map<NodeId, seq<NodeId>>

  /** `out.get(n) ?? []`. */
  function Out(out: Edges, n: NodeId): seq<NodeId> {
    if n in out then out[n] else []
  }

  ghost predicate AdjacencyOf(g: Graph, out: Edges) {
    forall n, t :: t in Out(out, n) <==> HasEdge(g, n, t)
  }

  /** Adjacency once, rather than rescanning every edge per node. */
  method Adjacency(g: Graph) returns (out: Edges)
    ensures AdjacencyOf(g, out)
    ensures forall n :: Out(out, n) == Targets(g.edges, n)
  {
    out := map[];
    for i := 0 to |g.edges|
      invariant forall n :: Out(out, n) == Targets(g.edges[..i], n)
    {
      var e := g.edges[i];
      assert g.edges[..i + 1][..i] == g.edges[..i];
      out := out[e.source := Out(out, e.source) + [e.target]];
    }
    assert g.edges[..|g.edges|] == g.edges;
    forall n, t ensures t in Out(out, n) <==> HasEdge(g, n, t) {
      TargetsOf(g, n, t);
    }
  }

  predicate IsBlack(colour: Colours, n: NodeId) {
    n in colour && colour[n].Black?
  }

  /** A finished node leads only to declared nodes that finished before it. */
  ghost predicate Done(out: Edges, colour: Colours, rank: map<NodeId, nat>, n: NodeId) {
    n in rank && forall t :: t in Out(out, n) && t in colour ==> IsBlack(colour, t) && t in rank && rank[t] < rank[n]
  }

  ghost predicate AllDone(out: Edges, colour: Colours, rank: map<NodeId, nat>) {
    forall n {:trigger Done(out, colour, rank, n)} :: IsBlack(colour, n) ==> Done(out, colour, rank, n)
  }

  ghost predicate Bounded(rank: map<NodeId, nat>, clock: nat) {
    forall n :: n in rank ==> rank[n] < clock
  }

  ghost predicate Linked(g: Graph, path: seq<NodeId>, i: nat) {
    i + 1 < |path| ==> HasEdge(g, path[i], path[i + 1])
  }

  /** The grey nodes are the path, and consecutive ones are joined by an edge. */
  ghost predicate GreyPath(g: Graph, s: Search) {
    && s.Shaped()
    && s.colour.Keys == Ids(g)
    && Distinct(s.path)
    && (forall n :: n in s.path <==> n in s.colour && s.colour[n].Grey?)
    && (forall i: nat {:trigger Linked(g, s.path, i)} :: Linked(g, s.path, i))
  }

  /** A target a frame has been past: undeclared, finished, or the node of the next frame. */
  predicate Past(s: Search, i: nat, t: NodeId) {
    t !in s.colour || s.colour[t].Black? || (i + 1 < |s.stack| && s.stack[i + 1].id == t)
  }

  ghost predicate Tried(out: Edges, s: Search, i: nat)
    requires i < |s.stack|
  {
    var f := s.stack[i];
    f.next <= |Out(out, f.id)| && forall m :: 0 <= m < f.next ==> Past(s, i, Out(out, f.id)[m])
  }

  ghost predicate AllTried(out: Edges, s: Search) {
    forall i: nat {:trigger Tried(out, s, i)} :: i < |s.stack| ==> Tried(out, s, i)
  }

  /** What holds whenever the search looks at the top of its stack. */
  ghost predicate Searching(g: Graph, out: Edges, s: Search, rank: map<NodeId, nat>, clock: nat) {
    AllDone(out, s.colour, rank) && Bounded(rank, clock) && GreyPath(g, s) && AllTried(out, s)
  }

  function Whites(colour: Colours): set<NodeId> {
    set n | n in colour && colour[n].White?
  }

  lemma StartKeeps(g: Graph, out: Edges, colour: Colours, rank: map<NodeId, nat>, clock: nat, n: NodeId)
    requires Searching(g, out, Search(colour, [], []), rank, clock) && n in colour && colour[n].White?
    ensures Searching(g, out, Start(colour, n), rank, clock)
    ensures Whites(Start(colour, n).colour) == Whites(colour) - {n}
  {
    var s := Start(colour, n);
    forall b | IsBlack(s.colour, b) ensures Done(out, s.colour, rank, b) {
      assert Done(out, colour, rank, b);
    }
  }

  lemma SkipKeeps(g: Graph, out: Edges, s: Search, rank: map<NodeId, nat>, clock: nat)
    requires Searching(g, out, s, rank, clock) && s.stack != []
    requires s.Top().next < |Out(out, s.Top().id)|
    requires var t := Out(out, s.Top().id)[s.Top().next];
      t !in s.colour || s.colour[t].Black?
    ensures Searching(g, out, s.Skipped(), rank, clock)
  {
    forall i: nat | i < |s.stack| ensures Tried(out, s.Skipped(), i) {
      assert Tried(out, s, i);
      forall m | 0 <= m < s.Skipped().stack[i].next ensures Past(s.Skipped(), i, Out(out, s.stack[i].id)[m]) {
        assert m < s.stack[i].next ==> Past(s, i, Out(out, s.stack[i].id)[m]);
      }
    }
  }

  lemma PopKeepsDone(g: Graph, out: Edges, s: Search, rank: map<NodeId, nat>, clock: nat)
    requires Searching(g, out, s, rank, clock) && s.stack != []
    requires s.Top().next >= |Out(out, s.Top().id)|
    ensures AllDone(out, s.colour[s.Top().id := Black], rank[s.Top().id := clock])
  {
    var n := s.Top().id;
    var last := |s.stack| - 1;
    assert n == s.path[last] && n in s.path;
    var colour, rank' := s.colour[n := Black], rank[n := clock];
    forall b | IsBlack(colour, b) ensures Done(out, colour, rank', b) {
      if b == n {
        assert Tried(out, s, last);
        forall t | t in Out(out, n) && t in colour ensures IsBlack(colour, t) && t in rank' && (t == n || rank'[t] < clock) {
          var m :| 0 <= m < |Out(out, n)| && Out(out, n)[m] == t;
          assert Past(s, last, Out(out, n)[m]);
          assert Done(out, s.colour, rank, t);
        }
        NoSelfTarget(g, out, s, n);
      } else {
        assert Done(out, s.colour, rank, b);
        assert !s.colour[n].Black?;
      }
    }
  }

  /** The top frame has been past none of its own node: that target would have been grey. */
  lemma NoSelfTarget(g: Graph, out: Edges, s: Search, n: NodeId)
    requires GreyPath(g, s) && AllTried(out, s) && s.stack != [] && n == s.Top().id
    requires s.Top().next >= |Out(out, n)|
    ensures n !in Out(out, n)
  {
    var last := |s.stack| - 1;
    assert n == s.path[last] && n in s.path && s.colour[n].Grey?;
    assert Tried(out, s, last);
    forall m | 0 <= m < |Out(out, n)| ensures Out(out, n)[m] != n {
      assert Past(s, last, Out(out, n)[m]);
    }
  }

  lemma PopKeepsPath(g: Graph, s: Search)
    requires GreyPath(g, s) && s.stack != []
    ensures GreyPath(g, s.Popped())
  {
    var p := s.Popped();
    assert s.path == p.path + [s.Top().id];
    forall n ensures n in p.path <==> n in p.colour && p.colour[n].Grey? {
      assert n in s.path <==> n in p.path || n == s.Top().id;
    }
    forall i: nat ensures Linked(g, p.path, i) {
      assert Linked(g, s.path, i);
    }
    assert s.Top().id in s.path;
  }

  lemma PopKeepsTried(g: Graph, out: Edges, s: Search)
    requires GreyPath(g, s) && AllTried(out, s) && s.stack != []
    ensures AllTried(out, s.Popped())
  {
    var p := s.Popped();
    forall i: nat | i < |p.stack| ensures Tried(out, p, i) {
      assert Tried(out, s, i);
      forall m | 0 <= m < p.stack[i].next ensures Past(p, i, Out(out, p.stack[i].id)[m]) {
        assert Past(s, i, Out(out, s.stack[i].id)[m]);
      }
    }
  }

  /** A frame with no target left is finished after everything it leads to. */
  lemma PopKeeps(g: Graph, out: Edges, s: Search, rank: map<NodeId, nat>, clock: nat)
    requires Searching(g, out, s, rank, clock) && s.stack != []
    requires s.Top().next >= |Out(out, s.Top().id)|
    ensures Searching(g, out, s.Popped(), rank[s.Top().id := clock], clock + 1)
    ensures Whites(s.Popped().colour) == Whites(s.colour)
  {
    PopKeepsDone(g, out, s, rank, clock);
    PopKeepsPath(g, s);
    PopKeepsTried(g, out, s);
    assert s.Top().id in s.path;
  }

  lemma PushKeepsPath(g: Graph, s: Search, t: NodeId)
    requires GreyPath(g, s) && s.stack != []
    requires t in s.colour && s.colour[t].White? && HasEdge(g, s.Top().id, t)
    ensures GreyPath(g, s.Pushed(t))
  {
    var p := s.Pushed(t);
    forall n ensures n in p.path <==> n in p.colour && p.colour[n].Grey? {
      assert n in p.path <==> n in s.path || n == t;
    }
    assert t !in s.path;
    forall i: nat ensures Linked(g, p.path, i) {
      assert Linked(g, s.path, i);
    }
  }

  lemma PushKeepsTried(out: Edges, s: Search, t: NodeId)
    requires AllTried(out, s) && s.stack != []
    requires s.Top().next < |Out(out, s.Top().id)| && t == Out(out, s.Top().id)[s.Top().next]
    requires t in s.colour && s.colour[t].White?
    ensures AllTried(out, s.Pushed(t))
  {
    var p := s.Pushed(t);
    forall i: nat | i < |p.stack| ensures Tried(out, p, i) {
      if i < |s.stack| {
        assert Tried(out, s, i);
        forall m | 0 <= m < p.stack[i].next ensures Past(p, i, Out(out, p.stack[i].id)[m]) {
          assert m < s.stack[i].next ==> Past(s, i, Out(out, s.stack[i].id)[m]);
        }
      }
    }
  }

  /** A white target becomes the new end of the path. */
  lemma PushKeeps(g: Graph, out: Edges, s: Search, rank: map<NodeId, nat>, clock: nat, t: NodeId)
    requires AdjacencyOf(g, out) && Searching(g, out, s, rank, clock) && s.stack != []
    requires s.Top().next < |Out(out, s.Top().id)| && t == Out(out, s.Top().id)[s.Top().next]
    requires t in s.colour && s.colour[t].White?
    ensures Searching(g, out, s.Pushed(t), rank, clock)
    ensures Whites(s.Pushed(t).colour) == Whites(s.colour) - {t} && t in Whites(s.colour)
  {
    assert t in Out(out, s.Top().id);
    PushKeepsPath(g, s, t);
    PushKeepsTried(out, s, t);
    forall b | IsBlack(s.Pushed(t).colour, b) ensures Done(out, s.Pushed(t).colour, rank, b) {
      assert Done(out, s.colour, rank, b);
    }
  }

  /** A grey target closes a loop with the path from its own position on. */
  lemma GreyClosesLoop(g: Graph, out: Edges, s: Search, t: NodeId, k: nat)
    requires AdjacencyOf(g, out) && GreyPath(g, s) && s.stack != []
    requires t in Out(out, s.Top().id) && k < |s.path| && s.path[k] == t
    ensures IsCycle(g, s.path[k..]) && Distinct(s.path[k..])
  {
    var c := s.path[k..];
    forall i, j | 0 <= i < j < |c| && j == i + 1 ensures HasEdge(g, c[i], c[j]) {
      assert Linked(g, s.path, k + i);
    }
    forall i | 0 <= i < |c| ensures c[i] in Ids(g) {
      assert s.path[k + i] in s.path;
    }
  }

  /** What the loop body needs to know about the top of the stack. */
  lemma TopOfStack(g: Graph, out: Edges, s: Search, rank: map<NodeId, nat>, clock: nat)
    requires Searching(g, out, s, rank, clock) && s.stack != []
    ensures |s.path| == |s.stack| && s.Top().id == s.path[|s.path| - 1]
    ensures s.Top().id in s.colour && s.colour[s.Top().id].Grey?
    ensures s.Top().next <= |Out(out, s.Top().id)|
    ensures forall n :: n in s.colour && s.colour[n].Grey? ==> n in s.path
    ensures GreyPath(g, s)
  {
    assert Tried(out, s, |s.stack| - 1);
    assert s.path[|s.path| - 1] in s.path;
  }

  /** The search from one white node: it turns the node black, or closes a loop. */
  method Explore(g: Graph, out: Edges, start: NodeId, colour: Colours, ghost rank: map<NodeId, nat>, ghost clock: nat)
    returns (cycle: Option<seq<NodeId>>, colour': Colours, ghost rank': map<NodeId, nat>, ghost clock': nat)
    requires AdjacencyOf(g, out)
    requires Searching(g, out, Search(colour, [], []), rank, clock) && start in colour && colour[start].White?
    ensures cycle.Some? ==> IsCycle(g, cycle.value) && Distinct(cycle.value)
    ensures cycle.None? ==> Searching(g, out, Search(colour', [], []), rank', clock')
    ensures cycle.None? ==> Whites(colour') <= Whites(colour) - {start}
  {
    StartKeeps(g, out, colour, rank, clock, start);
    hide Searching, GreyPath, AdjacencyOf, IsCycle;
    var s := Start(colour, start);
    rank', clock' := rank, clock;
    while s.stack != []
      invariant Searching(g, out, s, rank', clock')
      invariant |s.path| == |s.stack|
      invariant Whites(s.colour) <= Whites(colour) - {start}
      decreases Whites(s.colour), |s.stack|, if s.stack != [] then |Out(out, s.Top().id)| - s.Top().next else 0
    {
      TopOfStack(g, out, s, rank', clock');
      var frame := s.Top();
      var targets := Out(out, frame.id);
      if frame.next >= |targets| {
        PopKeeps(g, out, s, rank', clock');
        s, rank', clock' := s.Popped(), rank'[frame.id := clock'], clock' + 1;
        continue;
      }
      var next := targets[frame.next];
      if next !in s.colour || s.colour[next].Black? {
        SkipKeeps(g, out, s, rank', clock');
        s := s.Skipped();
      } else if s.colour[next].Grey? {
        var k :| 0 <= k < |s.path| && s.path[k] == next;
        GreyClosesLoop(g, out, s, next, k);
        return Some(s.path[k..]), s.colour, rank', clock';
      } else {
        PushKeeps(g, out, s, rank', clock', next);
        s := s.Pushed(next);
      }
    }
    cycle, colour' := None, s.colour;
  }

  lemma {:induction false} RanksFall(g: Graph, out: Edges, colour: Colours, rank: map<NodeId, nat>, c: seq<NodeId>, k: nat)
    requires AdjacencyOf(g, out) && AllDone(out, colour, rank) && IsCycle(g, c) && k < |c|
    requires forall i :: 0 <= i < |c| ==> IsBlack(colour, c[i])
    ensures c[0] in rank && c[k] in rank && rank[c[k]] + k <= rank[c[0]]
  {
    if k == 0 {
      assert Done(out, colour, rank, c[0]);
    } else {
      RanksFall(g, out, colour, rank, c, k - 1);
      assert HasEdge(g, c[k - 1], c[k]);
      assert Done(out, colour, rank, c[k - 1]);
    }
  }

  /** With every declared node finished there is no closed walk. */
  lemma NoCycleLeft(g: Graph, out: Edges, colour: Colours, rank: map<NodeId, nat>)
    requires AdjacencyOf(g, out) && AllDone(out, colour, rank)
    requires forall n :: n in Ids(g) ==> IsBlack(colour, n)
    ensures Acyclic(g)
  {
    forall c | IsCycle(g, c) ensures false {
      assert Done(out, colour, rank, c[|c| - 1]) && c[0] in Out(out, c[|c| - 1]);
      RanksFall(g, out, colour, rank, c, |c| - 1);
    }
  }

  /** Between two searches nothing is grey. */
  lemma BlackOrWhite(g: Graph, out: Edges, colour: Colours, rank: map<NodeId, nat>, clock: nat)
    requires Searching(g, out, Search(colour, [], []), rank, clock)
    ensures colour.Keys == Ids(g) && AllDone(out, colour, rank)
    ensures forall n :: n in colour ==> n in Whites(colour) || IsBlack(colour, n)
  {
    assert forall n :: n in Search(colour, [], []).path <==> n in colour && colour[n].Grey?;
  }

  lemma AllWhite(g: Graph, out: Edges, colour: Colours)
    requires colour.Keys == Ids(g) && forall n :: n in colour ==> colour[n].White?
    ensures Searching(g, out, Search(colour, [], []), map[], 0)
  {
  }

  /** findCycle: the nodes of a closed walk if there is one, and nothing exactly when there is none. */
  method FindCycle(g: Graph) returns (cycle: Option<seq<NodeId>>)
    ensures cycle.Some? ==> IsCycle(g, cycle.value) && Distinct(cycle.value)
    ensures cycle.None? <==> Acyclic(g)
  {
    var colour: Colours := map n | n in Ids(g) :: White;
    ghost var rank: map<NodeId, nat>, clock := map[], 0;
    var out := Adjacency(g);
    AllWhite(g, out, colour);
    hide Searching, AdjacencyOf, AllDone, IsCycle;
    ghost var tried: set<NodeId> := {};
    for s := 0 to |g.nodes|
      invariant Searching(g, out, Search(colour, [], []), rank, clock)
      invariant tried !! Whites(colour)
      invariant forall i :: 0 <= i < s ==> g.nodes[i].id in tried
    {
      BlackOrWhite(g, out, colour, rank, clock);
      var start := g.nodes[s].id;
      assert start in Ids(g);
      if colour[start].White? {
        cycle, colour, rank, clock := Explore(g, out, start, colour, rank, clock);
        if cycle.Some? {
          return;
        }
      }
      tried := tried + {start};
    }
    BlackOrWhite(g, out, colour, rank, clock);
    assert Ids(g) <= tried;
    NoCycleLeft(g, out, colour, rank);
    cycle := None;
  }
}
