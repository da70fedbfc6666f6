/** The journey compiler: from the canvas to the ordered list of messages, one per path. */
module Linearise {
  import opened Prelude
  import opened FlowGraph
  import MessageQueue

  type Channel = MessageQueue.Channel

  datatype Handle = Yes | No

  datatype Message = Message(
    nodeId: NodeId,
    channel: Channel,
    sequenceOrder: nat,
    delayMinutes: int,
    sendCondition: SendCondition,
    branchPath: Option<Handle>,
    subject: Option<string>,
    body: string,
    html: Option<string>)

  const MAX_DEPTH := 64

  /** The 'no' branch of a condition is its negation, not 'always'. */
  function Negate(c: SendCondition): SendCondition {
    match c
    case OpenedPrevious => NotOpenedPrevious
    case NotOpenedPrevious => OpenedPrevious
    case ClickedPrevious => NotClickedPrevious
    case NotClickedPrevious => ClickedPrevious
    case Replied => NotReplied
    case NotReplied => Replied
    case Always => Always
  }

  function OrZero(n: Option<int>): int {
    if n.Some? then n.value else 0
  }

  function IsSend(n: Node): bool {
    n.kind.SendEmail? || n.kind.SendSms?
  }

  /** The lookup map is built in node order, so the last node with an id wins. */
  function NodeOf(nodes: seq<Node>, id: NodeId): (n: Option<Node>)
    ensures n.Some? <==> exists i :: 0 <= i < |nodes| && nodes[i].id == id
    ensures n.Some? ==> n.value.id == id
  {
    if nodes == [] then None
    else if nodes[|nodes| - 1].id == id then Some(nodes[|nodes| - 1])
    else NodeOf(nodes[..|nodes| - 1], id)
  }

  function FirstTrigger(nodes: seq<Node>): Option<NodeId> {
    if nodes == [] then None
    else if nodes[0].kind.Trigger? then Some(nodes[0].id)
    else FirstTrigger(nodes[1..])
  }

  // ------------------------------------------------------------------- walks

  /** A walk is the list of the edges it takes, as positions in the edge list. */
  type Walk = seq<nat>

  function End(g: Graph, start: NodeId, w: Walk): NodeId {
    if w == [] || w[|w| - 1] >= |g.edges| then start else g.edges[w[|w| - 1]].target
  }

  function EndNode(g: Graph, start: NodeId, w: Walk): Option<Node> {
    NodeOf(g.nodes, End(g, start, w))
  }

  /** An edge continues a walk if it leaves the walk's end, which is declared and not an exit. */
  predicate Continues(g: Graph, start: NodeId, w: Walk, e: nat) {
    && e < |g.edges| && g.edges[e].source == End(g, start, w)
    && EndNode(g, start, w).Some? && !EndNode(g, start, w).value.kind.Exit?
  }

  predicate IsWalk(g: Graph, start: NodeId, w: Walk) {
    w == [] || (IsWalk(g, start, w[..|w| - 1]) && Continues(g, start, w[..|w| - 1], w[|w| - 1]))
  }

  predicate IsSendWalk(g: Graph, start: NodeId, w: Walk) {
    IsWalk(g, start, w) && EndNode(g, start, w).Some? && IsSend(EndNode(g, start, w).value)
  }

  /** Depth-first, edges in order: a walk comes before its extensions, and a lower edge before a higher one. */
  ghost predicate Before(a: Walk, b: Walk) {
    exists n: nat :: PartsAt(a, b, n)
  }

  predicate PartsAt(a: Walk, b: Walk, n: nat) {
    n <= |a| && n < |b| && (forall k :: 0 <= k < n ==> a[k] == b[k]) && (n == |a| || a[n] < b[n])
  }

  // ----------------------------------------------- what a walk says of a message

  function Wait(n: Node): int {
    match n.kind
    case Delay => OrZero(n.data.delayMinutes)
    case Condition => OrZero(n.data.waitMinutes)
    case _ => 0
  }

  /** The waits of every node the walk leaves behind. */
  function TotalDelay(g: Graph, start: NodeId, w: Walk): int {
    if w == [] then 0
    else
      var before := w[..|w| - 1];
      var n := EndNode(g, start, before);
      TotalDelay(g, start, before) + (if n.Some? then Wait(n.value) else 0)
  }

  function HandleOf(e: Edge): Handle {
    if e.sourceHandle == Some("no") then No else Yes
  }

  function Chosen(n: Node): SendCondition {
    if n.data.condition.Some? then n.data.condition.value else OpenedPrevious
  }

  /** The handle by which the walk left its last condition node. */
  function BranchPath(g: Graph, start: NodeId, w: Walk): Option<Handle> {
    if w == [] then None
    else
      var before, e := w[..|w| - 1], w[|w| - 1];
      var n := EndNode(g, start, before);
      if n.Some? && n.value.kind.Condition? && e < |g.edges| then Some(HandleOf(g.edges[e]))
      else BranchPath(g, start, before)
  }

  /** The last condition node's condition, negated on its 'no' side; a trigger node starts over at 'always'. */
  function ConditionAlong(g: Graph, start: NodeId, w: Walk): SendCondition {
    if w == [] then Always
    else
      var before, e := w[..|w| - 1], w[|w| - 1];
      var n := EndNode(g, start, before);
      if n.Some? && n.value.kind.Condition? && e < |g.edges| then
        (if HandleOf(g.edges[e]).Yes? then Chosen(n.value) else Negate(Chosen(n.value)))
      else if n.Some? && n.value.kind.Trigger? then Always
      else ConditionAlong(g, start, before)
  }

  function MessageFor(n: Node, order: nat, delay: int, condition: SendCondition, branch: Option<Handle>): Message {
    var email := n.kind.SendEmail?;
    Message(n.id, if email then MessageQueue.Email else MessageQueue.Sms, order, delay, condition, branch,
            if email then n.data.subject else None,
            if n.data.body.Some? then n.data.body.value else "",
            if email then n.data.html else None)
  }

  function MessageOf(g: Graph, start: NodeId, w: Walk, order: nat): Message
    requires EndNode(g, start, w).Some?
  {
    MessageFor(EndNode(g, start, w).value, order, TotalDelay(g, start, w),
               ConditionAlong(g, start, w), BranchPath(g, start, w))
  }

  // ------------------------------------------------------- the walks, enumerated

  /** The send walks that extend `w`, in the order the compiler meets them. */
  function Collect(g: Graph, start: NodeId, w: Walk): seq<Walk>
    decreases MAX_DEPTH + 1 - |w|, |g.edges| + 1
  {
    if |w| > MAX_DEPTH || EndNode(g, start, w).None? then []
    else
      var n := EndNode(g, start, w).value;
      (if IsSend(n) then [w] else []) + (if n.kind.Exit? then [] else CollectTo(g, start, w, |g.edges|))
  }

  function CollectTo(g: Graph, start: NodeId, w: Walk, e: nat): seq<Walk>
    requires |w| <= MAX_DEPTH && e <= |g.edges|
    decreases MAX_DEPTH + 1 - |w|, e
  {
    if e == 0 then []
    else
      CollectTo(g, start, w, e - 1) + CollectStep(g, start, w, e - 1)
  }

  function SendWalks(g: Graph): seq<Walk> {
    var t := FirstTrigger(g.nodes);
    if t.None? then [] else Collect(g, t.value, [])
  }

  lemma WalkAppend(g: Graph, start: NodeId, w: Walk, e: nat)
    ensures IsWalk(g, start, w + [e]) <==> IsWalk(g, start, w) && Continues(g, start, w, e)
  {
    assert (w + [e])[..|w|] == w;
  }

  lemma {:induction false} PrefixIsWalk(g: Graph, start: NodeId, w: Walk, x: Walk)
    requires w <= x && IsWalk(g, start, x)
    ensures IsWalk(g, start, w)
    ensures |w| < |x| ==> Continues(g, start, w, x[|w|])
    decreases |x|
  {
    if |w| < |x| {
      var y := x[..|x| - 1];
      if |w| < |y| {
        PrefixIsWalk(g, start, w, y);
      } else {
        assert w == y;
      }
    } else {
      assert w == x;
    }
  }

  lemma PrefixStep(w: Walk, x: Walk, e: nat)
    ensures w + [e] <= x <==> w < x && x[|w|] == e
    ensures w <= x && |w| == |x| ==> w == x
  {
    if w < x && x[|w|] == e {
      assert x[..|w| + 1] == w + [e];
    }
  }

  /** The enumeration holds exactly the bounded send walks. */
  lemma {:induction false} CollectExact(g: Graph, start: NodeId, w: Walk, x: Walk)
    requires IsWalk(g, start, w)
    ensures x in Collect(g, start, w) <==> w <= x && |x| <= MAX_DEPTH && IsSendWalk(g, start, x)
    decreases MAX_DEPTH + 1 - |w|, |g.edges| + 1
  {
    if w <= x {
      PrefixStep(w, x, 0);
      if |w| < |x| && IsWalk(g, start, x) {
        PrefixIsWalk(g, start, w, x);
      }
    }
    if |w| <= MAX_DEPTH && EndNode(g, start, w).Some? && !EndNode(g, start, w).value.kind.Exit? {
      CollectToExact(g, start, w, |g.edges|, x);
    }
  }

  lemma {:induction false} CollectToExact(g: Graph, start: NodeId, w: Walk, e: nat, x: Walk)
    requires IsWalk(g, start, w) && |w| <= MAX_DEPTH && e <= |g.edges|
    requires EndNode(g, start, w).Some? && !EndNode(g, start, w).value.kind.Exit?
    ensures x in CollectTo(g, start, w, e) <==>
      && w < x && x[|w|] < e && |x| <= MAX_DEPTH && IsSendWalk(g, start, x)
    decreases MAX_DEPTH + 1 - |w|, e
  {
    if e > 0 {
      CollectToExact(g, start, w, e - 1, x);
      PrefixStep(w, x, e - 1);
      StepExact(g, start, w, e - 1, x);
    }
  }

  /** The walks that take edge `e` next, if it leaves the walk's end at all. */
  function CollectStep(g: Graph, start: NodeId, w: Walk, e: nat): seq<Walk>
    requires |w| <= MAX_DEPTH && e < |g.edges|
    decreases MAX_DEPTH + 1 - |w|, 0
  {
    if g.edges[e].source == End(g, start, w) then Collect(g, start, w + [e]) else []
  }

  lemma {:induction false} StepExact(g: Graph, start: NodeId, w: Walk, e: nat, x: Walk)
    requires IsWalk(g, start, w) && |w| <= MAX_DEPTH && e < |g.edges|
    requires EndNode(g, start, w).Some? && !EndNode(g, start, w).value.kind.Exit?
    ensures x in CollectStep(g, start, w, e) <==> w + [e] <= x && |x| <= MAX_DEPTH && IsSendWalk(g, start, x)
    decreases MAX_DEPTH + 1 - |w|, 0
  {
    WalkAppend(g, start, w, e);
    if g.edges[e].source == End(g, start, w) {
      CollectExact(g, start, w + [e], x);
    } else if w + [e] <= x && IsWalk(g, start, x) {
      PrefixIsWalk(g, start, w + [e], x);
    }
  }

  ghost predicate InOrder(ws: seq<Walk>) {
    forall i, j :: 0 <= i < j < |ws| ==> Before(ws[i], ws[j])
  }

  lemma {:induction false} CollectInOrder(g: Graph, start: NodeId, w: Walk)
    requires IsWalk(g, start, w)
    ensures InOrder(Collect(g, start, w))
    decreases MAX_DEPTH + 1 - |w|, |g.edges| + 1
  {
    if |w| <= MAX_DEPTH && EndNode(g, start, w).Some? && !EndNode(g, start, w).value.kind.Exit? {
      CollectToInOrder(g, start, w, |g.edges|);
      var rest := CollectTo(g, start, w, |g.edges|);
      forall j | 0 <= j < |rest| ensures Before(w, rest[j]) {
        CollectToExact(g, start, w, |g.edges|, rest[j]);
        assert PartsAt(w, rest[j], |w|);
      }
    }
  }

  lemma {:induction false} CollectToInOrder(g: Graph, start: NodeId, w: Walk, e: nat)
    requires IsWalk(g, start, w) && |w| <= MAX_DEPTH && e <= |g.edges|
    requires EndNode(g, start, w).Some? && !EndNode(g, start, w).value.kind.Exit?
    ensures InOrder(CollectTo(g, start, w, e))
    decreases MAX_DEPTH + 1 - |w|, e
  {
    hide *;
    if e == 0 {
      NoneInOrder(g, start, w);
    } else {
      CollectToInOrder(g, start, w, e - 1);
      StepInOrder(g, start, w, e - 1);
      HeadBeforeTail(g, start, w, e - 1);
      InOrderConcat(CollectTo(g, start, w, e - 1), CollectStep(g, start, w, e - 1));
      CollectToStep(g, start, w, e);
    }
  }

  lemma {:induction false} StepInOrder(g: Graph, start: NodeId, w: Walk, e: nat)
    requires IsWalk(g, start, w) && |w| <= MAX_DEPTH && e < |g.edges|
    requires EndNode(g, start, w).Some? && !EndNode(g, start, w).value.kind.Exit?
    ensures InOrder(CollectStep(g, start, w, e))
    decreases MAX_DEPTH + 1 - |w|, 0
  {
    hide Before, Collect;
    WalkAppend(g, start, w, e);
    if g.edges[e].source == End(g, start, w) {
      CollectInOrder(g, start, w + [e]);
    }
  }

  lemma NoneInOrder(g: Graph, start: NodeId, w: Walk)
    requires |w| <= MAX_DEPTH
    ensures InOrder(CollectTo(g, start, w, 0))
  {
  }

  lemma CollectToStep(g: Graph, start: NodeId, w: Walk, e: nat)
    requires |w| <= MAX_DEPTH && 0 < e <= |g.edges|
    ensures CollectTo(g, start, w, e) == CollectTo(g, start, w, e - 1) + CollectStep(g, start, w, e - 1)
  {
    hide CollectStep;
  }

  /** Walks by lower edges come before walks by the next one. */
  lemma HeadBeforeTail(g: Graph, start: NodeId, w: Walk, e: nat)
    requires IsWalk(g, start, w) && |w| <= MAX_DEPTH && e < |g.edges|
    requires EndNode(g, start, w).Some? && !EndNode(g, start, w).value.kind.Exit?
    ensures forall i, j :: 0 <= i < |CollectTo(g, start, w, e)| && 0 <= j < |CollectStep(g, start, w, e)| ==>
      Before(CollectTo(g, start, w, e)[i], CollectStep(g, start, w, e)[j])
  {
    var head, tail := CollectTo(g, start, w, e), CollectStep(g, start, w, e);
    hide *;
    forall i, j | 0 <= i < |head| && 0 <= j < |tail| ensures Before(head[i], tail[j]) {
      CollectToExact(g, start, w, e, head[i]);
      StepExact(g, start, w, e, tail[j]);
      PrefixStep(w, tail[j], e);
      LowerEdgeFirst(w, head[i], tail[j]);
    }
  }

  lemma InOrderConcat(a: seq<Walk>, b: seq<Walk>)
    requires InOrder(a) && InOrder(b)
    requires forall i, j :: 0 <= i < |a| && 0 <= j < |b| ==> Before(a[i], b[j])
    ensures InOrder(a + b)
  {
  }

  lemma LowerEdgeFirst(w: Walk, a: Walk, b: Walk)
    requires w < a && w < b && a[|w|] < b[|w|]
    ensures Before(a, b)
  {
    assert PartsAt(a, b, |w|);
  }

  // --------------------------------------------------------------- the compiler

  function Numbered(g: Graph, start: NodeId, ws: seq<Walk>, after: nat): seq<Message>
    requires forall x :: x in ws ==> EndNode(g, start, x).Some?
  {
    seq(|ws|, i requires 0 <= i < |ws| => MessageOf(g, start, ws[i], after + i + 1))
  }

  /** The messages of the walks `ws` were appended, numbered on. */
  ghost predicate Appends(g: Graph, start: NodeId, ws: seq<Walk>,
                          before: seq<Message>, from: nat, after: seq<Message>, to: nat) {
    && (forall x :: x in ws ==> EndNode(g, start, x).Some?)
    && after == before + Numbered(g, start, ws, from)
    && to == from + |ws|
  }

  lemma AppendsNothing(g: Graph, start: NodeId, messages: seq<Message>, n: nat)
    ensures Appends(g, start, [], messages, n, messages, n)
  {
  }

  lemma AppendsOne(g: Graph, start: NodeId, w: Walk, before: seq<Message>, from: nat)
    requires EndNode(g, start, w).Some?
    ensures Appends(g, start, [w], before, from, before + [MessageOf(g, start, w, from + 1)], from + 1)
  {
  }

  lemma AppendsMore(g: Graph, start: NodeId, a: seq<Walk>, b: seq<Walk>, m0: seq<Message>, n0: nat,
                    m1: seq<Message>, n1: nat, m2: seq<Message>, n2: nat)
    requires Appends(g, start, a, m0, n0, m1, n1) && Appends(g, start, b, m1, n1, m2, n2)
    ensures Appends(g, start, a + b, m0, n0, m2, n2)
  {
    hide MessageOf, EndNode;
    assert Numbered(g, start, a + b, n0) == Numbered(g, start, a, n0) + Numbered(g, start, b, n1);
  }

  /** Which walks one call of `walk` adds: its own node's, if it sends, then those along its edges. */
  lemma CollectSplit(g: Graph, start: NodeId, w: Walk)
    ensures |w| > MAX_DEPTH || EndNode(g, start, w).None? ==> Collect(g, start, w) == []
    ensures |w| <= MAX_DEPTH && EndNode(g, start, w).Some? ==>
      var n := EndNode(g, start, w).value;
      var own := if IsSend(n) then [w] else [];
      Collect(g, start, w) == if n.kind.Exit? then own else own + CollectTo(g, start, w, |g.edges|)
  {
  }

  lemma CollectToSplit(g: Graph, start: NodeId, w: Walk, e: nat)
    requires |w| <= MAX_DEPTH && e < |g.edges|
    ensures CollectTo(g, start, w, e + 1) == CollectTo(g, start, w, e) +
            (if g.edges[e].source == End(g, start, w) then Collect(g, start, w + [e]) else [])
  {
  }

  /** What one more edge adds to the delay, the branch and the condition. */
  lemma StepFacts(g: Graph, start: NodeId, w: Walk, e: nat, node: Node)
    requires e < |g.edges| && EndNode(g, start, w) == Some(node)
    ensures End(g, start, w + [e]) == g.edges[e].target
    ensures TotalDelay(g, start, w + [e]) == TotalDelay(g, start, w) + Wait(node)
    ensures BranchPath(g, start, w + [e]) ==
      if node.kind.Condition? then Some(HandleOf(g.edges[e])) else BranchPath(g, start, w)
    ensures ConditionAlong(g, start, w + [e]) ==
      if node.kind.Condition? then (if HandleOf(g.edges[e]).Yes? then Chosen(node) else Negate(Chosen(node)))
      else if node.kind.Trigger? then Always
      else ConditionAlong(g, start, w)
  {
    assert (w + [e])[..|w|] == w;
  }

  /** The closure `walk` and the variables it mutates. */
  class Compiler {
    const g: Graph
    var messages: seq<Message>
    var sequence: nat

    constructor (g: Graph)
      ensures this.g == g && messages == [] && sequence == 0
    {
      this.g := g;
      messages, sequence := [], 0;
    }

    /** `walk`: appends the messages of every send walk that extends `w`, numbering them on. */
    method Walk(nodeId: NodeId, cumulativeDelay: int, branchPath: Option<Handle>, condition: SendCondition, depth: nat,
                ghost start: NodeId, ghost w: Walk)
      requires IsWalk(g, start, w) && depth == |w| <= MAX_DEPTH + 1 && nodeId == End(g, start, w)
      requires cumulativeDelay == TotalDelay(g, start, w)
      requires branchPath == BranchPath(g, start, w) && condition == ConditionAlong(g, start, w)
      modifies this
      ensures Appends(g, start, Collect(g, start, w), old(messages), old(sequence), messages, sequence)
      decreases MAX_DEPTH + 1 - depth, 1
    {
      hide IsWalk, Collect, CollectTo, Appends, TotalDelay, BranchPath, ConditionAlong;
      CollectSplit(g, start, w);
      AppendsNothing(g, start, messages, sequence);
      if depth > MAX_DEPTH {
        return;
      }
      var found := NodeOf(g.nodes, nodeId);
      if found.None? {
        return;
      }
      var node := found.value;
      ghost var own: seq<Walk> := if IsSend(node) then [w] else [];
      if IsSend(node) {
        AppendsOne(g, start, w, messages, sequence);
        sequence := sequence + 1;
        messages := messages + [MessageFor(node, sequence, cumulativeDelay, condition, branchPath)];
      }
      if node.kind.Exit? {
        return;
      }
      ghost var m1, n1 := messages, sequence;
      WalkEdges(node, cumulativeDelay + Wait(node), branchPath, condition, depth, start, w);
      AppendsMore(g, start, own, CollectTo(g, start, w, |g.edges|),
                  old(messages), old(sequence), m1, n1, messages, sequence);
    }

    /** The two loops of `walk`: over a condition's branches, or over any other node's edges. */
    method WalkEdges(node: Node, delay: int, branchPath: Option<Handle>, condition: SendCondition, depth: nat,
                     ghost start: NodeId, ghost w: Walk)
      requires IsWalk(g, start, w) && depth == |w| <= MAX_DEPTH
      requires EndNode(g, start, w) == Some(node) && node.id == End(g, start, w) && !node.kind.Exit?
      requires delay == TotalDelay(g, start, w) + Wait(node)
      requires branchPath == BranchPath(g, start, w) && condition == ConditionAlong(g, start, w)
      modifies this
      ensures Appends(g, start, CollectTo(g, start, w, |g.edges|), old(messages), old(sequence), messages, sequence)
      decreases MAX_DEPTH + 1 - depth, 0, 1
    {
      hide IsWalk, Collect, CollectTo, Appends, TotalDelay, BranchPath, ConditionAlong, End, EndNode;
      NoEdgesYet(g, start, w);
      AppendsNothing(g, start, messages, sequence);
      for e := 0 to |g.edges|
        invariant Appends(g, start, CollectTo(g, start, w, e), old(messages), old(sequence), messages, sequence)
      {
        CollectToSplit(g, start, w, e);
        ghost var m1, n1 := messages, sequence;
        if g.edges[e].source == node.id {
          WalkEdge(e, node, delay, branchPath, condition, depth, start, w);
          AppendsMore(g, start, CollectTo(g, start, w, e), Collect(g, start, w + [e]),
                      old(messages), old(sequence), m1, n1, messages, sequence);
        } else {
          assert CollectTo(g, start, w, e) + [] == CollectTo(g, start, w, e);
        }
      }
    }

    method WalkEdge(e: nat, node: Node, delay: int, branchPath: Option<Handle>, condition: SendCondition, depth: nat,
                    ghost start: NodeId, ghost w: Walk)
      requires IsWalk(g, start, w) && depth == |w| <= MAX_DEPTH && e < |g.edges|
      requires EndNode(g, start, w) == Some(node) && g.edges[e].source == End(g, start, w) && !node.kind.Exit?
      requires delay == TotalDelay(g, start, w) + Wait(node)
      requires branchPath == BranchPath(g, start, w) && condition == ConditionAlong(g, start, w)
      modifies this
      ensures Appends(g, start, Collect(g, start, w + [e]), old(messages), old(sequence), messages, sequence)
      decreases MAX_DEPTH + 1 - depth, 0, 0
    {
      hide Collect, Appends;
      WalkAppend(g, start, w, e);
      StepFacts(g, start, w, e, node);
      var edge := g.edges[e];
      if node.kind.Condition? {
        var handle := HandleOf(edge);
        var chosen := Chosen(node);
        Walk(edge.target, delay, Some(handle), if handle.Yes? then chosen else Negate(chosen), depth + 1, start, w + [e]);
      } else {
        Walk(edge.target, delay, branchPath, if node.kind.Trigger? then Always else condition, depth + 1, start, w + [e]);
      }
    }
  }

  lemma NoEdgesYet(g: Graph, start: NodeId, w: Walk)
    requires |w| <= MAX_DEPTH
    ensures CollectTo(g, start, w, 0) == []
  {
  }

  /** The messages a graph compiles to: one for each bounded send walk from the trigger, in depth-first order. */
  ghost predicate CompilesTo(g: Graph, messages: seq<Message>) {
    && |messages| == |SendWalks(g)|
    && (FirstTrigger(g.nodes).None? ==> messages == [])
    && forall i {:trigger messages[i]} :: 0 <= i < |messages| ==>
         && EndNode(g, FirstTrigger(g.nodes).value, SendWalks(g)[i]).Some?
         && messages[i] == MessageOf(g, FirstTrigger(g.nodes).value, SendWalks(g)[i], i + 1)
  }

  lemma CompilesToOne(g: Graph, a: seq<Message>, b: seq<Message>)
    requires CompilesTo(g, a) && CompilesTo(g, b)
    ensures a == b
  {
    hide SendWalks, MessageOf, EndNode, FirstTrigger;
    forall i | 0 <= i < |a| ensures a[i] == b[i] {
    }
  }

  /** lineariseFlow. */
  method LineariseFlow(g: Graph) returns (messages: seq<Message>)
    ensures CompilesTo(g, messages)
  {
    var t := FirstTrigger(g.nodes);
    if t.None? {
      return [];
    }
    var c := new Compiler(g);
    c.Walk(t.value, 0, None, Always, 0, t.value, []);
    messages := c.messages;
  }

  /** What the messages stand for: exactly the send walks of at most 64 edges, each once, depth first. */
  lemma SendWalksExact(g: Graph, start: NodeId, x: Walk)
    requires FirstTrigger(g.nodes) == Some(start)
    ensures x in SendWalks(g) <==>
      && |x| <= 64 && IsWalk(g, start, x) && EndNode(g, start, x).Some?
      && EndNode(g, start, x).value.kind in {SendEmail, SendSms}
    ensures InOrder(SendWalks(g))
  {
    CollectExact(g, start, [], x);
    CollectInOrder(g, start, []);
  }

  /** In depth-first order no walk comes twice. */
  lemma BeforeIsStrict(a: Walk, b: Walk)
    requires Before(a, b)
    ensures a != b
    ensures !Before(b, a)
  {
    var n: nat :| PartsAt(a, b, n);
    if Before(b, a) {
      var m: nat :| PartsAt(b, a, m);
    }
  }

  // ------------------------------------------------------- when nothing is cut

  /** The nodes a walk visits, in order. */
  function Visits(g: Graph, start: NodeId, w: Walk): (p: seq<NodeId>)
    ensures |p| == |w| + 1 && p[|w|] == End(g, start, w)
  {
    if w == [] then [start] else Visits(g, start, w[..|w| - 1]) + [End(g, start, w)]
  }

  lemma {:induction false} VisitsArePath(g: Graph, start: NodeId, w: Walk)
    requires IsWalk(g, start, w) && EndNode(g, start, w).Some?
    ensures IsPath(g, Visits(g, start, w))
    ensures forall i :: 0 <= i < |Visits(g, start, w)| ==> Visits(g, start, w)[i] in Ids(g)
  {
    NodeOfDeclared(g, End(g, start, w));
    if w != [] {
      var before, e := w[..|w| - 1], w[|w| - 1];
      VisitsArePath(g, start, before);
      assert HasEdge(g, End(g, start, before), End(g, start, w)) by {
        assert g.edges[e].source == End(g, start, before) && g.edges[e].target == End(g, start, w);
      }
    }
  }

  lemma NodeOfDeclared(g: Graph, id: NodeId)
    requires NodeOf(g.nodes, id).Some?
    ensures id in Ids(g)
  {
  }

  /** More positions than values: two positions hold the same value. */
  lemma {:induction false} Pigeonhole(p: seq<NodeId>, s: set<NodeId>)
    requires forall i :: 0 <= i < |p| ==> p[i] in s
    requires |p| > |s|
    ensures !Distinct(p)
    decreases |p|
  {
    var last, rest := p[|p| - 1], p[..|p| - 1];
    if last in rest {
      var i :| 0 <= i < |rest| && rest[i] == last;
      assert p[i] == p[|p| - 1];
    } else {
      Pigeonhole(rest, s - {last});
      var i, j :| 0 <= i < j < |rest| && rest[i] == rest[j];
      assert p[i] == p[j];
    }
  }

  lemma {:induction false} IdsWithinNodes(nodes: seq<Node>)
    ensures |Ids(Graph(nodes, []))| <= |nodes|
  {
    if nodes != [] {
      var rest := nodes[..|nodes| - 1];
      IdsWithinNodes(rest);
      assert Ids(Graph(nodes, [])) == Ids(Graph(rest, [])) + {nodes[|nodes| - 1].id} by {
        forall n ensures n in Ids(Graph(nodes, [])) <==> n in Ids(Graph(rest, [])) || n == nodes[|nodes| - 1].id {
          assert forall i :: 0 <= i < |rest| ==> rest[i] == nodes[i];
        }
      }
    }
  }

  /** A path that visits a node twice closes a loop. */
  lemma RepeatClosesLoop(g: Graph, p: seq<NodeId>, i: nat, j: nat)
    requires IsPath(g, p) && i < j < |p| && p[i] == p[j]
    requires forall k :: 0 <= k < |p| ==> p[k] in Ids(g)
    ensures IsCycle(g, p[i..j])
  {
    assert HasEdge(g, p[j - 1], p[j]);
  }

  /** Without a loop, a walk of declared nodes is shorter than the node list. */
  lemma AcyclicWalksAreShort(g: Graph, start: NodeId, w: Walk)
    requires Acyclic(g) && IsWalk(g, start, w) && EndNode(g, start, w).Some?
    ensures |w| < |g.nodes|
  {
    var p := Visits(g, start, w);
    VisitsArePath(g, start, w);
    IdsWithinNodes(g.nodes);
    assert Ids(g) == Ids(Graph(g.nodes, []));
    if |w| >= |g.nodes| {
      Pigeonhole(p, Ids(g));
      var i, j :| 0 <= i < j < |p| && p[i] == p[j];
      RepeatClosesLoop(g, p, i, j);
    }
  }

  /** When there is no loop and there are at most 65 nodes, the depth bound drops nothing. */
  lemma DepthBoundDropsNothing(g: Graph, start: NodeId, x: Walk)
    requires FirstTrigger(g.nodes) == Some(start)
    requires Acyclic(g) && |g.nodes| <= 65
    ensures x in SendWalks(g) <==> IsSendWalk(g, start, x)
  {
    SendWalksExact(g, start, x);
    if IsSendWalk(g, start, x) {
      AcyclicWalksAreShort(g, start, x);
    }
  }
}
