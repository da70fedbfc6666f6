/** What the messages of a journey say of its nodes: when they go, to whom, and with which content. */
module SendConditions {
  import opened Prelude
  import opened FlowGraph
  import opened Linearise
  import MessageQueue

  // ------------------------------------------------------------------- what a condition asks

  datatype Previous = Previous(wasOpened: bool, wasClicked: bool)

  /** What is known of a recipient: the message before this one, if one was sent, and whether a reply came. */
  datatype History = History(previous: Option<Previous>, replied: bool)

  /** The gate messageConditionSatisfied: without an earlier message a positive condition fails, a negative one passes. */
  predicate Met(c: SendCondition, h: History) {
    if c.Always? then true
    else
      var needsPrevious := c.OpenedPrevious? || c.NotOpenedPrevious? || c.ClickedPrevious? || c.NotClickedPrevious?;
      var wantHappened := c.OpenedPrevious? || c.ClickedPrevious? || c.Replied?;
      if needsPrevious && h.previous.None? then !wantHappened
      else
        var happened :=
          if c.OpenedPrevious? || c.NotOpenedPrevious? then h.previous.value.wasOpened
          else if c.ClickedPrevious? || c.NotClickedPrevious? then h.previous.value.wasClicked
          else h.replied;
        happened == wantHappened
  }

  /** Of a condition and its negation every recipient meets exactly one, but for `always`, which has none. */
  lemma NegationSplits(c: SendCondition, h: History)
    ensures Met(Negate(c), h) <==> c.Always? || !Met(c, h)
  {
  }

  /** Conditions that every recipient meets alike are the same condition. */
  lemma ConditionsDiffer(a: SendCondition, b: SendCondition)
    ensures (forall h :: Met(a, h) == Met(b, h)) <==> a == b
  {
    if a != b {
      var nothing := History(None, false);
      var replied := History(None, true);
      var openedIt := History(Some(Previous(true, false)), false);
      var clickedIt := History(Some(Previous(false, true)), false);
      assert Met(a, nothing) != Met(b, nothing) || Met(a, replied) != Met(b, replied)
        || Met(a, openedIt) != Met(b, openedIt) || Met(a, clickedIt) != Met(b, clickedIt);
    }
  }

  // ---------------------------------------------------------------------- one step of a walk

  /** What a node asks of the recipients of everything behind its `yes` side: `opened_previous`, unless it says. */
  predicate Asks(n: Node, h: History) {
    if n.data.condition.Some? then Met(n.data.condition.value, h)
    else h.previous.Some? && h.previous.value.wasOpened
  }

  /** The side of a condition node an edge leaves by: any handle but `no` is the `yes` side. */
  predicate LeavesByNo(e: Edge) {
    e.sourceHandle.Some? && e.sourceHandle.value == "no"
  }

  predicate AlwaysAsks(n: Node) {
    n.data.condition.Some? && n.data.condition.value.Always?
  }

  /** What leaving a node by an edge adds to the messages behind it. */
  lemma EdgeTells(g: Graph, start: NodeId, w: Walk, e: nat, n: Node, h: History)
    requires e < |g.edges| && EndNode(g, start, w) == Some(n)
    ensures
      var waited := match n.kind
        case Delay => n.data.delayMinutes
        case Condition => n.data.waitMinutes
        case _ => None;
      TotalDelay(g, start, w + [e]) == TotalDelay(g, start, w) + (match waited case Some(m) => m case None => 0)
    ensures n.kind.Condition? ==>
      && BranchPath(g, start, w + [e]) == Some(if LeavesByNo(g.edges[e]) then No else Yes)
      && (Met(ConditionAlong(g, start, w + [e]), h) <==>
            AlwaysAsks(n) || (if LeavesByNo(g.edges[e]) then !Asks(n, h) else Asks(n, h)))
    ensures !n.kind.Condition? ==> BranchPath(g, start, w + [e]) == BranchPath(g, start, w)
    ensures n.kind.Trigger? ==> ConditionAlong(g, start, w + [e]) == Always
    ensures !n.kind.Condition? && !n.kind.Trigger? ==>
      ConditionAlong(g, start, w + [e]) == ConditionAlong(g, start, w)
  {
    StepFacts(g, start, w, e, n);
    NegationSplits(Chosen(n), h);
    hide TotalDelay, BranchPath, ConditionAlong, EndNode, End;
  }

  lemma MessageIs(g: Graph, ms: seq<Message>, start: NodeId, i: nat)
    requires CompilesTo(g, ms) && FirstTrigger(g.nodes) == Some(start) && i < |ms|
    ensures i < |SendWalks(g)| && EndNode(g, start, SendWalks(g)[i]).Some?
    ensures ms[i] == MessageOf(g, start, SendWalks(g)[i], i + 1)
  {
    hide SendWalks, MessageOf, EndNode;
    var m := ms[i];
  }

  // ------------------------------------------------------------- two walks that part at a node

  /** The walk goes on from `w` and meets no further condition and no trigger. */
  predicate GoesOnPlainly(g: Graph, start: NodeId, w: Walk, x: Walk) {
    w <= x && forall k {:trigger x[..k]} :: |w| <= k < |x| ==>
      var n := EndNode(g, start, x[..k]);
      n.Some? ==> !n.value.kind.Condition? && !n.value.kind.Trigger?
  }

  lemma {:induction false} KeptAlong(g: Graph, start: NodeId, w: Walk, x: Walk)
    requires GoesOnPlainly(g, start, w, x)
    ensures BranchPath(g, start, x) == BranchPath(g, start, w)
    ensures ConditionAlong(g, start, x) == ConditionAlong(g, start, w)
    decreases |x|
  {
    if |x| == |w| {
      assert x == w;
    } else {
      var y := x[..|x| - 1];
      assert w <= y;
      assert x[..|x| - 1] == y;
      forall k {:trigger y[..k]} | |w| <= k < |y| ensures y[..k] == x[..k] {
      }
      KeptAlong(g, start, w, y);
    }
  }

  /**
   * Two messages of one compiled journey whose walks part at a condition node, one by its `yes` side and one by its
   * `no` side, and meet no other condition: the first goes to exactly the recipients the node asks for, the second to
   * exactly the others. Only a node that asks `always` sends both to everyone.
   */
  lemma SidesShareTheRecipients(g: Graph, ms: seq<Message>, start: NodeId, i: nat, j: nat, w: Walk, yes: nat, no: nat,
                                n: Node, h: History)
    requires CompilesTo(g, ms) && FirstTrigger(g.nodes) == Some(start) && i < |ms| && j < |ms|
    requires yes < |g.edges| && no < |g.edges|
    requires EndNode(g, start, w) == Some(n) && n.kind.Condition?
    requires !LeavesByNo(g.edges[yes]) && LeavesByNo(g.edges[no])
    requires GoesOnPlainly(g, start, w + [yes], SendWalks(g)[i]) && GoesOnPlainly(g, start, w + [no], SendWalks(g)[j])
    ensures ms[i].branchPath == Some(Yes) && ms[j].branchPath == Some(No)
    ensures Met(ms[i].sendCondition, h) <==> AlwaysAsks(n) || Asks(n, h)
    ensures Met(ms[j].sendCondition, h) <==> AlwaysAsks(n) || !Asks(n, h)
    ensures !AlwaysAsks(n) ==> (Met(ms[i].sendCondition, h) <==> !Met(ms[j].sendCondition, h))
  {
    var a, b := SendWalks(g)[i], SendWalks(g)[j];
    MessageIs(g, ms, start, i);
    MessageIs(g, ms, start, j);
    hide CompilesTo, SendWalks, EndNode, GoesOnPlainly, ConditionAlong, BranchPath, Met, TotalDelay;
    KeptAlong(g, start, w + [yes], a);
    KeptAlong(g, start, w + [no], b);
    EdgeTells(g, start, w, yes, n, h);
    EdgeTells(g, start, w, no, n, h);
  }

  // --------------------------------------------------------------------- the rest of a message

  /** The minutes a walk waits behind one of its nodes. */
  function Minutes(n: Option<Node>): int {
    match n
    case None => 0
    case Some(n) =>
      if n.kind.Delay? && n.data.delayMinutes.Some? then n.data.delayMinutes.value
      else if n.kind.Condition? && n.data.waitMinutes.Some? then n.data.waitMinutes.value
      else 0
  }

  function SumOver(k: nat, f: nat -> int): int {
    if k == 0 then 0 else SumOver(k - 1, f) + f(k - 1)
  }

  lemma {:induction false} SameSum(k: nat, f: nat -> int, f': nat -> int)
    requires forall i: nat :: i < k ==> f(i) == f'(i)
    ensures SumOver(k, f) == SumOver(k, f')
  {
    if k > 0 {
      SameSum(k - 1, f, f');
    }
  }

  /** The wait at the `k`th node of a walk. */
  function MinutesAt(g: Graph, start: NodeId, x: Walk): nat -> int {
    (k: nat) => if k < |x| then Minutes(EndNode(g, start, x[..k])) else 0
  }

  lemma {:induction false} DelayIsSum(g: Graph, start: NodeId, x: Walk)
    ensures TotalDelay(g, start, x) == SumOver(|x|, MinutesAt(g, start, x))
    decreases |x|
  {
    if x != [] {
      var y := x[..|x| - 1];
      DelayIsSum(g, start, y);
      forall k: nat | k < |y| ensures MinutesAt(g, start, y)(k) == MinutesAt(g, start, x)(k) {
        assert y[..k] == x[..k];
      }
      SameSum(|y|, MinutesAt(g, start, y), MinutesAt(g, start, x));
    }
  }

  /** The node of an id: it is one of the graph's, and of several with the id the last. */
  predicate IsNodeOf(g: Graph, k: nat, n: Node) {
    k < |g.nodes| && g.nodes[k] == n && forall j :: k < j < |g.nodes| ==> g.nodes[j].id != n.id
  }

  lemma {:induction false} NodeOfIsLast(nodes: seq<Node>, id: NodeId) returns (k: nat)
    requires NodeOf(nodes, id).Some?
    ensures k < |nodes| && nodes[k] == NodeOf(nodes, id).value && nodes[k].id == id
    ensures forall j :: k < j < |nodes| ==> nodes[j].id != id
  {
    k := |nodes| - 1;
    if nodes[k].id != id {
      k := NodeOfIsLast(nodes[..k], id);
    }
  }

  lemma {:induction false} FirstTriggerIsFirst(nodes: seq<Node>) returns (k: nat)
    ensures k <= |nodes| && forall j :: 0 <= j < k ==> !nodes[j].kind.Trigger?
    ensures match FirstTrigger(nodes)
      case None => k == |nodes|
      case Some(id) => k < |nodes| && nodes[k].kind.Trigger? && nodes[k].id == id
  {
    if nodes == [] || nodes[0].kind.Trigger? {
      k := 0;
    } else {
      k := FirstTriggerIsFirst(nodes[1..]);
      k := k + 1;
    }
  }

  /** Every message is its node's: channel, subject, text; and it waits for every node on its walk. */
  lemma MessageTells(g: Graph, ms: seq<Message>, start: NodeId, i: nat) returns (k: nat)
    requires CompilesTo(g, ms) && FirstTrigger(g.nodes) == Some(start) && i < |ms|
    ensures k < |g.nodes| && IsNodeOf(g, k, g.nodes[k]) && g.nodes[k].id == End(g, start, SendWalks(g)[i])
    ensures var m, n := ms[i], g.nodes[k];
      && m.nodeId == n.id && m.sequenceOrder == i + 1
      && (n.kind == SendEmail || n.kind == SendSms)
      && m.channel == (if n.kind == SendEmail then MessageQueue.Email else MessageQueue.Sms)
      && m.body == (match n.data.body case Some(body) => body case None => "")
      && m.subject == (if n.kind == SendEmail then n.data.subject else None)
      && m.html == (if n.kind == SendEmail then n.data.html else None)
    ensures ms[i].delayMinutes == SumOver(|SendWalks(g)[i]|, MinutesAt(g, start, SendWalks(g)[i]))
  {
    var x := SendWalks(g)[i];
    MessageIs(g, ms, start, i);
    SendWalksExact(g, start, x);
    DelayIsSum(g, start, x);
    hide CompilesTo, SendWalks, TotalDelay, MinutesAt, SumOver, InOrder, IsWalk;
    k := NodeOfIsLast(g.nodes, End(g, start, x));
  }
}
