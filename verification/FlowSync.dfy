/** Saving a journey: one row per node, synchronised in place under a UNIQUE sequence number. */
module FlowSync {
  import opened Prelude
  import opened FlowGraph
  import opened Linearise

  // ------------------------------------------------------------ collapseRejoins

  predicate SameBranch(a: Message, b: Message) {
    a.sendCondition == b.sendCondition && a.branchPath == b.branchPath
  }

  predicate SameContent(a: Message, b: Message) {
    && a.nodeId == b.nodeId && a.channel == b.channel
    && a.subject == b.subject && a.body == b.body && a.html == b.html
  }

  /** `f` is the first of the first `k` messages for node `n`. */
  predicate IsFirst(lin: seq<Message>, k: nat, n: NodeId, f: nat)
    requires k <= |lin|
  {
    f < k && lin[f].nodeId == n && forall j :: 0 <= j < f ==> lin[j].nodeId != n
  }

  /** Every path among the first `k` messages that reaches `n` agrees with the first on branch and condition. */
  ghost predicate Agree(lin: seq<Message>, k: nat, n: NodeId, f: nat)
    requires k <= |lin| && f < |lin|
  {
    forall j :: 0 <= j < k && lin[j].nodeId == n ==> SameBranch(lin[j], lin[f])
  }

  /** `m` stands for all of a node's paths: earliest delay, common branch or none, the node's own content. */
  ghost predicate Stands(lin: seq<Message>, k: nat, m: Message, f: nat)
    requires k <= |lin|
  {
    && IsFirst(lin, k, m.nodeId, f)
    && SameContent(m, lin[f])
    && (forall j :: 0 <= j < k && lin[j].nodeId == m.nodeId ==> m.delayMinutes <= lin[j].delayMinutes)
    && (exists j :: 0 <= j < k && lin[j].nodeId == m.nodeId && m.delayMinutes == lin[j].delayMinutes)
    && (if Agree(lin, k, m.nodeId, f) then SameBranch(m, lin[f]) else m.sendCondition.Always? && m.branchPath.None?)
  }

  ghost predicate OneEach(lin: seq<Message>, k: nat, ms: seq<Message>, firsts: seq<nat>)
    requires k <= |lin|
  {
    && |firsts| == |ms|
    && (forall i {:trigger Stands(lin, k, ms[i], firsts[i])} :: 0 <= i < |ms| ==> Stands(lin, k, ms[i], firsts[i]))
    && (forall i, j :: 0 <= i < j < |ms| ==> firsts[i] < firsts[j])
    && (forall j {:trigger HasNode(ms, lin[j].nodeId)} :: 0 <= j < k ==> HasNode(ms, lin[j].nodeId))
  }

  predicate HasNode(ms: seq<Message>, n: NodeId) {
    exists i :: 0 <= i < |ms| && ms[i].nodeId == n
  }

  ghost predicate Numbered1(ms: seq<Message>) {
    forall i :: 0 <= i < |ms| ==> ms[i].sequenceOrder == i + 1
  }

  function Merge(seen: Message, m: Message): (merged: Message)
    ensures merged.nodeId == seen.nodeId && merged.sequenceOrder == seen.sequenceOrder
  {
    var earliest := seen.(delayMinutes := Min(seen.delayMinutes, m.delayMinutes));
    if SameBranch(seen, m) then earliest else earliest.(sendCondition := Always, branchPath := None)
  }

  /** One more path to a node that was seen before. */
  lemma MergeStands(lin: seq<Message>, k: nat, m: Message, f: nat)
    requires k < |lin| && Stands(lin, k, m, f) && lin[k].nodeId == m.nodeId
    ensures Stands(lin, k + 1, Merge(m, lin[k]), f)
  {
    var merged := Merge(m, lin[k]);
    if m.delayMinutes <= lin[k].delayMinutes {
      var j :| 0 <= j < k && lin[j].nodeId == m.nodeId && m.delayMinutes == lin[j].delayMinutes;
      assert merged.delayMinutes == lin[j].delayMinutes;
    } else {
      assert merged.delayMinutes == lin[k].delayMinutes;
    }
    assert Agree(lin, k + 1, m.nodeId, f) <==> Agree(lin, k, m.nodeId, f) && SameBranch(lin[k], lin[f]);
  }

  /** A path to some other node changes nothing for this one. */
  lemma OtherStands(lin: seq<Message>, k: nat, m: Message, f: nat)
    requires k < |lin| && Stands(lin, k, m, f) && lin[k].nodeId != m.nodeId
    ensures Stands(lin, k + 1, m, f)
  {
    var j :| 0 <= j < k && lin[j].nodeId == m.nodeId && m.delayMinutes == lin[j].delayMinutes;
    assert Agree(lin, k + 1, m.nodeId, f) <==> Agree(lin, k, m.nodeId, f);
  }

  /** The first path to a node. */
  lemma NewStands(lin: seq<Message>, k: nat)
    requires k < |lin| && forall j :: 0 <= j < k ==> lin[j].nodeId != lin[k].nodeId
    ensures Stands(lin, k + 1, lin[k], k)
  {
    assert lin[k].delayMinutes == lin[k].delayMinutes;
  }

  /** Where a node stands in insertion order, or the length if it is new. */
  function Place(seen: seq<Message>, n: NodeId): (i: nat)
    ensures i <= |seen|
    ensures i < |seen| ==> seen[i].nodeId == n
    ensures forall j :: 0 <= j < i ==> seen[j].nodeId != n
  {
    if seen == [] || seen[0].nodeId == n then 0 else 1 + Place(seen[1..], n)
  }

  lemma AbsorbSeen(lin: seq<Message>, k: nat, seen: seq<Message>, firsts: seq<nat>, at: nat)
    requires k < |lin| && OneEach(lin, k, seen, firsts)
    requires at < |seen| && seen[at].nodeId == lin[k].nodeId
    ensures OneEach(lin, k + 1, seen[at := Merge(seen[at], lin[k])], firsts)
  {
    hide Stands;
    var seen' := seen[at := Merge(seen[at], lin[k])];
    forall i | 0 <= i < |seen| ensures Stands(lin, k + 1, seen'[i], firsts[i]) {
      assert Stands(lin, k, seen[i], firsts[i]);
      if i == at {
        MergeStands(lin, k, seen[at], firsts[at]);
      } else {
        FirstsDiffer(lin, k, seen, firsts, i, at);
        OtherStands(lin, k, seen[i], firsts[i]);
      }
    }
    forall j | 0 <= j < k + 1 ensures HasNode(seen', lin[j].nodeId) {
      assert j < k ==> HasNode(seen, lin[j].nodeId);
      var i :| 0 <= i < |seen| && seen[i].nodeId == lin[j].nodeId;
      assert seen'[i].nodeId == lin[j].nodeId;
    }
  }

  lemma FirstsDiffer(lin: seq<Message>, k: nat, seen: seq<Message>, firsts: seq<nat>, i: nat, j: nat)
    requires k <= |lin| && OneEach(lin, k, seen, firsts)
    requires i < |seen| && j < |seen| && i != j
    ensures seen[i].nodeId != seen[j].nodeId
  {
    assert Stands(lin, k, seen[i], firsts[i]) && Stands(lin, k, seen[j], firsts[j]);
    assert firsts[i] < firsts[j] || firsts[j] < firsts[i];
  }

  lemma StandsFirst(lin: seq<Message>, k: nat, m: Message, f: nat)
    requires k <= |lin| && Stands(lin, k, m, f)
    ensures f < k && lin[f].nodeId == m.nodeId
  {
  }

  lemma AbsorbNew(lin: seq<Message>, k: nat, seen: seq<Message>, firsts: seq<nat>)
    requires k < |lin| && OneEach(lin, k, seen, firsts)
    requires forall i :: 0 <= i < |seen| ==> seen[i].nodeId != lin[k].nodeId
    ensures OneEach(lin, k + 1, seen + [lin[k]], firsts + [k])
  {
    hide Stands;
    var seen', firsts' := seen + [lin[k]], firsts + [k];
    forall j | 0 <= j < k ensures lin[j].nodeId != lin[k].nodeId {
      assert HasNode(seen, lin[j].nodeId);
      var i :| 0 <= i < |seen| && seen[i].nodeId == lin[j].nodeId;
    }
    NewStands(lin, k);
    forall i | 0 <= i < |seen'| ensures Stands(lin, k + 1, seen'[i], firsts'[i]) {
      if i < |seen| {
        OtherStands(lin, k, seen[i], firsts[i]);
      }
    }
    forall i, j | 0 <= i < j < |firsts'| ensures firsts'[i] < firsts'[j] {
      assert Stands(lin, k, seen[i], firsts[i]);
      StandsFirst(lin, k, seen[i], firsts[i]);
    }
    forall j | 0 <= j < k + 1 ensures HasNode(seen', lin[j].nodeId) {
      if j == k {
        assert seen'[|seen|].nodeId == lin[j].nodeId;
      } else {
        assert HasNode(seen, lin[j].nodeId);
        var i :| 0 <= i < |seen| && seen[i].nodeId == lin[j].nodeId;
        assert seen'[i].nodeId == lin[j].nodeId;
      }
    }
  }

  function Renumbered(ms: seq<Message>): seq<Message> {
    seq(|ms|, i requires 0 <= i < |ms| => ms[i].(sequenceOrder := i + 1))
  }

  lemma RenumberStands(lin: seq<Message>, k: nat, m: Message, f: nat, order: nat)
    requires k <= |lin| && Stands(lin, k, m, f)
    ensures Stands(lin, k, m.(sequenceOrder := order), f)
  {
  }

  lemma RenumberedStands(lin: seq<Message>, ms: seq<Message>, firsts: seq<nat>)
    requires OneEach(lin, |lin|, ms, firsts)
    ensures OneEach(lin, |lin|, Renumbered(ms), firsts)
  {
    hide Stands;
    var out := Renumbered(ms);
    forall i | 0 <= i < |out| ensures Stands(lin, |lin|, out[i], firsts[i]) {
      assert Stands(lin, |lin|, ms[i], firsts[i]);
      RenumberStands(lin, |lin|, ms[i], firsts[i], i + 1);
    }
    forall j | 0 <= j < |lin| ensures HasNode(out, lin[j].nodeId) {
      assert HasNode(ms, lin[j].nodeId);
      var i :| 0 <= i < |ms| && ms[i].nodeId == lin[j].nodeId;
      assert out[i].nodeId == lin[j].nodeId;
    }
  }

  lemma NothingYet(lin: seq<Message>)
    ensures OneEach(lin, 0, [], [])
  {
  }

  lemma OneEachShape(lin: seq<Message>, k: nat, ms: seq<Message>, firsts: seq<nat>)
    requires k <= |lin| && OneEach(lin, k, ms, firsts)
    ensures |firsts| == |ms|
    ensures forall i, j :: 0 <= i < j < |ms| ==> firsts[i] < firsts[j]
  {
  }

  /** collapseRejoins: one message per node, in the order of first appearance, numbered from one. */
  method CollapseRejoins(lin: seq<Message>) returns (out: seq<Message>, ghost firsts: seq<nat>)
    requires Numbered1(lin)
    ensures OneEach(lin, |lin|, out, firsts)
    ensures Numbered1(out)
  {
    hide OneEach;
    var seen: seq<Message> := [];
    firsts := [];
    NothingYet(lin);
    for k := 0 to |lin|
      invariant OneEach(lin, k, seen, firsts) && |firsts| == |seen|
      invariant forall i :: 0 <= i < |seen| ==> seen[i].sequenceOrder == firsts[i] + 1
    {
      var at := Place(seen, lin[k].nodeId);
      if at < |seen| {
        AbsorbSeen(lin, k, seen, firsts, at);
        seen := seen[at := Merge(seen[at], lin[k])];
      } else {
        AbsorbNew(lin, k, seen, firsts);
        seen, firsts := seen + [lin[k]], firsts + [k];
      }
    }
    OneEachShape(lin, |lin|, seen, firsts);
    // Sorting by sequence number would change nothing: insertion order is already ascending.
    assert forall i, j :: 0 <= i < j < |seen| ==> seen[i].sequenceOrder < seen[j].sequenceOrder;
    RenumberedStands(lin, seen, firsts);
    out := Renumbered(seen);
  }

  // ------------------------------------------------- the collapse is determined by the graph

  lemma {:induction false} IncreasingUnique(a: seq<nat>, b: seq<nat>)
    requires forall i, j :: 0 <= i < j < |a| ==> a[i] < a[j]
    requires forall i, j :: 0 <= i < j < |b| ==> b[i] < b[j]
    requires forall x :: x in a <==> x in b
    ensures a == b
  {
    BothOrNeitherEmpty(a, b);
    if a != [] {
      var n, m := |a| - 1, |b| - 1;
      assert a[n] in b && b[m] in a;
      assert a[n] == b[m];
      LastApart(a);
      LastApart(b);
      forall x ensures x in a[..n] <==> x in b[..m] {
        assert x in a <==> x in b;
      }
      IncreasingUnique(a[..n], b[..m]);
      assert a == a[..n] + [a[n]] && b == b[..m] + [b[m]];
    }
  }

  lemma BothOrNeitherEmpty(a: seq<nat>, b: seq<nat>)
    requires forall x :: x in a <==> x in b
    ensures a == [] <==> b == []
  {
    if a != [] { assert a[0] in b; }
    if b != [] { assert b[0] in a; }
  }

  lemma LastApart(a: seq<nat>)
    requires a != [] && forall i, j :: 0 <= i < j < |a| ==> a[i] < a[j]
    ensures forall x :: x in a[..|a| - 1] <==> x in a && x != a[|a| - 1]
  {
  }

  lemma FirstAmong(lin: seq<Message>, a: seq<Message>, fa: seq<nat>, b: seq<Message>, fb: seq<nat>, i: nat)
    requires OneEach(lin, |lin|, a, fa) && OneEach(lin, |lin|, b, fb) && i < |a|
    ensures fa[i] in fb
  {
    assert Stands(lin, |lin|, a[i], fa[i]);
    assert HasNode(b, lin[fa[i]].nodeId);
    var j :| 0 <= j < |b| && b[j].nodeId == lin[fa[i]].nodeId;
    assert Stands(lin, |lin|, b[j], fb[j]);
    assert fa[i] == fb[j];
  }

  lemma StandsUnique(lin: seq<Message>, k: nat, m: Message, x: Message, f: nat)
    requires k <= |lin| && Stands(lin, k, m, f) && Stands(lin, k, x, f) && m.sequenceOrder == x.sequenceOrder
    ensures m == x
  {
    var i :| 0 <= i < k && lin[i].nodeId == m.nodeId && m.delayMinutes == lin[i].delayMinutes;
    var j :| 0 <= j < k && lin[j].nodeId == x.nodeId && x.delayMinutes == lin[j].delayMinutes;
  }

  /** The same paths always collapse to the same messages. */
  lemma CollapseIsDetermined(lin: seq<Message>, a: seq<Message>, fa: seq<nat>, b: seq<Message>, fb: seq<nat>)
    requires OneEach(lin, |lin|, a, fa) && Numbered1(a)
    requires OneEach(lin, |lin|, b, fb) && Numbered1(b)
    ensures a == b
  {
    forall x ensures x in fa <==> x in fb {
      if x in fa {
        var i :| 0 <= i < |fa| && fa[i] == x;
        FirstAmong(lin, a, fa, b, fb, i);
      }
      if x in fb {
        var i :| 0 <= i < |fb| && fb[i] == x;
        FirstAmong(lin, b, fb, a, fa, i);
      }
    }
    IncreasingUnique(fa, fb);
    forall i | 0 <= i < |a| ensures a[i] == b[i] {
      assert Stands(lin, |lin|, a[i], fa[i]) && Stands(lin, |lin|, b[i], fb[i]);
      StandsUnique(lin, |lin|, a[i], b[i], fa[i]);
    }
  }

  // ------------------------------------------------------------ planMessageSync

  datatype Columns = Columns(
    channel: Channel, delayMinutes: int, sendCondition: SendCondition, branchPath: Option<Handle>,
    subject: Option<string>, body: string, html: Option<string>)

  /** A row of campaign_messages, for one campaign. Its id is its position: no statement here deletes a row. */
  datatype Row = Row(nodeId: Option<NodeId>, order: int, enabled: bool, columns: Columns)

  function ColumnsOf(m: Message): Columns {
    Columns(m.channel, m.delayMinutes, m.sendCondition, m.branchPath, m.subject, m.body, m.html)
  }

  function LiveRow(m: Message): Row {
    Row(Some(m.nodeId), m.sequenceOrder, true, ColumnsOf(m))
  }

  /** The row is switched on and carries everything the message says. */
  predicate Carries(r: Row, m: Message) {
    && r.nodeId == Some(m.nodeId) && r.order == m.sequenceOrder && r.enabled
    && r.columns.channel == m.channel && r.columns.delayMinutes == m.delayMinutes
    && r.columns.sendCondition == m.sendCondition && r.columns.branchPath == m.branchPath
    && r.columns.subject == m.subject && r.columns.body == m.body && r.columns.html == m.html
  }

  /** Some row with that number carries it. */
  predicate CarriedAt(rows: seq<Row>, m: Message, order: int) {
    exists i :: 0 <= i < |rows| && Carries(rows[i], m) && rows[i].order == order
  }

  predicate ForNode(r: Row, n: NodeId) {
    r.nodeId == Some(n)
  }

  predicate Stored(rows: seq<Row>, n: NodeId) {
    exists i :: 0 <= i < |rows| && ForNode(rows[i], n)
  }

  /** The collapsed message of a row's node, if the new graph emits it. */
  function MessageAt(ms: seq<Message>, n: Option<NodeId>): (m: Option<Message>)
    ensures m.Some? ==> m.value in ms && n == Some(m.value.nodeId)
    ensures m.None? ==> forall x :: x in ms ==> n != Some(x.nodeId)
  {
    if ms == [] then None
    else if n == Some(ms[0].nodeId) then Some(ms[0])
    else MessageAt(ms[1..], n)
  }

  predicate Live(ms: seq<Message>, r: Row) {
    MessageAt(ms, r.nodeId).Some?
  }

  datatype Plan = Plan(create: seq<Message>, update: seq<Message>, disable: set<nat>)

  ghost predicate IsPlan(ms: seq<Message>, rows: seq<Row>, plan: Plan) {
    && (forall m :: m in plan.update <==> m in ms && Stored(rows, m.nodeId))
    && (forall m :: m in plan.create <==> m in ms && !Stored(rows, m.nodeId))
    && Distinct(plan.create) && Distinct(plan.update)
    && (forall i: nat :: i in plan.disable <==> i < |rows| && rows[i].nodeId.Some? && !Live(ms, rows[i]))
  }

  ghost predicate DistinctNodes(ms: seq<Message>) {
    forall i, j :: 0 <= i < j < |ms| ==> ms[i].nodeId != ms[j].nodeId
  }

  lemma OneEachDistinct(lin: seq<Message>, ms: seq<Message>, firsts: seq<nat>)
    requires OneEach(lin, |lin|, ms, firsts)
    ensures DistinctNodes(ms)
  {
    forall i, j | 0 <= i < j < |ms| ensures ms[i].nodeId != ms[j].nodeId {
      FirstsDiffer(lin, |lin|, ms, firsts, i, j);
    }
  }

  /** planMessageSync, given the collapsed messages. */
  method PlanMessageSync(ms: seq<Message>, rows: seq<Row>) returns (plan: Plan)
    requires DistinctNodes(ms)
    ensures IsPlan(ms, rows, plan)
  {
    var create, update: seq<Message> := [], [];
    for k := 0 to |ms|
      invariant forall m :: m in update <==> m in ms[..k] && Stored(rows, m.nodeId)
      invariant forall m :: m in create <==> m in ms[..k] && !Stored(rows, m.nodeId)
      invariant Distinct(create) && Distinct(update)
    {
      assert ms[k] !in ms[..k];
      assert forall m :: m in ms[..k + 1] <==> m in ms[..k] || m == ms[k];
      if Stored(rows, ms[k].nodeId) {
        update := update + [ms[k]];
      } else {
        create := create + [ms[k]];
      }
    }
    assert ms[..|ms|] == ms;
    plan := Plan(create, update, set i | 0 <= i < |rows| && rows[i].nodeId.Some? && !Live(ms, rows[i]));
  }

  // -------------------------------------------------------------- the transaction

  ghost predicate UniqueOrders(rows: seq<Row>) {
    forall i, j :: 0 <= i < j < |rows| ==> rows[i].order != rows[j].order
  }

  ghost predicate UniqueNodes(rows: seq<Row>) {
    forall i, j :: 0 <= i < j < |rows| && rows[i].nodeId.Some? ==> rows[i].nodeId != rows[j].nodeId
  }

  ghost predicate PositiveOrders(rows: seq<Row>) {
    forall i :: 0 <= i < |rows| ==> rows[i].order > 0
  }

  /**
   * The statement that turns `before` into `after` can write its rows one at a time, in any order, and
   * never meet a sequence number that is taken: the constraint is checked row by row, not at commit.
   */
  ghost predicate RowByRow(before: seq<Row>, after: seq<Row>) {
    && |before| <= |after|
    && UniqueOrders(before) && UniqueOrders(after)
    && forall i, j :: 0 <= i < |before| && 0 <= j < |after| && i != j ==> before[i].order != after[j].order
  }

  /** Any subset of the rows may have been written already: the numbers are still unique. */
  lemma RowByRowMeansAnyOrder(before: seq<Row>, after: seq<Row>, written: set<nat>)
    requires RowByRow(before, after)
    ensures UniqueOrders(seq(|before|, i requires 0 <= i < |before| => if i in written then after[i] else before[i]))
  {
  }

  /**
   * `log` is a chain of statements from `before` to `after`, each of which can write its rows one at a time:
   * the table ahead of and behind every statement, and everything in between, keeps sequence numbers unique.
   */
  ghost predicate Chain(log: seq<(seq<Row>, seq<Row>)>, before: seq<Row>, after: seq<Row>) {
    if log == [] then before == after
    else
      var last := log[|log| - 1];
      last.1 == after && RowByRow(last.0, last.1) && Chain(log[..|log| - 1], before, last.0)
  }

  lemma ChainStep(log: seq<(seq<Row>, seq<Row>)>, before: seq<Row>, middle: seq<Row>, after: seq<Row>)
    requires Chain(log, before, middle) && RowByRow(middle, after)
    ensures Chain(log + [(middle, after)], before, after)
  {
    assert (log + [(middle, after)])[..|log|] == log;
  }

  /** How a row's number ranks among the rows that belong to no node of the new graph. */
  ghost function Rank(rows: seq<Row>, ms: seq<Message>, i: nat): nat
    requires i < |rows|
  {
    1 + |OrphansBelow(rows, ms, rows[i].order)|
  }

  ghost function OrphansBelow(rows: seq<Row>, ms: seq<Message>, order: int): set<nat> {
    set j: nat | j < |rows| && !Live(ms, rows[j]) && rows[j].order < order
  }

  /** The table after a save, from the table before it and the messages the graph collapsed to. */
  ghost predicate Saved(was: seq<Row>, ms: seq<Message>, now: seq<Row>) {
    && |was| <= |now|
    && (forall i {:trigger now[i]} :: 0 <= i < |now| && i >= |was| ==> Live(ms, now[i]))
    && (forall i {:trigger now[i]} :: 0 <= i < |now| && Live(ms, now[i]) ==>
          now[i] == LiveRow(MessageAt(ms, now[i].nodeId).value))
    && (forall i {:trigger now[i]} :: 0 <= i < |was| ==> now[i].nodeId == was[i].nodeId)
    && (forall i {:trigger now[i]} :: 0 <= i < |was| && !Live(ms, was[i]) ==>
          now[i] == was[i].(order := |ms| + Rank(was, ms, i), enabled := false))
    && (forall m :: m in ms ==> Stored(now, m.nodeId))
    && UniqueNodes(now)
  }

  lemma SubsetCard(a: set<nat>, b: set<nat>)
    requires a <= b
    ensures |a| <= |b|
    ensures a != b ==> |a| < |b|
  {
    assert b == a + (b - a);
    assert |b| == |a| + |b - a|;
  }

  /** Ranks follow the old numbers. */
  lemma RankOrder(was: seq<Row>, ms: seq<Message>, i: nat, j: nat)
    requires i < |was| && j < |was| && !Live(ms, was[i]) && !Live(ms, was[j])
    ensures Rank(was, ms, i) < Rank(was, ms, j) <==> was[i].order < was[j].order
  {
    var a, b := OrphansBelow(was, ms, was[i].order), OrphansBelow(was, ms, was[j].order);
    if was[i].order < was[j].order {
      assert i in b && i !in a;
      SubsetCard(a, b);
    } else {
      SubsetCard(b, a);
    }
  }

  lemma SameMessageOrder(ms: seq<Message>, m: Message, x: Message)
    requires Numbered1(ms) && DistinctNodes(ms) && m in ms && x in ms
    ensures 1 <= m.sequenceOrder <= |ms| && ms[m.sequenceOrder - 1] == m
    ensures m.sequenceOrder == x.sequenceOrder <==> m == x
    ensures m.nodeId == x.nodeId <==> m == x
  {
    var i :| 0 <= i < |ms| && ms[i] == m;
    var j :| 0 <= j < |ms| && ms[j] == x;
  }

  lemma OneEnabledOrder(was: seq<Row>, ms: seq<Message>, now: seq<Row>, i: nat)
    requires Saved(was, ms, now) && Numbered1(ms) && DistinctNodes(ms) && i < |now|
    ensures now[i].enabled <==> Live(ms, now[i])
    ensures if now[i].enabled then 1 <= now[i].order <= |ms| else i < |was| && now[i].order > |ms|
  {
    if Live(ms, now[i]) {
      var m := MessageAt(ms, now[i].nodeId).value;
      SameMessageOrder(ms, m, m);
    }
    hide UniqueNodes, DistinctNodes;
  }

  lemma TwoOrdersDiffer(was: seq<Row>, ms: seq<Message>, now: seq<Row>, i: nat, j: nat)
    requires Saved(was, ms, now) && Numbered1(ms) && DistinctNodes(ms) && UniqueOrders(was) && i < j < |now|
    ensures now[i].order != now[j].order
  {
    OneEnabledOrder(was, ms, now, i);
    OneEnabledOrder(was, ms, now, j);
    if now[i].enabled && now[j].enabled {
      SameMessageOrder(ms, MessageAt(ms, now[i].nodeId).value, MessageAt(ms, now[j].nodeId).value);
    } else if !now[i].enabled && !now[j].enabled {
      assert !Live(ms, was[i]) && !Live(ms, was[j]) && was[i].order != was[j].order;
      RankOrder(was, ms, i, j);
      RankOrder(was, ms, j, i);
    }
    hide Rank, DistinctNodes;
  }

  lemma MessageIsSaved(was: seq<Row>, ms: seq<Message>, now: seq<Row>, n: nat)
    requires Saved(was, ms, now) && Numbered1(ms) && DistinctNodes(ms) && n < |ms|
    ensures CarriedAt(now, ms[n], n + 1)
  {
    assert Stored(now, ms[n].nodeId);
    var i :| 0 <= i < |now| && ForNode(now[i], ms[n].nodeId);
    var m := MessageAt(ms, now[i].nodeId).value;
    SameMessageOrder(ms, m, ms[n]);
    assert Carries(now[i], ms[n]);
  }

  /**
   * What a save leaves behind: the enabled rows are exactly one per emitted node, numbered 1 to k; every
   * other row is kept, disabled, above k, in its old relative order; numbers are positive and unique.
   */
  lemma SavedIsSound(was: seq<Row>, ms: seq<Message>, now: seq<Row>)
    requires Saved(was, ms, now) && Numbered1(ms) && DistinctNodes(ms)
    requires UniqueOrders(was)
    ensures PositiveOrders(now) && UniqueOrders(now)
    ensures forall i :: 0 <= i < |now| ==> (now[i].enabled <==> Live(ms, now[i]))
    ensures forall i :: 0 <= i < |now| ==> (now[i].enabled <==> now[i].order <= |ms|)
    ensures forall n {:trigger ms[n]} :: 0 <= n < |ms| ==> CarriedAt(now, ms[n], n + 1)
    ensures forall i, j :: 0 <= i < |was| && 0 <= j < |was| && !now[i].enabled && !now[j].enabled ==>
      (now[i].order < now[j].order <==> was[i].order < was[j].order)
  {
    forall i | 0 <= i < |now|
      ensures now[i].enabled <==> Live(ms, now[i])
      ensures now[i].enabled <==> now[i].order <= |ms|
      ensures now[i].order > 0
    {
      OneEnabledOrder(was, ms, now, i);
    }
    forall i, j | 0 <= i < |was| && 0 <= j < |was| && !now[i].enabled && !now[j].enabled
      ensures now[i].order < now[j].order <==> was[i].order < was[j].order
    {
      assert !Live(ms, was[i]) && !Live(ms, was[j]);
      RankOrder(was, ms, i, j);
    }
    forall n {:trigger ms[n]} | 0 <= n < |ms|
      ensures CarriedAt(now, ms[n], n + 1)
    {
      MessageIsSaved(was, ms, now, n);
    }
    forall i, j | 0 <= i < j < |now| ensures now[i].order != now[j].order {
      TwoOrdersDiffer(was, ms, now, i, j);
    }
  }

  lemma RankStable(was: seq<Row>, ms: seq<Message>, now: seq<Row>, i: nat)
    requires Saved(was, ms, now) && i < |was| && !Live(ms, was[i])
    ensures Rank(now, ms, i) == Rank(was, ms, i)
  {
    assert now[i].order == |ms| + Rank(was, ms, i);
    forall j: nat ensures j in OrphansBelow(now, ms, now[i].order) <==> j in OrphansBelow(was, ms, was[i].order) {
      if j < |now| && !Live(ms, now[j]) {
        assert j < |was| && now[j].nodeId == was[j].nodeId;
        assert now[j].order == |ms| + Rank(was, ms, j);
        RankOrder(was, ms, j, i);
      } else if j < |was| {
        assert now[j].nodeId == was[j].nodeId;
      }
    }
    assert OrphansBelow(now, ms, now[i].order) == OrphansBelow(was, ms, was[i].order);
  }

  /** A second save inserts nothing: each emitted node already has its row. */
  lemma NoNewRow(was: seq<Row>, ms: seq<Message>, now: seq<Row>, again: seq<Row>, i: nat)
    requires Saved(was, ms, now) && Saved(now, ms, again) && i < |again|
    ensures i < |now|
  {
    if Live(ms, again[i]) {
      var m := MessageAt(ms, again[i].nodeId).value;
      assert Stored(now, m.nodeId);
      var k :| 0 <= k < |now| && ForNode(now[k], m.nodeId);
      assert again[k].nodeId == again[i].nodeId;
      assert k == i;
    }
  }

  /** Saving the same graph again changes nothing. */
  lemma SavingAgainIsIdentity(was: seq<Row>, ms: seq<Message>, now: seq<Row>, again: seq<Row>)
    requires Saved(was, ms, now) && Saved(now, ms, again)
    ensures again == now
  {
    if |again| > |now| {
      NoNewRow(was, ms, now, again, |now|);
    }
    forall i | 0 <= i < |now| ensures again[i] == now[i] {
      assert again[i].nodeId == now[i].nodeId;
      if !Live(ms, now[i]) {
        assert i < |was| && now[i].nodeId == was[i].nodeId;
        RankStable(was, ms, now, i);
        assert now[i] == was[i].(order := |ms| + Rank(was, ms, i), enabled := false);
      }
    }
  }

  /** The same, from the graph's paths: whatever was stored before, saving them twice is saving them once. */
  lemma SavingTwiceIsSavingOnce(lin: seq<Message>, was: seq<Row>, ms: seq<Message>, fs: seq<nat>, now: seq<Row>,
                                ms': seq<Message>, fs': seq<nat>, again: seq<Row>)
    requires OneEach(lin, |lin|, ms, fs) && Numbered1(ms) && Saved(was, ms, now)
    requires OneEach(lin, |lin|, ms', fs') && Numbered1(ms') && Saved(now, ms', again)
    ensures again == now
  {
    CollapseIsDetermined(lin, ms, fs, ms', fs');
    SavingAgainIsIdentity(was, ms, now, again);
  }

  /** `now` is what saving the graph over `was` leaves: its compiled messages, collapsed, and then synchronised. */
  ghost predicate SavedFlow(g: Graph, was: seq<Row>, now: seq<Row>) {
    exists lin, ms, fs :: SavedBy(g, was, now, lin, ms, fs)
  }

  ghost predicate SavedBy(g: Graph, was: seq<Row>, now: seq<Row>, lin: seq<Message>, ms: seq<Message>, fs: seq<nat>) {
    CompilesTo(g, lin) && OneEach(lin, |lin|, ms, fs) && Numbered1(ms) && Saved(was, ms, now)
  }

  /** Saving a graph and then saving it again leaves the table as the first save did. */
  lemma SavingAFlowAgain(g: Graph, was: seq<Row>, now: seq<Row>, again: seq<Row>)
    requires SavedFlow(g, was, now) && SavedFlow(g, now, again)
    ensures again == now
  {
    hide CompilesTo, OneEach, Saved, Numbered1;
    var lin, ms, fs :| SavedBy(g, was, now, lin, ms, fs);
    var lin', ms', fs' :| SavedBy(g, now, again, lin', ms', fs');
    CompilesToOne(g, lin, lin');
    SavingTwiceIsSavingOnce(lin, was, ms, fs, now, ms', fs', again);
  }

  // ------------------------------------------------------------- its statements

  function Parked(r: Row): Row {
    if r.order > 0 then r.(order := -r.order) else r
  }

  /** The table while the transaction runs: the nodes in `done` are written, every older row is still parked. */
  ghost predicate Stage(was: seq<Row>, ms: seq<Message>, done: set<NodeId>, rows: seq<Row>) {
    && |was| <= |rows|
    && (forall n :: n in done ==> MessageAt(ms, Some(n)).Some?)
    && (forall i {:trigger rows[i]} :: 0 <= i < |was| ==>
          rows[i] == if Written(was[i], done) then LiveRow(MessageAt(ms, was[i].nodeId).value) else Parked(was[i]))
    && (forall i {:trigger rows[i]} :: |was| <= i < |rows| ==>
          Written(rows[i], done) && rows[i] == LiveRow(MessageAt(ms, rows[i].nodeId).value))
    && UniqueNodes(rows)
  }

  predicate Written(r: Row, done: set<NodeId>) {
    r.nodeId.Some? && r.nodeId.value in done
  }

  /** Two tables of the same transaction never claim one number for two rows. */
  lemma StagesDoNotCollide(was: seq<Row>, ms: seq<Message>, d: set<NodeId>, r: seq<Row>, d': set<NodeId>, r': seq<Row>)
    requires Stage(was, ms, d, r) && Stage(was, ms, d', r') && |r| <= |r'|
    requires forall i :: 0 <= i < |r| ==> r'[i].nodeId == r[i].nodeId
    requires Numbered1(ms) && DistinctNodes(ms) && UniqueOrders(was) && PositiveOrders(was)
    ensures forall i, j :: 0 <= i < |r| && 0 <= j < |r'| && i != j ==> r[i].order != r'[j].order
  {
    forall i, j | 0 <= i < |r| && 0 <= j < |r'| && i != j ensures r[i].order != r'[j].order {
      if r[i].order > 0 && r'[j].order > 0 {
        var m, x := MessageAt(ms, r[i].nodeId).value, MessageAt(ms, r'[j].nodeId).value;
        assert r'[i].nodeId != r'[j].nodeId;
        SameMessageOrder(ms, m, x);
      } else if r[i].order < 0 && r'[j].order < 0 {
        assert was[i].order != was[j].order;
      }
    }
  }

  function MaxOrder(rows: seq<Row>): int {
    if rows == [] then 0 else Max(MaxOrder(rows[..|rows| - 1]), rows[|rows| - 1].order)
  }

  lemma {:induction false} MaxOrderIs(rows: seq<Row>, top: int)
    requires 0 <= top && forall i :: 0 <= i < |rows| ==> rows[i].order <= top
    requires top > 0 ==> exists i :: 0 <= i < |rows| && rows[i].order == top
    ensures MaxOrder(rows) == top
  {
    MaxOrderBounds(rows);
  }

  lemma {:induction false} MaxOrderBounds(rows: seq<Row>)
    ensures MaxOrder(rows) >= 0
    ensures forall i :: 0 <= i < |rows| ==> rows[i].order <= MaxOrder(rows)
    ensures MaxOrder(rows) > 0 ==> exists i :: 0 <= i < |rows| && rows[i].order == MaxOrder(rows)
  {
    if rows != [] {
      var rest := rows[..|rows| - 1];
      MaxOrderBounds(rest);
      assert forall i :: 0 <= i < |rest| ==> rest[i] == rows[i];
      if MaxOrder(rest) >= rows[|rows| - 1].order && MaxOrder(rest) > 0 {
        var i :| 0 <= i < |rest| && rest[i].order == MaxOrder(rest);
        assert rows[i].order == MaxOrder(rows);
      }
    }
  }

  /** row_number() OVER (ORDER BY sequence_order DESC), over the rows that are still parked. */
  function Offset(rows: seq<Row>, i: nat): nat
    requires i < |rows|
  {
    1 + |set j: nat | j < |rows| && rows[j].order < 0 && rows[j].order > rows[i].order|
  }

  /** The rows of one campaign. `log` is ghost: the table before and after each statement of the transaction. */
  class CampaignMessages {
    var rows: seq<Row>
    ghost var log: seq<(seq<Row>, seq<Row>)>

    constructor (rows: seq<Row>)
      ensures this.rows == rows && log == []
    {
      this.rows := rows;
      log := [];
    }

    /** UPDATE ... SET sequence_order = -sequence_order WHERE sequence_order > 0. */
    method Park()
      modifies this
      ensures |rows| == |old(rows)| && forall i :: 0 <= i < |rows| ==> rows[i] == Parked(old(rows)[i])
      ensures log == old(log) + [(old(rows), rows)]
    {
      var was := rows;
      rows := seq(|was|, i requires 0 <= i < |was| => Parked(was[i]));
      log := log + [(was, rows)];
    }

    /** UPDATE ... SET the message's columns WHERE node_id = its node. */
    method UpdateNode(m: Message)
      modifies this
      ensures |rows| == |old(rows)|
      ensures forall i :: 0 <= i < |rows| ==>
        rows[i] == if ForNode(old(rows)[i], m.nodeId) then LiveRow(m) else old(rows)[i]
      ensures log == old(log) + [(old(rows), rows)]
    {
      var was := rows;
      rows := seq(|was|, i requires 0 <= i < |was| => if ForNode(was[i], m.nodeId) then LiveRow(m) else was[i]);
      log := log + [(was, rows)];
    }

    method Insert(m: Message)
      modifies this
      ensures rows == old(rows) + [LiveRow(m)]
      ensures log == old(log) + [(old(rows), rows)]
    {
      ghost var was := rows;
      rows := rows + [LiveRow(m)];
      log := log + [(was, rows)];
    }

    /** UPDATE ... SET is_enabled = false WHERE id = ANY. */
    method Disable(ids: set<nat>)
      modifies this
      ensures OnlyDisabled(old(rows), rows, ids)
      ensures log == old(log) + [(old(rows), rows)]
    {
      var was := rows;
      rows := seq(|was|, i requires 0 <= i < |was| => if i in ids then was[i].(enabled := false) else was[i]);
      log := log + [(was, rows)];
    }

    /** The last statement: what is still parked moves above the live range, disabled. */
    method LiftOrphans()
      modifies this
      ensures |rows| == |old(rows)|
      ensures forall i {:trigger rows[i]} :: 0 <= i < |rows| ==>
        rows[i] == if old(rows)[i].order < 0
                   then old(rows)[i].(order := MaxOrder(old(rows)) + Offset(old(rows), i), enabled := false)
                   else old(rows)[i]
      ensures log == old(log) + [(old(rows), rows)]
    {
      var was := rows;
      var top := MaxOrder(was);
      rows := seq(|was|, i requires 0 <= i < |was| =>
        if was[i].order < 0 then was[i].(order := top + Offset(was, i), enabled := false) else was[i]);
      log := log + [(was, rows)];
    }

    /** The rows of nodes that stay. */
    method UpdateAll(ms: seq<Message>, update: seq<Message>, ghost was: seq<Row>) returns (ghost done: set<NodeId>)
      requires Ready(was, ms) && Stage(was, ms, {}, rows) && |rows| == |was| && Chain(log, was, rows)
      requires forall m :: m in update ==> m in ms
      modifies this
      ensures Stage(was, ms, done, rows) && |rows| == |was| && done == Nodes(update) && Chain(log, was, rows)
    {
      hide Ready, Stage, Chain, RowByRow, Nodes;
      done := {};
      NoNodes(update);
      for k := 0 to |update|
        invariant Stage(was, ms, done, rows) && |rows| == |was| && done == Nodes(update[..k]) && Chain(log, was, rows)
      {
        ghost var before, ahead := rows, log;
        NodesStep(update, k);
        UpdateNode(update[k]);
        UpdateStage(was, ms, done, before, update[k], rows);
        ChainStep(ahead, was, before, rows);
        done := done + {update[k].nodeId};
      }
      assert update[..|update|] == update;
    }

    /** The rows of nodes that are new. */
    method InsertAll(ms: seq<Message>, create: seq<Message>, ghost was: seq<Row>, ghost already: set<NodeId>)
      returns (ghost done: set<NodeId>)
      requires Ready(was, ms) && Stage(was, ms, already, rows) && |rows| == |was| && Chain(log, was, rows)
      requires forall m :: m in create ==> m in ms && !Stored(was, m.nodeId)
      requires Distinct(create)
      modifies this
      ensures Stage(was, ms, done, rows) && done == already + Nodes(create) && Chain(log, was, rows)
      ensures forall n :: n in Nodes(create) ==> Stored(rows, n)
    {
      hide Ready, Stage, Chain, RowByRow, Nodes, Stored, Distinct;
      done := already;
      NoNodes(create);
      for k := 0 to |create|
        invariant Stage(was, ms, done, rows) && done == already + Nodes(create[..k]) && Chain(log, was, rows)
        invariant Appended(rows, |was|, create, k)
      {
        ghost var before, ahead := rows, log;
        NodesStep(create, k);
        NotStoredYet(was, ms, done, rows, create, k);
        Insert(create[k]);
        InsertStage(was, ms, done, before, create[k]);
        ChainStep(ahead, was, before, rows);
        done := done + {create[k].nodeId};
      }
      assert create[..|create|] == create;
      AppendedAreStored(rows, |was|, create);
    }

    /** The transaction of PUT /campaigns/:id/flow, from the linearised messages on. */
    method Save(lin: seq<Message>) returns (ms: seq<Message>, ghost firsts: seq<nat>)
      requires Numbered1(lin)
      requires UniqueOrders(rows) && UniqueNodes(rows) && PositiveOrders(rows)
      modifies this
      ensures OneEach(lin, |lin|, ms, firsts) && Numbered1(ms) && DistinctNodes(ms)
      ensures Saved(old(rows), ms, rows)
      ensures UniqueOrders(rows) && UniqueNodes(rows) && PositiveOrders(rows)
      ensures Chain(log, old(rows), rows)
    {
      ms, firsts := CollapseRejoins(lin);
      OneEachDistinct(lin, ms, firsts);
      log := [];
      ghost var was := rows;
      assert Ready(was, ms);
      var plan := PlanMessageSync(ms, rows);
      ghost var done := WriteLive(ms, plan, was);
      FinishSave(ms, plan, was, done);
    }

    /** PUT /campaigns/:id/flow for a valid graph: compile it, then save what it compiles to. */
    method SaveFlow(g: Graph) returns (lin: seq<Message>, ms: seq<Message>, ghost firsts: seq<nat>)
      requires UniqueOrders(rows) && UniqueNodes(rows) && PositiveOrders(rows)
      modifies this
      ensures CompilesTo(g, lin) && Numbered1(lin)
      ensures OneEach(lin, |lin|, ms, firsts) && Numbered1(ms)
      ensures Saved(old(rows), ms, rows)
      ensures SavedFlow(g, old(rows), rows)
      ensures UniqueOrders(rows) && UniqueNodes(rows) && PositiveOrders(rows)
      ensures Chain(log, old(rows), rows)
    {
      hide Saved, OneEach, Chain, SendWalks;
      lin := LineariseFlow(g);
      CompiledInOrder(g, lin);
      ghost var was := rows;
      ms, firsts := Save(lin);
      assert SavedBy(g, was, rows, lin, ms, firsts);
    }

    /** The first half of the transaction: park every row, then write each emitted node's. */
    method WriteLive(ms: seq<Message>, plan: Plan, ghost was: seq<Row>) returns (ghost done: set<NodeId>)
      requires Ready(was, ms) && IsPlan(ms, was, plan) && rows == was && log == []
      modifies this
      ensures Stage(was, ms, done, rows) && Chain(log, was, rows)
      ensures forall n :: n in done <==> MessageAt(ms, Some(n)).Some?
      ensures forall m :: m in ms ==> Stored(rows, m.nodeId)
    {
      assert forall m :: m in plan.update ==> m in ms;
      assert forall m :: m in plan.create ==> m in ms && !Stored(was, m.nodeId);
      assert Distinct(plan.create) && Chain(log, was, rows);
      hide *;
      Park();
      ParkStage(was, ms, rows);
      ChainStep([], was, was, rows);
      assert [] + [(was, rows)] == log;
      done := UpdateAll(ms, plan.update, was);
      done := InsertAll(ms, plan.create, was, done);
      PlanCovers(was, ms, plan, done, rows);
    }

    /** The second half: disable what the graph no longer emits, and lift what is still parked. */
    method FinishSave(ms: seq<Message>, plan: Plan, ghost was: seq<Row>, ghost done: set<NodeId>)
      requires Ready(was, ms) && IsPlan(ms, was, plan) && Stage(was, ms, done, rows) && Chain(log, was, rows)
      requires forall n :: n in done <==> MessageAt(ms, Some(n)).Some?
      requires forall m :: m in ms ==> Stored(rows, m.nodeId)
      modifies this
      ensures Saved(was, ms, rows) && Chain(log, was, rows)
      ensures UniqueOrders(rows) && UniqueNodes(rows) && PositiveOrders(rows)
    {
      hide *;
      ghost var staged, ahead := rows, log;
      Disable(plan.disable);
      ghost var disabled, between := rows, log;
      LiftOrphans();
      FinalStage(was, ms, done, staged, plan, disabled, rows);
      ChainStep(ahead, was, staged, disabled);
      ChainStep(between, was, disabled, rows);
    }
  }

  /** What the transaction may rely on. */
  ghost predicate Ready(was: seq<Row>, ms: seq<Message>) {
    Numbered1(ms) && DistinctNodes(ms) && UniqueOrders(was) && UniqueNodes(was) && PositiveOrders(was)
  }

  function Nodes(ms: seq<Message>): set<NodeId> {
    set i | 0 <= i < |ms| :: ms[i].nodeId
  }

  lemma CompiledInOrder(g: Graph, lin: seq<Message>)
    requires CompilesTo(g, lin)
    ensures Numbered1(lin)
  {
    hide SendWalks;
    forall i | 0 <= i < |lin| ensures lin[i].sequenceOrder == i + 1 {
    }
  }

  lemma NoNodes(ms: seq<Message>)
    ensures Nodes(ms[..0]) == {}
  {
  }

  /** The first `k` messages of `create` are the rows from `start` on. */
  ghost predicate Appended(rows: seq<Row>, start: nat, create: seq<Message>, k: nat)
    requires k <= |create|
  {
    |rows| == start + k && forall i {:trigger create[i]} :: 0 <= i < k ==> rows[start + i] == LiveRow(create[i])
  }

  lemma AppendedAreStored(rows: seq<Row>, start: nat, create: seq<Message>)
    requires Appended(rows, start, create, |create|)
    ensures forall n :: n in Nodes(create) ==> Stored(rows, n)
  {
    forall n | n in Nodes(create) ensures Stored(rows, n) {
      var i :| 0 <= i < |create| && create[i].nodeId == n;
      assert ForNode(rows[start + i], n);
    }
  }

  lemma NodesStep(ms: seq<Message>, k: nat)
    requires k < |ms|
    ensures Nodes(ms[..k + 1]) == Nodes(ms[..k]) + {ms[k].nodeId}
  {
    forall n ensures n in Nodes(ms[..k + 1]) <==> n in Nodes(ms[..k]) || n == ms[k].nodeId {
      if n in Nodes(ms[..k]) {
        var i :| 0 <= i < k && ms[..k][i].nodeId == n;
        assert ms[..k + 1][i].nodeId == n;
      }
      assert ms[..k + 1][k] == ms[k];
    }
  }

  lemma ParkStage(was: seq<Row>, ms: seq<Message>, now: seq<Row>)
    requires Ready(was, ms) && |now| == |was|
    requires forall i :: 0 <= i < |now| ==> now[i] == Parked(was[i])
    ensures Stage(was, ms, {}, now) && RowByRow(was, now)
  {
  }

  lemma StageStepIsRowByRow(was: seq<Row>, ms: seq<Message>, d: set<NodeId>, r: seq<Row>, d': set<NodeId>, r': seq<Row>)
    requires Ready(was, ms) && Stage(was, ms, d, r) && Stage(was, ms, d', r') && |r| <= |r'|
    requires forall i :: 0 <= i < |r| ==> r'[i].nodeId == r[i].nodeId
    ensures RowByRow(r, r')
  {
    StagesDoNotCollide(was, ms, d, r, d, r);
    StagesDoNotCollide(was, ms, d', r', d', r');
    StagesDoNotCollide(was, ms, d, r, d', r');
  }

  lemma UpdateStage(was: seq<Row>, ms: seq<Message>, done: set<NodeId>, r: seq<Row>, m: Message, r': seq<Row>)
    requires Ready(was, ms) && Stage(was, ms, done, r) && |r| == |was| == |r'| && m in ms
    requires forall i :: 0 <= i < |r| ==> r'[i] == if ForNode(r[i], m.nodeId) then LiveRow(m) else r[i]
    ensures Stage(was, ms, done + {m.nodeId}, r') && RowByRow(r, r')
  {
    MessageAtIs(ms, m);
    assert forall i :: 0 <= i < |r| ==> r'[i].nodeId == r[i].nodeId;
    StageStepIsRowByRow(was, ms, done, r, done + {m.nodeId}, r');
  }

  lemma MessageAtIs(ms: seq<Message>, m: Message)
    requires DistinctNodes(ms) && m in ms
    ensures MessageAt(ms, Some(m.nodeId)) == Some(m)
  {
    var x := MessageAt(ms, Some(m.nodeId));
    assert x.Some?;
    var i :| 0 <= i < |ms| && ms[i] == m;
    var j :| 0 <= j < |ms| && ms[j] == x.value;
  }

  /** The insert cannot meet an older row of its node, nor one of this transaction. */
  lemma NotStoredYet(was: seq<Row>, ms: seq<Message>, done: set<NodeId>, r: seq<Row>, create: seq<Message>, k: nat)
    requires Ready(was, ms) && Stage(was, ms, done, r) && k < |create| && Appended(r, |was|, create, k)
    requires Distinct(create) && forall m :: m in create ==> m in ms && !Stored(was, m.nodeId)
    ensures !Stored(r, create[k].nodeId)
  {
    forall i | 0 <= i < |r| ensures !ForNode(r[i], create[k].nodeId) {
      if i < |was| {
        assert !ForNode(was[i], create[k].nodeId);
      } else {
        var c := create[i - |was|];
        assert r[|was| + (i - |was|)] == LiveRow(c);
        SameMessageOrder(ms, c, create[k]);
      }
    }
  }

  lemma InsertStage(was: seq<Row>, ms: seq<Message>, done: set<NodeId>, r: seq<Row>, m: Message)
    requires Ready(was, ms) && Stage(was, ms, done, r) && m in ms && !Stored(r, m.nodeId) && !Stored(was, m.nodeId)
    ensures Stage(was, ms, done + {m.nodeId}, r + [LiveRow(m)]) && RowByRow(r, r + [LiveRow(m)])
  {
    MessageAtIs(ms, m);
    var r' := r + [LiveRow(m)];
    forall i | 0 <= i < |was| ensures Written(was[i], done + {m.nodeId}) == Written(was[i], done) {
      assert !ForNode(was[i], m.nodeId);
    }
    forall i | 0 <= i < |r| ensures r'[i].nodeId != Some(m.nodeId) {
      assert !ForNode(r[i], m.nodeId);
    }
    StageStepIsRowByRow(was, ms, done, r, done + {m.nodeId}, r');
  }

  /** After the updates and the inserts, the written rows are exactly the live ones, and each node has one. */
  lemma PlanCovers(was: seq<Row>, ms: seq<Message>, plan: Plan, done: set<NodeId>, r: seq<Row>)
    requires Ready(was, ms) && IsPlan(ms, was, plan) && Stage(was, ms, done, r)
    requires done == Nodes(plan.update) + Nodes(plan.create)
    requires forall n :: n in Nodes(plan.create) ==> Stored(r, n)
    ensures forall n :: n in done <==> MessageAt(ms, Some(n)).Some?
    ensures forall m :: m in ms ==> Stored(r, m.nodeId)
  {
    forall m | m in ms ensures m.nodeId in done && Stored(r, m.nodeId) {
      if Stored(was, m.nodeId) {
        var k :| 0 <= k < |plan.update| && plan.update[k] == m;
        assert m.nodeId in Nodes(plan.update);
        var i :| 0 <= i < |was| && ForNode(was[i], m.nodeId);
        assert ForNode(r[i], m.nodeId);
      } else {
        var k :| 0 <= k < |plan.create| && plan.create[k] == m;
        assert m.nodeId in Nodes(plan.create);
      }
    }
    forall n | MessageAt(ms, Some(n)).Some? ensures n in done {
      assert MessageAt(ms, Some(n)).value in ms;
    }
  }

  /** The table just before the orphans move: live rows numbered 1 to k, orphans negative. */
  ghost predicate BeforeLift(was: seq<Row>, ms: seq<Message>, r: seq<Row>) {
    && |was| <= |r|
    && (forall i {:trigger r[i]} :: 0 <= i < |r| ==> if Live(ms, r[i]) then r[i] == LiveRow(MessageAt(ms, r[i].nodeId).value)
                                                     else i < |was| && r[i].order == -was[i].order)
    && (forall i {:trigger r[i]} :: 0 <= i < |was| ==> r[i].nodeId == was[i].nodeId)
    && (forall i {:trigger r[i]} :: 0 <= i < |was| && !Live(ms, was[i]) ==> r[i].columns == was[i].columns)
  }

  lemma LiveOrders(was: seq<Row>, ms: seq<Message>, r: seq<Row>)
    requires Ready(was, ms) && BeforeLift(was, ms, r)
    requires forall m :: m in ms ==> Stored(r, m.nodeId)
    ensures MaxOrder(r) == |ms|
    ensures forall i :: 0 <= i < |r| ==> if Live(ms, r[i]) then 1 <= r[i].order <= |ms| else r[i].order < 0
  {
    forall i | 0 <= i < |r|
      ensures if Live(ms, r[i]) then 1 <= r[i].order <= |ms| else r[i].order < 0
    {
      if Live(ms, r[i]) {
        SameMessageOrder(ms, MessageAt(ms, r[i].nodeId).value, MessageAt(ms, r[i].nodeId).value);
      }
    }
    if ms != [] {
      var last := ms[|ms| - 1];
      assert Stored(r, last.nodeId);
      var i :| 0 <= i < |r| && ForNode(r[i], last.nodeId);
      MessageAtIs(ms, last);
      assert r[i].order == |ms|;
    }
    MaxOrderIs(r, |ms|);
  }

  lemma OffsetIsRank(was: seq<Row>, ms: seq<Message>, r: seq<Row>, i: nat)
    requires Ready(was, ms) && BeforeLift(was, ms, r)
    requires forall j :: 0 <= j < |r| ==> if Live(ms, r[j]) then 1 <= r[j].order <= |ms| else r[j].order < 0
    requires i < |was| && !Live(ms, was[i])
    ensures Offset(r, i) == Rank(was, ms, i)
  {
    assert r[i].order == -was[i].order;
    var above := set j: nat | j < |r| && r[j].order < 0 && r[j].order > r[i].order;
    var below := OrphansBelow(was, ms, was[i].order);
    forall j: nat ensures j in above <==> j in below {
      if j < |r| && j < |was| {
        assert r[j].nodeId == was[j].nodeId;
      }
    }
    assert above == below;
  }

  /** `after` is `before` with some rows disabled. */
  ghost predicate OnlyDisabled(before: seq<Row>, after: seq<Row>, ids: set<nat>) {
    |after| == |before| && forall i {:trigger after[i]} :: 0 <= i < |before| ==>
      after[i] == if i in ids then before[i].(enabled := false) else before[i]
  }

  lemma DisablingKeepsOrders(before: seq<Row>, after: seq<Row>, ids: set<nat>)
    requires OnlyDisabled(before, after, ids) && UniqueOrders(before) && UniqueNodes(before)
    ensures RowByRow(before, after) && UniqueOrders(after) && UniqueNodes(after)
  {
  }

  lemma DisablingKeepsStored(before: seq<Row>, after: seq<Row>, ids: set<nat>, n: NodeId)
    requires OnlyDisabled(before, after, ids) && Stored(before, n)
    ensures Stored(after, n)
  {
    var i :| 0 <= i < |before| && ForNode(before[i], n);
    assert ForNode(after[i], n);
  }

  lemma StageHasUniqueOrders(was: seq<Row>, ms: seq<Message>, done: set<NodeId>, staged: seq<Row>)
    requires Ready(was, ms) && Stage(was, ms, done, staged)
    ensures UniqueOrders(staged) && UniqueNodes(staged)
  {
    StagesDoNotCollide(was, ms, done, staged, done, staged);
  }

  lemma DisabledBeforeLift(was: seq<Row>, ms: seq<Message>, done: set<NodeId>, staged: seq<Row>, plan: Plan,
                           disabled: seq<Row>)
    requires Ready(was, ms) && IsPlan(ms, was, plan) && Stage(was, ms, done, staged)
    requires forall n :: n in done <==> MessageAt(ms, Some(n)).Some?
    requires OnlyDisabled(staged, disabled, plan.disable)
    ensures BeforeLift(was, ms, disabled)
  {
    forall i {:trigger disabled[i]} | 0 <= i < |disabled|
      ensures if Live(ms, disabled[i]) then disabled[i] == LiveRow(MessageAt(ms, disabled[i].nodeId).value)
              else i < |was| && disabled[i].order == -was[i].order
    {
      assert disabled[i].nodeId == staged[i].nodeId;
      if i < |was| {
        assert staged[i].nodeId == was[i].nodeId;
      }
    }
  }

  lemma DisabledStage(was: seq<Row>, ms: seq<Message>, done: set<NodeId>, staged: seq<Row>, plan: Plan, disabled: seq<Row>)
    requires Ready(was, ms) && IsPlan(ms, was, plan) && Stage(was, ms, done, staged)
    requires forall n :: n in done <==> MessageAt(ms, Some(n)).Some?
    requires forall m :: m in ms ==> Stored(staged, m.nodeId)
    requires OnlyDisabled(staged, disabled, plan.disable)
    ensures BeforeLift(was, ms, disabled) && RowByRow(staged, disabled)
    ensures UniqueOrders(disabled) && UniqueNodes(disabled)
    ensures forall m :: m in ms ==> Stored(disabled, m.nodeId)
  {
    hide *;
    StageHasUniqueOrders(was, ms, done, staged);
    DisablingKeepsOrders(staged, disabled, plan.disable);
    DisabledBeforeLift(was, ms, done, staged, plan, disabled);
    forall m | m in ms ensures Stored(disabled, m.nodeId) {
      DisablingKeepsStored(staged, disabled, plan.disable, m.nodeId);
    }
  }

  /** The two last statements turn the staged table into the saved one. */
  lemma FinalStage(was: seq<Row>, ms: seq<Message>, done: set<NodeId>, staged: seq<Row>, plan: Plan,
                   disabled: seq<Row>, now: seq<Row>)
    requires Ready(was, ms) && IsPlan(ms, was, plan) && Stage(was, ms, done, staged)
    requires forall n :: n in done <==> MessageAt(ms, Some(n)).Some?
    requires forall m :: m in ms ==> Stored(staged, m.nodeId)
    requires OnlyDisabled(staged, disabled, plan.disable) && |disabled| == |now|
    requires forall i {:trigger now[i]} :: 0 <= i < |now| ==>
      now[i] == if disabled[i].order < 0
                then disabled[i].(order := MaxOrder(disabled) + Offset(disabled, i), enabled := false)
                else disabled[i]
    ensures Saved(was, ms, now) && RowByRow(staged, disabled) && RowByRow(disabled, now)
    ensures UniqueOrders(now) && UniqueNodes(now) && PositiveOrders(now)
  {
    assert Numbered1(ms) && DistinctNodes(ms) && UniqueOrders(was);
    hide *;
    DisabledStage(was, ms, done, staged, plan, disabled);
    LiveOrders(was, ms, disabled);
    LiftedIsSaved(was, ms, disabled, now);
    SavedIsSound(was, ms, now);
    LiftDoesNotCollide(ms, disabled, now);
  }

  /** A lifted number is above every number in use: the orphans can move one at a time. */
  lemma LiftDoesNotCollide(ms: seq<Message>, r: seq<Row>, now: seq<Row>)
    requires |now| == |r| && UniqueOrders(r) && UniqueOrders(now) && PositiveOrders(now)
    requires forall i :: 0 <= i < |r| ==> r[i].order < 0 || now[i] == r[i]
    ensures RowByRow(r, now)
  {
  }

  lemma SameNodesKeepStored(r: seq<Row>, now: seq<Row>, n: NodeId)
    requires |now| == |r| && (forall i :: 0 <= i < |r| ==> now[i].nodeId == r[i].nodeId) && Stored(r, n)
    ensures Stored(now, n)
  {
    var i :| 0 <= i < |r| && ForNode(r[i], n);
    assert ForNode(now[i], n);
  }

  lemma SameNodesUnique(r: seq<Row>, now: seq<Row>)
    requires |now| == |r| && (forall i :: 0 <= i < |r| ==> now[i].nodeId == r[i].nodeId) && UniqueNodes(r)
    ensures UniqueNodes(now)
  {
  }

  lemma SameNodeLive(ms: seq<Message>, a: Row, b: Row)
    requires a.nodeId == b.nodeId
    ensures Live(ms, a) == Live(ms, b)
  {
  }

  lemma OrphanLifted(was: seq<Row>, ms: seq<Message>, r: seq<Row>, row: Row, i: nat)
    requires Ready(was, ms) && BeforeLift(was, ms, r)
    requires forall j :: 0 <= j < |r| ==> if Live(ms, r[j]) then 1 <= r[j].order <= |ms| else r[j].order < 0
    requires i < |was| && !Live(ms, was[i])
    requires row == r[i].(order := |ms| + Offset(r, i), enabled := false)
    ensures r[i].order < 0 && row == was[i].(order := |ms| + Rank(was, ms, i), enabled := false)
  {
    OffsetIsRank(was, ms, r, i);
    hide Offset, Rank, UniqueNodes, UniqueOrders, PositiveOrders, Numbered1, DistinctNodes;
    assert r[i].nodeId == was[i].nodeId;
  }

  lemma LiveNotLifted(was: seq<Row>, ms: seq<Message>, r: seq<Row>, i: nat)
    requires BeforeLift(was, ms, r) && i < |r|
    requires forall j :: 0 <= j < |r| ==> if Live(ms, r[j]) then 1 <= r[j].order <= |ms| else r[j].order < 0
    ensures Live(ms, r[i]) ==> r[i].order >= 0 && r[i] == LiveRow(MessageAt(ms, r[i].nodeId).value)
    ensures i >= |was| ==> Live(ms, r[i])
    ensures i < |was| ==> r[i].nodeId == was[i].nodeId
  {
    hide MessageAt;
  }

  lemma LiftedIsSaved(was: seq<Row>, ms: seq<Message>, r: seq<Row>, now: seq<Row>)
    requires Ready(was, ms) && BeforeLift(was, ms, r) && UniqueNodes(r)
    requires forall j :: 0 <= j < |r| ==> if Live(ms, r[j]) then 1 <= r[j].order <= |ms| else r[j].order < 0
    requires MaxOrder(r) == |ms| && |now| == |r|
    requires forall m :: m in ms ==> Stored(r, m.nodeId)
    requires forall i {:trigger now[i]} :: 0 <= i < |now| ==>
      now[i] == if r[i].order < 0 then r[i].(order := MaxOrder(r) + Offset(r, i), enabled := false) else r[i]
    ensures Saved(was, ms, now) && UniqueNodes(now)
  {
    assert forall i :: 0 <= i < |now| ==> now[i].nodeId == r[i].nodeId;
    assert |was| <= |r|;
    forall m | m in ms ensures Stored(now, m.nodeId) {
      SameNodesKeepStored(r, now, m.nodeId);
    }
    SameNodesUnique(r, now);
    hide BeforeLift, Live, Offset, Rank, Ready, UniqueNodes, Stored, MaxOrder, MessageAt;
    forall i {:trigger now[i]} | 0 <= i < |now|
      ensures i >= |was| ==> Live(ms, now[i])
      ensures Live(ms, now[i]) ==> now[i] == LiveRow(MessageAt(ms, now[i].nodeId).value)
      ensures i < |was| ==> now[i].nodeId == was[i].nodeId
      ensures i < |was| && !Live(ms, was[i]) ==>
                now[i] == was[i].(order := |ms| + Rank(was, ms, i), enabled := false)
    {
      SameNodeLive(ms, r[i], now[i]);
      LiveNotLifted(was, ms, r, i);
      if i < |was| && !Live(ms, was[i]) {
        SameNodeLive(ms, r[i], was[i]);
        OrphanLifted(was, ms, r, r[i].(order := |ms| + Offset(r, i), enabled := false), i);
      }
    }
  }
}
