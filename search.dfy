/** Breadth-first search over grids: search nodes, their expansion with the digits 1..N,
    and the driver that tests, expands and prunes nodes taken from a FIFO frontier. */
module Search {
  import opened Wrappers
  import opened Grids
  import opened Problem

  /** A search node: a state (no grid when `result` had no empty cell to fill), the
      node it was expanded from, the digit that produced it, and its depth. None of
      these change after construction. */
  class Node {
    const state: Option<Grid>
    const parent: Node?
    const action: Option<int>
    const depth: nat

    /** The root has depth 0; a child is one deeper than its parent. */
    constructor (state: Option<Grid>, parent: Node?, action: Option<int>)
      ensures this.state == state && this.parent == parent && this.action == action
      ensures depth == if parent == null then 0 else parent.depth + 1
    {
      this.state := state;
      this.parent := parent;
      this.action := action;
      depth := if parent == null then 0 else parent.depth + 1;
    }

    /** child_node: the node reached from this one by placing digit a. */
    method ChildNode(a: int) returns (child: Node)
      requires state.Some? && Square(state.value)
      ensures fresh(child)
      ensures child.parent == this && child.action == Some(a) && child.depth == depth + 1
      ensures IsResult(state.value, a, child.state)
    {
      var next := Result(state.value, a);
      child := new Node(next, this, Some(a));
    }

    /** expand: one child per action, in the order of `Actions`, which places the digits
        1..N in ascending order. */
    method Expand() returns (children: seq<Node>)
      requires state.Some? && Square(state.value)
      ensures |children| == |state.value| && Expanded(this, children)
      ensures forall i :: 0 <= i < |children| ==> fresh(children[i])
    {
      var acts := Actions(state.value);
      children := [];
      var i := 0;
      while i < |acts|
        invariant 0 <= i <= |acts| && |children| == i && Expanded(this, children)
        invariant forall j :: 0 <= j < i ==> fresh(children[j])
      {
        assert acts[i] == i + 1;
        var child := ChildNode(acts[i]);
        assert (children + [child])[..i] == children;
        children := children + [child];
        i := i + 1;
      }
    }
  }

  /** What `breadth_first_search` ends with: a solved node, `None` once the frontier is
      empty, or the type error raised when `goal_test` is handed a node with no grid. */
  datatype Outcome = Solution(node: Node) | NoSolution | StateError

  /** What every node placed on the frontier satisfies, for the initial grid init: it holds
      a grid of init's shape that keeps init's digits, its depth is the number of init's
      empty cells it has filled, only the root (which is init itself) may be dead or
      filled, and if init is dead so is every queued grid. */
  ghost predicate Queued(init: Grid, x: Node) {
    x.state.Some? &&
    var g := x.state.value;
    Square(g) && |g| == |init| && CellsIn(g, 9) &&
    Extends(init, g) &&
    x.depth + Zeros(g) == Zeros(init) &&
    (x.depth == 0 ==> g == init) &&
    (x.depth > 0 ==> !IsDead(g) && !Filled(g)) &&
    (IsDead(init) ==> IsDead(g))
  }

  /** Every node of q satisfies `Queued`. */
  ghost predicate AllQueued(init: Grid, q: seq<Node>) {
    forall x :: x in q ==> Queued(init, x)
  }

  lemma AllQueuedAppend(init: Grid, q: seq<Node>, x: Node)
    requires AllQueued(init, q) && Queued(init, x)
    ensures AllQueued(init, q + [x])
  {
  }

  /** A child made from a queued node by placing a digit keeps everything `Queued` says
      except the clauses about the child being alive and not filled. */
  lemma ChildFacts(init: Grid, node: Node, a: int, child: Node, cg: Grid)
    requires Queued(init, node) && 1 <= a <= 9
    requires IsResult(node.state.value, a, Some(cg))
    requires child.state == Some(cg) && child.depth == node.depth + 1
    ensures Square(cg) && |cg| == |init| && CellsIn(cg, 9) && Extends(init, cg)
    ensures child.depth + Zeros(cg) == Zeros(init)
    ensures IsDead(init) ==> IsDead(cg)
    ensures Filled(cg) ==> child.depth == Zeros(init)
    ensures !IsDead(cg) && !IsGoal(cg) ==> Queued(init, child)
  {
    ResultExtends(node.state.value, a, cg);
    ZerosZeroIffFilled(cg);
  }

  /** Termination measure: a node with z empty cells outweighs the n nodes with z - 1
      empty cells that can replace it on the frontier. */
  function Weight(n: nat, z: nat): nat {
    if z == 0 then 1 else 1 + Times(n, Weight(n, z - 1))
  }

  /** k * w, spelled out as repeated addition so that the termination argument stays
      within linear arithmetic. */
  function Times(k: nat, w: nat): nat {
    if k == 0 then 0 else Times(k - 1, w) + w
  }

  lemma TimesStep(i: nat, w: nat, q0: nat, q: nat, q': nat)
    requires q <= q0 + Times(i, w) && q' <= q + w
    ensures q' <= q0 + Times(i + 1, w)
  {
  }

  function NodeWeight(n: nat, x: Node): nat {
    match x.state
    case None => 0
    case Some(g) => Weight(n, Zeros(g))
  }

  function QueueWeight(n: nat, q: seq<Node>): nat {
    if q == [] then 0 else NodeWeight(n, q[0]) + QueueWeight(n, q[1..])
  }

  lemma {:induction false} QueueWeightAppend(n: nat, q: seq<Node>, x: Node)
    ensures QueueWeight(n, q + [x]) == QueueWeight(n, q) + NodeWeight(n, x)
  {
    if q != [] {
      QueueWeightAppend(n, q[1..], x);
      assert (q + [x])[1..] == q[1..] + [x];
    }
  }

  /** Replacing the head of q, a node with at least one empty cell, by at most n nodes
      with one empty cell fewer lowers the weight of the queue. */
  lemma QueueShrinks(n: nat, q: seq<Node>, q': seq<Node>)
    requires q != [] && q[0].state.Some? && Zeros(q[0].state.value) >= 1
    requires QueueWeight(n, q') <= QueueWeight(n, q[1..]) + Times(n, Weight(n, Zeros(q[0].state.value) - 1))
    ensures QueueWeight(n, q') < QueueWeight(n, q)
  {
  }

  /** x solves the puzzle posed by init: its grid is solved, keeps every digit of init,
      and its depth is the number of empty cells init had. */
  ghost predicate Solves(init: Grid, x: Node) {
    x.state.Some? && IsGoal(x.state.value) && Extends(init, x.state.value) &&
    x.depth == Zeros(init)
  }

  /** x as a frontier entry: itself when it holds a grid that is not dead, else nothing. */
  ghost function Survivor(x: Node): seq<Node> {
    if x.state.Some? && !IsDead(x.state.value) then [x] else []
  }

  /** One turn of the loop over the children of a dequeued node: stop with the child if
      it is solved, otherwise put it on the frontier unless it is pruned. A child with no
      grid stops the search with the error `goal_test` raises on it. */
  method VisitChild(init: Grid, node: Node, a: int, child: Node,
                    frontier: seq<Node>, ghost enqueued: seq<Node>)
    returns (stop: Option<Outcome>, frontier': seq<Node>, ghost enqueued': seq<Node>)
    requires Boxable(init) && |init| <= 9
    requires Queued(init, node) && 1 <= a <= 9
    requires IsResult(node.state.value, a, child.state) && child.depth == node.depth + 1
    requires AllQueued(init, frontier) && AllQueued(init, enqueued)
    ensures child.state.None? <==> stop == Some(StateError)
    ensures child.state.Some? ==> (stop.Some? <==> IsGoal(child.state.value))
    ensures stop.Some? ==> stop.value.Solution? || stop.value.StateError?
    ensures stop.Some? && stop.value.Solution? ==> stop.value.node == child
    ensures stop.Some? && stop.value.Solution? ==> Solves(init, stop.value.node) && !IsDead(init)
    ensures AllQueued(init, frontier') && AllQueued(init, enqueued')
    ensures stop.Some? ==> frontier' == frontier && enqueued' == enqueued
    ensures stop.None? ==> child.state.Some?
    ensures stop.None? ==> frontier' == frontier + Survivor(child) && enqueued' == enqueued + Survivor(child)
    ensures stop.None? ==> Zeros(node.state.value) >= 1
    ensures stop.None? ==> (QueueWeight(|init|, frontier') <=
      QueueWeight(|init|, frontier) + Weight(|init|, Zeros(node.state.value) - 1))
  {
    frontier', enqueued' := frontier, enqueued;
    match child.state {
      case None =>
        return Some(StateError), frontier', enqueued';
      case Some(cg) =>
        ChildFacts(init, node, a, child, cg);
        var goal := GoalTest(cg);
        if goal {
          return Some(Solution(child)), frontier', enqueued';
        }
        var dead := Prune(cg);
        if dead {
          assert frontier + Survivor(child) == frontier && enqueued + Survivor(child) == enqueued;
        } else {
          QueueWeightAppend(|init|, frontier, child);
          AllQueuedAppend(init, frontier, child);
          AllQueuedAppend(init, enqueued, child);
          frontier' := frontier + [child];
          enqueued' := enqueued + [child];
        }
        return None, frontier', enqueued';
    }
  }

  /** The children of a node that survive pruning, in order: those holding a grid that
      is not dead. */
  ghost function Survivors(kids: seq<Node>): seq<Node> {
    if kids == [] then [] else Survivors(kids[..|kids| - 1]) + Survivor(kids[|kids| - 1])
  }

  /** kids are the first |kids| children of node, in the order of the digits: the i-th
      (counting from 1) is one deeper than node and holds the result of placing digit i. */
  ghost predicate Expanded(node: Node, kids: seq<Node>)
    requires node.state.Some?
  {
    kids == [] ||
    (Expanded(node, kids[..|kids| - 1]) &&
     var x := kids[|kids| - 1];
     x.parent == node && x.depth == node.depth + 1 && IsResult(node.state.value, |kids|, x.state))
  }

  lemma {:induction false} ExpandedIff(node: Node, kids: seq<Node>)
    requires node.state.Some?
    ensures Expanded(node, kids) <==> forall i :: 0 <= i < |kids| ==>
      kids[i].parent == node && kids[i].depth == node.depth + 1 &&
      IsResult(node.state.value, i + 1, kids[i].state)
  {
    if kids != [] {
      var m := |kids| - 1;
      ExpandedIff(node, kids[..m]);
      assert forall i :: 0 <= i < m ==> kids[i] == kids[..m][i];
    }
  }

  lemma ExpandedAt(node: Node, kids: seq<Node>, i: nat)
    requires node.state.Some? && Expanded(node, kids) && i < |kids|
    ensures kids[i].parent == node && kids[i].depth == node.depth + 1
    ensures IsResult(node.state.value, i + 1, kids[i].state)
  {
    ExpandedIff(node, kids);
  }

  /** Every node of kids holds a grid that is not solved: none of them stopped the search. */
  ghost predicate Passed(kids: seq<Node>) {
    kids == [] ||
    (Passed(kids[..|kids| - 1]) &&
     kids[|kids| - 1].state.Some? && !IsGoal(kids[|kids| - 1].state.value))
  }

  lemma {:induction false} PassedMeansNoGoal(kids: seq<Node>)
    requires Passed(kids)
    ensures forall i :: 0 <= i < |kids| ==> kids[i].state.Some? && !IsGoal(kids[i].state.value)
  {
    if kids != [] {
      var m := |kids| - 1;
      PassedMeansNoGoal(kids[..m]);
      assert forall i :: 0 <= i < m ==> kids[i] == kids[..m][i];
    }
  }

  /** The bookkeeping of one child that did not stop the search: it joins the passed
      prefix, and the queue grows by its survivor. */
  lemma PassOne(kids: seq<Node>, i: nat, f0: seq<Node>, f: seq<Node>, f': seq<Node>)
    requires i < |kids| && kids[i].state.Some? && !IsGoal(kids[i].state.value)
    requires Passed(kids[..i]) && f == f0 + Survivors(kids[..i]) && f' == f + Survivor(kids[i])
    ensures Passed(kids[..i + 1]) && f' == f0 + Survivors(kids[..i + 1])
  {
    assert kids[..i + 1][..i] == kids[..i];
  }

  /** Taking the head off a queue that is the suffix of q from t: the head is in q, it
      and the rest are queued, and the rest is the suffix of q from t + 1. */
  lemma Dequeue(init: Grid, q: seq<Node>, t: nat, f: seq<Node>)
    requires t < |q| && q[t..] == f && AllQueued(init, f)
    ensures |f| >= 1 && f[0] in q && Queued(init, f[0])
    ensures q[t + 1..] == f[1..] && AllQueued(init, f[1..])
  {
    assert f[0] == q[t];
    forall x | x in f[1..] ensures Queued(init, x) {
      assert x in f;
    }
  }

  /** Appending s to the record q appends it to the queue that is q's suffix from t, and
      keeps q's first node. */
  lemma EnqueueAll(q: seq<Node>, t: nat, f: seq<Node>, s: seq<Node>)
    requires 1 <= |q| && t <= |q| && q[t..] == f
    ensures (q + s)[t..] == f + s && (q + s)[0] == q[0]
  {
  }

  /** Only a grid with no empty cell left from init is filled, and the only queued node
      with depth Zeros(init) = 0 is the root. */
  lemma QueuedFilled(init: Grid, x: Node)
    requires Queued(init, x)
    ensures Filled(x.state.value) <==> Filled(init)
  {
    ZerosZeroIffFilled(init);
  }

  /** The state of the loop over kids after i of them have been visited without stopping:
      they have all passed, and the queue f and the record q have grown from f0 and q0 by
      their survivors, staying queued and within the weight bound. */
  ghost predicate Visiting(init: Grid, kids: seq<Node>, i: nat, w: nat,
                           f0: seq<Node>, q0: seq<Node>, f: seq<Node>, q: seq<Node>)
    requires i <= |kids|
  {
    Passed(kids[..i]) && f == f0 + Survivors(kids[..i]) && q == q0 + Survivors(kids[..i]) &&
    AllQueued(init, f) && AllQueued(init, q) &&
    QueueWeight(|init|, f) <= QueueWeight(|init|, f0) + Times(i, w)
  }

  /** Visits the i-th child of node when kids[..i] have all passed: the loop state before
      the visit is the queue f0 (and record q0) extended by the survivors of kids[..i],
      and after a visit that does not stop, the survivors of kids[..i + 1]. */
  method VisitNext(init: Grid, node: Node, kids: seq<Node>, i: nat, ghost w: nat,
                   ghost f0: seq<Node>, ghost q0: seq<Node>,
                   frontier: seq<Node>, ghost enqueued: seq<Node>)
    returns (stop: Option<Outcome>, frontier': seq<Node>, ghost enqueued': seq<Node>)
    requires Boxable(init) && |init| <= 9 && Queued(init, node)
    requires i < |kids| == |node.state.value| && Expanded(node, kids)
    requires Zeros(node.state.value) >= 1 ==> w == Weight(|init|, Zeros(node.state.value) - 1)
    requires Visiting(init, kids, i, w, f0, q0, frontier, enqueued)
    ensures AllQueued(init, enqueued')
    ensures kids[i].state.None? <==> stop == Some(StateError)
    ensures stop == Some(StateError) <==> Filled(node.state.value)
    ensures stop.Some? && stop.value.Solution? ==>
      stop.value.node == kids[i] && kids[i].parent == node && Solves(init, kids[i]) && !IsDead(init)
    ensures stop.Some? ==> (
      if kids[i].state.None? then stop.value == StateError
      else IsGoal(kids[i].state.value) && stop.value == Solution(kids[i]))
    ensures stop.Some? ==> frontier' == frontier && enqueued' == enqueued
    ensures stop.None? ==> Zeros(node.state.value) >= 1
    ensures stop.None? ==> Visiting(init, kids, i + 1, w, f0, q0, frontier', enqueued')
  {
    ExpandedAt(node, kids, i);
    stop, frontier', enqueued' := VisitChild(init, node, i + 1, kids[i], frontier, enqueued);
    if stop.None? {
      TimesStep(i, w, QueueWeight(|init|, f0), QueueWeight(|init|, frontier), QueueWeight(|init|, frontier'));
      PassOne(kids, i, f0, frontier, frontier');
      PassOne(kids, i, q0, enqueued, enqueued');
    }
  }

  /** The body of the frontier loop for one dequeued node: expand it and visit its
      children in the order of the digits, stopping at the first child that stops. The
      ghost outputs are the expanded children and the index k of the child that stopped
      the search (k is the number of children when none did). */
  method VisitChildren(init: Grid, node: Node, frontier: seq<Node>, ghost enqueued: seq<Node>)
    returns (stop: Option<Outcome>, frontier': seq<Node>, ghost enqueued': seq<Node>,
             ghost children: seq<Node>, ghost k: nat)
    requires Boxable(init) && |init| <= 9
    requires Queued(init, node) && AllQueued(init, frontier) && AllQueued(init, enqueued)
    ensures |children| == |node.state.value| && k <= |children| && Expanded(node, children)
    ensures Passed(children[..k])
    ensures stop.None? <==> k == |children|
    ensures stop.Some? ==> (
      if children[k].state.None? then stop.value == StateError
      else IsGoal(children[k].state.value) && stop.value == Solution(children[k]))
    ensures frontier' == frontier + Survivors(children[..k])
    ensures enqueued' == enqueued + Survivors(children[..k])
    ensures Filled(node.state.value) <==> stop == Some(StateError)
    ensures stop.Some? && stop.value.Solution? ==>
      stop.value.node.parent == node && Solves(init, stop.value.node) && !IsDead(init)
    ensures AllQueued(init, enqueued')
    ensures stop.None? ==> AllQueued(init, frontier')
    ensures stop.None? ==> Zeros(node.state.value) >= 1
    ensures stop.None? ==> (QueueWeight(|init|, frontier') <=
      QueueWeight(|init|, frontier) + Times(|init|, Weight(|init|, Zeros(node.state.value) - 1)))
  {
    var n := |init|;
    var g := node.state.value;
    ZerosZeroIffFilled(g);
    ghost var w := if Zeros(g) == 0 then 0 else Weight(n, Zeros(g) - 1);
    var kids := node.Expand();
    children := kids;
    frontier', enqueued' := frontier, enqueued;
    var i := 0;
    while i < |kids|
      invariant 0 <= i <= |kids|
      invariant Filled(g) ==> i == 0
      invariant Visiting(init, kids, i, w, frontier, enqueued, frontier', enqueued')
    {
      stop, frontier', enqueued' := VisitNext(init, node, kids, i, w, frontier, enqueued, frontier', enqueued');
      if stop.Some? {
        k := i;
        return;
      }
      i := i + 1;
    }
    assert kids[..i] == kids;
    k := i;
    return None, frontier', enqueued', children, k;
  }

  /** One turn of the frontier loop: take the first node off the queue and visit its
      children. The queue is the suffix of the record `enqueued` from `taken` on: the
      nodes taken are the ones dequeued so far, in order. */
  method SearchStep(init: Grid, ghost root: Node, frontier: seq<Node>,
                    ghost enqueued: seq<Node>, ghost taken: nat)
    returns (stop: Option<Outcome>, frontier': seq<Node>, ghost enqueued': seq<Node>,
             ghost taken': nat, ghost children: seq<Node>, ghost k: nat)
    requires Boxable(init) && |init| <= 9 && !IsGoal(init) && frontier != []
    requires AllQueued(init, frontier) && AllQueued(init, enqueued)
    requires |enqueued| >= 1 && enqueued[0] == root
    requires taken <= |enqueued| && enqueued[taken..] == frontier
    ensures frontier[0].state.Some? && Expanded(frontier[0], children) && |children| == |init|
    ensures k <= |children|
    ensures Passed(children[..k]) && (stop.None? <==> k == |children|)
    ensures stop.Some? ==> (
      if children[k].state.None? then stop.value == StateError
      else IsGoal(children[k].state.value) && stop.value == Solution(children[k]))
    ensures frontier' == frontier[1..] + Survivors(children[..k])
    ensures enqueued' == enqueued + Survivors(children[..k]) && taken' == taken + 1
    ensures AllQueued(init, enqueued') && |enqueued'| >= 1 && enqueued'[0] == root
    ensures stop.Some? ==> stop.value.Solution? || stop.value.StateError?
    ensures stop.Some? && stop.value.Solution? ==>
      Solves(init, stop.value.node) && !IsDead(init) && stop.value.node.parent in enqueued'
    ensures stop == Some(StateError) <==> Filled(init)
    ensures stop.None? ==> AllQueued(init, frontier')
    ensures stop.None? ==> taken' <= |enqueued'| && enqueued'[taken'..] == frontier'
    ensures stop.None? ==> QueueWeight(|init|, frontier') < QueueWeight(|init|, frontier)
  {
    var node := frontier[0];
    Dequeue(init, enqueued, taken, frontier);
    QueuedFilled(init, node);
    taken' := taken + 1;
    stop, frontier', enqueued', children, k := VisitChildren(init, node, frontier[1..], enqueued);
    EnqueueAll(enqueued, taken', frontier[1..], Survivors(children[..k]));
    if stop.None? {
      QueueShrinks(|init|, frontier, frontier');
    }
  }

  /** breadth_first_search: returns the root at once if it is solved; otherwise takes
      nodes from a FIFO frontier, expands each with the digits 1..N, returns the first
      child that is solved and enqueues the children that are not pruned; returns
      `NoSolution` once the frontier is empty. The ghost sequence `enqueued` records every
      node put on the frontier, in order. */
  method BreadthFirstSearch(init: Grid) returns (out: Outcome, ghost enqueued: seq<Node>)
    requires Boxable(init) && |init| <= 9
    ensures IsGoal(init) ==> out.Solution? && out.node.state == Some(init) && out.node.depth == 0
    ensures out.Solution? ==> Solves(init, out.node)
    ensures out.StateError? <==> Filled(init) && IsDead(init)
    ensures IsDead(init) ==> !out.Solution?
    ensures AllQueued(init, enqueued)
    ensures !IsGoal(init) ==>
      (|enqueued| >= 1 && enqueued[0].state == Some(init) &&
       enqueued[0].parent == null && enqueued[0].depth == 0)
    ensures out.Solution? && out.node.depth > 0 ==> out.node.parent in enqueued
  {
    var root := new Node(Some(init), null, None);
    var rootGoal := GoalTest(init);
    if rootGoal {
      ZerosZeroIffFilled(init);
      return Solution(root), [];
    }
    var n := |init|;
    var frontier := [root];
    enqueued := [root];
    ghost var taken: nat := 0;
    while |frontier| != 0
      invariant AllQueued(init, frontier) && AllQueued(init, enqueued)
      invariant Filled(init) ==> frontier == [root]
      invariant |enqueued| >= 1 && enqueued[0] == root
      invariant taken <= |enqueued| && enqueued[taken..] == frontier
      decreases QueueWeight(n, frontier)
    {
      var stop;
      ghost var children, k;
      stop, frontier, enqueued, taken, children, k := SearchStep(init, root, frontier, enqueued, taken);
      if stop.Some? {
        return stop.value, enqueued;
      }
    }
    return NoSolution, enqueued;
  }
}
