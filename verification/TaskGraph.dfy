/**
 The global task graph of `crates/lc-a2a/src/scale.rs`: parent-to-child delegation
 edges, an online refusal of any edge that would close a cycle (backward depth-first
 search) and a whole-graph check (Kahn's topological sweep over a multigraph).
 */
module TaskGraphs {
  import opened Common
  import opened SetSum

  type Node = string
  type Graph = map<Node, seq<Node>>

  datatype ScaleError =
    | HopLimitExceeded(hops: nat, max: nat)
    | WorkerToWorker
    | CycleDetected(parent: Node, child: Node)
    | NoAgentAvailable(query: string)

  // ---------- What a delegation graph means ----------

  predicate Edge(g: Graph, a: Node, b: Node) {
    a in g && b in g[a]
  }

  /** A path lists its nodes, so a single node is a path of no edges. */
  ghost predicate IsPath(g: Graph, p: seq<Node>) {
    |p| >= 1 && forall i, j :: 0 <= i < j < |p| && j == i + 1 ==> Edge(g, p[i], p[j])
  }

  ghost predicate PathFromTo(g: Graph, p: seq<Node>, a: Node, b: Node) {
    IsPath(g, p) && p[0] == a && p[|p| - 1] == b
  }

  ghost predicate Reaches(g: Graph, a: Node, b: Node) {
    exists p :: PathFromTo(g, p, a, b)
  }

  ghost predicate Acyclic(g: Graph) {
    forall p :: IsPath(g, p) && |p| >= 2 ==> p[0] != p[|p| - 1]
  }

  function AddEdge(g: Graph, a: Node, b: Node): Graph {
    g[a := (if a in g then g[a] else []) + [b]]
  }

  lemma ReachesSelf(g: Graph, a: Node)
    ensures Reaches(g, a, a)
  {
    assert PathFromTo(g, [a], a, a);
  }

  lemma ReachesStep(g: Graph, a: Node, b: Node, c: Node)
    requires Reaches(g, a, b) && Edge(g, b, c)
    ensures Reaches(g, a, c)
    ensures a == c ==> !Acyclic(g)
  {
    var p :| PathFromTo(g, p, a, b);
    assert PathFromTo(g, p + [c], a, c);
  }

  lemma ReachesTrans(g: Graph, a: Node, b: Node, c: Node)
    requires Reaches(g, a, b) && Reaches(g, b, c)
    ensures Reaches(g, a, c)
  {
    var p :| PathFromTo(g, p, a, b);
    var q :| PathFromTo(g, q, b, c);
    assert PathFromTo(g, p + q[1..], a, c);
  }

  // ---------- Refusing an edge ----------

  /** A path of the extended graph avoids the new edge or runs through it. */
  lemma {:induction false} PathAfterAddEdge(g: Graph, a: Node, b: Node, p: seq<Node>)
    requires IsPath(AddEdge(g, a, b), p)
    ensures Reaches(g, p[0], p[|p| - 1]) || (Reaches(g, p[0], a) && Reaches(g, b, p[|p| - 1]))
    decreases |p|
  {
    var x, y := p[0], p[|p| - 1];
    if |p| == 1 {
      ReachesSelf(g, x);
    } else {
      var q := p[..|p| - 1];
      var u := q[|q| - 1];
      PathAfterAddEdge(g, a, b, q);
      assert Edge(AddEdge(g, a, b), u, y);
      if Edge(g, u, y) {
        if Reaches(g, x, u) {
          ReachesStep(g, x, u, y);
        } else {
          ReachesStep(g, b, u, y);
        }
      } else {
        assert u == a && y == b;
        ReachesSelf(g, b);
      }
    }
  }

  /** The refusal test is exact: an edge closes a cycle iff its child already reaches its parent. */
  lemma AddEdgeClosesCycle(g: Graph, parent: Node, child: Node)
    requires Acyclic(g)
    ensures Acyclic(AddEdge(g, parent, child)) <==> !Reaches(g, child, parent)
  {
    var h := AddEdge(g, parent, child);
    if Reaches(g, child, parent) {
      var p :| PathFromTo(g, p, child, parent);
      var c := [parent] + p;
      forall i, j | 0 <= i < j < |c| && j == i + 1
        ensures Edge(h, c[i], c[j])
      {
        assert i > 0 ==> Edge(g, p[i - 1], p[i]);
      }
      assert IsPath(h, c);
    } else {
      forall p | IsPath(h, p) && |p| >= 2
        ensures p[0] != p[|p| - 1]
      {
        if p[0] == p[|p| - 1] {
          NoNewCycle(g, parent, child, p);
        }
      }
    }
  }

  lemma NoNewCycle(g: Graph, parent: Node, child: Node, p: seq<Node>)
    requires Acyclic(g)
    requires IsPath(AddEdge(g, parent, child), p) && |p| >= 2 && p[0] == p[|p| - 1]
    ensures Reaches(g, child, parent)
  {
    var x := p[0];
    var q := p[..|p| - 1];
    var u := q[|q| - 1];
    PathAfterAddEdge(g, parent, child, q);
    assert Edge(AddEdge(g, parent, child), u, x);
    if Edge(g, u, x) {
      if Reaches(g, x, u) {
        ReachesStep(g, x, u, x);
      } else {
        ReachesStep(g, child, u, x);
        ReachesTrans(g, child, x, parent);
      }
    }
  }

  // ---------- In-degrees of the multigraph ----------

  function Mult(g: Graph, n: Node): Node -> int {
    p => if p in g then multiset(g[p])[n] else 0
  }

  /** How many edges lead from the parents `ps` to `n`, duplicates counted. */
  ghost function InDegree(g: Graph, ps: set<Node>, n: Node): int {
    Sum(ps, Mult(g, n))
  }

  /** Holds the parents `ps` and everything they delegate to. */
  ghost predicate Covers(g: Graph, ps: set<Node>, nodes: set<Node>) {
    ps <= nodes && forall p, k :: p in ps && Edge(g, p, k) ==> k in nodes
  }

  function Degree(m: map<Node, nat>, n: Node): nat {
    if n in m then m[n] else 0
  }

  lemma InDegreeAdd(g: Graph, ps: set<Node>, q: Node)
    requires q !in ps
    ensures forall n :: InDegree(g, ps + {q}, n) == InDegree(g, ps, n) + Mult(g, n)(q)
  {
    forall n
      ensures InDegree(g, ps + {q}, n) == InDegree(g, ps, n) + Mult(g, n)(q)
    {
      SumAdd(ps, Mult(g, n), q);
    }
  }

  lemma InDegreeBounds(g: Graph, ps: set<Node>, n: Node)
    ensures InDegree(g, ps, n) >= 0
    ensures InDegree(g, ps, n) == 0 ==> forall p :: p in ps ==> !Edge(g, p, n)
    ensures InDegree(g, ps, n) > 0 ==> exists p :: p in ps && Edge(g, p, n)
  {
    SumNonNegative(ps, Mult(g, n));
    forall p | p in ps && InDegree(g, ps, n) == 0
      ensures !Edge(g, p, n)
    {
      assert Mult(g, n)(p) <= 0;
    }
    if InDegree(g, ps, n) > 0 {
      var p := SumPositive(ps, Mult(g, n));
      assert Edge(g, p, n);
    }
  }

  // ---------- What the topological sweep decides ----------

  ghost predicate ParentsAmong(g: Graph, n: Node, earlier: seq<Node>) {
    forall a :: Edge(g, a, n) ==> a in earlier
  }

  /** Every parent of a listed node is listed earlier. */
  ghost predicate Topological(g: Graph, order: seq<Node>) {
    forall j {:trigger ParentsAmong(g, order[j], order[..j])} ::
      0 <= j < |order| ==> ParentsAmong(g, order[j], order[..j])
  }

  lemma {:induction false} TopologicalPath(g: Graph, order: seq<Node>, p: seq<Node>, j: nat)
    requires Topological(g, order)
    requires IsPath(g, p) && |p| >= 2 && j < |order| && p[|p| - 1] == order[j]
    ensures p[0] in order[..j]
    decreases |p|
  {
    var u := p[|p| - 2];
    assert Edge(g, p[|p| - 2], p[|p| - 1]);
    assert ParentsAmong(g, order[j], order[..j]);
    var k :| 0 <= k < j && order[k] == u;
    if |p| > 2 {
      TopologicalPath(g, order, p[..|p| - 1], k);
    }
  }

  lemma SweptIsAcyclic(g: Graph, order: seq<Node>)
    requires Distinct(order) && Topological(g, order) && Covers(g, g.Keys, ToSet(order))
    ensures Acyclic(g)
  {
    forall p | IsPath(g, p) && |p| >= 2
      ensures p[0] != p[|p| - 1]
    {
      assert Edge(g, p[|p| - 2], p[|p| - 1]);
      var j :| 0 <= j < |order| && order[j] == p[|p| - 1];
      TopologicalPath(g, order, p, j);
    }
  }

  ghost predicate HasParentIn(g: Graph, s: set<Node>, n: Node) {
    exists m :: m in s && Edge(g, m, n)
  }

  lemma {:induction false} BackwardPath(g: Graph, s: set<Node>, k: nat) returns (p: seq<Node>)
    requires s != {} && k >= 1
    requires forall n {:trigger HasParentIn(g, s, n)} :: n in s ==> HasParentIn(g, s, n)
    ensures IsPath(g, p) && |p| == k && forall x :: x in p ==> x in s
  {
    if k == 1 {
      var n :| n in s;
      p := [n];
    } else {
      var q := BackwardPath(g, s, k - 1);
      assert HasParentIn(g, s, q[0]);
      var m :| m in s && Edge(g, m, q[0]);
      p := [m] + q;
    }
  }

  /** A non-empty set of nodes that each have a parent in the set contains a cycle (pigeonhole). */
  lemma StuckIsCyclic(g: Graph, s: set<Node>)
    requires s != {}
    requires forall n {:trigger HasParentIn(g, s, n)} :: n in s ==> HasParentIn(g, s, n)
    ensures !Acyclic(g)
  {
    var p := BackwardPath(g, s, |s| + 1);
    if Distinct(p) {
      DistinctSize(p);
      SubsetSize(ToSet(p), s);
    }
    var i, j :| 0 <= i < j < |p| && p[i] == p[j];
    var c := p[i..j + 1];
    assert IsPath(g, c) && |c| >= 2 && c[0] == c[|c| - 1];
  }

  // ---------- Runs of `link` ----------

  ghost function LinkStep(g: Graph, parent: Node, child: Node): Graph {
    if Reaches(g, child, parent) then g else AddEdge(g, parent, child)
  }

  ghost function LinkRun(links: seq<(Node, Node)>): Graph {
    if links == [] then map[]
    else
      var l := links[|links| - 1];
      LinkStep(LinkRun(links[..|links| - 1]), l.0, l.1)
  }

  lemma EmptyIsAcyclic()
    ensures Acyclic(map[])
  {
    forall p: seq<Node> | |p| >= 2
      ensures !IsPath(map[], p)
    {
      assert !Edge(map[], p[0], p[1]);
    }
  }

  /** Whatever is linked in whatever order, the graph never holds a cycle. */
  lemma {:induction false} LinkRunStaysAcyclic(links: seq<(Node, Node)>)
    ensures Acyclic(LinkRun(links))
  {
    if links == [] {
      EmptyIsAcyclic();
    } else {
      var front, l := links[..|links| - 1], links[|links| - 1];
      LinkRunStaysAcyclic(front);
      AddEdgeClosesCycle(LinkRun(front), l.0, l.1);
    }
  }

  /** Along any run an edge is refused exactly when adding it would close a cycle. */
  lemma RefusedIffCycle(links: seq<(Node, Node)>, parent: Node, child: Node)
    ensures LinkRun(links + [(parent, child)]) ==
            if Acyclic(AddEdge(LinkRun(links), parent, child)) then AddEdge(LinkRun(links), parent, child)
            else LinkRun(links)
  {
    LinkRunStaysAcyclic(links);
    AddEdgeClosesCycle(LinkRun(links), parent, child);
    assert (links + [(parent, child)])[..|links|] == links;
  }

  // ---------- Runs against a list of edges ----------

  type Link = (Node, Node)

  ghost predicate IsWalk(edges: seq<Link>, p: seq<Node>) {
    |p| >= 1 && forall i, j :: 0 <= i < j < |p| && j == i + 1 ==> (p[i], p[j]) in edges
  }

  /** Some walk along the edges leads from `a` to `b`. */
  ghost predicate Leads(edges: seq<Link>, a: Node, b: Node) {
    exists p :: IsWalk(edges, p) && p[0] == a && p[|p| - 1] == b
  }

  /** The links accepted so far: all but those whose child already leads to their parent. */
  ghost function AcceptedLinks(links: seq<Link>): seq<Link> {
    if links == [] then []
    else
      var front, l := AcceptedLinks(links[..|links| - 1]), links[|links| - 1];
      if Leads(front, l.1, l.0) then front else front + [l]
  }

  lemma SameReach(g: Graph, edges: seq<Link>, a: Node, b: Node)
    requires forall x, y :: Edge(g, x, y) <==> (x, y) in edges
    ensures Reaches(g, a, b) <==> Leads(edges, a, b)
  {
    forall p | IsWalk(edges, p)
      ensures IsPath(g, p)
    {
    }
    if Reaches(g, a, b) {
      var p :| PathFromTo(g, p, a, b);
      assert IsWalk(edges, p);
    }
    if Leads(edges, a, b) {
      var p :| IsWalk(edges, p) && p[0] == a && p[|p| - 1] == b;
      assert PathFromTo(g, p, a, b);
    }
  }

  lemma EdgeHasMultiplicity(g: Graph, a: Node, b: Node)
    ensures Edge(g, a, b) <==> Mult(g, b)(a) > 0
  {
  }

  lemma AddEdgeCounts(g: Graph, a: Node, b: Node, x: Node, y: Node)
    ensures Mult(AddEdge(g, a, b), y)(x) == Mult(g, y)(x) + if (x, y) == (a, b) then 1 else 0
  {
  }

  /** After any run the graph holds each edge exactly as often as it was linked and accepted, and no other. */
  lemma {:induction false} EdgesAreAcceptedLinks(links: seq<Link>)
    ensures forall x, y :: Mult(LinkRun(links), y)(x) == multiset(AcceptedLinks(links))[(x, y)]
    ensures forall x, y :: Edge(LinkRun(links), x, y) <==> (x, y) in AcceptedLinks(links)
  {
    if links != [] {
      var front, l := links[..|links| - 1], links[|links| - 1];
      var g, edges := LinkRun(front), AcceptedLinks(front);
      EdgesAreAcceptedLinks(front);
      SameReach(g, edges, l.1, l.0);
      if !Leads(edges, l.1, l.0) {
        forall x, y
          ensures Mult(LinkRun(links), y)(x) == multiset(AcceptedLinks(links))[(x, y)]
        {
          AddEdgeCounts(g, l.0, l.1, x, y);
        }
      }
    }
    forall x, y
      ensures Edge(LinkRun(links), x, y) <==> (x, y) in AcceptedLinks(links)
    {
      EdgeHasMultiplicity(LinkRun(links), x, y);
    }
  }

  /** The accepted links alone decide the next one: it is refused iff they lead from its child to its parent. */
  lemma RefusedIffLeads(links: seq<Link>, parent: Node, child: Node)
    ensures Reaches(LinkRun(links), child, parent) <==> Leads(AcceptedLinks(links), child, parent)
  {
    EdgesAreAcceptedLinks(links);
    SameReach(LinkRun(links), AcceptedLinks(links), child, parent);
  }

  // ---------- The mutable graph ----------

  class TaskGraph {
    var children: Graph

    constructor ()
      ensures children == map[]
    {
      children := map[];
    }

    method Link(parent: Node, child: Node) returns (r: Result<(), ScaleError>)
      modifies this
      ensures children == LinkStep(old(children), parent, child)
      ensures r == if Reaches(old(children), child, parent) then Err(CycleDetected(parent, child)) else Ok(())
      ensures r.Err? ==> children == old(children)
      ensures r.Ok? ==> parent in children && children.Keys == old(children).Keys + {parent}
      ensures r.Ok? ==> children[parent] == (if parent in old(children) then old(children)[parent] else []) + [child]
      ensures forall n :: n in old(children) && n != parent ==> children[n] == old(children)[n]
      ensures old(Acyclic(children)) ==> Acyclic(children)
    {
      ReachesSelf(children, parent);
      var closes := parent == child;
      if !closes {
        closes := WouldCycle(parent, child);
      }
      if old(Acyclic(children)) {
        AddEdgeClosesCycle(children, parent, child);
      }
      if closes {
        return Err(CycleDetected(parent, child));
      }
      children := AddEdge(children, parent, child);
      r := Ok(());
    }

    /** Backward search from `parent`: is `child` one of its ancestors? */
    method WouldCycle(parent: Node, child: Node) returns (r: bool)
      ensures r <==> Reaches(children, child, parent)
    {
      var stack := [parent];
      var seen: set<Node> := {};
      ghost var universe := children.Keys + {parent};
      ReachesSelf(children, parent);
      while stack != []
        invariant forall n :: n in stack ==> n in universe && Reaches(children, n, parent)
        invariant seen <= universe && child !in seen
        invariant parent in seen || parent in stack
        invariant forall m, n :: n in seen && Edge(children, m, n) ==> m in seen || m in stack
        decreases |universe - seen|, |stack|
      {
        var node := stack[|stack| - 1];
        ghost var before := stack;
        stack := stack[..|stack| - 1];
        assert before == stack + [node];
        if node == child {
          return true;
        }
        if node !in seen {
          assert universe - (seen + {node}) == universe - seen - {node};
          seen := seen + {node};
          var ancestors := ParentsOf(node);
          forall a | a in ancestors
            ensures a in universe && Reaches(children, a, parent)
          {
            ReachesSelf(children, a);
            ReachesStep(children, a, a, node);
            ReachesTrans(children, a, node, parent);
          }
          stack := stack + ancestors;
        }
      }
      if Reaches(children, child, parent) {
        var p :| PathFromTo(children, p, child, parent);
        AncestorsSeen(children, seen, p);
      }
      r := false;
    }

    /** All parents listing `node`, in the arbitrary order of the hash map. */
    method ParentsOf(node: Node) returns (parents: seq<Node>)
      ensures forall p :: p in parents <==> Edge(children, p, node)
      ensures Distinct(parents)
    {
      parents := [];
      var todo := children.Keys;
      while todo != {}
        invariant todo <= children.Keys
        invariant forall p :: p in parents <==> p !in todo && Edge(children, p, node)
        invariant Distinct(parents)
      {
        var p :| p in todo;
        todo := todo - {p};
        if node in children[p] {
          parents := parents + [p];
        }
      }
    }

    /** Kahn's algorithm over the recorded multigraph. */
    method IsAcyclic() returns (acyclic: bool)
      ensures acyclic <==> Acyclic(children)
    {
      var nodes, inDegree := CountDegrees();
      var queue := Sources(nodes, inDegree);
      var processed := 0;
      ghost var order: seq<Node> := [];
      SweepStart(children, nodes, inDegree, queue);
      while queue != []
        invariant Swept(children, nodes, inDegree, order, queue, [])
        invariant processed == |order|
        decreases |nodes| - |order|
      {
        var node := queue[0];
        SweepPop(children, nodes, inDegree, order, queue);
        queue := queue[1..];
        processed := processed + 1;
        order := order + [node];
        SweepBound(children, nodes, inDegree, order, queue);
        if node in children {
          inDegree, queue := ReleaseKids(children[node], nodes, inDegree, order, queue);
        }
      }
      SweepVerdict(children, nodes, inDegree, order);
      acyclic := processed == |nodes|;
    }

    /** One node leaves the sweep: its edges are removed and freed kids are queued. */
    method ReleaseKids(kids: seq<Node>, ghost nodes: set<Node>, inDegree0: map<Node, nat>,
                       ghost order: seq<Node>, queue0: seq<Node>)
      returns (inDegree: map<Node, nat>, queue: seq<Node>)
      requires Swept(children, nodes, inDegree0, order, queue0, kids)
      ensures Swept(children, nodes, inDegree, order, queue, [])
    {
      inDegree, queue := inDegree0, queue0;
      assert kids == kids[0..];
      for i := 0 to |kids|
        invariant Swept(children, nodes, inDegree, order, queue, kids[i..])
      {
        var kid := kids[i];
        assert kids[i..] == [kid] + kids[i + 1..];
        SweepKid(children, nodes, inDegree, order, queue, kid, kids[i + 1..]);
        inDegree := inDegree[kid := inDegree[kid] - 1];
        if inDegree[kid] == 0 {
          queue := queue + [kid];
        }
      }
      assert kids[|kids|..] == [];
    }

    /** First phase of the sweep: every node and the number of edges into it. */
    method CountDegrees() returns (nodes: set<Node>, inDegree: map<Node, nat>)
      ensures Covers(children, children.Keys, nodes) && inDegree.Keys == nodes
      ensures Counted(children, inDegree, children.Keys, [])
    {
      nodes, inDegree := {}, map[];
      var todo := children.Keys;
      assert children.Keys - todo == {};
      while todo != {}
        invariant todo <= children.Keys
        invariant Covers(children, children.Keys - todo, nodes) && inDegree.Keys == nodes
        invariant Counted(children, inDegree, children.Keys - todo, [])
      {
        var parent :| parent in todo;
        ghost var done := children.Keys - todo;
        nodes := nodes + {parent};
        if parent !in inDegree {
          inDegree := inDegree[parent := 0];
        }
        nodes, inDegree := CountKids(children[parent], nodes, inDegree, done);
        CountedNext(children, inDegree, done, parent);
        todo := todo - {parent};
        assert children.Keys - todo == done + {parent};
      }
      assert children.Keys - todo == children.Keys;
    }

    method CountKids(kids: seq<Node>, nodes0: set<Node>, inDegree0: map<Node, nat>, ghost done: set<Node>)
      returns (nodes: set<Node>, inDegree: map<Node, nat>)
      requires inDegree0.Keys == nodes0 && Counted(children, inDegree0, done, [])
      ensures nodes == nodes0 + ToSet(kids) && inDegree.Keys == nodes
      ensures Counted(children, inDegree, done, kids)
    {
      nodes, inDegree := nodes0, inDegree0;
      assert kids[..0] == [];
      for i := 0 to |kids|
        invariant nodes == nodes0 + ToSet(kids[..i]) && inDegree.Keys == nodes
        invariant Counted(children, inDegree, done, kids[..i])
      {
        var kid := kids[i];
        assert kids[..i + 1] == kids[..i] + [kid];
        CountedStep(children, inDegree, done, kids[..i], kid);
        nodes := nodes + {kid};
        inDegree := inDegree[kid := Degree(inDegree, kid) + 1];
      }
      assert kids[..|kids|] == kids;
    }

    /** Second phase: the nodes without parents, in the arbitrary order of the hash set. */
    method Sources(nodes: set<Node>, inDegree: map<Node, nat>) returns (queue: seq<Node>)
      ensures Distinct(queue)
      ensures forall n :: n in queue <==> n in nodes && Degree(inDegree, n) == 0
    {
      queue := [];
      var todo := nodes;
      while todo != {}
        invariant todo <= nodes && Distinct(queue)
        invariant forall n :: n in queue <==> n in nodes - todo && Degree(inDegree, n) == 0
      {
        var n :| n in todo;
        todo := todo - {n};
        if Degree(inDegree, n) == 0 {
          queue := queue + [n];
        }
      }
    }
  }

  /** `inDegree` counts the edges out of `done`, and those into `extra` once each. */
  ghost predicate Counted(g: Graph, inDegree: map<Node, nat>, done: set<Node>, extra: seq<Node>) {
    forall n :: Degree(inDegree, n) == InDegree(g, done, n) + multiset(extra)[n]
  }

  lemma CountedStep(g: Graph, inDegree: map<Node, nat>, done: set<Node>, extra: seq<Node>, kid: Node)
    requires Counted(g, inDegree, done, extra)
    ensures Counted(g, inDegree[kid := Degree(inDegree, kid) + 1], done, extra + [kid])
  {
  }

  lemma CountedNext(g: Graph, inDegree: map<Node, nat>, done: set<Node>, parent: Node)
    requires parent in g && parent !in done
    requires Counted(g, inDegree, done, g[parent])
    ensures Counted(g, inDegree, done + {parent}, [])
  {
    InDegreeAdd(g, done, parent);
  }

  /** A set closed under parents that holds a path's end holds its start. */
  lemma {:induction false} AncestorsSeen(g: Graph, seen: set<Node>, p: seq<Node>)
    requires IsPath(g, p) && p[|p| - 1] in seen
    requires forall m, n :: n in seen && Edge(g, m, n) ==> m in seen
    ensures p[0] in seen
    decreases |p|
  {
    if |p| > 1 {
      assert Edge(g, p[|p| - 2], p[|p| - 1]);
      AncestorsSeen(g, seen, p[..|p| - 1]);
    }
  }

  /**
   Invariant of the sweep: `order` has been taken off the queue, `pending` are the edges
   of its last node that are still to be removed, and a node has been queued exactly
   when no edge into it is left.
   */
  ghost predicate Swept(g: Graph, nodes: set<Node>, inDegree: map<Node, nat>,
                        order: seq<Node>, queue: seq<Node>, pending: seq<Node>) {
    && Covers(g, g.Keys, nodes) && inDegree.Keys == nodes
    && Distinct(order + queue)
    && (forall n :: n in order + queue <==> n in nodes && Degree(inDegree, n) == 0)
    && Counted(g, inDegree, g.Keys - ToSet(order), pending)
    && Topological(g, order)
  }

  lemma TopologicalExtend(g: Graph, order: seq<Node>, node: Node)
    requires Topological(g, order) && ParentsAmong(g, node, order)
    ensures Topological(g, order + [node])
  {
    var longer := order + [node];
    forall j | 0 <= j < |longer|
      ensures ParentsAmong(g, longer[j], longer[..j])
    {
      assert longer[..j] == order[..j];
      if j < |order| {
        assert ParentsAmong(g, order[j], order[..j]);
      } else {
        assert order[..j] == order;
      }
    }
  }

  /** Taking a node off the remaining parents turns its edges into pending ones. */
  lemma DegreesPop(g: Graph, rest: set<Node>, node: Node)
    requires node in g ==> node in rest
    ensures forall n :: InDegree(g, rest, n) == InDegree(g, rest - {node}, n)
                                                + multiset(if node in g then g[node] else [])[n]
  {
    if node in g {
      assert rest == (rest - {node}) + {node};
      InDegreeAdd(g, rest - {node}, node);
    } else if node in rest {
      assert rest == (rest - {node}) + {node};
      InDegreeAdd(g, rest - {node}, node);
    } else {
      assert rest - {node} == rest;
    }
  }

  lemma SweepStart(g: Graph, nodes: set<Node>, inDegree: map<Node, nat>, queue: seq<Node>)
    requires Covers(g, g.Keys, nodes) && inDegree.Keys == nodes && Counted(g, inDegree, g.Keys, [])
    requires Distinct(queue) && forall n :: n in queue <==> n in nodes && Degree(inDegree, n) == 0
    ensures Swept(g, nodes, inDegree, [], queue, [])
  {
    assert [] + queue == queue;
    assert g.Keys - ToSet<Node>([]) == g.Keys;
  }

  lemma SweepPop(g: Graph, nodes: set<Node>, inDegree: map<Node, nat>, order: seq<Node>, queue: seq<Node>)
    requires queue != [] && Swept(g, nodes, inDegree, order, queue, [])
    ensures Swept(g, nodes, inDegree, order + [queue[0]], queue[1..], if queue[0] in g then g[queue[0]] else [])
  {
    var node := queue[0];
    var rest := g.Keys - ToSet(order);
    assert order + [node] + queue[1..] == order + queue;
    assert node !in order by {
      assert (order + queue)[|order|] == node;
      forall i | 0 <= i < |order|
        ensures order[i] != node
      {
        assert (order + queue)[i] == order[i];
      }
    }
    assert g.Keys - ToSet(order + [node]) == rest - {node};
    DegreesPop(g, rest, node);
    assert node in order + queue;
    InDegreeBounds(g, rest, node);
    forall a | Edge(g, a, node)
      ensures a in order
    {
      assert Degree(inDegree, node) == InDegree(g, rest, node) + multiset([])[node];
    }
    TopologicalExtend(g, order, node);
  }

  /** Removing one pending edge cannot underflow and queues its target exactly when it was the last. */
  lemma SweepKid(g: Graph, nodes: set<Node>, inDegree: map<Node, nat>, order: seq<Node>, queue: seq<Node>,
                 kid: Node, pending: seq<Node>)
    requires Swept(g, nodes, inDegree, order, queue, [kid] + pending)
    ensures kid in inDegree && inDegree[kid] >= 1
    ensures var less := inDegree[kid := inDegree[kid] - 1];
            Swept(g, nodes, less, order, if less[kid] == 0 then queue + [kid] else queue, pending)
  {
    InDegreeBounds(g, g.Keys - ToSet(order), kid);
    assert Degree(inDegree, kid) == InDegree(g, g.Keys - ToSet(order), kid) + multiset([kid] + pending)[kid];
    var less := inDegree[kid := inDegree[kid] - 1];
    assert less.Keys == nodes;
    assert kid !in order + queue;
    assert Counted(g, less, g.Keys - ToSet(order), pending) by {
      forall n
        ensures Degree(less, n) == InDegree(g, g.Keys - ToSet(order), n) + multiset(pending)[n]
      {
        assert Degree(inDegree, n) == InDegree(g, g.Keys - ToSet(order), n) + multiset([kid] + pending)[n];
      }
    }
    if less[kid] == 0 {
      assert order + (queue + [kid]) == order + queue + [kid];
    }
  }

  lemma SweepBound(g: Graph, nodes: set<Node>, inDegree: map<Node, nat>, order: seq<Node>, queue: seq<Node>)
    requires Distinct(order + queue)
    requires forall n :: n in order + queue ==> n in nodes
    ensures Distinct(order) && |order| <= |nodes|
  {
    forall i, j | 0 <= i < j < |order|
      ensures order[i] != order[j]
    {
      assert (order + queue)[i] == order[i] && (order + queue)[j] == order[j];
    }
    DistinctSize(order);
    SubsetSize(ToSet(order), nodes);
  }

  lemma StuckHasParent(g: Graph, nodes: set<Node>, inDegree: map<Node, nat>, order: seq<Node>, n: Node)
    requires Swept(g, nodes, inDegree, order, [], []) && n in nodes && n !in order
    ensures HasParentIn(g, nodes - ToSet(order), n)
  {
    var rest := g.Keys - ToSet(order);
    assert n !in order + [];
    assert Degree(inDegree, n) == InDegree(g, rest, n) + multiset([])[n];
    InDegreeBounds(g, rest, n);
    var m :| m in rest && Edge(g, m, n);
    assert m in nodes - ToSet(order);
  }

  lemma SweptNodes(g: Graph, nodes: set<Node>, inDegree: map<Node, nat>, order: seq<Node>)
    requires Swept(g, nodes, inDegree, order, [], [])
    ensures Distinct(order) && Topological(g, order) && ToSet(order) <= nodes && Covers(g, g.Keys, nodes)
    ensures |ToSet(order)| == |order| <= |nodes|
  {
    assert order + [] == order;
    DistinctSize(order);
    SubsetSize(ToSet(order), nodes);
  }

  lemma IncompleteIsCyclic(g: Graph, nodes: set<Node>, inDegree: map<Node, nat>, order: seq<Node>)
    requires Swept(g, nodes, inDegree, order, [], []) && nodes - ToSet(order) != {}
    ensures !Acyclic(g)
  {
    var stuck := nodes - ToSet(order);
    forall n | n in stuck
      ensures HasParentIn(g, stuck, n)
    {
      StuckHasParent(g, nodes, inDegree, order, n);
    }
    StuckIsCyclic(g, stuck);
  }

  /** When the queue runs dry, the count of processed nodes decides acyclicity. */
  lemma SweepVerdict(g: Graph, nodes: set<Node>, inDegree: map<Node, nat>, order: seq<Node>)
    requires Swept(g, nodes, inDegree, order, [], [])
    ensures |order| == |nodes| <==> Acyclic(g)
  {
    SweptNodes(g, nodes, inDegree, order);
    SubsetSize(ToSet(order), nodes);
    if |order| == |nodes| {
      SweptIsAcyclic(g, order);
    } else {
      assert nodes == ToSet(order) + (nodes - ToSet(order));
      IncompleteIsCyclic(g, nodes, inDegree, order);
    }
  }
}
