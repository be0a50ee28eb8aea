/** Depth-first detection of dependency cycles, and the removal of repeats. */
module Cycles {

  type Node = string
  type Graph = map<Node, seq<Node>>

  // ---- Graphs, walks and cycles ----

  predicate Edge(g: Graph, u: Node, v: Node) {
    u in g && v in g[u]
  }

  /** `graph.get(node, [])`: the nodes an edge leads to, none for a node without an entry. */
  function Neighbours(g: Graph, n: Node): (r: seq<Node>)
    ensures forall v :: v in r <==> Edge(g, n, v)
  {
    if n in g then g[n] else []
  }

  ghost predicate EdgeAt(g: Graph, p: seq<Node>, i: nat)
    requires i + 1 < |p|
  {
    Edge(g, p[i], p[i + 1])
  }

  ghost predicate Walk(g: Graph, p: seq<Node>) {
    forall i: nat :: i + 1 < |p| ==> EdgeAt(g, p, i)
  }

  ghost predicate NoRepeats(p: seq<Node>) {
    forall i, j :: 0 <= i < j < |p| ==> p[i] != p[j]
  }

  ghost predicate ClosedWalk(g: Graph, c: seq<Node>) {
    |c| >= 2 && c[0] == c[|c| - 1] && Walk(g, c)
  }

  /** A closed walk of real edges that meets no vertex twice except where it closes. */
  ghost predicate SimpleCycle(g: Graph, c: seq<Node>) {
    ClosedWalk(g, c) && NoRepeats(c[..|c| - 1])
  }

  function Nodes(g: Graph): set<Node> {
    g.Keys + set u, v | u in g && v in g[u] :: v
  }

  // ---- The search ----

  /** The search's variables. Beside the program's own, `finished` lists the visited nodes in the
      order they were left, and `parent` records the node each was first entered from. */
  datatype Search = Search(cycles: seq<seq<Node>>, visiting: set<Node>, visited: set<Node>, stack: seq<Node>,
                           finished: seq<Node>, parent: map<Node, Node>)

  ghost predicate Lists(p: seq<Node>, s: set<Node>) {
    NoRepeats(p) && forall n :: n in p <==> n in s
  }

  /** A path in the tree of first entries. */
  ghost predicate TreeEdgeAt(parent: map<Node, Node>, p: seq<Node>, i: nat)
    requires i + 1 < |p|
  {
    p[i + 1] in parent && parent[p[i + 1]] == p[i]
  }

  ghost predicate TreePath(parent: map<Node, Node>, p: seq<Node>) {
    forall i: nat :: i + 1 < |p| ==> TreeEdgeAt(parent, p, i)
  }

  ghost predicate Reported(g: Graph, parent: map<Node, Node>, c: seq<Node>) {
    SimpleCycle(g, c) && TreePath(parent, c[..|c| - 1])
  }

  /** Every edge out of the `i`-th finished node leads to a node finished before it. */
  ghost predicate LeadsBack(g: Graph, finished: seq<Node>, i: nat)
    requires i < |finished|
  {
    forall v :: v in Neighbours(g, finished[i]) ==> v in finished[..i]
  }

  ghost predicate Acyclic(g: Graph, finished: seq<Node>) {
    forall i :: 0 <= i < |finished| ==> LeadsBack(g, finished, i)
  }

  ghost predicate Inv(g: Graph, s: Search) {
    && Lists(s.stack, s.visiting)
    && Lists(s.finished, s.visited)
    && s.visiting !! s.visited
    && Walk(g, s.stack)
    && TreePath(s.parent, s.stack)
    && s.parent.Keys <= s.visiting + s.visited <= Nodes(g)
    && (forall c :: c in s.cycles ==> Reported(g, s.parent, c))
    && (s.cycles == [] ==> Acyclic(g, s.finished))
  }

  /** What a call of the search may do: visit more nodes, report more cycles, and put the stack
      back as it was. */
  ghost predicate Extends(s: Search, t: Search) {
    && t.stack == s.stack && t.visiting == s.visiting
    && s.visited <= t.visited
    && s.cycles <= t.cycles
    && (forall n :: n in s.parent ==> n in t.parent && t.parent[n] == s.parent[n])
  }

  ghost predicate MayEnter(g: Graph, s: Search, n: Node) {
    n in Nodes(g) && (s.stack != [] ==> Edge(g, s.stack[|s.stack| - 1], n))
  }

  lemma TreePathStable(parent: map<Node, Node>, parent': map<Node, Node>, p: seq<Node>)
    requires TreePath(parent, p)
    requires forall n :: n in parent ==> n in parent' && parent'[n] == parent[n]
    ensures TreePath(parent', p)
  {
    forall i: nat | i + 1 < |p|
      ensures TreeEdgeAt(parent', p, i)
    {
      assert TreeEdgeAt(parent, p, i);
    }
  }

  /** `visiting.add(node); stack.append(node)`. */
  ghost function Push(s: Search, n: Node): Search {
    s.(visiting := s.visiting + {n}, stack := s.stack + [n],
       parent := if s.stack == [] then s.parent else s.parent[n := s.stack[|s.stack| - 1]])
  }

  lemma PushKeepsInv(g: Graph, s: Search, n: Node)
    requires Inv(g, s) && MayEnter(g, s, n)
    requires n !in s.visiting && n !in s.visited
    ensures Inv(g, Push(s, n))
  {
    var t := Push(s, n);
    forall i: nat | i + 1 < |t.stack|
      ensures EdgeAt(g, t.stack, i) && TreeEdgeAt(t.parent, t.stack, i)
    {
      if i + 1 < |s.stack| {
        assert EdgeAt(g, s.stack, i) && TreeEdgeAt(s.parent, s.stack, i);
      }
    }
    forall c | c in t.cycles
      ensures Reported(g, t.parent, c)
    {
      assert Reported(g, s.parent, c);
      TreePathStable(s.parent, t.parent, c[..|c| - 1]);
    }
  }

  /** `stack.pop(); visiting.discard(node); visited.add(node)`. */
  ghost function Pop(s: Search): Search
    requires s.stack != []
  {
    var n := s.stack[|s.stack| - 1];
    s.(visiting := s.visiting - {n}, visited := s.visited + {n}, stack := s.stack[..|s.stack| - 1],
       finished := s.finished + [n])
  }

  lemma PopKeepsInv(g: Graph, s: Search)
    requires Inv(g, s) && s.stack != []
    requires s.cycles == [] ==> forall v :: v in Neighbours(g, s.stack[|s.stack| - 1]) ==> v in s.visited
    ensures Inv(g, Pop(s))
  {
    var t := Pop(s);
    var n := s.stack[|s.stack| - 1];
    assert n in s.stack;
    assert n in s.visiting && n !in s.finished;
    ShorterStack(g, s);
    forall m
      ensures m in t.stack <==> m in t.visiting
    {
      assert m in s.stack <==> m in t.stack || m == n by {
        assert s.stack == t.stack + [n];
      }
    }
    if t.cycles == [] {
      forall i | 0 <= i < |t.finished|
        ensures LeadsBack(g, t.finished, i)
      {
        if i < |s.finished| {
          assert LeadsBack(g, s.finished, i);
          assert t.finished[..i] == s.finished[..i];
        } else {
          assert t.finished[..i] == s.finished;
        }
      }
    }
  }

  lemma ShorterStack(g: Graph, s: Search)
    requires Walk(g, s.stack) && TreePath(s.parent, s.stack) && NoRepeats(s.stack) && s.stack != []
    ensures var front := s.stack[..|s.stack| - 1];
            Walk(g, front) && TreePath(s.parent, front) && NoRepeats(front)
    ensures s.stack[|s.stack| - 1] !in s.stack[..|s.stack| - 1]
  {
    var front := s.stack[..|s.stack| - 1];
    forall i: nat | i + 1 < |front|
      ensures EdgeAt(g, front, i) && TreeEdgeAt(s.parent, front, i)
    {
      assert EdgeAt(g, s.stack, i) && TreeEdgeAt(s.parent, s.stack, i);
    }
  }

  /** The reported list: the stack from the node on, closed with the node. */
  function CycleFrom(stack: seq<Node>, k: nat): seq<Node>
    requires k < |stack|
  {
    stack[k..] + [stack[k]]
  }

  lemma CycleFromStack(g: Graph, parent: map<Node, Node>, stack: seq<Node>, k: nat)
    requires Walk(g, stack) && TreePath(parent, stack) && NoRepeats(stack)
    requires k < |stack| && Edge(g, stack[|stack| - 1], stack[k])
    ensures Reported(g, parent, CycleFrom(stack, k))
  {
    var c := CycleFrom(stack, k);
    assert c[..|c| - 1] == stack[k..];
    forall i: nat | i + 1 < |c|
      ensures EdgeAt(g, c, i)
    {
      if i + 1 < |stack| - k {
        assert EdgeAt(g, stack, k + i);
      }
    }
    forall i: nat | i + 1 < |stack[k..]|
      ensures TreeEdgeAt(parent, stack[k..], i)
    {
      assert TreeEdgeAt(parent, stack, k + i);
    }
  }

  lemma ReportKeepsInv(g: Graph, s: Search, k: nat)
    requires Inv(g, s)
    requires k < |s.stack| && Edge(g, s.stack[|s.stack| - 1], s.stack[k])
    ensures Inv(g, s.(cycles := s.cycles + [CycleFrom(s.stack, k)]))
  {
    CycleFromStack(g, s.parent, s.stack, k);
  }

  class Detector {
    const graph: Graph
    var cycles: seq<seq<Node>>
    var visiting: set<Node>
    var visited: set<Node>
    var stack: seq<Node>
    ghost var finished: seq<Node>
    ghost var parent: map<Node, Node>

    ghost function State(): Search
      reads this
    {
      Search(cycles, visiting, visited, stack, finished, parent)
    }

    constructor (graph: Graph)
      ensures this.graph == graph
      ensures State() == Search([], {}, {}, [], [], map[])
    {
      this.graph := graph;
      cycles, visiting, visited, stack := [], {}, {}, [];
      finished, parent := [], map[];
    }

    method IndexOf(n: Node) returns (k: nat)
      requires n in stack
      ensures k < |stack| && stack[k] == n && n !in stack[..k]
    {
      k := 0;
      while stack[k] != n
        invariant k < |stack| && n !in stack[..k]
        decreases |stack| - k
      {
        k := k + 1;
      }
    }

    method Dfs(node: Node)
      requires Inv(graph, State()) && MayEnter(graph, State(), node)
      modifies this
      ensures Inv(graph, State()) && Extends(old(State()), State())
      ensures cycles == [] ==> node in visited
      decreases Unseen(graph, State()), 2
    {
      if node in visited {
        return;
      }
      if node in visiting {
        var k := IndexOf(node);
        ReportKeepsInv(graph, State(), k);
        cycles := cycles + [CycleFrom(stack, k)];
        return;
      }
      Explore(node);
    }

    /** A node met for the first time: enter it, search from each neighbour, leave it. */
    method Explore(node: Node)
      requires Inv(graph, State()) && MayEnter(graph, State(), node)
      requires node !in visiting && node !in visited
      modifies this
      ensures Inv(graph, State()) && Extends(old(State()), State())
      ensures node in visited
      decreases Unseen(graph, State()), 1
    {
      ghost var start := State();
      PushKeepsInv(graph, start, node);
      Enter(node);
      ghost var pushed := State();
      EnteredSeesLess(graph, start, node);
      SearchNeighbours(node);
      ghost var searched := State();
      PopKeepsInv(graph, searched);
      Leave(node);
      LeftExtends(start, pushed, searched, node);
    }

    method Enter(node: Node)
      modifies this
      ensures State() == Push(old(State()), node)
    {
      parent := if stack == [] then parent else parent[node := stack[|stack| - 1]];
      visiting := visiting + {node};
      stack := stack + [node];
    }

    method Leave(node: Node)
      requires stack != [] && stack[|stack| - 1] == node
      modifies this
      ensures State() == Pop(old(State()))
    {
      stack := stack[..|stack| - 1];
      visiting := visiting - {node};
      visited := visited + {node};
      finished := finished + [node];
    }

    method SearchNeighbours(node: Node)
      requires Inv(graph, State())
      requires stack != [] && stack[|stack| - 1] == node
      modifies this
      ensures Inv(graph, State()) && Extends(old(State()), State())
      ensures cycles == [] ==> forall v :: v in Neighbours(graph, node) ==> v in visited
      decreases Unseen(graph, State()), 3
    {
      var next := Neighbours(graph, node);
      ghost var start := State();
      for i := 0 to |next|
        invariant Inv(graph, State()) && Extends(start, State())
        invariant cycles == [] ==> forall v :: v in next[..i] ==> v in visited
      {
        NeighbourIsNode(graph, node, next[i]);
        ghost var before := State();
        UnseenShrinks(graph, start, before);
        Dfs(next[i]);
        ExtendsTransitive(start, before, State());
        assert next[..i + 1] == next[..i] + [next[i]];
      }
      assert next[..|next|] == next;
    }

    method Run()
      requires State() == Search([], {}, {}, [], [], map[])
      modifies this
      ensures Inv(graph, State())
      ensures stack == []
      ensures cycles == [] ==> graph.Keys <= visited
    {
      var todo := graph.Keys;
      while todo != {}
        invariant Inv(graph, State()) && stack == []
        invariant todo <= graph.Keys
        invariant cycles == [] ==> graph.Keys - todo <= visited
        decreases todo
      {
        var node :| node in todo;
        Dfs(node);
        todo := todo - {node};
      }
    }
  }

  lemma NeighbourIsNode(g: Graph, u: Node, v: Node)
    requires v in Neighbours(g, u)
    ensures v in Nodes(g)
  {
  }

  function Unseen(g: Graph, s: Search): set<Node> {
    Nodes(g) - s.visiting - s.visited
  }

  lemma EnteredSeesLess(g: Graph, s: Search, n: Node)
    requires n in Nodes(g) && n !in s.visiting && n !in s.visited
    ensures Unseen(g, Push(s, n)) < Unseen(g, s)
  {
    assert n in Unseen(g, s);
  }

  lemma UnseenShrinks(g: Graph, s: Search, t: Search)
    requires Extends(s, t)
    ensures Unseen(g, t) <= Unseen(g, s)
  {
  }

  lemma ExtendsTransitive(s: Search, t: Search, u: Search)
    requires Extends(s, t) && Extends(t, u)
    ensures Extends(s, u)
  {
  }

  lemma LeftExtends(s: Search, pushed: Search, searched: Search, n: Node)
    requires pushed == Push(s, n) && Extends(pushed, searched)
    requires n !in s.visiting && n !in s.parent
    ensures Extends(s, Pop(searched)) && n in Pop(searched).visited
  {
    assert pushed.stack[..|pushed.stack| - 1] == s.stack;
  }

  // ---- Removing repeats ----

  predicate HasKey(cycles: seq<seq<Node>>, key: multiset<Node>) {
    cycles != [] && (multiset(cycles[|cycles| - 1]) == key || HasKey(cycles[..|cycles| - 1], key))
  }

  /** The cycles whose sorted vertex list no earlier cycle has. */
  function Dedup(cycles: seq<seq<Node>>): seq<seq<Node>> {
    if cycles == [] then []
    else
      var front, last := cycles[..|cycles| - 1], cycles[|cycles| - 1];
      if HasKey(front, multiset(last)) then Dedup(front) else Dedup(front) + [last]
  }

  /** Sorted lists are equal exactly when the lists are equal as multisets, so the multiset serves
      as the key. */
  method RemoveRepeats(cycles: seq<seq<Node>>) returns (deduped: seq<seq<Node>>)
    ensures deduped == Dedup(cycles)
  {
    var seen: set<multiset<Node>> := {};
    deduped := [];
    for i := 0 to |cycles|
      invariant deduped == Dedup(cycles[..i])
      invariant forall k :: k in seen <==> HasKey(cycles[..i], k)
    {
      var key := multiset(cycles[i]);
      assert cycles[..i + 1][..i] == cycles[..i];
      if key !in seen {
        seen := seen + {key};
        deduped := deduped + [cycles[i]];
      }
    }
    assert cycles[..|cycles|] == cycles;
  }

  // ---- What the result means ----

  /** Along a walk out of the `i`-th finished node, every later node finished before it. */
  lemma {:induction false} WalkLeadsBack(g: Graph, finished: seq<Node>, i: nat, c: seq<Node>, k: nat)
    requires Acyclic(g, finished)
    requires i < |finished| && c != [] && c[0] == finished[i] && Walk(g, c)
    requires 0 < k < |c|
    ensures c[k] in finished[..i]
  {
    assert EdgeAt(g, c, k - 1);
    assert c[k] in Neighbours(g, c[k - 1]);
    if k == 1 {
      assert LeadsBack(g, finished, i);
    } else {
      WalkLeadsBack(g, finished, i, c, k - 1);
      var j :| 0 <= j < i && finished[j] == c[k - 1];
      assert LeadsBack(g, finished, j);
    }
  }

  lemma AcyclicHasNoClosedWalk(g: Graph, finished: seq<Node>, c: seq<Node>)
    requires Acyclic(g, finished) && NoRepeats(finished)
    requires forall n :: n in g ==> n in finished
    ensures !ClosedWalk(g, c)
  {
    if ClosedWalk(g, c) {
      assert EdgeAt(g, c, 0);
      var i :| 0 <= i < |finished| && finished[i] == c[0];
      WalkLeadsBack(g, finished, i, c, |c| - 1);
      assert false;
    }
  }

  lemma {:induction false} DedupMembers(cycles: seq<seq<Node>>)
    ensures forall c :: c in Dedup(cycles) ==> c in cycles
    ensures cycles != [] ==> Dedup(cycles) != []
  {
    if cycles != [] {
      var front, last := cycles[..|cycles| - 1], cycles[|cycles| - 1];
      DedupMembers(front);
      assert cycles == front + [last];
    }
  }

  /** Every key is represented among the cycles kept. */
  lemma {:induction false} DedupCovers(cycles: seq<seq<Node>>, key: multiset<Node>) returns (d: seq<Node>)
    requires HasKey(cycles, key)
    ensures d in Dedup(cycles) && multiset(d) == key
  {
    var front, last := cycles[..|cycles| - 1], cycles[|cycles| - 1];
    if HasKey(front, key) {
      d := DedupCovers(front, key);
    } else {
      d := last;
    }
  }

  lemma {:induction false} MemberHasKey(cycles: seq<seq<Node>>, c: seq<Node>)
    requires c in cycles
    ensures HasKey(cycles, multiset(c))
  {
    var front, last := cycles[..|cycles| - 1], cycles[|cycles| - 1];
    assert cycles == front + [last];
    if c != last {
      MemberHasKey(front, c);
    }
  }

  /** Climbing the tree from a shared node meets the same nodes. */
  lemma {:induction false} ClimbTogether(parent: map<Node, Node>, p: seq<Node>, q: seq<Node>, i: nat, j: nat, k: nat)
    requires TreePath(parent, p) && TreePath(parent, q)
    requires i < |p| && j < |q| && p[i] == q[j]
    requires k <= i && k <= j
    ensures p[i - k] == q[j - k]
  {
    if k > 0 {
      ClimbTogether(parent, p, q, i, j, k - 1);
      assert TreeEdgeAt(parent, p, i - k) && TreeEdgeAt(parent, q, j - k);
    }
  }

  /** A node sits at one depth below a start it shares. */
  lemma SameDepth(parent: map<Node, Node>, p: seq<Node>, q: seq<Node>, i: nat, j: nat)
    requires TreePath(parent, p) && TreePath(parent, q) && NoRepeats(p) && NoRepeats(q)
    requires i < |p| && j < |q| && p[i] == q[j] && p[0] == q[0]
    ensures i == j
  {
    if i < j {
      ClimbTogether(parent, p, q, i, j, i);
    } else if j < i {
      ClimbTogether(parent, p, q, i, j, j);
    }
  }

  /** Two reported cycles over the same vertices are the same list: both follow the one tree path
      down from the vertex that closes them. */
  lemma SameKeySameCycle(g: Graph, parent: map<Node, Node>, c: seq<Node>, d: seq<Node>)
    requires Reported(g, parent, c) && Reported(g, parent, d)
    requires multiset(c) == multiset(d)
    ensures c == d
  {
    var p, q := c[..|c| - 1], d[..|d| - 1];
    assert c == p + [c[0]] && d == q + [d[0]];
    SameStart(c, d);
    forall i | 0 <= i < |p|
      ensures p[i] == q[i]
    {
      assert c[i] in multiset(c);
      assert c[i] in d;
      var j :| 0 <= j < |q| && q[j] == p[i];
      SameDepth(parent, p, q, i, j);
    }
  }

  lemma SameStart(c: seq<Node>, d: seq<Node>)
    requires |c| >= 2 && c[0] == c[|c| - 1] && NoRepeats(c[..|c| - 1])
    requires |d| >= 2 && d[0] == d[|d| - 1] && NoRepeats(d[..|d| - 1])
    requires multiset(c) == multiset(d)
    ensures |c| == |d| && c[0] == d[0]
  {
    assert |c| == |multiset(c)| == |multiset(d)| == |d|;
    DoubledVertex(c);
    DoubledVertex(d);
    assert multiset(c)[c[0]] >= 2;
  }

  /** The closing vertex is the only one a simple cycle lists twice. */
  lemma DoubledVertex(c: seq<Node>)
    requires |c| >= 2 && c[0] == c[|c| - 1] && NoRepeats(c[..|c| - 1])
    ensures forall n :: multiset(c)[n] >= 2 <==> n == c[0]
  {
    var p := c[..|c| - 1];
    assert c == p + [c[0]];
    NoRepeatsCount(p);
    assert p[0] == c[0];
  }

  lemma {:induction false} NoRepeatsCount(p: seq<Node>)
    requires NoRepeats(p)
    ensures forall n :: multiset(p)[n] == if n in p then 1 else 0
  {
    if p != [] {
      var front := p[..|p| - 1];
      NoRepeatsCount(front);
      assert p == front + [p[|p| - 1]];
    }
  }

  lemma {:induction false} DedupDistinct(cycles: seq<seq<Node>>)
    ensures forall i, j :: 0 <= i < j < |Dedup(cycles)| ==> Dedup(cycles)[i] != Dedup(cycles)[j]
  {
    if cycles != [] {
      var front, last := cycles[..|cycles| - 1], cycles[|cycles| - 1];
      DedupDistinct(front);
      DedupMembers(front);
      if !HasKey(front, multiset(last)) {
        if last in front {
          MemberHasKey(front, last);
          assert false;
        }
        assert Dedup(cycles) == Dedup(front) + [last];
      }
    }
  }

  /** `_detect_cycles`: the result is empty exactly when the graph has no closed walk; every list in
      it is a simple cycle of real edges; no list appears twice, and de-duplication dropped nothing
      but exact repeats of what the search reported. */
  method DetectCycles(graph: Graph) returns (result: seq<seq<Node>>, ghost reported: seq<seq<Node>>)
    ensures result == [] <==> !exists c :: ClosedWalk(graph, c)
    ensures forall c :: c in result ==> SimpleCycle(graph, c)
    ensures forall i, j :: 0 <= i < j < |result| ==> result[i] != result[j]
    ensures forall c :: c in result <==> c in reported
  {
    var detector := new Detector(graph);
    detector.Run();
    reported := detector.cycles;
    result := RemoveRepeats(detector.cycles);
    DedupMembers(reported);
    DedupDistinct(reported);
    forall c | c in reported
      ensures c in result
    {
      MemberHasKey(reported, c);
      var d := DedupCovers(reported, multiset(c));
      SameKeySameCycle(graph, detector.parent, c, d);
    }
    if result == [] {
      assert reported == [];
      forall c
        ensures !ClosedWalk(graph, c)
      {
        AcyclicHasNoClosedWalk(graph, detector.finished, c);
      }
    } else {
      assert result[0] in result;
      assert ClosedWalk(graph, result[0]);
    }
  }
}
