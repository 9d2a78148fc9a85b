/**
  The spawn graph of a session family: breadth-first searches over parent-to-child edges.
*/
module SpawnGraph {
  import opened Common

  type Id = nat

  datatype Edge = Edge(parent: Id, child: Id)

  datatype GraphRelation = Seed | Ancestor | Descendant | Collateral | Unconnected

  // ---------------------------------------------------------------- paths

  ghost predicate IsPath(edges: set<Edge>, p: seq<Id>) {
    |p| >= 2 && forall i | 0 <= i < |p| - 1 :: Edge(p[i], p[i + 1]) in edges
  }

  /** There is a path of at least one edge. */
  ghost predicate Reaches(edges: set<Edge>, a: Id, b: Id) {
    exists p :: IsPath(edges, p) && p[0] == a && p[|p| - 1] == b
  }

  function Forward(edges: seq<Edge>): set<Edge> {
    set e | e in edges
  }

  function Both(edges: seq<Edge>): set<Edge> {
    Forward(edges) + set e | e in edges :: Edge(e.child, e.parent)
  }

  lemma ReachesByEdge(edges: set<Edge>, a: Id, b: Id)
    requires Edge(a, b) in edges
    ensures Reaches(edges, a, b)
  {
    assert IsPath(edges, [a, b]);
  }

  lemma ReachesOn(edges: set<Edge>, a: Id, b: Id, c: Id)
    requires a == b || Reaches(edges, a, b)
    requires Edge(b, c) in edges
    ensures Reaches(edges, a, c)
  {
    if a == b {
      ReachesByEdge(edges, b, c);
    } else {
      var p :| IsPath(edges, p) && p[0] == a && p[|p| - 1] == b;
      var q := p + [c];
      assert forall i | 0 <= i < |q| - 1 :: Edge(q[i], q[i + 1]) in edges;
      assert IsPath(edges, q);
    }
  }

  /** Nothing outside a closed set is reachable from inside. */
  lemma {:induction false} ClosedHolds(edges: set<Edge>, inside: set<Id>, p: seq<Id>)
    requires IsPath(edges, p) && p[0] in inside
    requires forall e | e in edges && e.parent in inside :: e.child in inside
    ensures p[|p| - 1] in inside && p[|p| - 2] in inside
    decreases |p|
  {
    assert Edge(p[0], p[1]) in edges;
    if |p| > 2 {
      var q := p[1..];
      assert forall i | 0 <= i < |q| - 1 :: Edge(q[i], q[i + 1]) in edges;
      ClosedHolds(edges, inside, q);
    }
  }

  // ---------------------------------------------------------------- adjacency lists


  ghost predicate Lists(next: map<Id, seq<Id>>, edges: set<Edge>) {
    forall a, b :: b in Lookup(next, a, []) <==> Edge(a, b) in edges
  }

  lemma ListsAdd(next: map<Id, seq<Id>>, edges: set<Edge>, a: Id, b: Id)
    requires Lists(next, edges)
    ensures Lists(next[a := Lookup(next, a, []) + [b]], edges + {Edge(a, b)})
  {
    var later := next[a := Lookup(next, a, []) + [b]];
    forall x, y
      ensures y in Lookup(later, x, []) <==> Edge(x, y) in edges + {Edge(a, b)}
    {
      assert y in Lookup(next, x, []) <==> Edge(x, y) in edges;
    }
  }

  function EdgesOf(edges: seq<Edge>, undirected: bool): set<Edge> {
    if undirected then Both(edges) else Forward(edges)
  }

  lemma EdgesAdd(edges: seq<Edge>, e: Edge, undirected: bool)
    ensures EdgesOf(edges + [e], undirected) ==
            EdgesOf(edges,
                undirected) + {Edge(e.parent, e.child)} + (if undirected then {Edge(e.child, e.parent)} else {})
  {
    assert Forward(edges + [e]) == Forward(edges) + {e};
    assert Both(edges + [e]) == Both(edges) + {e} + {Edge(e.child, e.parent)};
  }

  method Adjacency(edges: seq<Edge>, undirected: bool) returns (next: map<Id, seq<Id>>)
    ensures Lists(next, EdgesOf(edges, undirected))
  {
    next := map[];
    assert Lists(next, {}) && EdgesOf([], undirected) == {};
    for i := 0 to |edges|
      invariant Lists(next, EdgesOf(edges[..i], undirected))
    {
      var e := edges[i];
      assert edges[..i + 1] == edges[..i] + [e];
      EdgesAdd(edges[..i], e, undirected);
      ghost var known := EdgesOf(edges[..i], undirected);
      ListsAdd(next, known, e.parent, e.child);
      next := next[e.parent := Lookup(next, e.parent, []) + [e.child]];
      if undirected {
        ListsAdd(next, known + {Edge(e.parent, e.child)}, e.child, e.parent);
        next := next[e.child := Lookup(next, e.child, []) + [e.parent]];
      }
    }
    assert edges[..|edges|] == edges;
  }

  // ---------------------------------------------------------------- the search

  /** Every id the search can meet. */
  function Nodes(edges: set<Edge>): set<Id> {
    (set e | e in edges :: e.parent) + (set e | e in edges :: e.child)
  }

  /** What has been seen is reachable, and what has been seen and left the queue has been expanded. */
  ghost predicate Searched(edges: set<Edge>, start: Id, seen: set<Id>, queue: seq<Id>) {
    && start in seen
    && (forall v | v in seen :: v == start || Reaches(edges, start, v))
    && (forall v | v in queue :: v in seen)
    && (forall e | e in edges && e.parent in seen && e.parent !in queue :: e.child in seen)
  }

  /** No edge out of an expanded vertex leads to the target. */
  ghost predicate Missed(edges: set<Edge>, seen: set<Id>, queue: seq<Id>, target: Id) {
    forall e | e in edges && e.parent in seen && e.parent !in queue :: e.child != target
  }

  /** Look at the successors of one vertex: stop at the target, or queue those not seen before. */
  method Expand(successors: seq<Id>, target: Id, stop: bool, seen0: set<Id>, queue0: seq<Id>)
    returns (hit: bool, seen: set<Id>, queue: seq<Id>)
    ensures hit <==> stop && target in successors
    ensures !hit ==> seen == seen0 + set v | v in successors
    ensures !hit ==> queue0 <= queue && forall v | v in queue[|queue0|..] :: v in seen && v !in seen0
    ensures !hit ==> forall v | v in seen && v !in seen0 :: v in queue
    ensures !hit && seen == seen0 ==> queue == queue0
  {
    hit, seen, queue := false, seen0, queue0;
    for i := 0 to |successors|
      invariant seen == seen0 + set v | v in successors[..i]
      invariant stop ==> target !in successors[..i]
      invariant queue0 <= queue && forall v | v in queue[|queue0|..] :: v in seen && v !in seen0
      invariant forall v | v in seen && v !in seen0 :: v in queue
      invariant seen == seen0 ==> queue == queue0
    {
      var next := successors[i];
      assert successors[..i + 1] == successors[..i] + [next];
      if stop && next == target {
        hit := true;
        return;
      }
      if next !in seen {
        seen := seen + {next};
        assert (queue + [next])[|queue0|..] == queue[|queue0|..] + [next];
        queue := queue + [next];
      }
    }
    assert successors[..|successors|] == successors;
  }

  lemma ExpandKeeps(edges: set<Edge>, start: Id, current: Id, rest: seq<Id>, seen: set<Id>, later: set<Id>,
                    queue: seq<Id>, successors: seq<Id>)
    requires Searched(edges, start, seen, [current] + rest)
    requires forall b :: b in successors <==> Edge(current, b) in edges
    requires later == seen + (set v | v in successors) && rest <= queue
    requires forall v | v in queue[|rest|..] :: v in later && v !in seen
    requires forall v | v in later && v !in seen :: v in queue
    ensures Searched(edges, start, later, queue)
  {
    assert current in [current] + rest;
    forall v | v in successors
      ensures Reaches(edges, start, v)
    {
      ReachesOn(edges, start, current, v);
    }
    assert queue == rest + queue[|rest|..];
    forall v | v in queue
      ensures v in later
    {
      if v in rest {
        assert v in [current] + rest;
      }
    }
    forall e | e in edges && e.parent in later && e.parent !in queue
      ensures e.child in later
    {
      if e.parent == current {
        assert Edge(current, e.child) in edges;
      } else {
        assert e.parent !in [current] + rest;
      }
    }
  }

  lemma ExpandMisses(edges: set<Edge>, target: Id, current: Id, rest: seq<Id>, seen: set<Id>, later: set<Id>,
                     queue: seq<Id>, successors: seq<Id>)
    requires Missed(edges, seen, [current] + rest, target) && target !in successors
    requires forall b :: b in successors <==> Edge(current, b) in edges
    requires rest <= queue && forall v | v in later && v !in seen :: v in queue
    ensures Missed(edges, later, queue, target)
  {
    assert queue == rest + queue[|rest|..];
    forall e | e in edges && e.parent in later && e.parent !in queue
      ensures e.child != target
    {
      if e.parent == current {
        assert Edge(current, e.child) in edges;
      } else {
        assert e.parent !in [current] + rest;
      }
    }
  }

  /** Breadth-first search from `start`, either for a target or for everything reachable. */
  method Search(next: map<Id, seq<Id>>, ghost edges: set<Edge>, start: Id, target: Id, stop: bool)
    returns (hit: bool, seen: set<Id>)
    requires Lists(next, edges)
    ensures stop ==> (hit <==> Reaches(edges, start, target))
    ensures !stop ==> !hit && forall v :: v in seen <==> v == start || Reaches(edges, start, v)
  {
    seen, hit := {start}, false;
    var queue := [start];
    while queue != []
      invariant Searched(edges, start, seen, queue)
      invariant seen <= Nodes(edges) + {start}
      invariant stop ==> Missed(edges, seen, queue, target)
      decreases Nodes(edges) + {start} - seen, |queue|
    {
      var current, rest := queue[0], queue[1..];
      assert queue == [current] + rest;
      var successors := Lookup(next, current, []);
      assert forall v | v in successors :: Edge(current, v) in edges && v in Nodes(edges);
      var later, longer;
      hit, later, longer := Expand(successors, target, stop, seen, rest);
      if hit {
        ReachesOn(edges, start, current, target);
        return;
      }
      ExpandKeeps(edges, start, current, rest, seen, later, longer, successors);
      if stop {
        ExpandMisses(edges, target, current, rest, seen, later, longer, successors);
      }
      assert later != seen ==> seen < later;
      seen, queue := later, longer;
    }
    SearchEnds(edges, start, seen, target, stop);
  }

  lemma SearchEnds(edges: set<Edge>, start: Id, seen: set<Id>, target: Id, stop: bool)
    requires Searched(edges, start, seen, []) && (stop ==> Missed(edges, seen, [], target))
    ensures forall v :: v in seen <==> v == start || Reaches(edges, start, v)
    ensures stop ==> !Reaches(edges, start, target)
  {
    forall v | Reaches(edges, start, v)
      ensures v in seen && (stop ==> v != target)
    {
      var p :| IsPath(edges, p) && p[0] == start && p[|p| - 1] == v;
      ClosedHolds(edges, seen, p);
      assert Edge(p[|p| - 2], p[|p| - 1]) in edges;
    }
  }

  // ---------------------------------------------------------------- what the callers ask

  method Reachable(start: Id, target: Id, edges: seq<Edge>) returns (r: bool)
    ensures r <==> Reaches(Forward(edges), start, target)
  {
    var next := Adjacency(edges, false);
    var seen;
    r, seen := Search(next, Forward(edges), start, target, true);
  }

  method Connected(start: Id, target: Id, edges: seq<Edge>) returns (r: bool)
    ensures r <==> Reaches(Both(edges), start, target)
  {
    var next := Adjacency(edges, true);
    var seen;
    r, seen := Search(next, Both(edges), start, target, true);
  }

  /** What a relation says about the graph. */
  ghost predicate Relates(r: GraphRelation, left: Id, right: Id, edges: seq<Edge>) {
    var down, up := Reaches(Forward(edges), left, right), Reaches(Forward(edges), right, left);
    && (r == Seed <==> left == right)
    && (r == Ancestor <==> left != right && down)
    && (r == Descendant <==> left != right && !down && up)
    && (r == Unconnected <==> left != right && !Reaches(Both(edges), left, right))
  }

  method RelationTo(left: Id, right: Id, edges: seq<Edge>) returns (r: GraphRelation)
    ensures Relates(r, left, right, edges)
  {
    if left == right {
      return Seed;
    }
    ForwardIsConnected(edges, left, right);
    ForwardIsConnected(edges, right, left);
    BothIsSymmetric(edges, right, left);
    var down := Reachable(left, right, edges);
    if down {
      return Ancestor;
    }
    var up := Reachable(right, left, edges);
    if up {
      return Descendant;
    }
    var related := Connected(left, right, edges);
    return if related then Collateral else Unconnected;
  }

  lemma ForwardIsConnected(edges: seq<Edge>, a: Id, b: Id)
    ensures Reaches(Forward(edges), a, b) ==> Reaches(Both(edges), a, b)
  {
    if Reaches(Forward(edges), a, b) {
      var p :| IsPath(Forward(edges), p) && p[0] == a && p[|p| - 1] == b;
      assert IsPath(Both(edges), p);
    }
  }

  lemma BothIsSymmetric(edges: seq<Edge>, a: Id, b: Id)
    ensures Reaches(Both(edges), a, b) ==> Reaches(Both(edges), b, a)
  {
    if Reaches(Both(edges), a, b) {
      var p :| IsPath(Both(edges), p) && p[0] == a && p[|p| - 1] == b;
      var q := seq(|p|, i requires 0 <= i < |p| => p[|p| - 1 - i]);
      forall i | 0 <= i < |q| - 1
        ensures Edge(q[i], q[i + 1]) in Both(edges)
      {
        assert Edge(p[|p| - 2 - i], p[|p| - 2 - i + 1]) in Both(edges);
      }
      assert IsPath(Both(edges), q);
    }
  }

  datatype Report = SeedMissing | Report(members: map<Id, GraphRelation>, missing: set<Id>, edges: seq<Edge>)

  /**
    The connected component of the seed, split into known sessions, each with its relation to the seed, and missing
    ones, with the edges inside it.
  */
  method Build(seed: Id, sessions: set<Id>, edges: seq<Edge>) returns (report: Report)
    ensures report == SeedMissing <==> seed !in sessions
    ensures report.Report? ==>
      && (forall v :: v in report.members.Keys + report.missing <==> v == seed || Reaches(Both(edges), seed, v))
      && report.members.Keys <= sessions && report.missing !! sessions
      && (forall v | v in report.members :: Relates(report.members[v], v, seed, edges))
      && (forall e :: e in report.edges <==>
            e in edges && (e.parent == seed || Reaches(Both(edges), seed, e.parent)))
      && (forall e | e in report.edges :: e.child in report.members.Keys + report.missing)
  {
    if seed !in sessions {
      return SeedMissing;
    }
    var next := Adjacency(edges, true);
    var _, component := Search(next, Both(edges), seed, seed, false);
    var members := Members(component * sessions, seed, edges);
    var inside := Inside(seed, component, edges);
    assert component * sessions + (component - sessions) == component;
    return Report(members, component - sessions, inside);
  }

  method Members(ids: set<Id>, seed: Id, edges: seq<Edge>) returns (members: map<Id, GraphRelation>)
    ensures members.Keys == ids && forall v | v in ids :: Relates(members[v], v, seed, edges)
  {
    members := map[];
    var todo := ids;
    while todo != {}
      invariant todo <= ids && members.Keys == ids - todo
      invariant forall v | v in members :: Relates(members[v], v, seed, edges)
      decreases todo
    {
      var v :| v in todo;
      var r := RelationTo(v, seed, edges);
      members, todo := members[v := r], todo - {v};
    }
  }

  method Inside(seed: Id, component: set<Id>, edges: seq<Edge>) returns (inside: seq<Edge>)
    requires forall v :: v in component <==> v == seed || Reaches(Both(edges), seed, v)
    ensures forall e :: e in inside <==> e in edges && e.parent in component
    ensures forall e | e in inside :: e.child in component
  {
    inside := [];
    for i := 0 to |edges|
      invariant forall e :: e in inside <==> e in edges[..i] && e.parent in component
    {
      assert edges[..i + 1] == edges[..i] + [edges[i]];
      ChildIsInside(edges, component, seed, edges[i]);
      if edges[i].parent in component && edges[i].child in component {
        inside := inside + [edges[i]];
      }
    }
    assert edges[..|edges|] == edges;
    forall e | e in inside
      ensures e.child in component
    {
      ChildIsInside(edges, component, seed, e);
    }
  }

  lemma ChildIsInside(edges: seq<Edge>, component: set<Id>, seed: Id, e: Edge)
    requires forall v :: v in component <==> v == seed || Reaches(Both(edges), seed, v)
    requires e in edges
    ensures e.parent in component ==> e.child in component
  {
    if e.parent in component {
      ReachesOn(Both(edges), seed, e.parent, e.child);
    }
  }
}
