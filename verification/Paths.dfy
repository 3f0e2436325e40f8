/** Reachability along edges, and the worklists that compute it. */
module Paths {
  import opened Common

  datatype Edge<T> = Edge(parent: T, child: T)

  ghost predicate IsPath<T>(edges: set<Edge<T>>, path: seq<T>) {
    |path| > 0 && forall i | 0 <= i < |path| - 1 :: Edge(path[i], path[i + 1]) in edges
  }

  ghost predicate Leads<T>(edges: set<Edge<T>>, path: seq<T>, from: T, to: T) {
    IsPath(edges, path) && path[0] == from && path[|path| - 1] == to
  }

  /** Whether `to` is `from` itself or lies below it. */
  ghost predicate Reaches<T(!new)>(edges: set<Edge<T>>, from: T, to: T) {
    exists path :: Leads(edges, path, from, to)
  }

  lemma ReachesItself<T(!new)>(edges: set<Edge<T>>, id: T)
    ensures Reaches(edges, id, id)
  {
    assert Leads(edges, [id], id, id);
  }

  lemma ReachesOn<T(!new)>(edges: set<Edge<T>>, from: T, middle: T, to: T)
    requires Reaches(edges, from, middle) && Edge(middle, to) in edges
    ensures Reaches(edges, from, to)
  {
    var path :| Leads(edges, path, from, middle);
    assert Leads(edges, path + [to], from, to);
  }

  lemma ReachesThrough<T(!new)>(edges: set<Edge<T>>, from: T, middle: T, to: T)
    requires Reaches(edges, from, middle) && Reaches(edges, middle, to)
    ensures Reaches(edges, from, to)
  {
    var one :| Leads(edges, one, from, middle);
    var two :| Leads(edges, two, middle, to);
    var path := one + two[1..];
    assert forall i | |one| - 1 <= i < |path| :: path[i] == two[i - (|one| - 1)];
    assert Leads(edges, path, from, to);
  }

  lemma MoreEdgesReachMore<T(!new)>(edges: set<Edge<T>>, more: set<Edge<T>>, from: T, to: T)
    requires edges <= more && Reaches(edges, from, to)
    ensures Reaches(more, from, to)
  {
    var path :| Leads(edges, path, from, to);
    assert Leads(more, path, from, to);
  }

  /** What holds the children of its members. */
  ghost predicate IsClosed<T>(edges: set<Edge<T>>, ids: set<T>) {
    forall edge | edge in edges :: edge.parent in ids ==> edge.child in ids
  }

  lemma {:induction false} PathStaysInside<T>(edges: set<Edge<T>>, ids: set<T>, path: seq<T>, n: nat)
    requires IsClosed(edges, ids) && IsPath(edges, path) && path[0] in ids && n < |path|
    ensures path[n] in ids
  {
    if n > 0 {
      PathStaysInside(edges, ids, path, n - 1);
      assert Edge(path[n - 1], path[n - 1 + 1]) in edges;
    }
  }

  lemma ClosedSetsHoldDescendants<T(!new)>(edges: set<Edge<T>>, ids: set<T>, from: T, to: T)
    requires IsClosed(edges, ids) && from in ids && Reaches(edges, from, to)
    ensures to in ids
  {
    var path :| Leads(edges, path, from, to);
    PathStaysInside(edges, ids, path, |path| - 1);
  }

  // --- Walks -----------------------------------------------------------------------------------

  /** Everything a walk could meet. */
  ghost function Reachables<T>(edges: set<Edge<T>>, start: T): (r: set<T>) {
    {start} + set edge | edge in edges :: edge.child
  }

  /** A walk under way: everything met lies below the start, and what was visited has its children met. */
  ghost predicate Spreads<T(!new)>(edges: set<Edge<T>>, start: T, visited: set<T>, met: set<T>) {
    && start in met && visited <= met && met <= Reachables(edges, start)
    && (forall id | id in met :: Reaches(edges, start, id))
    && (forall edge | edge in edges && edge.parent in visited :: edge.child in met)
  }

  lemma Begins<T(!new)>(edges: set<Edge<T>>, start: T)
    ensures Spreads(edges, start, {}, {start})
  {
    ReachesItself(edges, start);
  }

  /** Visiting one more keeps the walk, once its children are met. */
  lemma Spread<T(!new)>(
    edges: set<Edge<T>>, start: T, visited: set<T>, met: set<T>, current: T, children: set<T>)
    requires Spreads(edges, start, visited, met) && current in met
    requires forall child :: child in children <==> Edge(current, child) in edges
    ensures Spreads(edges, start, visited + {current}, met + children)
  {
    hide Reaches;
    forall id | id in children
      ensures Reaches(edges, start, id) && id in Reachables(edges, start)
    {
      assert Edge(current, id) in edges;
      ReachesOn(edges, start, current, id);
    }
  }

  lemma SpreadsWithin<T(!new)>(edges: set<Edge<T>>, start: T, visited: set<T>, met: set<T>)
    requires Spreads(edges, start, visited, met)
    ensures met <= Reachables(edges, start) && forall id | id in met :: Reaches(edges, start, id)
  {
  }

  /** Once everything met was visited, what was met is everything below the start. */
  lemma Ends<T(!new)>(edges: set<Edge<T>>, start: T, met: set<T>)
    requires Spreads(edges, start, met, met)
    ensures forall id :: id in met <==> Reaches(edges, start, id)
  {
    forall id | Reaches(edges, start, id)
      ensures id in met
    {
      ClosedSetsHoldDescendants(edges, met, start, id);
    }
  }

  /** Meeting something new leaves less to meet. */
  lemma LessRemains<T>(all: set<T>, met: set<T>, more: set<T>)
    requires met < more && more <= all
    ensures |all - more| < |all - met|
  {
    var x :| x in more && x !in met;
    SubsetSize(all - more, (all - met) - {x});
  }
}
