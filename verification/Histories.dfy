/** Histories as graphs: an edge for each parent that a held document names. */
module Histories {
  import opened Common
  import opened Documents
  import opened Paths

  /** The parents a snapshot names, when its document is held. */
  function ParentsOf(docs: map<Id, Document>, id: Id): (r: seq<Id>) {
    if id in docs && docs[id].SnapshotDoc? then docs[id].snapshot.parents else []
  }

  ghost function Lineage(docs: map<Id, Document>): (r: set<Edge<Id>>) {
    set id, parent | id in docs && parent in ParentsOf(docs, id) :: Edge(id, parent)
  }

  /** `to` is in the history of `from`. */
  ghost predicate Contains(docs: map<Id, Document>, from: Id, to: Id) {
    Reaches(Lineage(docs), from, to)
  }

  /** A line of snapshots, each naming the next one as a parent, of which all but the last are held. */
  predicate IsLine(docs: map<Id, Document>, line: seq<Id>) {
    line != [] && forall i | 0 <= i < |line| - 1 ::
                    line[i] in docs && docs[line[i]].SnapshotDoc? && line[i + 1] in docs[line[i]].snapshot.parents
  }

  /** What a history contains: whatever some line leads to, through any of the parents. */
  lemma ContainsExactly(docs: map<Id, Document>, from: Id, to: Id)
    ensures Contains(docs, from, to) <==>
            exists line :: IsLine(docs, line) && line[0] == from && line[|line| - 1] == to
  {
    if path :| Leads(Lineage(docs), path, from, to) {
      forall i | 0 <= i < |path| - 1
        ensures path[i] in docs && docs[path[i]].SnapshotDoc? && path[i + 1] in docs[path[i]].snapshot.parents
      {
        assert Edge(path[i], path[i + 1]) in Lineage(docs);
      }
      assert IsLine(docs, path);
    }
    if line :| IsLine(docs, line) && line[0] == from && line[|line| - 1] == to {
      assert forall i | 0 <= i < |line| - 1 :: line[i + 1] in ParentsOf(docs, line[i]);
      assert Leads(Lineage(docs), line, from, to);
    }
  }

  lemma ContainsIsTransitive(docs: map<Id, Document>, a: Id, b: Id, c: Id)
    requires Contains(docs, a, b) && Contains(docs, b, c)
    ensures Contains(docs, a, c)
  {
    hide Reaches;
    ReachesThrough(Lineage(docs), a, b, c);
  }

  /** A larger store only ever shows more of a history. */
  lemma HistoryGrows(before: map<Id, Document>, after: map<Id, Document>, from: Id, to: Id)
    requires forall id | id in before :: id in after && after[id] == before[id]
    requires Contains(before, from, to)
    ensures Contains(after, from, to)
  {
    hide Reaches;
    MoreEdgesReachMore(Lineage(before), Lineage(after), from, to);
  }

  lemma ParentEdges(docs: map<Id, Document>, id: Id)
    ensures forall parent :: parent in Members(ParentsOf(docs, id)) <==> Edge(id, parent) in Lineage(docs)
  {
  }

  // --- The walk ---------------------------------------------------------------------------------

  /** The parents not met yet join the frontier. */
  method Meet(seen: set<Id>, frontier: seq<Id>, parents: seq<Id>) returns (more: set<Id>, longer: seq<Id>)
    ensures more == seen + Members(parents)
    ensures Members(longer) == Members(frontier) + (Members(parents) - seen)
    ensures more == seen ==> longer == frontier
  {
    more, longer := seen, frontier;
    for i := 0 to |parents|
      invariant more == seen + Members(parents[..i])
      invariant Members(longer) == Members(frontier) + (Members(parents[..i]) - seen)
      invariant more == seen ==> longer == frontier
    {
      assert parents[..i + 1] == parents[..i] + [parents[i]];
      assert Members(parents[..i + 1]) == Members(parents[..i]) + {parents[i]};
      if parents[i] !in more {
        assert Members(longer + [parents[i]]) == Members(longer) + {parents[i]};
        more := more + {parents[i]};
        longer := longer + [parents[i]];
      }
    }
    assert parents[..|parents|] == parents;
  }

  lemma MembersSplit(ids: seq<Id>)
    requires ids != []
    ensures Members(ids) == Members(ids[..|ids| - 1]) + {ids[|ids| - 1]}
  {
    assert ids == ids[..|ids| - 1] + [ids[|ids| - 1]];
  }

  lemma FewMembers(id: Id)
    ensures Members<Id>([]) == {} && Members([id]) == {id}
  {
  }

  /** The worklist over parents, which comes to rest on the whole history that can be seen. */
  method ReachableFrom(docs: map<Id, Document>, from: Id) returns (seen: set<Id>)
    ensures forall id :: id in seen <==> Contains(docs, from, id)
  {
    hide Reaches, Reachables, ParentsOf, Spreads, Members, Lineage;
    ghost var edges := Lineage(docs);
    ghost var visited: set<Id> := {};
    seen := {from};
    var frontier := [from];
    FewMembers(from);
    Begins(edges, from);
    while frontier != []
      invariant Spreads(edges, from, visited, seen)
      invariant seen == visited + Members(frontier)
      decreases |Reachables(edges, from) - seen|, |frontier|
    {
      var current := frontier[|frontier| - 1];
      var rest := frontier[..|frontier| - 1];
      MembersSplit(frontier);
      var parents := ParentsOf(docs, current);
      ParentEdges(docs, current);
      Spread(edges, from, visited, seen, current, Members(parents));
      var more, longer := Meet(seen, rest, parents);
      SpreadsWithin(edges, from, visited + {current}, more);
      if more != seen {
        LessRemains(Reachables(edges, from), seen, more);
      }
      visited := visited + {current};
      seen, frontier := more, longer;
    }
    assert seen == visited;
    Ends(edges, from, seen);
  }
}
