/** The catalog as it is kept in memory: dictionaries both ways, and a memo of what lies below a class. */
module CatalogState {
  import opened Common
  import opened Paths
  import opened CatalogGraph

  function At(m: map<BlockId, set<BlockId>>, key: BlockId): (r: set<BlockId>) {
    if key in m then m[key] else {}
  }

  /** `m.setdefault(key, set()).add(value)`. */
  function With(m: map<BlockId, set<BlockId>>, key: BlockId, value: BlockId): (r: map<BlockId, set<BlockId>>)
    ensures forall k :: At(r, k) == if k == key then At(m, k) + {value} else At(m, k)
    ensures forall k :: k in r <==> k in m || k == key
  {
    m[key := At(m, key) + {value}]
  }

  // --- What the dictionaries stand for --------------------------------------------------------

  ghost predicate ChildrenMirror(children: map<BlockId, set<BlockId>>, edges: set<Edge<BlockId>>) {
    forall p, c :: c in At(children, p) <==> Edge(p, c) in edges
  }

  ghost predicate ParentsMirror(parents: map<BlockId, set<BlockId>>, edges: set<Edge<BlockId>>) {
    forall p, c :: p in At(parents, c) <==> Edge(p, c) in edges
  }

  /** Exactly the projection of the placements, without empty entries. */
  ghost predicate Projects(sourceClasses: map<BlockId, set<BlockId>>, slots: set<Slot>) {
    && (forall source, class_ :: class_ in At(sourceClasses, source) <==> Slot(source, class_) in slots)
    && (forall source | source in sourceClasses :: sourceClasses[source] != {})
  }

  ghost predicate IsFresh(memo: map<BlockId, set<BlockId>>, graph: Graph) {
    forall id | id in memo :: memo[id] == SourcesBelow(graph, id)
  }

  lemma ChildrenGrow(children: map<BlockId, set<BlockId>>, edges: set<Edge<BlockId>>, edge: Edge<BlockId>)
    requires ChildrenMirror(children, edges)
    ensures ChildrenMirror(With(children, edge.parent, edge.child), edges + {edge})
  {
  }

  lemma ParentsGrow(parents: map<BlockId, set<BlockId>>, edges: set<Edge<BlockId>>, edge: Edge<BlockId>)
    requires ParentsMirror(parents, edges)
    ensures ParentsMirror(With(parents, edge.child, edge.parent), edges + {edge})
  {
  }

  lemma ProjectionGrows(sourceClasses: map<BlockId, set<BlockId>>, slots: set<Slot>, slot: Slot)
    requires Projects(sourceClasses, slots)
    ensures Projects(With(sourceClasses, slot.source, slot.class_), slots + {slot})
  {
    var grown := With(sourceClasses, slot.source, slot.class_);
    forall source | source in grown
      ensures grown[source] != {}
    {
      assert grown[source] == At(grown, source);
      if source != slot.source {
        assert At(sourceClasses, source) == sourceClasses[source];
      }
    }
  }

  lemma KeysGrow(placements: map<Slot, BlockId>, slot: Slot, id: BlockId)
    ensures placements[slot := id].Keys == placements.Keys + {slot}
  {
  }

  /** Both dictionaries cut down to the declared classes, keys and values. */
  function Kept(m: map<BlockId, set<BlockId>>, classes: map<BlockId, ClassInfo>): (r: map<BlockId, set<BlockId>>) {
    map key | key in m && key in classes :: m[key] * classes.Keys
  }

  lemma KeptIs(m: map<BlockId, set<BlockId>>, classes: map<BlockId, ClassInfo>, key: BlockId, value: BlockId)
    ensures value in At(Kept(m, classes), key) <==> value in At(m, key) && key in classes && value in classes
  {
  }

  lemma PruneMirrors(
    children: map<BlockId, set<BlockId>>, parents: map<BlockId, set<BlockId>>, graph: Graph)
    requires ChildrenMirror(children, graph.edges) && ParentsMirror(parents, graph.edges)
    ensures ChildrenMirror(Kept(children, graph.classes), Prune(graph).edges)
    ensures ParentsMirror(Kept(parents, graph.classes), Prune(graph).edges)
  {
    hide Kept;
    var edges := Prune(graph).edges;
    forall p, c
      ensures c in At(Kept(children, graph.classes), p) <==> Edge(p, c) in edges
      ensures p in At(Kept(parents, graph.classes), c) <==> Edge(p, c) in edges
    {
      KeptIs(children, graph.classes, p, c);
      KeptIs(parents, graph.classes, c, p);
      assert Edge(p, c) in edges <==> Edge(p, c) in graph.edges && IsAnchored(graph.classes, Edge(p, c));
    }
  }

  lemma MemoUnaffected(memo: map<BlockId, set<BlockId>>, before: Graph, after: Graph)
    requires IsFresh(memo, before) && after.edges == before.edges && after.placements == before.placements
    ensures IsFresh(memo, after)
  {
    hide Reaches;
  }

  lemma NothingIsFresh(graph: Graph)
    ensures IsFresh(map[], graph)
  {
  }

  lemma MemoAnswers(memo: map<BlockId, set<BlockId>>, graph: Graph)
    requires IsFresh(memo, graph)
    ensures forall id | id in memo :: memo[id] == SourcesBelow(graph, id)
  {
  }

  lemma MemoGrows(memo: map<BlockId, set<BlockId>>, graph: Graph, id: BlockId)
    requires IsFresh(memo, graph)
    ensures IsFresh(memo[id := SourcesBelow(graph, id)], graph)
  {
  }

  function Placed(sourceClasses: map<BlockId, set<BlockId>>, classes: set<BlockId>): (r: set<BlockId>) {
    set source | source in sourceClasses && sourceClasses[source] * classes != {}
  }

  // --- The two walks ---------------------------------------------------------------------------

  lemma ChildrenOf(children: map<BlockId, set<BlockId>>, edges: set<Edge<BlockId>>, id: BlockId)
    requires ChildrenMirror(children, edges)
    ensures forall child :: child in At(children, id) <==> Edge(id, child) in edges
  {
  }

  /** A set's members in some order. */
  method Listed(ids: set<BlockId>) returns (list: seq<BlockId>)
    ensures Members(list) == ids
  {
    list := [];
    var rest := ids;
    while rest != {}
      invariant rest <= ids
      invariant forall id :: id in list <==> id in ids && id !in rest
      decreases |rest|
    {
      var id :| id in rest;
      list := list + [id];
      rest := rest - {id};
    }
  }

  // --- The state ---------------------------------------------------------------------------------

  /** The dictionaries of the state, taken together. */
  datatype Tables = Tables(
    schemes: map<string, SchemeInfo>,
    classes: map<BlockId, ClassInfo>,
    classByLabel: map<ClassInfo, BlockId>,
    parents: map<BlockId, set<BlockId>>,
    children: map<BlockId, set<BlockId>>,
    placements: map<Slot, BlockId>,
    sourceClasses: map<BlockId, set<BlockId>>,
    classSources: map<BlockId, set<BlockId>>)

  /** Both directions of the hierarchy agree, the projection is exact, and no memo is stale. */
  ghost predicate Represents(tables: Tables, graph: Graph) {
    && tables.schemes == graph.schemes && tables.classes == graph.classes && tables.classByLabel == graph.byLabel
    && tables.placements == graph.placements
    && ChildrenMirror(tables.children, graph.edges) && ParentsMirror(tables.parents, graph.edges)
    && Projects(tables.sourceClasses, graph.placements.Keys)
    && IsFresh(tables.classSources, graph)
  }

  /** Neither a scheme nor a class touches what a memo was computed from. */
  lemma DeclaringKeepsMemo(tables: Tables, graph: Graph, block: CatalogBlock)
    requires Represents(tables, graph) && (block.SchemeBlock? || block.ClassBlock?)
    ensures var id := Of(block);
            var after := if block.SchemeBlock?
                         then tables.(schemes := tables.schemes[block.scheme := SchemeInfo(id, block.exclusive)])
                         else tables.(classes := tables.classes[id := ClassInfo(block.scheme, block.name)],
                                      classByLabel := tables.classByLabel[ClassInfo(block.scheme, block.name) := id]);
            Represents(after, Add(graph, block))
  {
    hide SourcesBelow, ChildrenMirror, ParentsMirror, Projects, IsFresh;
    MemoUnaffected(tables.classSources, graph, Add(graph, block));
  }

  lemma RelatingClearsMemo(tables: Tables, graph: Graph, block: CatalogBlock)
    requires Represents(tables, graph) && !block.SchemeBlock? && !block.ClassBlock?
    ensures Represents(Related(tables, block).(classSources := map[]), Add(graph, block))
  {
    hide ChildrenMirror, ParentsMirror, Projects, IsFresh, With;
    NothingIsFresh(Add(graph, block));
    match block
    case HierarchyBlock(broader, narrower, _) =>
      ParentsGrow(tables.parents, graph.edges, Edge(broader, narrower));
      ChildrenGrow(tables.children, graph.edges, Edge(broader, narrower));
    case PlacementBlock(source, class_, _) =>
      ProjectionGrows(tables.sourceClasses, tables.placements.Keys, Slot(source, class_));
      KeysGrow(tables.placements, Slot(source, class_), Of(block));
    case _ =>
  }

  function Related(tables: Tables, block: CatalogBlock): (r: Tables) {
    match block
    case HierarchyBlock(broader, narrower, _) =>
      tables.(parents := With(tables.parents, narrower, broader), children := With(tables.children, broader, narrower))
    case PlacementBlock(source, class_, _) =>
      tables.(placements := tables.placements[Slot(source, class_) := Of(block)],
              sourceClasses := With(tables.sourceClasses, source, class_))
    case _ => tables
  }

  class CatalogState {
    var schemes: map<string, SchemeInfo>
    var classes: map<BlockId, ClassInfo>
    var classByLabel: map<ClassInfo, BlockId>
    var parents: map<BlockId, set<BlockId>>
    var children: map<BlockId, set<BlockId>>
    var placements: map<Slot, BlockId>
    var sourceClasses: map<BlockId, set<BlockId>>
    var classSources: map<BlockId, set<BlockId>>
    ghost var graph: Graph

    function Contents(): (r: Tables)
      reads this
    {
      Tables(schemes, classes, classByLabel, parents, children, placements, sourceClasses, classSources)
    }

    ghost predicate Valid()
      reads this
    {
      Represents(Contents(), graph)
    }

    constructor ()
      ensures Valid() && graph == EMPTY_GRAPH
    {
      schemes, classes, classByLabel := map[], map[], map[];
      parents, children, placements, sourceClasses, classSources := map[], map[], map[], map[], map[];
      graph := EMPTY_GRAPH;
    }

    /** Declaring a scheme or a class returns early and leaves the memo in place, which stays fresh. */
    method AddBlock(block: CatalogBlock)
      requires Valid()
      modifies this
      ensures Valid() && graph == Add(old(graph), block)
    {
      hide Represents, With, Add;
      ghost var before := Contents();
      match block {
        case SchemeBlock(scheme, exclusive) =>
          DeclaringKeepsMemo(before, graph, block);
          schemes := schemes[scheme := SchemeInfo(Of(block), exclusive)];
          graph := Add(graph, block);
          return;
        case ClassBlock(scheme, name) =>
          DeclaringKeepsMemo(before, graph, block);
          classes := classes[Of(block) := ClassInfo(scheme, name)];
          classByLabel := classByLabel[ClassInfo(scheme, name) := Of(block)];
          graph := Add(graph, block);
          return;
        case HierarchyBlock(broader, narrower, _) =>
          parents := With(parents, narrower, broader);
          children := With(children, broader, narrower);
        case PlacementBlock(source, class_, _) =>
          placements := placements[Slot(source, class_) := Of(block)];
          sourceClasses := With(sourceClasses, source, class_);
        case UnrelatedBlock(_) =>
      }
      classSources := map[];
      RelatingClearsMemo(before, graph, block);
      graph := Add(graph, block);
    }

    method PruneDangling()
      requires Valid()
      modifies this
      ensures Valid() && graph == Prune(old(graph))
    {
      hide SourcesBelow, ChildrenMirror, ParentsMirror, Projects, With, Kept, AnchoredPlacements, IsFresh, IsAnchored;
      NothingIsFresh(Prune(graph));
      PruneMirrors(children, parents, graph);
      parents := Kept(parents, classes);
      children := Kept(children, classes);
      placements := AnchoredPlacements(placements, classes);
      graph := Prune(graph);
      sourceClasses := Project(placements.Keys);
      classSources := map[];
    }

    /** Whether one class lies at or below another: a worklist over the children. */
    method Reachable(start: BlockId, target: BlockId) returns (found: bool)
      requires Valid()
      ensures found <==> Reaches(graph.edges, start, target)
    {
      found := Search(children, graph.edges, start, target);
    }

    /** The sources below a class: from the memo when it is there, else by a walk that fills it. */
    method SourcesFor(id: BlockId) returns (sources: set<BlockId>)
      requires Valid()
      modifies this`classSources
      ensures Valid() && sources == SourcesBelow(graph, id)
    {
      hide Reaches, ChildrenMirror, ParentsMirror, Projects, SourcesBelow, IsFresh, Placed;
      MemoAnswers(classSources, graph);
      if id in classSources {
        return classSources[id];
      }
      var below := Closure(children, graph.edges, id);
      sources := Placed(sourceClasses, below);
      PlacedBelow(graph, sourceClasses, below, id);
      MemoGrows(classSources, graph, id);
      classSources := classSources[id := sources];
    }
  }

  method Search(children: map<BlockId, set<BlockId>>, ghost edges: set<Edge<BlockId>>, start: BlockId, target: BlockId)
    returns (found: bool)
    requires ChildrenMirror(children, edges)
    ensures found <==> Reaches(edges, start, target)
  {
    hide Reaches, Spreads, Reachables, ChildrenMirror, At, Members;
    var frontier: seq<BlockId> := [start];
    MembersSplit([], start);
    var seen: set<BlockId> := {};
    ghost var met := {start};
    Begins(edges, start);
    while frontier != []
      invariant Spreads(edges, start, seen, met)
      invariant met == seen + Members(frontier)
      invariant target !in seen
      decreases |Reachables(edges, start) - seen|, |frontier|
    {
      var current := frontier[|frontier| - 1];
      var rest := frontier[..|frontier| - 1];
      assert frontier == rest + [current];
      MembersSplit(rest, current);
      SpreadsWithin(edges, start, seen, met);
      if current == target {
        return true;
      }
      frontier := rest;
      if current !in seen {
        var more := Listed(At(children, current));
        OpenOne(edges, children, start, seen, met, rest, current, more);
        seen := seen + {current};
        met := met + At(children, current);
        frontier := rest + more;
      }
    }
    assert met == seen;
    Ends(edges, start, met);
    found := false;
  }

  lemma OpenOne(
    edges: set<Edge<BlockId>>, children: map<BlockId, set<BlockId>>, start: BlockId, seen: set<BlockId>,
    met: set<BlockId>, rest: seq<BlockId>, current: BlockId, more: seq<BlockId>)
    requires ChildrenMirror(children, edges) && Spreads(edges, start, seen, met) && current in met && current !in seen
    requires met == seen + (Members(rest) + {current}) && Members(more) == At(children, current)
    ensures Spreads(edges, start, seen + {current}, met + At(children, current))
    ensures met + At(children, current) == seen + {current} + Members(rest + more)
    ensures |Reachables(edges, start) - (seen + {current})| < |Reachables(edges, start) - seen|
  {
    hide Reaches, Spreads, Reachables, ChildrenMirror, At, Members;
    SpreadsWithin(edges, start, seen, met);
    ChildrenOf(children, edges, current);
    Spread(edges, start, seen, met, current, At(children, current));
    assert current in seen + {current};
    LessRemains(Reachables(edges, start), seen, seen + {current});
    MembersJoin(rest, more);
  }

  method Closure(children: map<BlockId, set<BlockId>>, ghost edges: set<Edge<BlockId>>, start: BlockId)
    returns (below: set<BlockId>)
    requires ChildrenMirror(children, edges)
    ensures forall id :: id in below <==> Reaches(edges, start, id)
  {
    hide Reaches, Spreads, Reachables, ChildrenMirror, At, Members;
    below := {start};
    var frontier: seq<BlockId> := [start];
    MembersSplit([], start);
    ghost var done: set<BlockId> := {};
    Begins(edges, start);
    while frontier != []
      invariant Spreads(edges, start, done, below)
      invariant below == done + Members(frontier)
      decreases |Reachables(edges, start) - below|, |frontier|
    {
      var current := frontier[|frontier| - 1];
      var rest := frontier[..|frontier| - 1];
      assert frontier == rest + [current];
      MembersSplit(rest, current);
      var met := At(children, current) - below;
      var found := Listed(met);
      ChildrenOf(children, edges, current);
      Spread(edges, start, done, below, current, At(children, current));
      done := done + {current};
      MembersJoin(rest, found);
      frontier := rest + found;
      SpreadsWithin(edges, start, done, below + At(children, current));
      assert below + At(children, current) == below + met;
      if met != {} {
        assert below < below + met;
        LessRemains(Reachables(edges, start), below, below + met);
      } else {
        assert found == [] by {
          NoMembers(found);
        }
      }
      below := below + met;
    }
    assert below == done;
    Ends(edges, start, below);
  }

  lemma MembersSplit(rest: seq<BlockId>, last: BlockId)
    ensures Members(rest + [last]) == Members(rest) + {last}
    ensures Members<BlockId>([]) == {} && [] + [last] == [last]
    ensures (rest + [last])[..|rest + [last]| - 1] == rest
  {
  }

  lemma NoMembers(ids: seq<BlockId>)
    ensures Members(ids) == {} <==> ids == []
  {
    if ids != [] {
      assert ids[0] in Members(ids);
    }
  }

  lemma MembersJoin(a: seq<BlockId>, b: seq<BlockId>)
    ensures Members(a + b) == Members(a) + Members(b)
  {
  }

  lemma PlacedBelow(
    graph: Graph, sourceClasses: map<BlockId, set<BlockId>>, below: set<BlockId>, id: BlockId)
    requires Projects(sourceClasses, graph.placements.Keys)
    requires forall class_ :: class_ in below <==> Reaches(graph.edges, id, class_)
    ensures Placed(sourceClasses, below) == SourcesBelow(graph, id)
  {
    hide Reaches;
    var sources := Placed(sourceClasses, below);
    forall source | source in sources
      ensures source in SourcesBelow(graph, id)
    {
      var class_ :| class_ in sourceClasses[source] * below;
      assert class_ in At(sourceClasses, source);
      assert Slot(source, class_) in graph.placements;
    }
    forall source | source in SourcesBelow(graph, id)
      ensures source in sources
    {
      var slot :| slot in graph.placements && Reaches(graph.edges, id, slot.class_) && slot.source == source;
      assert slot == Slot(source, slot.class_);
      assert slot.class_ in At(sourceClasses, source);
      assert slot.class_ in sourceClasses[source] * below;
    }
  }

  /** The projection rebuilt from the placements. */
  method Project(slots: set<Slot>) returns (sourceClasses: map<BlockId, set<BlockId>>)
    ensures Projects(sourceClasses, slots)
  {
    sourceClasses := map[];
    var rest := slots;
    ghost var done: set<Slot> := {};
    while rest != {}
      invariant done + rest == slots && Projects(sourceClasses, done)
      decreases |rest|
    {
      var slot :| slot in rest;
      ProjectionGrows(sourceClasses, done, slot);
      sourceClasses := With(sourceClasses, slot.source, slot.class_);
      done := done + {slot};
      rest := rest - {slot};
    }
    assert done == slots;
  }
}
