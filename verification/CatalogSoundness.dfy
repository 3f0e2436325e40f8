/** What every catalog validated into keeps, and that the rules refuse nothing else. */
module CatalogSoundness {
  import opened Common
  import opened Paths
  import opened CatalogGraph
  import opened CatalogState
  import opened CatalogValidation

  ghost predicate IsAcyclic(edges: set<Edge<BlockId>>) {
    forall edge | edge in edges :: !Reaches(edges, edge.child, edge.parent)
  }

  /** Every class is filed under its own label, and its scheme is declared. */
  predicate ClassesAgree(graph: Graph) {
    && (forall id | id in graph.classes ::
          && id == Of(ClassBlock(graph.classes[id].scheme, graph.classes[id].name))
          && graph.classes[id].scheme in graph.schemes && graph.classes[id] in graph.byLabel)
    && (forall info | info in graph.byLabel ::
          graph.byLabel[info] == Of(ClassBlock(info.scheme, info.name))
          && graph.byLabel[info] in graph.classes && graph.classes[graph.byLabel[info]] == info)
  }

  /** Every edge joins two declared classes of one scheme. */
  predicate EdgesAgree(graph: Graph) {
    forall edge | edge in graph.edges ::
      IsAnchored(graph.classes, edge) && graph.classes[edge.parent].scheme == graph.classes[edge.child].scheme
  }

  predicate PlacementsAgree(graph: Graph) {
    forall slot | slot in graph.placements :: slot.class_ in graph.classes
  }

  /** Two placements of one source that an exclusive scheme would not let stand together. */
  predicate Clash(graph: Graph, a: Slot, b: Slot) {
    && a in graph.placements && b in graph.placements && a != b && a.source == b.source
    && a.class_ in graph.classes && b.class_ in graph.classes
    && graph.classes[a.class_].scheme == graph.classes[b.class_].scheme
    && graph.classes[a.class_].scheme in graph.schemes && graph.schemes[graph.classes[a.class_].scheme].exclusive
  }

  ghost predicate IsExclusive(graph: Graph) {
    forall a, b :: !Clash(graph, a, b)
  }

  /** The catalog invariant. */
  ghost predicate IsSound(graph: Graph) {
    && ClassesAgree(graph) && EdgesAgree(graph) && PlacementsAgree(graph)
    && IsAcyclic(graph.edges) && IsExclusive(graph)
  }

  lemma EmptyIsSound()
    ensures IsSound(EMPTY_GRAPH)
  {
  }

  // --- New edges and cycles -----------------------------------------------------------------------

  /** A path over one more edge avoids it, or runs up to it and on from it. */
  lemma {:induction false} PathOverNewEdge(edges: set<Edge<BlockId>>, edge: Edge<BlockId>, path: seq<BlockId>)
    requires IsPath(edges + {edge}, path)
    ensures || Reaches(edges, path[0], path[|path| - 1])
            || (Reaches(edges, path[0], edge.parent) && Reaches(edges, edge.child, path[|path| - 1]))
    decreases |path|
  {
    hide Reaches;
    var n := |path| - 1;
    if n == 0 {
      ReachesItself(edges, path[0]);
    } else {
      var shorter := path[..n];
      assert IsPath(edges + {edge}, shorter);
      PathOverNewEdge(edges, edge, shorter);
      assert Edge(path[n - 1], path[n - 1 + 1]) in edges + {edge};
      if Edge(path[n - 1], path[n]) == edge {
        ReachesItself(edges, edge.child);
      } else if Reaches(edges, path[0], path[n - 1]) {
        ReachesOn(edges, path[0], path[n - 1], path[n]);
      } else {
        ReachesOn(edges, edge.child, path[n - 1], path[n]);
      }
    }
  }

  lemma ReachesOverNewEdge(edges: set<Edge<BlockId>>, edge: Edge<BlockId>, from: BlockId, to: BlockId)
    requires Reaches(edges + {edge}, from, to)
    ensures Reaches(edges, from, to) || (Reaches(edges, from, edge.parent) && Reaches(edges, edge.child, to))
  {
    var path :| Leads(edges + {edge}, path, from, to);
    PathOverNewEdge(edges, edge, path);
  }

  /** An edge can join an acyclic hierarchy exactly when its child does not already lead back to its parent. */
  lemma NewEdgeIsAcyclic(edges: set<Edge<BlockId>>, edge: Edge<BlockId>)
    requires IsAcyclic(edges)
    ensures IsAcyclic(edges + {edge}) <==> !Reaches(edges, edge.child, edge.parent)
  {
    hide Reaches;
    var more := edges + {edge};
    if Reaches(edges, edge.child, edge.parent) {
      MoreEdgesReachMore(edges, more, edge.child, edge.parent);
    } else {
      forall other | other in more
        ensures !Reaches(more, other.child, other.parent)
      {
        if Reaches(more, other.child, other.parent) {
          ReachesOverNewEdge(edges, edge, other.child, other.parent);
          if other != edge {
            ReachesOn(edges, edge.child, other.parent, other.child);
            ReachesThrough(edges, edge.child, other.child, edge.parent);
          }
        }
      }
    }
  }

  // --- The rules refuse exactly what would break the invariant ------------------------------------------

  /** The declaration says something the catalog does not say yet. */
  predicate IsNew(graph: Graph, declaration: Declaration) {
    match declaration
    case SchemeDeclaration(scheme, _) => scheme !in graph.schemes
    case ClassDeclaration(scheme, name) => ClassInfo(scheme, name) !in graph.byLabel
    case HierarchyDeclaration(broader, narrower) => Edge(broader, narrower) !in graph.edges
    case PlacementDeclaration(source, class_) => Slot(source, class_) !in graph.placements
  }

  /** What a declaration cites is canonical. */
  predicate IsSupported(canonical: set<BlockId>, declaration: Declaration) {
    declaration.PlacementDeclaration? ==> declaration.source in canonical
  }

  lemma NewSchemeIsSound(graph: Graph, scheme: string, exclusive: bool)
    requires IsSound(graph) && scheme !in graph.schemes
    ensures IsSound(Add(graph, SchemeBlock(scheme, exclusive)))
  {
    hide Reaches;
    var after := Add(graph, SchemeBlock(scheme, exclusive));
    forall a, b
      ensures !Clash(after, a, b)
    {
      assert !Clash(graph, a, b);
    }
  }

  lemma NewClassAgrees(graph: Graph, scheme: string, name: string)
    requires ClassesAgree(graph) && ClassInfo(scheme, name) !in graph.byLabel
    ensures Of(ClassBlock(scheme, name)) !in graph.classes
    ensures ClassesAgree(Add(graph, ClassBlock(scheme, name))) <==> scheme in graph.schemes
  {
    var after := Add(graph, ClassBlock(scheme, name));
    var id := Of(ClassBlock(scheme, name));
    assert id !in graph.classes;
    assert id in after.classes && after.classes[id] == ClassInfo(scheme, name);
  }

  lemma NewClassIsSound(graph: Graph, scheme: string, name: string)
    requires IsSound(graph) && ClassInfo(scheme, name) !in graph.byLabel
    ensures IsSound(Add(graph, ClassBlock(scheme, name))) <==> scheme in graph.schemes
  {
    hide Reaches, ClassesAgree;
    NewClassAgrees(graph, scheme, name);
    var after := Add(graph, ClassBlock(scheme, name));
    if scheme in graph.schemes {
      forall a, b
        ensures !Clash(after, a, b)
      {
        assert !Clash(graph, a, b);
      }
      assert forall edge | edge in graph.edges :: IsAnchored(graph.classes, edge);
    }
  }

  lemma NewEdgeIsSound(graph: Graph, broader: BlockId, narrower: BlockId)
    requires IsSound(graph) && Edge(broader, narrower) !in graph.edges
    ensures IsSound(Add(graph, HierarchyBlock(broader, narrower, 0))) <==>
            HierarchyProblems(graph, broader, narrower) == []
  {
    hide Reaches;
    var after := Add(graph, HierarchyBlock(broader, narrower, 0));
    var edge := Edge(broader, narrower);
    NewEdgeIsAcyclic(graph.edges, edge);
    assert edge in after.edges;
    if broader == narrower {
      ReachesItself(graph.edges, broader);
    }
    assert forall a, b :: Clash(after, a, b) <==> Clash(graph, a, b);
  }

  lemma NewPlacementIsSound(graph: Graph, source: BlockId, class_: BlockId)
    requires IsSound(graph) && Slot(source, class_) !in graph.placements
    ensures IsSound(Add(graph, PlacementBlock(source, class_, 0))) <==>
            class_ in graph.classes
            && (graph.schemes[graph.classes[class_].scheme].exclusive ==> Competing(graph, source, class_) == {})
  {
    hide Reaches;
    var after := Add(graph, PlacementBlock(source, class_, 0));
    var slot := Slot(source, class_);
    assert slot in after.placements;
    if class_ in graph.classes {
      if graph.schemes[graph.classes[class_].scheme].exclusive && Competing(graph, source, class_) != {} {
        var id :| id in Competing(graph, source, class_);
        var other :| other in graph.placements && Competes(graph, other, source, class_)
          && graph.placements[other] == id;
        assert Clash(after, slot, other);
      } else {
        forall a, b
          ensures !Clash(after, a, b)
        {
          if Clash(after, a, b) {
            AnyClashCompetes(graph, source, class_, a, b);
          }
        }
      }
    }
  }

  lemma AnyClashCompetes(graph: Graph, source: BlockId, class_: BlockId, a: Slot, b: Slot)
    requires IsSound(graph) && class_ in graph.classes && Slot(source, class_) !in graph.placements
    requires Clash(Add(graph, PlacementBlock(source, class_, 0)), a, b)
    ensures Competing(graph, source, class_) != {} && graph.schemes[graph.classes[class_].scheme].exclusive
  {
    hide Reaches;
    assert !Clash(graph, a, b);
    var other := if a == Slot(source, class_) then b else a;
    assert other in graph.placements && Competes(graph, other, source, class_);
    assert graph.placements[other] in Competing(graph, source, class_);
  }

  /**
   The rules are exact: over a sound catalog no lookup fails, and a declaration is accepted exactly when it is
   new, supported, and leaves the catalog sound.
   */
  lemma RulesAreExact(graph: Graph, canonical: set<BlockId>, declaration: Declaration)
    requires IsSound(graph)
    ensures ProblemsOf(graph, canonical, declaration).Ok?
    ensures ProblemsOf(graph, canonical, declaration).value == [] <==>
            IsNew(graph, declaration) && IsSupported(canonical, declaration)
              && IsSound(Add(graph, declaration.ToBlock()))
  {
    hide Reaches, IsAcyclic, IsExclusive, Competing, Add;
    match declaration
    case SchemeDeclaration(scheme, exclusive) =>
      if scheme !in graph.schemes {
        NewSchemeIsSound(graph, scheme, exclusive);
      }
    case ClassDeclaration(scheme, name) =>
      if ClassInfo(scheme, name) !in graph.byLabel {
        NewClassIsSound(graph, scheme, name);
      }
    case HierarchyDeclaration(broader, narrower) =>
      if Edge(broader, narrower) !in graph.edges {
        NewEdgeIsSound(graph, broader, narrower);
      }
    case PlacementDeclaration(source, class_) =>
      if Slot(source, class_) !in graph.placements {
        NewPlacementIsSound(graph, source, class_);
      }
  }

  /** Whatever is asked of it, a sound catalog is validated without a fault into a sound catalog. */
  lemma {:induction false} ValidationKeepsSoundness(
    outcome: Outcome, canonical: set<BlockId>, declarations: seq<Declaration>)
    requires IsSound(outcome.graph)
    ensures ValidateFrom(outcome, canonical, declarations).Ok?
    ensures IsSound(ValidateFrom(outcome, canonical, declarations).value.graph)
    ensures |ValidateFrom(outcome, canonical, declarations).value.verdicts| == |outcome.verdicts| + |declarations|
    decreases |declarations|
  {
    hide IsSound, Add, ProblemsOf, VerdictOf, IsNew, IsSupported;
    if declarations != [] {
      RulesAreExact(outcome.graph, canonical, declarations[0]);
      var problems := ProblemsOf(outcome.graph, canonical, declarations[0]).value;
      ValidationKeepsSoundness(Judged(outcome, declarations[0], problems), canonical, declarations[1..]);
    }
  }

  /** A catalog built from nothing is sound after any requests, whatever they ask for. */
  lemma CatalogsFromNothingAreSound(canonical: set<BlockId>, declarations: seq<Declaration>)
    ensures Validate(EMPTY_GRAPH, canonical, declarations).Ok?
    ensures IsSound(Validate(EMPTY_GRAPH, canonical, declarations).value.graph)
  {
    hide IsSound;
    EmptyIsSound();
    ValidationKeepsSoundness(Outcome(EMPTY_GRAPH, [], [], []), canonical, declarations);
  }

  /** A class whose scheme was dropped: placing a source under it fails on the lookup. */
  lemma DroppedSchemeFailsTheLookup()
    ensures var class_ := ClassBlock("s", "a");
            ProblemsOf(Load([class_]), {Foreign(0)}, PlacementDeclaration(Foreign(0), Of(class_))) == Err(MissingScheme)
  {
    var class_ := ClassBlock("s", "a");
    var graph := Add(EMPTY_GRAPH, class_);
    assert [class_][0] == class_ && [class_][1..] == [];
    assert AddAll(graph, []) == graph;
    assert Stored([class_]) == AddAll(graph, [class_][1..]);
  }

  /** The one lookup that can fail does so exactly when a placement names a class whose scheme is not declared. */
  lemma LookupFailsExactly(graph: Graph, canonical: set<BlockId>, declaration: Declaration)
    ensures ProblemsOf(graph, canonical, declaration).Err? <==>
            && declaration.PlacementDeclaration? && declaration.source in canonical
            && declaration.class_ in graph.classes && graph.classes[declaration.class_].scheme !in graph.schemes
            && Slot(declaration.source, declaration.class_) !in graph.placements
  {
    hide Reaches;
  }
}
