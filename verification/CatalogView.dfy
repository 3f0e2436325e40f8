/** Browsing the catalog: facets intersected, and paths over an ordering of schemes. */
module CatalogView {
  import opened Common
  import opened Paths
  import opened CatalogGraph
  import opened CatalogState
  import opened CatalogValidation
  import opened CatalogReload

  datatype CatalogError = UndeclaredClass | PathTooLong

  // --- What browsing means ------------------------------------------------------------------------

  predicate AllDeclared(graph: Graph, selected: seq<BlockId>) {
    forall id | id in selected :: id in graph.classes
  }

  /** The sources that lie below every one of the selected classes; with none selected, all that are placed. */
  ghost predicate IsBelowAll(graph: Graph, selected: seq<BlockId>, source: BlockId) {
    source in AllSources(graph) && forall id | id in selected :: source in SourcesBelow(graph, id)
  }

  ghost predicate IsBrowsed(graph: Graph, selected: seq<BlockId>, sources: set<BlockId>) {
    forall source :: source in sources <==> IsBelowAll(graph, selected, source)
  }

  /** One class as browsing shows it. */
  datatype Node = Node(
    class_: BlockId,
    info: ClassInfo,
    broader: set<BlockId>,
    narrower: set<BlockId>,
    direct: set<BlockId>,
    sources: set<BlockId>)

  datatype Browsed = Browsed(nodes: seq<Node>, sources: set<BlockId>)

  /** A declared class, its neighbours in the hierarchy, what is placed in it and what lies below it. */
  ghost predicate Describes(graph: Graph, id: BlockId, node: Node) {
    && node.class_ == id && id in graph.classes && node.info == graph.classes[id]
    && (forall other :: other in node.broader <==> Edge(other, id) in graph.edges)
    && (forall other :: other in node.narrower <==> Edge(id, other) in graph.edges)
    && (forall source :: source in node.direct <==> Slot(source, id) in graph.placements)
    && node.sources == SourcesBelow(graph, id)
  }

  ghost predicate DescribesAll(graph: Graph, selected: seq<BlockId>, nodes: seq<Node>) {
    |nodes| == |selected| && forall i | 0 <= i < |nodes| :: Describes(graph, selected[i], nodes[i])
  }

  /** The classes that the segments of a path name, one scheme each. */
  function Resolved(graph: Graph, schemes: seq<string>, names: seq<string>): (r: Result<seq<BlockId>, CatalogError>)
    requires |names| <= |schemes|
  {
    if names == [] then Ok([])
    else
      var last := |names| - 1;
      var earlier :- Resolved(graph, schemes, names[..last]);
      var info := ClassInfo(schemes[last], names[last]);
      if info !in graph.byLabel then Err(UndeclaredClass) else Ok(earlier + [graph.byLabel[info]])
  }

  /** Whether a path can be browsed, and finds something. */
  ghost predicate FindsSomething(graph: Graph, schemes: seq<string>, names: seq<string>) {
    && |names| <= |schemes| && Resolved(graph, schemes, names).Ok?
    && exists source :: IsBelowAll(graph, Resolved(graph, schemes, names).value, source)
  }

  /** A path resolves exactly when each of its segments names a declared class of its own scheme, and to those. */
  lemma {:induction false} ResolvedExactly(graph: Graph, schemes: seq<string>, names: seq<string>)
    requires |names| <= |schemes|
    ensures Resolved(graph, schemes, names).Ok? <==>
            forall i | 0 <= i < |names| :: ClassInfo(schemes[i], names[i]) in graph.byLabel
    ensures Resolved(graph, schemes, names).Ok? ==>
              var ids := Resolved(graph, schemes, names).value;
              |ids| == |names| && forall i | 0 <= i < |names| ::
                                    ids[i] == graph.byLabel[ClassInfo(schemes[i], names[i])]
    decreases |names|
  {
    if names != [] {
      ResolvedExactly(graph, schemes, names[..|names| - 1]);
    }
  }

  // --- Browsing as it runs -------------------------------------------------------------------------

  lemma BelowIsPlaced(graph: Graph, id: BlockId)
    ensures SourcesBelow(graph, id) <= AllSources(graph)
  {
    hide Reaches;
  }

  lemma AllSourcesAreKeys(sourceClasses: map<BlockId, set<BlockId>>, graph: Graph)
    requires Projects(sourceClasses, graph.placements.Keys)
    ensures sourceClasses.Keys == AllSources(graph)
  {
    forall source
      ensures source in sourceClasses <==> source in AllSources(graph)
    {
      if source in sourceClasses {
        var class_ :| class_ in sourceClasses[source];
        assert class_ in At(sourceClasses, source);
        assert Slot(source, class_) in graph.placements;
      }
      if source in AllSources(graph) {
        var slot :| slot in graph.placements && slot.source == source;
        assert slot == Slot(source, slot.class_);
        assert slot.class_ in At(sourceClasses, source);
      }
    }
  }

  lemma ProjectionOf(state: CatalogState)
    requires state.Valid()
    ensures Projects(state.sourceClasses, state.graph.placements.Keys)
  {
    hide Projects, ChildrenMirror, ParentsMirror, IsFresh;
  }

  lemma NeighboursOf(state: CatalogState, id: BlockId)
    requires state.Valid()
    ensures forall other :: other in At(state.parents, id) <==> Edge(other, id) in state.graph.edges
    ensures forall other :: other in At(state.children, id) <==> Edge(id, other) in state.graph.edges
    ensures forall source :: source in state.sourceClasses && id in state.sourceClasses[source] <==>
                             Slot(source, id) in state.graph.placements
  {
    hide IsFresh;
    forall source
      ensures source in state.sourceClasses && id in state.sourceClasses[source] <==>
              Slot(source, id) in state.graph.placements
    {
      assert id in At(state.sourceClasses, source) <==> Slot(source, id) in state.graph.placements.Keys;
    }
  }

  /** One node, read off the dictionaries. */
  method NodeFor(state: CatalogState, id: BlockId) returns (r: Result<Node, CatalogError>)
    requires state.Valid()
    modifies state`classSources
    ensures state.Valid()
    ensures if id in state.graph.classes then r.Ok? && Describes(state.graph, id, r.value)
            else r == Err(UndeclaredClass)
  {
    hide Reaches, Projects, ChildrenMirror, ParentsMirror, IsFresh, SourcesBelow, Represents;
    ClassesOf(state);
    NeighboursOf(state, id);
    if id !in state.classes {
      return Err(UndeclaredClass);
    }
    var direct := set source | source in state.sourceClasses && id in state.sourceClasses[source];
    var below := state.SourcesFor(id);
    r := Ok(Node(id, state.classes[id], At(state.parents, id), At(state.children, id), direct, below));
  }

  /** Each selected class stands for itself and all below it, and a source has to be under every one. */
  method Browse(state: CatalogState, selected: seq<BlockId>) returns (r: Result<Browsed, CatalogError>)
    requires state.Valid()
    modifies state`classSources
    ensures state.Valid()
    ensures if AllDeclared(state.graph, selected)
            then r.Ok? && IsBrowsed(state.graph, selected, r.value.sources)
                 && DescribesAll(state.graph, selected, r.value.nodes)
            else r == Err(UndeclaredClass)
  {
    hide Reaches, Projects, ChildrenMirror, ParentsMirror, IsFresh, SourcesBelow, AllSources, Represents, Describes;
    ProjectionOf(state);
    AllSourcesAreKeys(state.sourceClasses, state.graph);
    assert state.classes == state.graph.classes by { ClassesOf(state); }
    var sources := state.sourceClasses.Keys;
    for i := 0 to |selected|
      invariant state.Valid() && state.classes == state.graph.classes
      invariant forall j | 0 <= j < i :: selected[j] in state.graph.classes
      invariant forall source :: source in sources <==>
                  source in AllSources(state.graph)
                    && forall j | 0 <= j < i :: source in SourcesBelow(state.graph, selected[j])
    {
      if selected[i] !in state.classes {
        return Err(UndeclaredClass);
      }
      var below := state.SourcesFor(selected[i]);
      BelowIsPlaced(state.graph, selected[i]);
      sources := if i == 0 then below else sources * below;
    }
    var nodes: seq<Node> := [];
    for i := 0 to |selected|
      invariant state.Valid() && |nodes| == i
      invariant forall j | 0 <= j < i :: Describes(state.graph, selected[j], nodes[j])
    {
      var node := NodeFor(state, selected[i]);
      nodes := nodes + [node.value];
    }
    r := Ok(Browsed(nodes, sources));
  }

  lemma ClassesOf(state: CatalogState)
    requires state.Valid()
    ensures state.classes == state.graph.classes && state.classByLabel == state.graph.byLabel
  {
    hide Projects, ChildrenMirror, ParentsMirror, IsFresh;
  }

  /** The label of every declared class leads to a declared class. */
  predicate LabelsResolve(graph: Graph) {
    forall info | info in graph.byLabel :: graph.byLabel[info] in graph.classes
  }

  lemma LoadedLabelsResolve(blocks: seq<CatalogBlock>)
    ensures LabelsResolve(Load(blocks))
  {
    hide Stored;
    ClassesAre(blocks);
  }

  lemma {:induction false} ResolvedAreDeclared(graph: Graph, schemes: seq<string>, names: seq<string>)
    requires |names| <= |schemes| && LabelsResolve(graph) && Resolved(graph, schemes, names).Ok?
    ensures AllDeclared(graph, Resolved(graph, schemes, names).value)
  {
    if names != [] {
      ResolvedAreDeclared(graph, schemes, names[..|names| - 1]);
    }
  }

  method ResolveParts(state: CatalogState, schemes: seq<string>, names: seq<string>)
    returns (r: Result<seq<BlockId>, CatalogError>)
    requires state.Valid() && |names| <= |schemes|
    ensures r == Resolved(state.graph, schemes, names)
  {
    hide Represents;
    ClassesOf(state);
    var classes: seq<BlockId> := [];
    for i := 0 to |names|
      invariant Resolved(state.graph, schemes, names[..i]) == Ok(classes)
    {
      assert names[..i + 1][..i] == names[..i];
      var info := ClassInfo(schemes[i], names[i]);
      if info !in state.classByLabel {
        FailureStays(state.graph, schemes, names, i + 1);
        return Err(UndeclaredClass);
      }
      classes := classes + [state.classByLabel[info]];
    }
    assert names[..|names|] == names;
    r := Ok(classes);
  }

  lemma {:induction false} FailureStays(graph: Graph, schemes: seq<string>, names: seq<string>, i: nat)
    requires |names| <= |schemes| && i <= |names| && Resolved(graph, schemes, names[..i]) == Err(UndeclaredClass)
    ensures Resolved(graph, schemes, names) == Err(UndeclaredClass)
    decreases |names|
  {
    if i < |names| {
      assert names[..|names| - 1][..i] == names[..i];
      FailureStays(graph, schemes, names[..|names| - 1], i);
    } else {
      assert names[..i] == names;
    }
  }

  /** What a path lists: sources at full length, names of the next scheme before that. */
  datatype Directory = Leaf(sources: set<BlockId>) | Branch(scheme: string, names: set<string>)

  /** The next names that can be taken are exactly those under which browsing on finds something. */
  method IterDir(blocks: seq<CatalogBlock>, schemes: seq<string>, names: seq<string>)
    returns (r: Result<Directory, CatalogError>)
    ensures r.Err? <==> |names| > |schemes| || Resolved(Load(blocks), schemes, names).Err?
    ensures r.Ok? && |names| == |schemes| ==>
              r.value.Leaf? && IsBrowsed(Load(blocks), Resolved(Load(blocks), schemes, names).value, r.value.sources)
    ensures r.Ok? && |names| < |schemes| ==>
              r.value.Branch? && r.value.scheme == schemes[|names|]
              && forall name :: name in r.value.names <==> FindsSomething(Load(blocks), schemes, names + [name])
  {
    hide Represents, Load, SourcesBelow, AllSources;
    if |names| > |schemes| {
      return Err(PathTooLong);
    }
    var state := LoadState(blocks);
    ClassesOf(state);
    var resolved := ResolveParts(state, schemes, names);
    if resolved.Err? {
      return Err(resolved.error);
    }
    var selected := resolved.value;
    LoadedLabelsResolve(blocks);
    ResolvedAreDeclared(state.graph, schemes, names);
    var browsed := Browse(state, selected);
    var prefix := browsed.value.sources;
    if |names| == |schemes| {
      return Ok(Leaf(prefix));
    }
    var scheme := schemes[|names|];
    var listed := set info | info in state.classByLabel && info.scheme == scheme :: info.name;
    var viable: set<string> := {};
    var rest := listed;
    while rest != {}
      invariant state.Valid() && rest <= listed
      invariant state.graph == Load(blocks) && state.classByLabel == state.graph.byLabel
      invariant forall name :: name in viable <==>
                  name in listed && name !in rest
                  && prefix * SourcesBelow(state.graph, state.classByLabel[ClassInfo(scheme, name)]) != {}
      decreases |rest|
    {
      var name :| name in rest;
      assert ClassInfo(scheme, name) in state.classByLabel;
      var below := state.SourcesFor(state.classByLabel[ClassInfo(scheme, name)]);
      if prefix * below != {} {
        viable := viable + {name};
      }
      rest := rest - {name};
    }
    forall name
      ensures name in viable <==> FindsSomething(state.graph, schemes, names + [name])
    {
      NextNameFinds(state.graph, schemes, names, name, prefix);
      assert name in listed <==> ClassInfo(scheme, name) in state.graph.byLabel;
    }
    r := Ok(Branch(scheme, viable));
  }

  lemma LastNameResolves(graph: Graph, schemes: seq<string>, names: seq<string>, name: string)
    requires |names| < |schemes| && Resolved(graph, schemes, names).Ok?
    ensures var info := ClassInfo(schemes[|names|], name);
            Resolved(graph, schemes, names + [name]) ==
            if info in graph.byLabel then Ok(Resolved(graph, schemes, names).value + [graph.byLabel[info]])
            else Err(UndeclaredClass)
  {
    assert (names + [name])[..|names|] == names;
  }

  lemma OneMoreFacet(graph: Graph, selected: seq<BlockId>, id: BlockId, source: BlockId)
    ensures IsBelowAll(graph, selected + [id], source) <==>
            IsBelowAll(graph, selected, source) && source in SourcesBelow(graph, id)
  {
    hide SourcesBelow, AllSources;
    assert forall other :: other in selected + [id] <==> other in selected || other == id;
  }

  lemma NextNameFinds(graph: Graph, schemes: seq<string>, names: seq<string>, name: string, prefix: set<BlockId>)
    requires |names| < |schemes| && Resolved(graph, schemes, names).Ok?
    requires IsBrowsed(graph, Resolved(graph, schemes, names).value, prefix)
    ensures FindsSomething(graph, schemes, names + [name]) <==>
            ClassInfo(schemes[|names|], name) in graph.byLabel
            && prefix * SourcesBelow(graph, graph.byLabel[ClassInfo(schemes[|names|], name)]) != {}
  {
    hide SourcesBelow, AllSources, Resolved, IsBelowAll;
    LastNameResolves(graph, schemes, names, name);
    var info := ClassInfo(schemes[|names|], name);
    if info in graph.byLabel {
      var id := graph.byLabel[info];
      var selected := Resolved(graph, schemes, names).value;
      forall source
        ensures IsBelowAll(graph, selected + [id], source) <==> source in prefix * SourcesBelow(graph, id)
      {
        OneMoreFacet(graph, selected, id, source);
      }
    }
  }
}
