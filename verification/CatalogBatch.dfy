/** One batch against one declaration at a time: when the catalog in memory is the catalog reloaded. */
module CatalogBatch {
  import opened Common
  import opened Paths
  import opened CatalogGraph
  import opened CatalogValidation
  import opened CatalogSoundness
  import opened CatalogReload

  /**
   What the semantic module shows: the accessible blocks in the order they load, and the blocks that would stay
   hidden if written again, being superseded or demoted. `place` is where a new block sorts in.
   */
  datatype Module = Module(
    visible: seq<CatalogBlock>, hidden: set<CatalogBlock>, place: (seq<CatalogBlock>, CatalogBlock) -> nat)
  {
    /** The module with one more block written into its composition. */
    function Write(block: CatalogBlock): (r: Module) {
      if block in hidden || block in visible then this else this.(visible := Insert(visible, block))
    }

    function Insert(blocks: seq<CatalogBlock>, block: CatalogBlock): (r: seq<CatalogBlock>) {
      var i := if place(blocks, block) <= |blocks| then place(blocks, block) else |blocks|;
      blocks[..i] + [block] + blocks[i..]
    }
  }

  /** A step of a run: a verdict and the catalog after it, or a failed lookup that ends the run. */
  datatype Step = Step(verdict: Verdict, graph: Graph) | Fault

  ghost function Batch(graph: Graph, canonical: set<BlockId>, declarations: seq<Declaration>): (r: seq<Step>)
    decreases |declarations|
  {
    if declarations == [] then []
    else
      var problems := ProblemsOf(graph, canonical, declarations[0]);
      if problems.Err? then [Fault]
      else
        var next := if problems.value == [] then Add(graph, declarations[0].ToBlock()) else graph;
        [Step(VerdictOf(declarations[0], problems.value), next)] + Batch(next, canonical, declarations[1..])
  }

  /** Each declaration on its own: loaded, judged, written, and loaded again. */
  ghost function Singles(module_: Module, canonical: set<BlockId>, declarations: seq<Declaration>): (r: seq<Step>)
    decreases |declarations|
  {
    if declarations == [] then []
    else
      var problems := ProblemsOf(Load(module_.visible), canonical, declarations[0]);
      if problems.Err? then [Fault]
      else
        var next := if problems.value == [] then module_.Write(declarations[0].ToBlock()) else module_;
        [Step(VerdictOf(declarations[0], problems.value), Load(next.visible))]
          + Singles(next, canonical, declarations[1..])
  }

  function VerdictsIn(steps: seq<Step>): (r: seq<Verdict>) {
    if steps == [] then []
    else (if steps[0].Step? then [steps[0].verdict] else []) + VerdictsIn(steps[1..])
  }

  function GraphAfter(graph: Graph, steps: seq<Step>): (r: Graph) {
    if steps == [] || steps[|steps| - 1].Fault? then graph else steps[|steps| - 1].graph
  }

  /** The steps of a batch are what validating it reports. */
  lemma {:induction false} BatchIsValidation(outcome: Outcome, canonical: set<BlockId>, declarations: seq<Declaration>)
    ensures var steps := Batch(outcome.graph, canonical, declarations);
            var r := ValidateFrom(outcome, canonical, declarations);
            if r.Err? then Fault in steps
            else Fault !in steps && |steps| == |declarations|
                 && r.value.verdicts == outcome.verdicts + VerdictsIn(steps)
                 && r.value.graph == GraphAfter(outcome.graph, steps)
    decreases |declarations|
  {
    hide Add, ProblemsOf, VerdictOf;
    if declarations != [] {
      var problems := ProblemsOf(outcome.graph, canonical, declarations[0]);
      if problems.Ok? {
        var next := Judged(outcome, declarations[0], problems.value);
        BatchIsValidation(next, canonical, declarations[1..]);
        var steps := Batch(outcome.graph, canonical, declarations);
        assert steps == [steps[0]] + Batch(next.graph, canonical, declarations[1..]);
        assert steps[1..] == Batch(next.graph, canonical, declarations[1..]);
      }
    }
  }

  // --- When one block is written --------------------------------------------------------------------

  /** A dangling edge that one more class would put back into the catalog. */
  ghost predicate RevivesEdge(stored: Graph, block: CatalogBlock, edge: Edge<BlockId>) {
    edge in stored.edges && (edge.parent == Of(block) || edge.child == Of(block))
    && (edge.parent == Of(block) || edge.parent in stored.classes)
    && (edge.child == Of(block) || edge.child in stored.classes)
  }

  /** One more class would put a dangling edge or placement back into the catalog. */
  ghost predicate Revives(stored: Graph, block: CatalogBlock) {
    block.ClassBlock?
    && ((exists edge :: RevivesEdge(stored, block, edge))
        || (exists slot | slot in stored.placements :: slot.class_ == Of(block)))
  }

  /** The block will be seen when it is written, and brings nothing else with it. */
  ghost predicate IsClean(module_: Module, block: CatalogBlock) {
    block !in module_.hidden && !Revives(Stored(module_.visible), block)
  }

  predicate Overwrites(a: CatalogBlock, b: CatalogBlock) {
    a != b
    && ((a.SchemeBlock? && b.SchemeBlock? && a.scheme == b.scheme)
        || (a.PlacementBlock? && b.PlacementBlock? && a.source == b.source && a.class_ == b.class_))
  }

  lemma AddsCommute(graph: Graph, a: CatalogBlock, b: CatalogBlock)
    requires !Overwrites(a, b)
    ensures Add(Add(graph, a), b) == Add(Add(graph, b), a)
  {
    if a.SchemeBlock? && b.SchemeBlock? && a != b {
      assert graph.schemes[a.scheme := SchemeInfo(Of(a), a.exclusive)][b.scheme := SchemeInfo(Of(b), b.exclusive)] ==
             graph.schemes[b.scheme := SchemeInfo(Of(b), b.exclusive)][a.scheme := SchemeInfo(Of(a), a.exclusive)];
    }
    if a.ClassBlock? && b.ClassBlock? && a != b {
      ClassesCommute(graph, a, b);
    }
    if a.PlacementBlock? && b.PlacementBlock? && a != b {
      var s, t := Slot(a.source, a.class_), Slot(b.source, b.class_);
      assert graph.placements[s := Of(a)][t := Of(b)] == graph.placements[t := Of(b)][s := Of(a)];
    }
    if a.HierarchyBlock? && b.HierarchyBlock? {
      var e, f := Edge(a.broader, a.narrower), Edge(b.broader, b.narrower);
      assert graph.edges + {e} + {f} == graph.edges + {f} + {e};
    }
  }

  lemma ClassesCommute(graph: Graph, a: CatalogBlock, b: CatalogBlock)
    requires a.ClassBlock? && b.ClassBlock? && a != b
    ensures Add(Add(graph, a), b) == Add(Add(graph, b), a)
  {
    var s, t := ClassInfo(a.scheme, a.name), ClassInfo(b.scheme, b.name);
    assert graph.classes[Of(a) := s][Of(b) := t] == graph.classes[Of(b) := t][Of(a) := s];
    assert graph.byLabel[s := Of(a)][t := Of(b)] == graph.byLabel[t := Of(b)][s := Of(a)];
  }

  /** A block that competes with none of the others can be added last. */
  lemma {:induction false} AddedLast(graph: Graph, block: CatalogBlock, rest: seq<CatalogBlock>)
    requires forall other | other in rest :: !Overwrites(block, other)
    ensures AddAll(Add(graph, block), rest) == Add(AddAll(graph, rest), block)
    decreases |rest|
  {
    hide Add, Overwrites;
    if rest != [] {
      AddsCommute(graph, block, rest[0]);
      AddedLast(Add(graph, rest[0]), block, rest[1..]);
    }
  }

  lemma {:induction false} AddAllSplits(graph: Graph, a: seq<CatalogBlock>, b: seq<CatalogBlock>)
    ensures AddAll(graph, a + b) == AddAll(AddAll(graph, a), b)
    decreases |a|
  {
    hide Add;
    if a == [] {
      assert a + b == b;
    } else {
      assert (a + b)[1..] == a[1..] + b;
      AddAllSplits(Add(graph, a[0]), a[1..], b);
    }
  }

  lemma InsertIsAdd(module_: Module, block: CatalogBlock)
    requires forall other | other in module_.visible :: !Overwrites(block, other)
    ensures Stored(module_.Insert(module_.visible, block)) == Add(Stored(module_.visible), block)
  {
    hide Add, Overwrites;
    var blocks := module_.visible;
    var i := if module_.place(blocks, block) <= |blocks| then module_.place(blocks, block) else |blocks|;
    var a, b := blocks[..i], blocks[i..];
    assert blocks == a + b;
    AddAllSplits(EMPTY_GRAPH, a, b);
    assert module_.Insert(blocks, block) == a + ([block] + b);
    AddAllSplits(EMPTY_GRAPH, a, [block] + b);
    assert ([block] + b)[0] == block && ([block] + b)[1..] == b;
    assert AddAll(Stored(a), [block] + b) == AddAll(Add(Stored(a), block), b);
    assert forall other | other in b :: other in blocks;
    AddedLast(Stored(a), block, b);
  }

  /** A declaration that is accepted competes with nothing stored, and is not stored itself. */
  lemma AcceptedIsFree(blocks: seq<CatalogBlock>, canonical: set<BlockId>, declaration: Declaration)
    requires ProblemsOf(Load(blocks), canonical, declaration) == Ok([])
    ensures declaration.ToBlock() !in blocks
    ensures forall other | other in blocks :: !Overwrites(declaration.ToBlock(), other)
  {
    hide Stored, Reaches, StoredIsDeclared, Competing;
    StoredIs(blocks);
    var block := declaration.ToBlock();
    assert block in blocks ==> HasEntry(Stored(blocks), block);
    forall other | other in blocks
      ensures !Overwrites(block, other)
    {
      assert HasEntry(Stored(blocks), other);
    }
  }

  lemma AcceptedIsNew(graph: Graph, canonical: set<BlockId>, declaration: Declaration)
    requires ProblemsOf(graph, canonical, declaration) == Ok([])
    ensures IsNew(graph, declaration) && Add(graph, declaration.ToBlock()) != graph
  {
    hide Reaches, Competing;
    var after := Add(graph, declaration.ToBlock());
    match declaration
    case SchemeDeclaration(scheme, _) => assert scheme in after.schemes;
    case ClassDeclaration(scheme, name) => assert ClassInfo(scheme, name) in after.byLabel;
    case HierarchyDeclaration(broader, narrower) => assert Edge(broader, narrower) in after.edges;
    case PlacementDeclaration(source, class_) => assert Slot(source, class_) in after.placements;
  }

  lemma PruningAClass(stored: Graph, block: CatalogBlock)
    requires block.ClassBlock? && Of(block) !in stored.classes
    ensures Prune(Add(stored, block)) == Add(Prune(stored), block) <==> !Revives(stored, block)
  {
    var one, two := Prune(Add(stored, block)), Add(Prune(stored), block);
    PrunedEdges(stored, block);
    PrunedPlacements(stored, block);
    assert one == two <==> one.edges == two.edges && one.placements == two.placements;
  }

  lemma PrunedEdges(stored: Graph, block: CatalogBlock)
    requires block.ClassBlock? && Of(block) !in stored.classes
    ensures Prune(Add(stored, block)).edges == Prune(stored).edges <==> !exists edge :: RevivesEdge(stored, block, edge)
  {
    var one, two := Prune(Add(stored, block)).edges, Prune(stored).edges;
    if edge :| RevivesEdge(stored, block, edge) {
      assert edge in one && edge !in two;
    } else {
      forall edge
        ensures edge in one <==> edge in two
      {
        assert !RevivesEdge(stored, block, edge);
      }
    }
  }

  lemma PrunedPlacements(stored: Graph, block: CatalogBlock)
    requires block.ClassBlock? && Of(block) !in stored.classes
    ensures Prune(Add(stored, block)).placements == Prune(stored).placements <==>
            forall slot | slot in stored.placements :: slot.class_ != Of(block)
  {
    var one, two := Prune(Add(stored, block)).placements, Prune(stored).placements;
    if slot :| slot in stored.placements && slot.class_ == Of(block) {
      assert slot in one && slot !in two;
    } else {
      assert forall slot :: slot in one <==> slot in two;
    }
  }

  /** Reloading after an accepted declaration gives the catalog in memory exactly when the block is clean. */
  lemma ReloadAgreesExactly(module_: Module, canonical: set<BlockId>, declaration: Declaration)
    requires ProblemsOf(Load(module_.visible), canonical, declaration) == Ok([])
    ensures Load(module_.Write(declaration.ToBlock()).visible) == Add(Load(module_.visible), declaration.ToBlock())
            <==> IsClean(module_, declaration.ToBlock())
  {
    hide Stored, Add, ProblemsOf, Revives, Overwrites, Prune;
    var block := declaration.ToBlock();
    AcceptedIsNew(Load(module_.visible), canonical, declaration);
    AcceptedIsFree(module_.visible, canonical, declaration);
    if block !in module_.hidden {
      InsertIsAdd(module_, block);
      var stored := Stored(module_.visible);
      if block.ClassBlock? {
        ClassesAre(module_.visible);
        PruningAClass(stored, block);
      } else {
        PruningTheRest(stored, canonical, declaration);
        NothingRevives(stored, block);
      }
    }
  }

  lemma NothingRevives(stored: Graph, block: CatalogBlock)
    requires !block.ClassBlock?
    ensures !Revives(stored, block)
  {
  }

  lemma PruningTheRest(stored: Graph, canonical: set<BlockId>, declaration: Declaration)
    requires ProblemsOf(Prune(stored), canonical, declaration) == Ok([]) && !declaration.ClassDeclaration?
    ensures Prune(Add(stored, declaration.ToBlock())) == Add(Prune(stored), declaration.ToBlock())
  {
    hide Reaches, Competing;
    var one, two := Prune(Add(stored, declaration.ToBlock())), Add(Prune(stored), declaration.ToBlock());
    assert one.edges == two.edges;
    assert one.placements == two.placements;
  }

  // --- The whole batch -----------------------------------------------------------------------------------

  /** Every declaration that is accepted along the way writes a clean block. */
  ghost predicate AllClean(module_: Module, canonical: set<BlockId>, declarations: seq<Declaration>)
    decreases |declarations|
  {
    declarations == [] || ProblemsOf(Load(module_.visible), canonical, declarations[0]).Err?
    || (if ProblemsOf(Load(module_.visible), canonical, declarations[0]).value == [] then
          IsClean(module_, declarations[0].ToBlock())
          && AllClean(module_.Write(declarations[0].ToBlock()), canonical, declarations[1..])
        else AllClean(module_, canonical, declarations[1..]))
  }

  /**
   A batch gives the verdicts and the catalogs, after every declaration, that the declarations would give one by
   one with a reload in between, exactly when no accepted block is hidden and none revives a dangling edge.
   */
  lemma {:induction false} BatchEqualsSinglesExactly(
    module_: Module, canonical: set<BlockId>, declarations: seq<Declaration>)
    ensures Batch(Load(module_.visible), canonical, declarations) == Singles(module_, canonical, declarations)
            <==> AllClean(module_, canonical, declarations)
    decreases |declarations|
  {
    hide Load, ProblemsOf, IsClean, Add, VerdictOf, Module.Write;
    if declarations != [] {
      var graph := Load(module_.visible);
      var problems := ProblemsOf(graph, canonical, declarations[0]);
      if problems.Ok? {
        var block := declarations[0].ToBlock();
        var verdict := VerdictOf(declarations[0], problems.value);
        var rest := declarations[1..];
        if problems.value == [] {
          ReloadAgreesExactly(module_, canonical, declarations[0]);
          var kept, loaded := Add(graph, block), Load(module_.Write(block).visible);
          FirstStepsDecide(Step(verdict, kept), Step(verdict, loaded), Batch(kept, canonical, rest),
                           Singles(module_.Write(block), canonical, rest));
          BatchEqualsSinglesExactly(module_.Write(block), canonical, rest);
        } else {
          FirstStepsDecide(Step(verdict, graph), Step(verdict, graph), Batch(graph, canonical, rest),
                           Singles(module_, canonical, rest));
          BatchEqualsSinglesExactly(module_, canonical, rest);
        }
      }
    }
  }

  lemma FirstStepsDecide(a: Step, b: Step, rest: seq<Step>, other: seq<Step>)
    ensures [a] + rest == [b] + other <==> a == b && rest == other
  {
    if [a] + rest == [b] + other {
      assert ([a] + rest)[0] == ([b] + other)[0];
      assert ([a] + rest)[1..] == rest && ([b] + other)[1..] == other;
    }
  }

  // --- Catalogs without dangling edges --------------------------------------------------------------------

  ghost predicate HasNoDanglingEdges(blocks: seq<CatalogBlock>) {
    && (forall edge | edge in Stored(blocks).edges :: IsAnchored(Stored(blocks).classes, edge))
    && (forall slot | slot in Stored(blocks).placements :: slot.class_ in Stored(blocks).classes)
  }

  predicate NoneHidden(module_: Module, declarations: seq<Declaration>) {
    forall declaration | declaration in declarations :: declaration.ToBlock() !in module_.hidden
  }

  lemma NothingToRevive(module_: Module, canonical: set<BlockId>, declaration: Declaration)
    requires HasNoDanglingEdges(module_.visible)
    requires ProblemsOf(Load(module_.visible), canonical, declaration) == Ok([])
    requires declaration.ToBlock() !in module_.hidden
    ensures IsClean(module_, declaration.ToBlock())
    ensures HasNoDanglingEdges(module_.Write(declaration.ToBlock()).visible)
  {
    hide Stored, Reaches, Overwrites, Competing;
    AcceptedIsFree(module_.visible, canonical, declaration);
    InsertIsAdd(module_, declaration.ToBlock());
    ClassesAre(module_.visible);
  }

  /** From a module without dangling edges, where nothing that is declared is hidden, a batch equals its singles. */
  lemma {:induction false} SoundModulesAreClean(
    module_: Module, canonical: set<BlockId>, declarations: seq<Declaration>)
    requires HasNoDanglingEdges(module_.visible) && NoneHidden(module_, declarations)
    ensures AllClean(module_, canonical, declarations)
    ensures Batch(Load(module_.visible), canonical, declarations) == Singles(module_, canonical, declarations)
    decreases |declarations|
  {
    hide HasNoDanglingEdges, IsClean, Load, ProblemsOf;
    BatchEqualsSinglesExactly(module_, canonical, declarations);
    if declarations != [] {
      var problems := ProblemsOf(Load(module_.visible), canonical, declarations[0]);
      if problems == Ok([]) {
        NothingToRevive(module_, canonical, declarations[0]);
        SoundModulesAreClean(module_.Write(declarations[0].ToBlock()), canonical, declarations[1..]);
      } else if problems.Ok? {
        SoundModulesAreClean(module_, canonical, declarations[1..]);
      }
    }
  }

  /** A catalog one of whose two classes was dropped, with the edge between them still stored. */
  function ClassDropped(place: (seq<CatalogBlock>, CatalogBlock) -> nat): (r: Module) {
    Module([SchemeBlock("s", false), ClassBlock("s", "a"),
            HierarchyBlock(Of(ClassBlock("s", "a")), Of(ClassBlock("s", "b")), 0)], {}, place)
  }

  lemma WhatWasDropped(place: (seq<CatalogBlock>, CatalogBlock) -> nat)
    ensures var stored := Stored(ClassDropped(place).visible);
            && "s" in stored.schemes && ClassInfo("s", "b") !in stored.byLabel
            && RevivesEdge(stored, ClassBlock("s", "b"), Edge(Of(ClassBlock("s", "a")), Of(ClassBlock("s", "b"))))
  {
    hide Stored, StoredIsDeclared;
    var blocks := ClassDropped(place).visible;
    StoredIs(blocks);
    ClassesAre(blocks);
    assert HasEntry(Stored(blocks), blocks[0]) && HasEntry(Stored(blocks), blocks[2]);
    assert ClassBlock("s", "a") == blocks[1];
  }

  /** Declared again, the class brings the old edge back on reload and not in memory. */
  lemma RevivedEdgeTellsThemApart(place: (seq<CatalogBlock>, CatalogBlock) -> nat)
    ensures var module_ := ClassDropped(place);
            var declarations := [ClassDeclaration("s", "b")];
            Batch(Load(module_.visible), {}, declarations) != Singles(module_, {}, declarations)
  {
    hide Load, Stored, Batch, Singles, Revives, RevivesEdge, ClassDropped;
    var module_ := ClassDropped(place);
    WhatWasDropped(place);
    LoadKeepsNames(module_.visible);
    ARevivedEdgeIsEnough(Stored(module_.visible), ClassBlock("s", "b"),
                         Edge(Of(ClassBlock("s", "a")), Of(ClassBlock("s", "b"))));
    BatchEqualsSinglesExactly(module_, {}, [ClassDeclaration("s", "b")]);
  }

  lemma ARevivedEdgeIsEnough(stored: Graph, block: CatalogBlock, edge: Edge<BlockId>)
    requires block.ClassBlock? && RevivesEdge(stored, block, edge)
    ensures Revives(stored, block)
  {
  }

  lemma LoadKeepsNames(blocks: seq<CatalogBlock>)
    ensures Load(blocks).schemes == Stored(blocks).schemes && Load(blocks).byLabel == Stored(blocks).byLabel
  {
  }
}
