/** The catalog in memory against the catalog reloaded from what was stored. */
module CatalogReload {
  import opened Common
  import opened Paths
  import opened CatalogGraph
  import opened CatalogValidation

  // --- What a list of blocks declares -----------------------------------------------------------

  ghost predicate DeclaresScheme(blocks: seq<CatalogBlock>, scheme: string, info: SchemeInfo) {
    exists block | block in blocks ::
      block.SchemeBlock? && block.scheme == scheme && info == SchemeInfo(Of(block), block.exclusive)
  }

  ghost predicate DeclaresClass(blocks: seq<CatalogBlock>, id: BlockId, info: ClassInfo) {
    ClassBlock(info.scheme, info.name) in blocks && id == Of(ClassBlock(info.scheme, info.name))
  }

  ghost predicate DeclaresEdge(blocks: seq<CatalogBlock>, edge: Edge<BlockId>) {
    exists block | block in blocks :: block.HierarchyBlock? && edge == Edge(block.broader, block.narrower)
  }

  ghost predicate DeclaresPlacement(blocks: seq<CatalogBlock>, slot: Slot, id: BlockId) {
    exists block | block in blocks :: block.PlacementBlock? && slot == Slot(block.source, block.class_)
      && id == Of(block)
  }

  lemma {:induction false} AddLast(graph: Graph, blocks: seq<CatalogBlock>, block: CatalogBlock)
    ensures AddAll(graph, blocks + [block]) == Add(AddAll(graph, blocks), block)
    decreases |blocks|
  {
    hide Add;
    if blocks != [] {
      assert (blocks + [block])[1..] == blocks[1..] + [block];
      AddLast(Add(graph, blocks[0]), blocks[1..], block);
    }
  }

  /** Every entry of the stored catalog is one some block declares. */
  ghost predicate StoredIsDeclared(graph: Graph, blocks: seq<CatalogBlock>) {
    && (forall scheme | scheme in graph.schemes :: DeclaresScheme(blocks, scheme, graph.schemes[scheme]))
    && (forall id | id in graph.classes :: DeclaresClass(blocks, id, graph.classes[id]))
    && (forall info | info in graph.byLabel :: DeclaresClass(blocks, graph.byLabel[info], info))
    && (forall edge | edge in graph.edges :: DeclaresEdge(blocks, edge))
    && (forall slot | slot in graph.placements :: DeclaresPlacement(blocks, slot, graph.placements[slot]))
  }

  predicate HasEntry(graph: Graph, block: CatalogBlock) {
    match block
    case SchemeBlock(scheme, _) => scheme in graph.schemes
    case ClassBlock(scheme, name) => Of(block) in graph.classes && ClassInfo(scheme, name) in graph.byLabel
    case HierarchyBlock(broader, narrower, _) => Edge(broader, narrower) in graph.edges
    case PlacementBlock(source, class_, _) => Slot(source, class_) in graph.placements
    case UnrelatedBlock(_) => true
  }

  lemma EntryStays(graph: Graph, block: CatalogBlock, other: CatalogBlock)
    requires HasEntry(graph, other)
    ensures HasEntry(Add(graph, block), other)
  {
  }

  lemma AddDeclares(graph: Graph, blocks: seq<CatalogBlock>, block: CatalogBlock)
    requires StoredIsDeclared(graph, blocks) && forall other | other in blocks :: HasEntry(graph, other)
    ensures StoredIsDeclared(Add(graph, block), blocks + [block])
    ensures forall other | other in blocks + [block] :: HasEntry(Add(graph, block), other)
  {
    hide DeclaresScheme, DeclaresClass, DeclaresEdge, DeclaresPlacement, HasEntry;
    DeclarationsGrow(blocks, block);
    forall other | other in blocks + [block]
      ensures HasEntry(Add(graph, block), other)
    {
      if other == block {
        OwnEntry(graph, block);
      } else {
        EntryStays(graph, block, other);
      }
    }
  }

  lemma OwnEntry(graph: Graph, block: CatalogBlock)
    ensures HasEntry(Add(graph, block), block)
  {
  }

  lemma DeclarationsGrow(blocks: seq<CatalogBlock>, block: CatalogBlock)
    ensures forall scheme, info :: DeclaresScheme(blocks, scheme, info) ==>
            DeclaresScheme(blocks + [block], scheme, info)
    ensures forall id, info :: DeclaresClass(blocks, id, info) ==> DeclaresClass(blocks + [block], id, info)
    ensures forall edge :: DeclaresEdge(blocks, edge) ==> DeclaresEdge(blocks + [block], edge)
    ensures forall slot, id :: DeclaresPlacement(blocks, slot, id) ==> DeclaresPlacement(blocks + [block], slot, id)
    ensures block.ClassBlock? ==> DeclaresClass(blocks + [block], Of(block), ClassInfo(block.scheme, block.name))
    ensures block.SchemeBlock? ==>
              DeclaresScheme(blocks + [block], block.scheme, SchemeInfo(Of(block), block.exclusive))
    ensures block.HierarchyBlock? ==> DeclaresEdge(blocks + [block], Edge(block.broader, block.narrower))
    ensures block.PlacementBlock? ==> DeclaresPlacement(blocks + [block], Slot(block.source, block.class_), Of(block))
  {
    assert block in blocks + [block];
    assert forall other | other in blocks :: other in blocks + [block];
  }

  lemma {:induction false} StoredIs(blocks: seq<CatalogBlock>)
    ensures StoredIsDeclared(Stored(blocks), blocks)
    ensures forall block | block in blocks :: HasEntry(Stored(blocks), block)
    decreases |blocks|
  {
    hide StoredIsDeclared, HasEntry;
    if blocks == [] {
      NothingIsDeclared();
    } else {
      var earlier, last := blocks[..|blocks| - 1], blocks[|blocks| - 1];
      assert blocks == earlier + [last];
      StoredIs(earlier);
      AddLast(EMPTY_GRAPH, earlier, last);
      AddDeclares(Stored(earlier), earlier, last);
    }
  }

  lemma NothingIsDeclared()
    ensures StoredIsDeclared(EMPTY_GRAPH, [])
  {
  }

  // --- Any order --------------------------------------------------------------------------------------

  /** One block per scheme, and one per slot of a declared class. */
  predicate IsConsistent(blocks: seq<CatalogBlock>) {
    forall i, j | 0 <= i < j < |blocks| :: !Conflict(blocks, blocks[i], blocks[j])
  }

  predicate Conflict(blocks: seq<CatalogBlock>, a: CatalogBlock, b: CatalogBlock) {
    a != b
    && ((a.SchemeBlock? && b.SchemeBlock? && a.scheme == b.scheme)
        || (a.PlacementBlock? && b.PlacementBlock? && a.source == b.source && a.class_ == b.class_
            && a.class_.Of? && a.class_.block.ClassBlock? && a.class_.block in blocks))
  }

  ghost predicate SameBlocks(a: seq<CatalogBlock>, b: seq<CatalogBlock>) {
    forall block :: block in a <==> block in b
  }

  lemma NoConflict(blocks: seq<CatalogBlock>, a: CatalogBlock, b: CatalogBlock)
    requires IsConsistent(blocks) && a in blocks && b in blocks
    ensures !Conflict(blocks, a, b)
  {
    var i :| 0 <= i < |blocks| && blocks[i] == a;
    var j :| 0 <= j < |blocks| && blocks[j] == b;
    assert i < j ==> !Conflict(blocks, blocks[i], blocks[j]);
    assert j < i ==> !Conflict(blocks, blocks[j], blocks[i]);
  }

  lemma SameSchemes(a: seq<CatalogBlock>, b: seq<CatalogBlock>)
    requires SameBlocks(a, b) && IsConsistent(a)
    ensures Stored(a).schemes == Stored(b).schemes
  {
    hide Stored;
    StoredIs(a);
    StoredIs(b);
    forall scheme
      ensures scheme in Stored(a).schemes <==> scheme in Stored(b).schemes
      ensures scheme in Stored(a).schemes ==> Stored(a).schemes[scheme] == Stored(b).schemes[scheme]
    {
      if scheme in Stored(a).schemes {
        var x :| x in a && x.SchemeBlock? && x.scheme == scheme
          && Stored(a).schemes[scheme] == SchemeInfo(Of(x), x.exclusive);
        assert x in b && HasEntry(Stored(b), x);
        var y :| y in b && y.SchemeBlock? && y.scheme == scheme
          && Stored(b).schemes[scheme] == SchemeInfo(Of(y), y.exclusive);
        NoConflict(a, x, y);
      }
      if scheme in Stored(b).schemes {
        var y :| y in b && y.SchemeBlock? && y.scheme == scheme
          && Stored(b).schemes[scheme] == SchemeInfo(Of(y), y.exclusive);
        assert y in a && HasEntry(Stored(a), y);
      }
    }
  }

  lemma ClassesAre(blocks: seq<CatalogBlock>)
    ensures forall id :: id in Stored(blocks).classes <==> id.Of? && id.block.ClassBlock? && id.block in blocks
    ensures forall id | id in Stored(blocks).classes ::
            Stored(blocks).classes[id] == ClassInfo(id.block.scheme, id.block.name)
    ensures forall info :: info in Stored(blocks).byLabel <==> ClassBlock(info.scheme, info.name) in blocks
    ensures forall info | info in Stored(blocks).byLabel ::
              Stored(blocks).byLabel[info] == Of(ClassBlock(info.scheme, info.name))
  {
    hide Stored;
    StoredIs(blocks);
    forall id
      ensures id in Stored(blocks).classes <==> id.Of? && id.block.ClassBlock? && id.block in blocks
    {
      if id.Of? && id.block.ClassBlock? && id.block in blocks {
        assert HasEntry(Stored(blocks), id.block);
      }
    }
    forall info
      ensures info in Stored(blocks).byLabel <==> ClassBlock(info.scheme, info.name) in blocks
    {
      if ClassBlock(info.scheme, info.name) in blocks {
        assert HasEntry(Stored(blocks), ClassBlock(info.scheme, info.name));
      }
    }
  }

  lemma SameClasses(a: seq<CatalogBlock>, b: seq<CatalogBlock>)
    requires SameBlocks(a, b)
    ensures Stored(a).classes == Stored(b).classes && Stored(a).byLabel == Stored(b).byLabel
  {
    hide Stored;
    ClassesAre(a);
    ClassesAre(b);
  }

  lemma EdgesAre(blocks: seq<CatalogBlock>, edge: Edge<BlockId>)
    ensures edge in Stored(blocks).edges <==> DeclaresEdge(blocks, edge)
  {
    hide Stored;
    StoredIs(blocks);
    if DeclaresEdge(blocks, edge) {
      var block :| block in blocks && block.HierarchyBlock? && edge == Edge(block.broader, block.narrower);
      assert HasEntry(Stored(blocks), block);
    }
  }

  lemma SameEdges(a: seq<CatalogBlock>, b: seq<CatalogBlock>)
    requires SameBlocks(a, b)
    ensures Stored(a).edges == Stored(b).edges
  {
    hide Stored;
    forall edge
      ensures edge in Stored(a).edges <==> edge in Stored(b).edges
    {
      EdgesAre(a, edge);
      EdgesAre(b, edge);
    }
  }

  lemma SlotIs(blocks: seq<CatalogBlock>, slot: Slot)
    ensures slot in Stored(blocks).placements <==> exists id :: DeclaresPlacement(blocks, slot, id)
    ensures slot in Stored(blocks).placements ==> DeclaresPlacement(blocks, slot, Stored(blocks).placements[slot])
  {
    hide Stored;
    StoredIs(blocks);
    if id :| DeclaresPlacement(blocks, slot, id) {
      var block :| block in blocks && block.PlacementBlock? && slot == Slot(block.source, block.class_);
      assert HasEntry(Stored(blocks), block);
    }
  }

  lemma SameDeclarations(a: seq<CatalogBlock>, b: seq<CatalogBlock>, slot: Slot, id: BlockId)
    requires SameBlocks(a, b)
    ensures DeclaresPlacement(a, slot, id) <==> DeclaresPlacement(b, slot, id)
  {
  }

  /** Live placements, those of declared classes, come out the same. */
  lemma SamePlacements(a: seq<CatalogBlock>, b: seq<CatalogBlock>)
    requires SameBlocks(a, b) && IsConsistent(a)
    ensures Load(a).placements == Load(b).placements
  {
    hide Stored, DeclaresPlacement;
    SameClasses(a, b);
    forall slot
      ensures slot in Load(a).placements <==> slot in Load(b).placements
      ensures slot in Load(a).placements ==> Load(a).placements[slot] == Load(b).placements[slot]
    {
      SlotIs(a, slot);
      SlotIs(b, slot);
      forall id
        ensures DeclaresPlacement(a, slot, id) <==> DeclaresPlacement(b, slot, id)
      {
        SameDeclarations(a, b, slot, id);
      }
      if slot in Load(a).placements {
        ClassesAre(a);
        OnePerSlot(a, slot, Stored(a).placements[slot], Stored(b).placements[slot]);
      }
    }
  }

  lemma OnePerSlot(blocks: seq<CatalogBlock>, slot: Slot, x: BlockId, y: BlockId)
    requires IsConsistent(blocks) && DeclaresPlacement(blocks, slot, x) && DeclaresPlacement(blocks, slot, y)
    requires slot.class_.Of? && slot.class_.block.ClassBlock? && slot.class_.block in blocks
    ensures x == y
  {
    NoConflict(blocks, x.block, y.block);
  }

  lemma ConsistentLoadsAgree(a: seq<CatalogBlock>, b: seq<CatalogBlock>)
    requires SameBlocks(a, b) && IsConsistent(a)
    ensures Load(a) == Load(b)
  {
    hide Stored;
    SameSchemes(a, b);
    SameClasses(a, b);
    SameEdges(a, b);
    SamePlacements(a, b);
  }

  /** The block that comes last has its entry, dangling placements apart. */
  lemma LastHasItsEntry(blocks: seq<CatalogBlock>, last: CatalogBlock)
    ensures var graph := Load(blocks + [last]);
            && (last.SchemeBlock? ==> last.scheme in graph.schemes && graph.schemes[last.scheme].block == Of(last))
            && (last.PlacementBlock? && last.class_ in Stored(blocks + [last]).classes ==>
                  var slot := Slot(last.source, last.class_);
                  slot in graph.placements && graph.placements[slot] == Of(last))
  {
    hide AddAll;
    AddLast(EMPTY_GRAPH, blocks, last);
  }

  /** Whichever of two competing blocks comes last keeps the entry. */
  lemma LastOneWins(
    blocks: seq<CatalogBlock>, first: seq<CatalogBlock>, a: CatalogBlock, second: seq<CatalogBlock>, b: CatalogBlock)
    requires SameBlocks(blocks, first + [a]) && SameBlocks(blocks, second + [b]) && Conflict(blocks, a, b)
    ensures Load(first + [a]) != Load(second + [b])
  {
    hide Load, Stored;
    LastHasItsEntry(first, a);
    LastHasItsEntry(second, b);
    if a.PlacementBlock? {
      ClassesAre(first + [a]);
      ClassesAre(second + [b]);
      assert a.class_.block in blocks;
    }
  }

  /** A list with one of its blocks moved to the end. */
  function Without(blocks: seq<CatalogBlock>, i: nat): (r: seq<CatalogBlock>)
    requires i < |blocks|
  {
    blocks[..i] + blocks[i + 1..]
  }

  lemma MovedToTheEnd(blocks: seq<CatalogBlock>, i: nat)
    requires i < |blocks|
    ensures multiset(Without(blocks, i) + [blocks[i]]) == multiset(blocks)
  {
    assert blocks == blocks[..i] + [blocks[i]] + blocks[i + 1..];
  }

  lemma ReorderedBlocks(blocks: seq<CatalogBlock>, other: seq<CatalogBlock>)
    requires multiset(other) == multiset(blocks)
    ensures SameBlocks(blocks, other)
  {
    assert forall block :: block in blocks <==> block in multiset(blocks);
    assert forall block :: block in other <==> block in multiset(other);
  }

  /**
   Every reordering of the blocks loads to the same catalog exactly when no two of them compete for a scheme, or
   for the slot of a declared class.
   */
  lemma OrderIsIrrelevantExactly(blocks: seq<CatalogBlock>)
    ensures (forall other | multiset(other) == multiset(blocks) :: Load(other) == Load(blocks)) <==>
            IsConsistent(blocks)
  {
    hide Load, Conflict;
    if IsConsistent(blocks) {
      forall other | multiset(other) == multiset(blocks)
        ensures Load(other) == Load(blocks)
      {
        ReorderedBlocks(blocks, other);
        ConsistentLoadsAgree(blocks, other);
      }
    } else {
      var i, j :| 0 <= i < j < |blocks| && Conflict(blocks, blocks[i], blocks[j]);
      var one, two := Without(blocks, i) + [blocks[i]], Without(blocks, j) + [blocks[j]];
      MovedToTheEnd(blocks, i);
      MovedToTheEnd(blocks, j);
      ReorderedBlocks(blocks, one);
      ReorderedBlocks(blocks, two);
      LastOneWins(blocks, Without(blocks, i), blocks[i], Without(blocks, j), blocks[j]);
      assert multiset(one) == multiset(blocks) && multiset(two) == multiset(blocks);
    }
  }
}
