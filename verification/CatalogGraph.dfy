/** The catalog as a value: what the stored blocks declare, and what lies below a class. */
module CatalogGraph {
  import opened Common
  import opened Paths

  /** An identity stands for the block it is the hash of, or for something that is no catalog block. */
  datatype BlockId = Of(block: CatalogBlock) | Foreign(tag: nat)

  /**
   The shapes a semantic block can take here. Hierarchy and placement relations may be spelled by more than
   one schema version; the current one is spelling 0.
   */
  datatype CatalogBlock =
    | SchemeBlock(scheme: string, exclusive: bool)
    | ClassBlock(scheme: string, name: string)
    | HierarchyBlock(broader: BlockId, narrower: BlockId, spelling: nat)
    | PlacementBlock(source: BlockId, class_: BlockId, spelling: nat)
    | UnrelatedBlock(tag: nat)

  datatype SchemeInfo = SchemeInfo(block: BlockId, exclusive: bool)

  datatype ClassInfo = ClassInfo(scheme: string, name: string)

  datatype Slot = Slot(source: BlockId, class_: BlockId)

  datatype Graph = Graph(
    schemes: map<string, SchemeInfo>,
    classes: map<BlockId, ClassInfo>,
    byLabel: map<ClassInfo, BlockId>,
    edges: set<Edge<BlockId>>,
    placements: map<Slot, BlockId>)

  const EMPTY_GRAPH := Graph(map[], map[], map[], {}, map[])

  function Add(graph: Graph, block: CatalogBlock): (r: Graph) {
    match block
    case SchemeBlock(scheme, exclusive) =>
      graph.(schemes := graph.schemes[scheme := SchemeInfo(Of(block), exclusive)])
    case ClassBlock(scheme, name) =>
      graph.(classes := graph.classes[Of(block) := ClassInfo(scheme, name)],
             byLabel := graph.byLabel[ClassInfo(scheme, name) := Of(block)])
    case HierarchyBlock(broader, narrower, _) => graph.(edges := graph.edges + {Edge(broader, narrower)})
    case PlacementBlock(source, class_, _) => graph.(placements := graph.placements[Slot(source, class_) := Of(block)])
    case UnrelatedBlock(_) => graph
  }

  function AddAll(graph: Graph, blocks: seq<CatalogBlock>): (r: Graph)
    decreases |blocks|
  {
    if blocks == [] then graph else AddAll(Add(graph, blocks[0]), blocks[1..])
  }

  predicate IsAnchored(classes: map<BlockId, ClassInfo>, edge: Edge<BlockId>) {
    edge.parent in classes && edge.child in classes
  }

  /** Only what hangs between declared classes stays. */
  function Prune(graph: Graph): (r: Graph) {
    graph.(edges := (set edge | edge in graph.edges && IsAnchored(graph.classes, edge)),
           placements := AnchoredPlacements(graph.placements, graph.classes))
  }

  function AnchoredPlacements(placements: map<Slot, BlockId>, classes: map<BlockId, ClassInfo>)
    : (r: map<Slot, BlockId>)
  {
    map slot | slot in placements && slot.class_ in classes :: placements[slot]
  }

  /** The catalog with its dangling edges still in it. */
  function Stored(blocks: seq<CatalogBlock>): (r: Graph) {
    AddAll(EMPTY_GRAPH, blocks)
  }

  /** The catalog that a list of stored blocks amounts to. */
  function Load(blocks: seq<CatalogBlock>): (r: Graph) {
    Prune(Stored(blocks))
  }

  // --- What lies below a class -------------------------------------------------------------------

  /** The sources placed in a class or in anything below it. */
  ghost function SourcesBelow(graph: Graph, id: BlockId): (r: set<BlockId>) {
    set slot | slot in graph.placements && Reaches(graph.edges, id, slot.class_) :: slot.source
  }

  /** Every source that is placed anywhere. */
  function AllSources(graph: Graph): (r: set<BlockId>) {
    set slot | slot in graph.placements :: slot.source
  }
}
