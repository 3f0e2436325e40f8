/** Declarations judged one after another against a catalog that grows with each one accepted. */
module CatalogValidation {
  import opened Common
  import opened Paths
  import opened CatalogGraph
  import opened CatalogState

  datatype Declaration =
    | SchemeDeclaration(scheme: string, exclusive: bool)
    | ClassDeclaration(scheme: string, name: string)
    | HierarchyDeclaration(broader: BlockId, narrower: BlockId)
    | PlacementDeclaration(source: BlockId, class_: BlockId)
  {
    function ToBlock(): (r: CatalogBlock) {
      match this
      case SchemeDeclaration(scheme, exclusive) => SchemeBlock(scheme, exclusive)
      case ClassDeclaration(scheme, name) => ClassBlock(scheme, name)
      case HierarchyDeclaration(broader, narrower) => HierarchyBlock(broader, narrower, 0)
      case PlacementDeclaration(source, class_) => PlacementBlock(source, class_, 0)
    }
  }

  datatype Code =
    | Cycle
    | CrossScheme
    | Duplicate
    | ExclusiveConflict
    | SchemeConflict
    | UnknownClass
    | UnknownScheme
    | UnknownSource

  datatype Problem = Problem(code: Code, conflictsWith: set<BlockId>) {
    predicate IsContradicted() {
      code == ExclusiveConflict || code == SchemeConflict
    }
  }

  /** A lookup of a key that is not there, which the program would raise as an exception. */
  datatype MissingKey = MissingScheme

  function SchemeProblems(graph: Graph, scheme: string, exclusive: bool): (r: seq<Problem>) {
    if scheme !in graph.schemes then []
    else if graph.schemes[scheme].exclusive != exclusive then [Problem(SchemeConflict, {graph.schemes[scheme].block})]
    else [Problem(Duplicate, {graph.schemes[scheme].block})]
  }

  function ClassProblems(graph: Graph, scheme: string, name: string): (r: seq<Problem>) {
    if scheme !in graph.schemes then [Problem(UnknownScheme, {})]
    else if ClassInfo(scheme, name) in graph.byLabel then [Problem(Duplicate, {graph.byLabel[ClassInfo(scheme, name)]})]
    else []
  }

  ghost function HierarchyProblems(graph: Graph, broader: BlockId, narrower: BlockId): (r: seq<Problem>) {
    if broader == narrower then [Problem(Cycle, {})]
    else if broader !in graph.classes || narrower !in graph.classes then [Problem(UnknownClass, {})]
    else if graph.classes[broader].scheme != graph.classes[narrower].scheme then [Problem(CrossScheme, {})]
    else if Edge(broader, narrower) in graph.edges then
      [Problem(Duplicate, {Of(HierarchyBlock(broader, narrower, 0))})]
    else if Reaches(graph.edges, narrower, broader) then [Problem(Cycle, {})]
    else []
  }

  /** The scheme of a class, or the empty one of a class that is not declared. */
  function SchemeOf(graph: Graph, class_: BlockId): (r: string) {
    if class_ in graph.classes then graph.classes[class_].scheme else ""
  }

  predicate Competes(graph: Graph, slot: Slot, source: BlockId, class_: BlockId) {
    slot.source == source && slot.class_ != class_ && SchemeOf(graph, slot.class_) == SchemeOf(graph, class_)
  }

  /** The placements of a source that an exclusive scheme does not let stand beside a new one. */
  function Competing(graph: Graph, source: BlockId, class_: BlockId): (r: set<BlockId>) {
    set slot | slot in graph.placements && Competes(graph, slot, source, class_) :: graph.placements[slot]
  }

  function PlacementProblems(graph: Graph, canonical: set<BlockId>, source: BlockId, class_: BlockId)
    : (r: Result<seq<Problem>, MissingKey>)
  {
    if source !in canonical then Ok([Problem(UnknownSource, {})])
    else if class_ !in graph.classes then Ok([Problem(UnknownClass, {})])
    else if Slot(source, class_) in graph.placements
      then Ok([Problem(Duplicate, {graph.placements[Slot(source, class_)]})])
    else if graph.classes[class_].scheme !in graph.schemes then Err(MissingScheme)
    else if !graph.schemes[graph.classes[class_].scheme].exclusive then Ok([])
    else if Competing(graph, source, class_) == {} then Ok([])
    else Ok([Problem(ExclusiveConflict, Competing(graph, source, class_))])
  }

  ghost function ProblemsOf(graph: Graph, canonical: set<BlockId>, declaration: Declaration)
    : (r: Result<seq<Problem>, MissingKey>)
  {
    match declaration
    case SchemeDeclaration(scheme, exclusive) => Ok(SchemeProblems(graph, scheme, exclusive))
    case ClassDeclaration(scheme, name) => Ok(ClassProblems(graph, scheme, name))
    case HierarchyDeclaration(broader, narrower) => Ok(HierarchyProblems(graph, broader, narrower))
    case PlacementDeclaration(source, class_) => PlacementProblems(graph, canonical, source, class_)
  }

  /** The rules as they run, over the dictionaries of the state. */
  method Problems(state: CatalogState, canonical: set<BlockId>, declaration: Declaration)
    returns (r: Result<seq<Problem>, MissingKey>)
    requires state.Valid()
    ensures r == ProblemsOf(state.graph, canonical, declaration)
  {
    hide Reaches, ParentsMirror, ChildrenMirror, Projects, IsFresh, Competing;
    match declaration {
      case SchemeDeclaration(scheme, exclusive) =>
        if scheme !in state.schemes {
          return Ok([]);
        }
        var existing := state.schemes[scheme];
        r := Ok([Problem(if existing.exclusive != exclusive then SchemeConflict else Duplicate, {existing.block})]);
      case ClassDeclaration(scheme, name) =>
        if scheme !in state.schemes {
          return Ok([Problem(UnknownScheme, {})]);
        }
        var info := ClassInfo(scheme, name);
        r := Ok(if info in state.classByLabel then [Problem(Duplicate, {state.classByLabel[info]})] else []);
      case HierarchyDeclaration(broader, narrower) =>
        r := HierarchyRule(state, broader, narrower);
      case PlacementDeclaration(source, class_) =>
        r := PlacementRule(state, canonical, source, class_);
    }
  }

  method HierarchyRule(state: CatalogState, broader: BlockId, narrower: BlockId)
    returns (r: Result<seq<Problem>, MissingKey>)
    requires state.Valid()
    ensures r == Ok(HierarchyProblems(state.graph, broader, narrower))
  {
    hide Reaches, ParentsMirror, Projects, IsFresh;
    if broader == narrower {
      return Ok([Problem(Cycle, {})]);
    }
    if broader !in state.classes || narrower !in state.classes {
      return Ok([Problem(UnknownClass, {})]);
    }
    if state.classes[broader].scheme != state.classes[narrower].scheme {
      return Ok([Problem(CrossScheme, {})]);
    }
    if narrower in At(state.children, broader) {
      return Ok([Problem(Duplicate, {Of(HierarchyBlock(broader, narrower, 0))})]);
    }
    var cyclic := state.Reachable(narrower, broader);
    r := Ok(if cyclic then [Problem(Cycle, {})] else []);
  }

  method PlacementRule(state: CatalogState, canonical: set<BlockId>, source: BlockId, class_: BlockId)
    returns (r: Result<seq<Problem>, MissingKey>)
    requires state.Valid()
    ensures r == PlacementProblems(state.graph, canonical, source, class_)
  {
    hide ChildrenMirror, ParentsMirror, IsFresh, Projects, Competing;
    if source !in canonical {
      return Ok([Problem(UnknownSource, {})]);
    }
    if class_ !in state.classes {
      return Ok([Problem(UnknownClass, {})]);
    }
    if Slot(source, class_) in state.placements {
      return Ok([Problem(Duplicate, {state.placements[Slot(source, class_)]})]);
    }
    var scheme := state.classes[class_].scheme;
    if scheme !in state.schemes {
      return Err(MissingScheme);
    }
    if !state.schemes[scheme].exclusive {
      return Ok([]);
    }
    ProjectionAnswers(state.sourceClasses, state.placements.Keys);
    var rivals := set placed | placed in At(state.sourceClasses, source) && placed != class_
                               && (if placed in state.classes then state.classes[placed].scheme else "") == scheme;
    var competing := set placed | placed in rivals :: state.placements[Slot(source, placed)];
    RivalsCompete(state.graph, source, class_, rivals);
    r := Ok(if competing == {} then [] else [Problem(ExclusiveConflict, competing)]);
  }

  lemma ProjectionAnswers(sourceClasses: map<BlockId, set<BlockId>>, slots: set<Slot>)
    requires Projects(sourceClasses, slots)
    ensures forall source, class_ :: class_ in At(sourceClasses, source) <==> Slot(source, class_) in slots
  {
  }

  lemma RivalsCompete(graph: Graph, source: BlockId, class_: BlockId, rivals: set<BlockId>)
    requires class_ in graph.classes
    requires forall placed :: placed in rivals <==>
               Slot(source, placed) in graph.placements && placed != class_
               && SchemeOf(graph, placed) == graph.classes[class_].scheme
    ensures Competing(graph, source, class_) == set placed | placed in rivals :: graph.placements[Slot(source, placed)]
  {
    forall id | id in Competing(graph, source, class_)
      ensures exists placed :: placed in rivals && graph.placements[Slot(source, placed)] == id
    {
      var slot :| slot in graph.placements && Competes(graph, slot, source, class_) && graph.placements[slot] == id;
      assert slot == Slot(source, slot.class_);
      assert slot.class_ in rivals;
    }
    forall placed | placed in rivals
      ensures graph.placements[Slot(source, placed)] in Competing(graph, source, class_)
    {
      assert Competes(graph, Slot(source, placed), source, class_);
    }
  }

  // --- A batch --------------------------------------------------------------------------------------

  datatype Status = Validated | Contradicted | Rejected

  datatype Verdict = Verdict(status: Status, block: BlockId, codes: seq<Code>, conflictsWith: set<BlockId>)

  function StatusOf(problems: seq<Problem>): (r: Status) {
    if problems == [] then Validated
    else if exists problem | problem in problems :: problem.IsContradicted() then Contradicted
    else Rejected
  }

  function CodesOf(problems: seq<Problem>): (r: seq<Code>) {
    if problems == [] then [] else [problems[0].code] + CodesOf(problems[1..])
  }

  function VerdictOf(declaration: Declaration, problems: seq<Problem>): (r: Verdict) {
    Verdict(StatusOf(problems), Of(declaration.ToBlock()), CodesOf(problems),
            set problem, id | problem in problems && id in problem.conflictsWith :: id)
  }

  /** What a batch comes to: the catalog afterwards, a verdict each, and what is to be written. */
  datatype Outcome = Outcome(
    graph: Graph, verdicts: seq<Verdict>, accepted: seq<CatalogBlock>, placements: seq<Declaration>)

  function Judged(outcome: Outcome, declaration: Declaration, problems: seq<Problem>): (r: Outcome) {
    if problems != [] then outcome.(verdicts := outcome.verdicts + [VerdictOf(declaration, problems)])
    else
      Outcome(Add(outcome.graph, declaration.ToBlock()), outcome.verdicts + [VerdictOf(declaration, problems)],
              outcome.accepted + [declaration.ToBlock()],
              if declaration.PlacementDeclaration? then outcome.placements + [declaration] else outcome.placements)
  }

  ghost function ValidateFrom(outcome: Outcome, canonical: set<BlockId>, declarations: seq<Declaration>)
    : (r: Result<Outcome, MissingKey>)
    decreases |declarations|
  {
    if declarations == [] then Ok(outcome)
    else
      var problems :- ProblemsOf(outcome.graph, canonical, declarations[0]);
      ValidateFrom(Judged(outcome, declarations[0], problems), canonical, declarations[1..])
  }

  ghost function Validate(graph: Graph, canonical: set<BlockId>, declarations: seq<Declaration>)
    : (r: Result<Outcome, MissingKey>)
  {
    ValidateFrom(Outcome(graph, [], [], []), canonical, declarations)
  }

  method LoadState(blocks: seq<CatalogBlock>) returns (state: CatalogState)
    ensures state.Valid() && state.graph == Load(blocks) && fresh(state)
  {
    hide Represents, Prune;
    state := new CatalogState();
    assert blocks[0..] == blocks;
    for i := 0 to |blocks|
      invariant state.Valid() && fresh(state)
      invariant AddAll(EMPTY_GRAPH, blocks) == AddAll(state.graph, blocks[i..])
    {
      assert blocks[i..][0] == blocks[i] && blocks[i..][1..] == blocks[i + 1..];
      state.AddBlock(blocks[i]);
    }
    state.PruneDangling();
  }

  /** One batch over what is stored: each declaration sees those accepted before it. */
  method ValidateDeclarations(blocks: seq<CatalogBlock>, canonical: set<BlockId>, declarations: seq<Declaration>)
    returns (r: Result<(seq<Verdict>, seq<CatalogBlock>, seq<Declaration>), MissingKey>)
    ensures var expected := Validate(Load(blocks), canonical, declarations);
            if expected.Err? then r == Err(expected.error)
            else r == Ok((expected.value.verdicts, expected.value.accepted, expected.value.placements))
  {
    hide Represents, ProblemsOf, Load, Add, VerdictOf;
    var state := LoadState(blocks);
    var verdicts: seq<Verdict> := [];
    var accepted: seq<CatalogBlock> := [];
    var placements: seq<Declaration> := [];
    assert declarations[0..] == declarations;
    for i := 0 to |declarations|
      invariant state.Valid() && fresh(state)
      invariant Validate(Load(blocks), canonical, declarations) ==
                ValidateFrom(Outcome(state.graph, verdicts, accepted, placements), canonical, declarations[i..])
    {
      var declaration := declarations[i];
      assert declarations[i..][0] == declaration && declarations[i..][1..] == declarations[i + 1..];
      var problems :- Problems(state, canonical, declaration);
      if StatusOf(problems) == Validated {
        accepted := accepted + [declaration.ToBlock()];
        state.AddBlock(declaration.ToBlock());
        if declaration.PlacementDeclaration? {
          placements := placements + [declaration];
        }
      }
      verdicts := verdicts + [VerdictOf(declaration, problems)];
    }
    r := Ok((verdicts, accepted, placements));
  }
}
