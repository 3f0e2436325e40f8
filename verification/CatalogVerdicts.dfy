/** Why the catalog turns a declaration down, what it names against it, and what an accepted one leaves it saying. */
module CatalogVerdicts {
  import opened Common
  import opened Paths
  import opened CatalogGraph
  import opened CatalogState
  import opened CatalogValidation
  import CatalogReload

  predicate AreDeclared(graph: Graph, a: BlockId, b: BlockId) {
    a in graph.classes && b in graph.classes
  }

  predicate AreOfOneScheme(graph: Graph, a: BlockId, b: BlockId) {
    AreDeclared(graph, a, b) && graph.classes[a].scheme == graph.classes[b].scheme
  }

  /** Another placement of the source, under another declared class of the same scheme. */
  predicate IsRival(graph: Graph, source: BlockId, class_: BlockId, slot: Slot) {
    && slot in graph.placements && slot.source == source && slot.class_ != class_ && class_ in graph.classes
    && ((slot.class_ in graph.classes && graph.classes[slot.class_].scheme == graph.classes[class_].scheme)
        || (slot.class_ !in graph.classes && graph.classes[class_].scheme == ""))
  }

  /** The one cause a declaration can be turned down for, by its code. */
  ghost predicate IsCause(graph: Graph, canonical: set<BlockId>, declaration: Declaration, code: Code) {
    match declaration
    case SchemeDeclaration(scheme, exclusive) =>
      && scheme in graph.schemes
      && code == (if graph.schemes[scheme].exclusive == exclusive then Duplicate else SchemeConflict)
    case ClassDeclaration(scheme, name) =>
      || (code == UnknownScheme && scheme !in graph.schemes)
      || (code == Duplicate && scheme in graph.schemes && ClassInfo(scheme, name) in graph.byLabel)
    case HierarchyDeclaration(broader, narrower) =>
      || (code == Cycle && broader == narrower)
      || (code == UnknownClass && broader != narrower && !AreDeclared(graph, broader, narrower))
      || (code == CrossScheme && AreDeclared(graph, broader, narrower) && !AreOfOneScheme(graph, broader, narrower))
      || (code == Duplicate && broader != narrower && AreOfOneScheme(graph, broader, narrower)
          && Edge(broader, narrower) in graph.edges)
      || (code == Cycle && AreOfOneScheme(graph, broader, narrower) && Edge(broader, narrower) !in graph.edges
          && Reaches(graph.edges, narrower, broader))
    case PlacementDeclaration(source, class_) =>
      || (code == UnknownSource && source !in canonical)
      || (code == UnknownClass && source in canonical && class_ !in graph.classes)
      || (code == Duplicate && source in canonical && class_ in graph.classes
          && Slot(source, class_) in graph.placements)
      || (code == ExclusiveConflict && source in canonical && class_ in graph.classes
          && Slot(source, class_) !in graph.placements
          && graph.classes[class_].scheme in graph.schemes && graph.schemes[graph.classes[class_].scheme].exclusive
          && exists slot :: IsRival(graph, source, class_, slot))
  }

  /** What stands against it: the block that says the same or the opposite, or the placements it would stand beside. */
  predicate StandsAgainst(graph: Graph, declaration: Declaration, code: Code, id: BlockId) {
    match declaration
    case SchemeDeclaration(scheme, _) => scheme in graph.schemes && id == graph.schemes[scheme].block
    case ClassDeclaration(scheme, name) =>
      code == Duplicate && ClassInfo(scheme, name) in graph.byLabel && id == graph.byLabel[ClassInfo(scheme, name)]
    case HierarchyDeclaration(broader, narrower) => code == Duplicate && id == Of(HierarchyBlock(broader, narrower, 0))
    case PlacementDeclaration(source, class_) =>
      || (code == Duplicate && Slot(source, class_) in graph.placements && id == graph.placements[Slot(source, class_)])
      || (code == ExclusiveConflict && exists slot | slot in graph.placements ::
                                         IsRival(graph, source, class_, slot) && id == graph.placements[slot])
  }

  lemma CompetingExactly(graph: Graph, source: BlockId, class_: BlockId, id: BlockId)
    requires class_ in graph.classes
    ensures id in Competing(graph, source, class_) <==>
            exists slot | slot in graph.placements ::
              IsRival(graph, source, class_, slot) && id == graph.placements[slot]
  {
    forall slot | slot in graph.placements
      ensures Competes(graph, slot, source, class_) <==> IsRival(graph, source, class_, slot)
    {
    }
  }

  lemma CompetitionExactly(graph: Graph, source: BlockId, class_: BlockId)
    requires class_ in graph.classes
    ensures Competing(graph, source, class_) != {} <==> exists slot :: IsRival(graph, source, class_, slot)
  {
    hide Competing;
    forall id {
      CompetingExactly(graph, source, class_, id);
    }
    if slot :| IsRival(graph, source, class_, slot) {
      CompetingExactly(graph, source, class_, graph.placements[slot]);
    }
    if id :| id in Competing(graph, source, class_) {
      CompetingExactly(graph, source, class_, id);
    }
  }

  /** A declaration is turned down for its one cause, with that code and those blocks, and otherwise not at all. */
  lemma ProblemsExactly(graph: Graph, canonical: set<BlockId>, declaration: Declaration)
    requires ProblemsOf(graph, canonical, declaration).Ok?
    ensures var problems := ProblemsOf(graph, canonical, declaration).value;
            && |problems| <= 1
            && (problems == [] <==> forall code :: !IsCause(graph, canonical, declaration, code))
            && (problems != [] ==>
                  && (forall code :: IsCause(graph, canonical, declaration, code) <==> code == problems[0].code)
                  && forall id :: id in problems[0].conflictsWith <==>
                                  StandsAgainst(graph, declaration, problems[0].code, id))
  {
    hide Reaches, Competing, IsRival;
    if declaration.PlacementDeclaration? && declaration.class_ in graph.classes {
      var source, class_ := declaration.source, declaration.class_;
      CompetitionExactly(graph, source, class_);
      forall id
        ensures id in Competing(graph, source, class_) <==>
                exists slot | slot in graph.placements ::
                  IsRival(graph, source, class_, slot) && id == graph.placements[slot]
      {
        CompetingExactly(graph, source, class_, id);
      }
    }
    ProblemsByCode(graph, canonical, declaration);
    var problems := ProblemsOf(graph, canonical, declaration).value;
    if problems != [] {
      assert IsCause(graph, canonical, declaration, problems[0].code);
    }
  }

  lemma ProblemsByCode(graph: Graph, canonical: set<BlockId>, declaration: Declaration)
    requires ProblemsOf(graph, canonical, declaration).Ok?
    requires declaration.PlacementDeclaration? && declaration.class_ in graph.classes ==>
               (Competing(graph, declaration.source, declaration.class_) != {} <==>
                exists slot :: IsRival(graph, declaration.source, declaration.class_, slot))
    ensures var problems := ProblemsOf(graph, canonical, declaration).value;
            && |problems| <= 1
            && (problems == [] ==> forall code :: !IsCause(graph, canonical, declaration, code))
            && (problems != [] ==> forall code :: IsCause(graph, canonical, declaration, code) <==>
                code == problems[0].code)
  {
    hide Reaches, Competing, IsRival;
    if declaration.HierarchyDeclaration? && declaration.broader == declaration.narrower {
      var class_ := declaration.broader;
      assert AreOfOneScheme(graph, class_, class_) <==> class_ in graph.classes;
    }
  }

  // --- Verdicts ------------------------------------------------------------------------------------

  /** What becomes of a declaration: a conflict with what is there, another refusal, or none. */
  lemma VerdictExactly(graph: Graph, canonical: set<BlockId>, declaration: Declaration)
    requires ProblemsOf(graph, canonical, declaration).Ok?
    ensures var verdict := VerdictOf(declaration, ProblemsOf(graph, canonical, declaration).value);
            && (verdict.status == Validated <==> forall code :: !IsCause(graph, canonical, declaration, code))
            && (verdict.status == Contradicted <==>
                IsCause(graph, canonical, declaration, SchemeConflict)
                || IsCause(graph, canonical, declaration, ExclusiveConflict))
            && (forall code :: IsCause(graph, canonical, declaration, code) <==> verdict.codes == [code])
            && (forall id :: id in verdict.conflictsWith <==>
                  exists code :: IsCause(graph, canonical, declaration, code)
                    && StandsAgainst(graph, declaration, code, id))
  {
    hide ProblemsOf, IsCause, StandsAgainst;
    ProblemsExactly(graph, canonical, declaration);
    var problems := ProblemsOf(graph, canonical, declaration).value;
    if problems != [] {
      assert problems == [problems[0]] && problems[1..] == [];
      assert CodesOf(problems) == [problems[0].code];
      var code := problems[0].code;
      assert IsCause(graph, canonical, declaration, code);
      assert StatusOf(problems) == Contradicted <==> code == SchemeConflict || code == ExclusiveConflict by {
        assert problems[0] in problems && forall problem | problem in problems :: problem == problems[0];
      }
      forall id
        ensures id in VerdictOf(declaration, problems).conflictsWith <==> id in problems[0].conflictsWith
      {
        assert problems[0] in problems;
      }
    }
  }

  /** What an accepted declaration leaves the catalog saying, and that it changes nothing else. */
  lemma AcceptedIsSaid(graph: Graph, declaration: Declaration)
    ensures var after := Add(graph, declaration.ToBlock());
            match declaration
            case SchemeDeclaration(scheme, exclusive) =>
              && scheme in after.schemes && after.schemes[scheme].exclusive == exclusive
              && after.schemes[scheme].block == Of(declaration.ToBlock())
              && after == graph.(schemes := graph.schemes[scheme := after.schemes[scheme]])
            case ClassDeclaration(scheme, name) =>
              var id := Of(declaration.ToBlock());
              && after == graph.(classes := graph.classes[id := ClassInfo(scheme, name)],
                                 byLabel := graph.byLabel[ClassInfo(scheme, name) := id])
              && id == Of(ClassBlock(scheme, name))
            case HierarchyDeclaration(broader, narrower) =>
              after == graph.(edges := graph.edges + {Edge(broader, narrower)})
            case PlacementDeclaration(source, class_) =>
              after == graph.(placements := graph.placements[Slot(source, class_) :=
                                                             Of(PlacementBlock(source, class_, 0))])
  {
  }

  // --- A batch, declaration by declaration ------------------------------------------------------------

  /** The catalog that a declaration of a batch is judged against: the stored one and what was accepted before it. */
  ghost function GraphBefore(graph: Graph, canonical: set<BlockId>, declarations: seq<Declaration>, i: nat): (r: Graph)
    requires i <= |declarations| && Validate(graph, canonical, declarations[..i]).Ok?
  {
    Validate(graph, canonical, declarations[..i]).value.graph
  }

  /** A batch is its first declarations and then the last one. */
  lemma {:induction false} LastDeclaration(
    outcome: Outcome, canonical: set<BlockId>, declarations: seq<Declaration>, last: Declaration)
    ensures var earlier := ValidateFrom(outcome, canonical, declarations);
            ValidateFrom(outcome, canonical, declarations + [last]) ==
            if earlier.Err? then earlier
            else
              var problems := ProblemsOf(earlier.value.graph, canonical, last);
              if problems.Err? then Err(problems.error) else Ok(Judged(earlier.value, last, problems.value))
    decreases |declarations|
  {
    hide ProblemsOf, Judged;
    if declarations == [] {
      assert ([] + [last])[0] == last && ([] + [last])[1..] == [];
    } else {
      assert (declarations + [last])[1..] == declarations[1..] + [last];
      var problems := ProblemsOf(outcome.graph, canonical, declarations[0]);
      if problems.Ok? {
        LastDeclaration(Judged(outcome, declarations[0], problems.value), canonical, declarations[1..], last);
      }
    }
  }

  function BlocksOf(declarations: seq<Declaration>, verdicts: seq<Verdict>): (r: seq<CatalogBlock>)
    requires |declarations| == |verdicts|
  {
    if declarations == [] then []
    else
      var last := |declarations| - 1;
      BlocksOf(declarations[..last], verdicts[..last])
      + if verdicts[last].status == Validated then [declarations[last].ToBlock()] else []
  }

  function PlacementsOf(declarations: seq<Declaration>, verdicts: seq<Verdict>): (r: seq<Declaration>)
    requires |declarations| == |verdicts|
  {
    if declarations == [] then []
    else
      var last := |declarations| - 1;
      PlacementsOf(declarations[..last], verdicts[..last])
      + if verdicts[last].status == Validated && declarations[last].PlacementDeclaration? then [declarations[last]]
        else []
  }

  /**
   A batch gives each declaration the verdict it has over the catalog as it stood before it, in order; it reports as
   accepted the blocks of those validated, and as placements those among them, and ends with all of them added.
   */
  lemma {:induction false} BatchExactly(graph: Graph, canonical: set<BlockId>, declarations: seq<Declaration>)
    requires Validate(graph, canonical, declarations).Ok?
    ensures var outcome := Validate(graph, canonical, declarations).value;
            && |outcome.verdicts| == |declarations|
            && outcome.accepted == BlocksOf(declarations, outcome.verdicts)
            && outcome.placements == PlacementsOf(declarations, outcome.verdicts)
            && (forall i | 0 <= i < |declarations| ::
                  && Validate(graph, canonical, declarations[..i]).Ok?
                  && ProblemsOf(GraphBefore(graph, canonical, declarations, i), canonical, declarations[i]).Ok?
                  && outcome.verdicts[i] ==
                     VerdictOf(declarations[i],
                               ProblemsOf(GraphBefore(graph, canonical, declarations, i), canonical,
                                          declarations[i]).value))
            && outcome.graph == AddAll(graph, outcome.accepted)
    decreases |declarations|
  {
    hide ProblemsOf, CodesOf, Add;
    if declarations != [] {
      var last := |declarations| - 1;
      var earlier := declarations[..last];
      assert declarations == earlier + [declarations[last]];
      LastDeclaration(Outcome(graph, [], [], []), canonical, earlier, declarations[last]);
      BatchExactly(graph, canonical, earlier);
      forall i | 0 <= i <= last
        ensures declarations[..i] == earlier[..i]
      {
      }
      var before := Validate(graph, canonical, earlier).value;
      var problems := ProblemsOf(before.graph, canonical, declarations[last]).value;
      var outcome := Validate(graph, canonical, declarations).value;
      assert outcome == Judged(before, declarations[last], problems);
      assert outcome.verdicts[..last] == before.verdicts;
      assert declarations[..last] == earlier[..last] == earlier;
      if problems == [] {
        CatalogReload.AddLast(graph, before.accepted, declarations[last].ToBlock());
      } else {
        SomeProblem(problems);
      }
    }
  }

  lemma SomeProblem(problems: seq<Problem>)
    requires problems != []
    ensures StatusOf(problems) != Validated
  {
  }
}
