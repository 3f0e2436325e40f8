/** What a drop takes along: the blocks that were derived from what goes, and those that point at it. */
module Cascade {
  import opened Common
  import opened Documents
  import opened Paths
  import opened Writer

  // --- What is there to follow ------------------------------------------------------------------

  /** The blocks of an installed module; none for one that is not installed or cannot be opened. */
  function MembersOf(docs: map<Id, Document>, head: Snapshot, kind: MemoryType): (r: set<Id>) {
    var opened_ := OpenModule(docs, head, kind);
    if opened_.Ok? then opened_.value.members else {}
  }

  /** Reading a module block by block goes through: what is there is a block of the module, and not one marked gone. */
  predicate IsLegible(docs: map<Id, Document>, head: Snapshot, kind: MemoryType) {
    && OpenModule(docs, head, kind).Ok?
    && forall id | id in OpenModule(docs, head, kind).value.members && id in docs ::
         id !in OpenModule(docs, head, kind).value.tombstones && docs[id].BlockDoc? && docs[id].block.Kind() == kind
  }

  predicate IsDerivation(docs: map<Id, Document>, id: Id) {
    id in docs && docs[id].BlockDoc? && !docs[id].block.PlainBlock? && docs[id].block.entry.Derivation?
  }

  predicate IsLinking(docs: map<Id, Document>, id: Id) {
    id in docs && docs[id].BlockDoc? && docs[id].block.PlainBlock?
      && docs[id].block.memoryType in {Semantic, Procedural}
  }

  /** Each readable derivation record, from a cited block to the block derived. */
  function Evidence(docs: map<Id, Document>, head: Snapshot): (r: set<Edge<Id>>) {
    set record, cited | record in MembersOf(docs, head, Provenance) && IsDerivation(docs, record)
                        && cited in docs[record].block.entry.sources
      :: Edge(cited, docs[record].block.entry.block)
  }

  /** Each readable reference, from the block pointed at to the block that points. */
  function Links(docs: map<Id, Document>, head: Snapshot): (r: set<Edge<Id>>) {
    set id, target | id in MembersOf(docs, head, Semantic) + MembersOf(docs, head, Procedural) && IsLinking(docs, id)
                     && target in docs[id].block.links
      :: Edge(target, id)
  }

  /** The first installed module that holds a block, in the order modules are listed. */
  function HomeOf(docs: map<Id, Document>, head: Snapshot, id: Id, kinds: seq<MemoryType>): (r: Option<MemoryType>)
    ensures r.Some? ==>
              exists i | 0 <= i < |kinds| ::
                && kinds[i] == r.value && id in MembersOf(docs, head, kinds[i])
                && forall j | 0 <= j < i :: id !in MembersOf(docs, head, kinds[j])
    ensures r.None? ==> forall kind | kind in kinds :: id !in MembersOf(docs, head, kind)
  {
    if kinds == [] then None
    else if id in MembersOf(docs, head, kinds[0]) then Some(kinds[0])
    else HomeOf(docs, head, id, kinds[1..])
  }

  function Home(docs: map<Id, Document>, head: Snapshot, id: Id): (r: Option<MemoryType>) {
    HomeOf(docs, head, id, ALL_MODULES)
  }

  // --- What one block takes along -----------------------------------------------------------------

  /** The children that lie below one of the seeds. */
  ghost function Under(edges: set<Edge<Id>>, seeds: set<Id>): (r: set<Id>) {
    set edge | edge in edges && exists seed | seed in seeds :: Reaches(edges, seed, edge.child) :: edge.child
  }

  /** Everything derived from a block, directly or not. */
  ghost function Derived(edges: set<Edge<Id>>, origin: Id): (r: set<Id>) {
    Under(edges, {origin}) - {origin}
  }

  function PointingAt(links: set<Edge<Id>>, target: Id): (r: set<Id>) {
    set edge | edge in links && edge.parent == target :: edge.child
  }

  /** Where following references starts: what was derived and is installed, and what points at the block itself. */
  ghost function Seeds(docs: map<Id, Document>, head: Snapshot, origin: Id): (r: set<Id>) {
    (set id | id in Derived(Evidence(docs, head), origin) && Home(docs, head, id).Some?)
    + PointingAt(Links(docs, head), origin)
  }

  /** What points at one of them, directly or not, and is none of them. */
  ghost function Following(links: set<Edge<Id>>, seeds: set<Id>, origin: Id): (r: set<Id>) {
    Under(links, seeds) - seeds - {origin}
  }

  /** The dependents of one block in one module. */
  ghost function Dependents(docs: map<Id, Document>, head: Snapshot, origin: Id, kind: MemoryType): (r: set<Id>) {
    var links := Links(docs, head);
    (set id | id in Derived(Evidence(docs, head), origin) && Home(docs, head, id) == Some(kind))
    + (set id | id in PointingAt(links, origin) + Following(links, Seeds(docs, head, origin), origin)
                && KindOf(docs, id) == Some(kind))
  }

  function KindOf(docs: map<Id, Document>, id: Id): (r: Option<MemoryType>) {
    if id in docs && docs[id].BlockDoc? then Some(docs[id].block.Kind()) else None
  }

  // --- What several blocks take along ----------------------------------------------------------------

  ghost function AllDependents(docs: map<Id, Document>, head: Snapshot, origins: set<Id>, kind: MemoryType)
    : (r: set<Id>)
  {
    set origin, id | origin in origins && id in Dependents(docs, head, origin, kind) :: id
  }

  /** A block that goes anyway is no dependent. */
  ghost function Together(docs: map<Id, Document>, head: Snapshot, origins: set<Id>, kind: MemoryType): (r: set<Id>) {
    AllDependents(docs, head, origins, kind) - origins
  }

  /** The cascade of a drop, module by module. */
  ghost function CascadeOf(docs: map<Id, Document>, head: Snapshot, origins: set<Id>): (r: map<MemoryType, set<Id>>) {
    map kind | Together(docs, head, origins, kind) != {} :: Together(docs, head, origins, kind)
  }

  lemma CascadeIn(docs: map<Id, Document>, head: Snapshot, origins: set<Id>, kind: MemoryType)
    ensures In(CascadeOf(docs, head, origins), kind) == Together(docs, head, origins, kind)
    ensures kind in CascadeOf(docs, head, origins) <==> Together(docs, head, origins, kind) != {}
  {
    hide Together;
  }

  // --- The walks ------------------------------------------------------------------------------------------

  /** A walk by levels: what was met starts in the seeds or lies below them, and all but the last level was followed. */
  ghost predicate IsLevelled(edges: set<Edge<Id>>, seeds: set<Id>, barred: Id, seen: set<Id>, frontier: set<Id>) {
    && seeds <= seen && frontier <= seen
    && (forall id | id in seen :: id in seeds || id in Under(edges, seeds) - {barred})
    && (forall edge | edge in edges && edge.parent in seen - frontier :: edge.child in seen || edge.child == barred)
  }

  function NextLevel(edges: set<Edge<Id>>, frontier: set<Id>, seen: set<Id>, barred: Id): (r: set<Id>) {
    set edge | edge in edges && edge.parent in frontier && edge.child !in seen && edge.child != barred :: edge.child
  }

  lemma LevelDown(edges: set<Edge<Id>>, seeds: set<Id>, barred: Id, seen: set<Id>, frontier: set<Id>)
    requires IsLevelled(edges, seeds, barred, seen, frontier)
    ensures var level := NextLevel(edges, frontier, seen, barred);
            IsLevelled(edges, seeds, barred, seen + level, level)
  {
    hide Reaches;
    var level := NextLevel(edges, frontier, seen, barred);
    forall id | id in level
      ensures id in Under(edges, seeds)
    {
      var edge :| edge in edges && edge.parent in frontier && edge.child == id;
      UnderOn(edges, seeds, edge);
    }
  }

  lemma UnderOn(edges: set<Edge<Id>>, seeds: set<Id>, edge: Edge<Id>)
    requires edge in edges && (edge.parent in seeds || edge.parent in Under(edges, seeds))
    ensures edge.child in Under(edges, seeds)
  {
    hide Reaches;
    var seed: Id;
    if edge.parent in seeds {
      seed := edge.parent;
      ReachesItself(edges, seed);
    } else {
      seed :| seed in seeds && Reaches(edges, seed, edge.parent);
    }
    ReachesOn(edges, seed, edge.parent, edge.child);
  }

  /** A walk with nothing left to follow met everything under the seeds, if the barred block adds nothing. */
  lemma LevelsEnd(edges: set<Edge<Id>>, seeds: set<Id>, barred: Id, seen: set<Id>)
    requires IsLevelled(edges, seeds, barred, seen, {})
    requires forall edge | edge in edges && edge.parent == barred :: edge.child in seen || edge.child == barred
    ensures seen == seeds + (Under(edges, seeds) - {barred})
  {
    hide Reaches;
    assert IsClosed(edges, seen + {barred});
    forall id | id in Under(edges, seeds)
      ensures id in seen + {barred}
    {
      var seed :| seed in seeds && Reaches(edges, seed, id);
      ClosedSetsHoldDescendants(edges, seen + {barred}, seed, id);
    }
  }

  lemma LevelsShrink(edges: set<Edge<Id>>, seen: set<Id>, frontier: set<Id>, barred: Id)
    ensures var level := NextLevel(edges, frontier, seen, barred);
            level != {} ==> |Children(edges) - (seen + level)| < |Children(edges) - seen|
  {
    var level := NextLevel(edges, frontier, seen, barred);
    if id :| id in level {
      SubsetSize(Children(edges) - (seen + level), Children(edges) - seen - {id});
    }
  }

  function Children(edges: set<Edge<Id>>): (r: set<Id>) {
    set edge | edge in edges :: edge.child
  }

  /** Whether the barred block counts as met decides nothing. */
  lemma BarredEitherWay(edges: set<Edge<Id>>, frontier: set<Id>, found: set<Id>, seen: set<Id>, barred: Id)
    requires found == seen - {barred} && barred in seen
    ensures var level := NextLevel(edges, frontier, found, barred);
            level == NextLevel(edges, frontier, seen, barred) && found + level == (seen + level) - {barred}
  {
  }

  lemma OnlySeeds(edges: set<Edge<Id>>, seeds: set<Id>, barred: Id)
    ensures IsLevelled(edges, seeds, barred, seeds, seeds)
  {
  }

  /** Level by level along derivations, away from a block and never back to it. */
  method ClosureOf(edges: set<Edge<Id>>, origin: Id) returns (found: set<Id>)
    ensures found == Derived(edges, origin)
  {
    hide IsLevelled, NextLevel, Children, Under;
    found := {};
    var frontier := {origin};
    ghost var seen := {origin};
    OnlySeeds(edges, {origin}, origin);
    while frontier != {}
      invariant found == seen - {origin} && origin in seen
      invariant IsLevelled(edges, {origin}, origin, seen, frontier)
      decreases |Children(edges) - seen|, |frontier|
    {
      var discovered := NextLevel(edges, frontier, found, origin);
      BarredEitherWay(edges, frontier, found, seen, origin);
      LevelDown(edges, {origin}, origin, seen, frontier);
      LevelsShrink(edges, seen, frontier, origin);
      found := found + discovered;
      seen := seen + discovered;
      frontier := discovered;
    }
    LevelledHolds(edges, {origin}, origin, seen);
    LevelsEnd(edges, {origin}, origin, seen);
  }

  lemma LevelledHolds(edges: set<Edge<Id>>, seeds: set<Id>, barred: Id, seen: set<Id>)
    requires IsLevelled(edges, seeds, barred, seen, {}) && barred in seen
    ensures forall edge | edge in edges && edge.parent == barred :: edge.child in seen || edge.child == barred
  {
  }

  /** Level by level along references, from what is going already. */
  method FollowingOf(links: set<Edge<Id>>, seeds: set<Id>, origin: Id) returns (further: set<Id>)
    requires PointingAt(links, origin) <= seeds
    ensures further == Following(links, seeds, origin)
  {
    hide IsLevelled, NextLevel, Children, Under;
    var seen, frontier := seeds, seeds;
    OnlySeeds(links, seeds, origin);
    while frontier != {}
      invariant seeds <= seen && IsLevelled(links, seeds, origin, seen, frontier)
      decreases |Children(links) - seen|, |frontier|
    {
      var discovered := NextLevel(links, frontier, seen, origin);
      LevelDown(links, seeds, origin, seen, frontier);
      LevelsShrink(links, seen, frontier, origin);
      seen := seen + discovered;
      frontier := discovered;
    }
    assert forall edge | edge in links && edge.parent == origin :: edge.child in PointingAt(links, origin);
    LevelsEnd(links, seeds, origin, seen);
    further := seen - seeds;
  }

  /** One block: what was derived from it, by the first module that holds each, and what refers to any of it. */
  method PlanOne(docs: map<Id, Document>, head: Snapshot, evidence: set<Edge<Id>>, links: set<Edge<Id>>, origin: Id)
    returns (dependents: map<MemoryType, set<Id>>)
    requires evidence == Evidence(docs, head) && links == Links(docs, head)
    ensures forall kind :: In(dependents, kind) == Dependents(docs, head, origin, kind)
  {
    hide Evidence, Links, Derived, Following, Home, KindOf;
    var derived := ClosureOf(evidence, origin);
    var housed := set id | id in derived && Home(docs, head, id).Some?;
    var direct := PointingAt(links, origin);
    var further := FollowingOf(links, housed + direct, origin);
    assert housed + direct == Seeds(docs, head, origin);
    dependents := map[];
    for i := 0 to |ALL_MODULES|
      invariant forall kind :: kind in dependents ==> kind in ALL_MODULES[..i]
      invariant forall j | 0 <= j < i ::
                  In(dependents, ALL_MODULES[j]) == Dependents(docs, head, origin, ALL_MODULES[j])
    {
      var kind := ALL_MODULES[i];
      var found := (set id | id in derived && Home(docs, head, id) == Some(kind))
                   + (set id | id in direct + further && KindOf(docs, id) == Some(kind));
      assert found == Dependents(docs, head, origin, kind);
      if found != {} {
        dependents := dependents[kind := found];
      }
    }
    forall kind
      ensures In(dependents, kind) == Dependents(docs, head, origin, kind)
    {
      EveryModuleIsListed(kind);
    }
  }

  lemma OneMoreOrigin(
    docs: map<Id, Document>, head: Snapshot, done: set<Id>, origin: Id, merged: map<MemoryType, set<Id>>,
    dependents: map<MemoryType, set<Id>>, kind: MemoryType)
    requires In(merged, kind) == AllDependents(docs, head, done, kind)
             && In(dependents, kind) == Dependents(docs, head, origin, kind)
    ensures AllDependents(docs, head, done + {origin}, kind) == In(merged, kind) + In(dependents, kind)
  {
    hide Dependents;
  }

  /** The cascades of all the blocks that go, put together. */
  method PlanMany(docs: map<Id, Document>, head: Snapshot, origins: set<Id>) returns (plan: map<MemoryType, set<Id>>)
    ensures plan == CascadeOf(docs, head, origins)
  {
    hide Dependents, Evidence, Links;
    var evidence, links := Evidence(docs, head), Links(docs, head);
    var merged: map<MemoryType, set<Id>> := map[];
    var rest := origins;
    while rest != {}
      invariant rest <= origins
      invariant forall kind :: In(merged, kind) == AllDependents(docs, head, origins - rest, kind)
      decreases rest
    {
      var origin :| origin in rest;
      var dependents := PlanOne(docs, head, evidence, links, origin);
      ghost var done := origins - rest;
      forall kind {
        OneMoreOrigin(docs, head, done, origin, merged, dependents, kind);
      }
      rest := rest - {origin};
      assert origins - rest == done + {origin};
      merged := map kind | kind in merged.Keys + dependents.Keys :: In(merged, kind) + In(dependents, kind);
    }
    assert origins - rest == origins;
    plan := map kind | kind in merged && merged[kind] - origins != {} :: merged[kind] - origins;
  }

  // --- What cascades spare ---------------------------------------------------------------------------------

  /** No readable derivation record gives a block of provenance as derived from another block. */
  predicate DerivesNoRecord(docs: map<Id, Document>, head: Snapshot) {
    forall record | record in MembersOf(docs, head, Provenance) && IsDerivation(docs, record)
                    && Home(docs, head, docs[record].block.entry.block) == Some(Provenance)
      :: docs[record].block.entry.sources <= {docs[record].block.entry.block}
  }

  /** Only derivations lead into provenance: references come from semantic and procedural blocks. */
  lemma RecordsAreDerived(docs: map<Id, Document>, head: Snapshot, origin: Id, id: Id)
    ensures id in Dependents(docs, head, origin, Provenance) <==>
            id in Derived(Evidence(docs, head), origin) && Home(docs, head, id) == Some(Provenance)
  {
    hide Evidence, Home, Derived;
    assert forall edge | edge in Links(docs, head) :: KindOf(docs, edge.child) != Some(Provenance);
  }

  /** A block nothing else leads to is derived from nothing else. */
  lemma NothingLeadsThere(edges: set<Edge<Id>>, origin: Id, id: Id)
    requires forall edge | edge in edges && edge.child == id :: edge.parent == id
    ensures id !in Derived(edges, origin)
  {
    hide Reaches;
    if id in Derived(edges, origin) {
      assert id != origin && Reaches(edges, origin, id);
      var elsewhere := {origin} + Children(edges) - {id};
      assert IsClosed(edges, elsewhere);
      ClosedSetsHoldDescendants(edges, elsewhere, origin, id);
    }
  }

  /** Whatever goes, the cascade stays out of provenance exactly when no record is given as derived. */
  lemma CascadesSpareRecordsExactly(docs: map<Id, Document>, head: Snapshot)
    ensures (forall origins :: Provenance !in CascadeOf(docs, head, origins)) <==> DerivesNoRecord(docs, head)
  {
    hide Home, Dependents, Reaches, MembersOf;
    if DerivesNoRecord(docs, head) {
      forall origins
        ensures Provenance !in CascadeOf(docs, head, origins)
      {
        CascadeIn(docs, head, origins, Provenance);
        if id :| id in Together(docs, head, origins, Provenance) {
          var origin :| origin in origins && id in Dependents(docs, head, origin, Provenance);
          RecordsAreDerived(docs, head, origin, id);
          NothingLeadsThere(Evidence(docs, head), origin, id);
        }
      }
    } else {
      var record :| record in MembersOf(docs, head, Provenance) && IsDerivation(docs, record)
                    && Home(docs, head, docs[record].block.entry.block) == Some(Provenance)
                    && !(docs[record].block.entry.sources <= {docs[record].block.entry.block});
      var id := docs[record].block.entry.block;
      var cited :| cited in docs[record].block.entry.sources && cited != id;
      DerivedDirectly(docs, head, record, cited);
      RecordsAreDerived(docs, head, cited, id);
      CascadeIn(docs, head, {cited}, Provenance);
      assert id in Together(docs, head, {cited}, Provenance);
    }
  }

  lemma DerivedDirectly(docs: map<Id, Document>, head: Snapshot, record: Id, cited: Id)
    requires record in MembersOf(docs, head, Provenance) && IsDerivation(docs, record)
    requires cited in docs[record].block.entry.sources && cited != docs[record].block.entry.block
    ensures docs[record].block.entry.block in Derived(Evidence(docs, head), cited)
  {
    hide Reaches, MembersOf;
    var edge := Edge(cited, docs[record].block.entry.block);
    assert edge in Evidence(docs, head);
    UnderOn(Evidence(docs, head), {cited}, edge);
  }

  /** A record that a cascade takes is one of provenance, and some readable record there gives it as derived. */
  lemma TakenRecordsAreDerived(docs: map<Id, Document>, head: Snapshot, origins: set<Id>, id: Id)
    requires id in In(CascadeOf(docs, head, origins), Provenance)
    ensures id in MembersOf(docs, head, Provenance)
    ensures exists record :: record in MembersOf(docs, head, Provenance) && IsDerivation(docs, record)
                             && docs[record].block.entry.block == id
  {
    hide Dependents, Reaches, MembersOf, Home;
    CascadeIn(docs, head, origins, Provenance);
    var origin :| origin in origins && id in Dependents(docs, head, origin, Provenance);
    RecordsAreDerived(docs, head, origin, id);
    var edge :| edge in Evidence(docs, head) && edge.child == id;
    HomeHolds(docs, head, id);
  }

  lemma HomeHolds(docs: map<Id, Document>, head: Snapshot, id: Id)
    ensures Home(docs, head, id).Some? ==> id in MembersOf(docs, head, Home(docs, head, id).value)
  {
  }

  // --- The same, without the edges --------------------------------------------------------------------------

  /** Some readable record of provenance, of either version, gives a block as derived from another. */
  predicate Cites(docs: map<Id, Document>, head: Snapshot, cited: Id, block: Id) {
    exists record | record in MembersOf(docs, head, Provenance) ::
      && record in docs && docs[record].BlockDoc?
      && (docs[record].block.ProvenanceV1? || docs[record].block.ProvenanceV2?)
      && docs[record].block.entry.Derivation? && docs[record].block.entry.block == block
      && cited in docs[record].block.entry.sources
  }

  /** A readable semantic or procedural block points at another. */
  predicate Points(docs: map<Id, Document>, head: Snapshot, target: Id, id: Id) {
    && (id in MembersOf(docs, head, Semantic) || id in MembersOf(docs, head, Procedural))
    && id in docs && docs[id].BlockDoc? && docs[id].block.PlainBlock?
    && (docs[id].block.memoryType == Semantic || docs[id].block.memoryType == Procedural)
    && target in docs[id].block.links
  }

  lemma EvidenceExactly(docs: map<Id, Document>, head: Snapshot, cited: Id, block: Id)
    ensures Edge(cited, block) in Evidence(docs, head) <==> Cites(docs, head, cited, block)
  {
    hide MembersOf;
    if Cites(docs, head, cited, block) {
      var record :| record in MembersOf(docs, head, Provenance) && IsDerivation(docs, record)
                    && docs[record].block.entry.block == block && cited in docs[record].block.entry.sources;
    }
  }

  lemma LinksExactly(docs: map<Id, Document>, head: Snapshot, target: Id, id: Id)
    ensures Edge(target, id) in Links(docs, head) <==> Points(docs, head, target, id)
  {
    hide MembersOf;
  }

  /** A block derived from the first one of a chain, step by step. */
  ghost predicate IsDerivationChain(docs: map<Id, Document>, head: Snapshot, chain: seq<Id>) {
    |chain| > 0 && forall i | 0 <= i < |chain| - 1 :: Cites(docs, head, chain[i], chain[i + 1])
  }

  /** Whatever was derived from a block that goes, however indirectly, goes from the first module that holds it. */
  lemma DerivedBlocksFollow(docs: map<Id, Document>, head: Snapshot, origins: set<Id>, chain: seq<Id>, kind: MemoryType)
    requires IsDerivationChain(docs, head, chain) && chain[0] in origins
    requires var id := chain[|chain| - 1]; id !in origins && Home(docs, head, id) == Some(kind)
    ensures chain[|chain| - 1] in In(CascadeOf(docs, head, origins), kind)
  {
    hide Evidence, Links, Home, Cites, Following, PointingAt;
    var origin, id := chain[0], chain[|chain| - 1];
    var edges := Evidence(docs, head);
    forall i | 0 <= i < |chain| - 1
      ensures Edge(chain[i], chain[i + 1]) in edges
    {
      EvidenceExactly(docs, head, chain[i], chain[i + 1]);
    }
    assert Leads(edges, chain, origin, id);
    var edge := Edge(chain[|chain| - 2], chain[|chain| - 2 + 1]);
    assert edge in edges && edge.child == id;
    assert Reaches(edges, origin, edge.child);
    assert id in Under(edges, {origin});
    assert id in Dependents(docs, head, origin, kind);
    CascadeIn(docs, head, origins, kind);
  }

  /** The seeds of a cascade and what follows them are in it. */
  lemma SeedsAreTaken(docs: map<Id, Document>, head: Snapshot, origins: set<Id>, origin: Id, id: Id, kind: MemoryType)
    requires origin in origins && id !in origins && KindOf(docs, id) == Some(kind)
    requires id in Seeds(docs, head, origin) ==> Home(docs, head, id) == Some(kind)
    requires id in Seeds(docs, head, origin) + Following(Links(docs, head), Seeds(docs, head, origin), origin)
    ensures id in In(CascadeOf(docs, head, origins), kind)
  {
    hide Evidence, Links, Home, Following, Derived, KindOf;
    assert id in Dependents(docs, head, origin, kind);
    CascadeIn(docs, head, origins, kind);
  }

  lemma TakenIsFollowed(docs: map<Id, Document>, head: Snapshot, origin: Id, id: Id, kind: MemoryType)
    requires id in Dependents(docs, head, origin, kind)
    ensures id in Seeds(docs, head, origin) || id in Under(Links(docs, head), Seeds(docs, head, origin))
  {
    hide Evidence, Links, Home, Derived, Under;
  }

  /** Whatever points at a block that goes, goes from its own module, if no earlier module holds it too. */
  lemma PointingBlocksFollow(docs: map<Id, Document>, head: Snapshot, origins: set<Id>, target: Id, id: Id)
    requires Points(docs, head, target, id)
    requires target in origins || exists kind :: target in In(CascadeOf(docs, head, origins), kind)
    requires id !in origins && Home(docs, head, id) == Some(docs[id].block.memoryType)
    ensures id in In(CascadeOf(docs, head, origins), docs[id].block.memoryType)
  {
    hide Evidence, Links, Home, Dependents, CascadeOf, Seeds, Under, MembersOf;
    var links := Links(docs, head);
    LinksExactly(docs, head, target, id);
    if target in origins {
      PointingIsSeed(docs, head, target, id);
      SeedsAreTaken(docs, head, origins, target, id, docs[id].block.memoryType);
    } else {
      var kind :| target in In(CascadeOf(docs, head, origins), kind);
      CascadeIn(docs, head, origins, kind);
      var origin :| origin in origins && target in Dependents(docs, head, origin, kind);
      TakenIsFollowed(docs, head, origin, target, kind);
      UnderOn(links, Seeds(docs, head, origin), Edge(target, id));
      SeedsAreTaken(docs, head, origins, origin, id, docs[id].block.memoryType);
    }
  }

  lemma PointingIsSeed(docs: map<Id, Document>, head: Snapshot, target: Id, id: Id)
    requires Edge(target, id) in Links(docs, head)
    ensures id in Seeds(docs, head, target)
  {
    hide Evidence, Links, Home, Derived;
  }

  /** From block to block, each derived from the one before it or pointing at it. */
  ghost predicate IsTrail(docs: map<Id, Document>, head: Snapshot, trail: seq<Id>) {
    && |trail| > 0
    && forall i | 0 <= i < |trail| - 1 ::
         Cites(docs, head, trail[i], trail[i + 1]) || Points(docs, head, trail[i], trail[i + 1])
  }

  /** And nothing goes that does not hang on a block that was named. */
  lemma NothingElseFollows(docs: map<Id, Document>, head: Snapshot, origins: set<Id>, kind: MemoryType, id: Id)
    requires id in In(CascadeOf(docs, head, origins), kind)
    ensures id !in origins
    ensures exists trail :: IsTrail(docs, head, trail) && trail[0] in origins && trail[|trail| - 1] == id
  {
    hide Evidence, Links, Home, Dependents, CascadeOf, Reaches, Cites, Points;
    CascadeIn(docs, head, origins, kind);
    var origin :| origin in origins && id in Dependents(docs, head, origin, kind);
    var evidence, links := Evidence(docs, head), Links(docs, head);
    DependentsHang(docs, head, origin, id, kind);
    var trail := TrailOf(evidence + links, origin, id);
    forall i | 0 <= i < |trail| - 1
      ensures Cites(docs, head, trail[i], trail[i + 1]) || Points(docs, head, trail[i], trail[i + 1])
    {
      EvidenceExactly(docs, head, trail[i], trail[i + 1]);
      LinksExactly(docs, head, trail[i], trail[i + 1]);
    }
    assert IsTrail(docs, head, trail);
  }

  ghost function TrailOf(edges: set<Edge<Id>>, origin: Id, id: Id): (trail: seq<Id>)
    requires Reaches(edges, origin, id)
    ensures Leads(edges, trail, origin, id)
  {
    var path :| Leads(edges, path, origin, id);
    path
  }

  lemma DependentsHang(docs: map<Id, Document>, head: Snapshot, origin: Id, id: Id, kind: MemoryType)
    requires id in Dependents(docs, head, origin, kind)
    ensures Reaches(Evidence(docs, head) + Links(docs, head), origin, id)
  {
    hide Evidence, Links, Home, Reaches;
    var evidence, links := Evidence(docs, head), Links(docs, head);
    var edges := evidence + links;
    forall seed | seed in Seeds(docs, head, origin)
      ensures Reaches(edges, origin, seed)
    {
      if seed in Derived(evidence, origin) {
        MoreEdgesReachMore(evidence, edges, origin, seed);
      } else {
        ReachesItself(edges, origin);
        ReachesOn(edges, origin, origin, seed);
      }
    }
    if id in Derived(evidence, origin) {
      MoreEdgesReachMore(evidence, edges, origin, id);
    } else if id !in Seeds(docs, head, origin) {
      var seed :| seed in Seeds(docs, head, origin) && Reaches(links, seed, id);
      MoreEdgesReachMore(links, edges, seed, id);
      ReachesThrough(edges, origin, seed, id);
    }
  }
}
