/** Merge, squash and rebase end with the same membership, and exactly when they do not. */
module Strategies {
  import opened Common
  import opened Documents
  import opened Hashing
  import opened Merging
  import opened Replay

  /** What the last version leaves in a module other than provenance, whatever was written before it. */
  function LastRoot(plan: Plan, cascade: Cascade, step: ChainStep, kind: MemoryType): (r: Option<Root>) {
    if kind in plan.carried then Some(plan.carried[kind])
    else
      var partial := MergeAll(plan.base, plan.ours, step.sides);
      if partial.Err? || kind !in partial.value then None
      else Some(Root(partial.value[kind].members - In(plan.refused, kind)
                     - In(Within(cascade(partial.value), plan.cascaded), kind)))
  }

  /** The modules a step of the replay names. */
  predicate Names(plan: Plan, step: ChainStep, kind: MemoryType) {
    kind in plan.carried || kind in plan.ours || kind in step.sides
  }

  function RootIn(version: Version, kind: MemoryType): (r: Option<Root>) {
    if kind in version then Some(version[kind]) else None
  }

  lemma StepFaults(
    hash: Hash, plan: Plan, cascade: Cascade, strategy: Strategy, carry: Carry, step: ChainStep, last: bool)
    ensures WriteStep(hash, plan, cascade, strategy, carry, step, last).Err? <==>
            DropsEpisodes(plan.base, plan.ours, step.sides)
  {
    hide DropsEpisodes, Within, Reconciled, FreshRecords, WithAdditions, References;
    MergeAllIs(plan.base, plan.ours, step.sides);
  }

  lemma ReferencesIn(members: map<MemoryType, set<Id>>, carried: Version, kind: MemoryType)
    ensures RootIn(References(members, carried), kind) ==
            if kind in carried then Some(carried[kind])
            else if kind in members then Some(Root(members[kind])) else None
  {
  }

  lemma MembersIn(
    plan: Plan, cascaded: map<MemoryType, set<Id>>, partial: map<MemoryType, Merged>, authored: set<Id>,
    additions: set<Id>, kind: MemoryType)
    requires kind != Provenance
    ensures var members := WithAdditions(Reconciled(plan, cascaded, partial, authored), additions);
            && (kind in members <==> kind in partial)
            && (kind in partial ==>
                  members[kind] == partial[kind].members - In(plan.refused, kind) - In(cascaded, kind))
  {
  }

  lemma RootOver(before: Version, references: Version, kind: MemoryType)
    ensures RootIn(before + references, kind) ==
            if RootIn(references, kind).Some? then RootIn(references, kind) else RootIn(before, kind)
  {
  }

  /** One step: modules it names come out as the step says, others as they were or not at all. */
  lemma StepModules(
    hash: Hash, plan: Plan, cascade: Cascade, strategy: Strategy, carry: Carry, step: ChainStep, last: bool,
    kind: MemoryType)
    requires WriteStep(hash, plan, cascade, strategy, carry, step, last).Ok? && kind != Provenance
    ensures var after := WriteStep(hash, plan, cascade, strategy, carry, step, last).value.1.modules;
            RootIn(after, kind) ==
            if Names(plan, step, kind) then LastRoot(plan, cascade, step, kind)
            else if RecordsLineage(plan, strategy, last) then None
            else RootIn(carry.modules, kind)
    ensures Names(plan, step, kind) ==> LastRoot(plan, cascade, step, kind).Some?
  {
    hide DropsEpisodes, Within, FreshRecords, MergeAll, MergeModule, IsSupported, RecordsLineage, AllOf, IdsIn,
         References, WithAdditions, Reconciled, RootIn, In;
    MergeAllIs(plan.base, plan.ours, step.sides);
    var partial := MergeAll(plan.base, plan.ours, step.sides).value;
    var cascaded := Within(cascade(partial), plan.cascaded);
    var written := WriteStep(hash, plan, cascade, strategy, carry, step, last).value.0;
    var additions := IdsIn(hash, written.settled + written.recorded);
    MembersIn(plan, cascaded, partial, carry.authored, additions, kind);
    ReferencesIn(written.members, plan.carried, kind);
    RootOver(carry.modules, References(written.members, plan.carried), kind);
  }

  /** Whether a replay goes through: no version of it drops an episode. */
  lemma {:induction false} ReplayFaults(
    hash: Hash, plan: Plan, cascade: Cascade, strategy: Strategy, carry: Carry, steps: seq<ChainStep>)
    ensures ReplayFrom(hash, plan, cascade, strategy, carry, steps).1.Err? <==>
            exists step | step in steps :: DropsEpisodes(plan.base, plan.ours, step.sides)
    decreases |steps|
  {
    hide WriteStep, DropsEpisodes;
    if steps != [] {
      StepFaults(hash, plan, cascade, strategy, carry, steps[0], |steps| == 1);
      assert forall step :: step in steps <==> step == steps[0] || step in steps[1..];
      var written := WriteStep(hash, plan, cascade, strategy, carry, steps[0], |steps| == 1);
      if written.Ok? {
        ReplayFaults(hash, plan, cascade, strategy, written.value.1, steps[1..]);
      }
    }
  }

  predicate SomeStepNames(plan: Plan, steps: seq<ChainStep>, kind: MemoryType) {
    exists step | step in steps :: Names(plan, step, kind)
  }

  /** The whole replay, as far as one module other than provenance goes. */
  lemma {:induction false} ReplayModules(
    hash: Hash, plan: Plan, cascade: Cascade, strategy: Strategy, carry: Carry, steps: seq<ChainStep>, kind: MemoryType)
    requires steps != [] && kind != Provenance
    requires ReplayFrom(hash, plan, cascade, strategy, carry, steps).1.Ok?
    ensures var final := RootIn(ReplayFrom(hash, plan, cascade, strategy, carry, steps).1.value.modules, kind);
            var last := steps[|steps| - 1];
            if Names(plan, last, kind) then final == LastRoot(plan, cascade, last, kind) && final.Some?
            else if RecordsLineage(plan, strategy, true) then final.None?
            else if SomeStepNames(plan, steps, kind) then final.Some?
            else final == RootIn(carry.modules, kind)
    decreases |steps|
  {
    hide WriteStep, LastRoot, Names, RecordsLineage;
    var written := WriteStep(hash, plan, cascade, strategy, carry, steps[0], |steps| == 1).value;
    StepModules(hash, plan, cascade, strategy, carry, steps[0], |steps| == 1, kind);
    var rest := steps[1..];
    assert forall step :: step in steps <==> step == steps[0] || step in rest;
    if |steps| > 1 {
      assert !RecordsLineage(plan, strategy, false) by { LineageIsLast(plan, strategy); }
      ReplayModules(hash, plan, cascade, strategy, written.1, rest, kind);
    }
  }

  lemma LineageIsLast(plan: Plan, strategy: Strategy)
    ensures !RecordsLineage(plan, strategy, false)
  {
  }

  // --- The three strategies --------------------------------------------------------------------------

  /** Every version of the chain can be restated, and its last one is the head being joined. */
  ghost predicate IsFullyHeld(plan: Plan) {
    && (forall step | step in plan.chain :: step.reopenable)
    && (plan.chain != [] ==> plan.chain[|plan.chain| - 1] == plan.theirs)
  }

  /** What either head names and cannot be joined here is taken at its recorded root. */
  predicate CarriesTheRest(plan: Plan) {
    forall kind | kind in plan.head :: Names(plan, plan.theirs, kind)
  }

  lemma {:induction false} AllReplayable(chain: seq<ChainStep>)
    requires forall step | step in chain :: step.reopenable
    ensures Replayable(chain) == chain
  {
    if chain != [] {
      AllReplayable(chain[1..]);
    }
  }

  lemma StepsAre(plan: Plan, strategy: Strategy)
    requires IsFullyHeld(plan)
    ensures StepsOf(plan, strategy) == if strategy == Rebase && plan.chain != [] then plan.chain else [plan.theirs]
    ensures var steps := StepsOf(plan, strategy);
            steps[|steps| - 1] == plan.theirs
  {
    AllReplayable(plan.chain);
  }

  ghost predicate EndsTheSame(a: Version, b: Version) {
    forall kind | kind != Provenance :: RootIn(a, kind) == RootIn(b, kind)
  }

  ghost predicate Finishes(hash: Hash, plan: Plan, cascade: Cascade, strategy: Strategy) {
    Replayed(hash, plan, cascade, strategy).1.Ok?
  }

  function FinalOf(hash: Hash, plan: Plan, cascade: Cascade, strategy: Strategy): (r: Version)
    requires Replayed(hash, plan, cascade, strategy).1.Ok?
  {
    Replayed(hash, plan, cascade, strategy).1.value.modules
  }

  /** The version that a merge and a squash are joined with. */
  function JoinedBy(plan: Plan): (r: ChainStep) {
    StepsOf(plan, Merge)[0]
  }

  lemma OneStepIsJoined(plan: Plan, strategy: Strategy)
    requires strategy != Rebase
    ensures StepsOf(plan, strategy) == [JoinedBy(plan)]
  {
  }

  /**
   Merge and squash fail alike, and where they go through they end alike exactly when no history is recorded or
   every module of the head is one the join names.
   */
  lemma MergeEqualsSquashExactly(hash: Hash, plan: Plan, cascade: Cascade)
    ensures Finishes(hash, plan, cascade, Merge) <==> Finishes(hash, plan, cascade, Squash)
    ensures Finishes(hash, plan, cascade, Squash) ==>
              (EndsTheSame(FinalOf(hash, plan, cascade, Merge), FinalOf(hash, plan, cascade, Squash)) <==>
               plan.chain == []
               || forall kind | kind in plan.head && kind != Provenance :: Names(plan, JoinedBy(plan), kind))
  {
    hide ReplayFrom, LastRoot, Names, DropsEpisodes, StepsOf, JoinedBy;
    var joined := JoinedBy(plan);
    OneStepIsJoined(plan, Merge);
    OneStepIsJoined(plan, Squash);
    ReplayFaults(hash, plan, cascade, Merge, Start(plan), [joined]);
    ReplayFaults(hash, plan, cascade, Squash, Start(plan), [joined]);
    if Finishes(hash, plan, cascade, Squash) {
      forall kind | kind != Provenance
        ensures RootIn(FinalOf(hash, plan, cascade, Merge), kind) == RootIn(FinalOf(hash, plan, cascade, Squash), kind)
                <==> plan.chain == [] || Names(plan, joined, kind) || kind !in plan.head
      {
        ReplayModules(hash, plan, cascade, Merge, Start(plan), [joined], kind);
        ReplayModules(hash, plan, cascade, Squash, Start(plan), [joined], kind);
        OneStepNames(plan, joined, kind);
      }
    }
  }

  /** A history that ends with the head being joined. */
  predicate EndsAtTheHead(plan: Plan) {
    plan.chain != [] ==> plan.chain[|plan.chain| - 1] == plan.theirs
  }

  lemma {:induction false} LastReplayable(chain: seq<ChainStep>)
    ensures Replayable(chain) == [] <==> forall step | step in chain :: !step.reopenable
    ensures forall step | step in Replayable(chain) :: step in chain && step.reopenable
    ensures chain != [] && chain[|chain| - 1].reopenable ==>
              Replayable(chain) != [] && Replayable(chain)[|Replayable(chain)| - 1] == chain[|chain| - 1]
  {
    if chain != [] {
      LastReplayable(chain[1..]);
    }
  }

  /**
   Every strategy joins the head last exactly when the head can be reopened, or nothing of its history can.
   Otherwise an earlier version stands in for it.
   */
  lemma HeadIsJoinedExactly(plan: Plan, strategy: Strategy)
    requires EndsAtTheHead(plan)
    ensures var steps := StepsOf(plan, strategy);
            steps[|steps| - 1] == plan.theirs <==>
            plan.chain == [] || plan.theirs.reopenable || forall step | step in plan.chain :: !step.reopenable
  {
    LastReplayable(plan.chain);
  }

  /**
   A head of which one module did not arrive: the merge records it as a parent and joins the version before it,
   so what the head added to the module that did arrive is not there.
   */
  lemma OlderVersionStandsIn(hash: Hash, cascade: Cascade)
    ensures var early := ChainStep(map[Semantic := {1}], true);
            var head := ChainStep(map[Semantic := {1, 2}], false);
            var carried: Version := map[Procedural := Root({3})];
            var plan := Plan(map[], map[], map[], [early, head], head, map[], map[], map[], carried, {}, 0);
            && EndsAtTheHead(plan) && Finishes(hash, plan, cascade, Merge)
            && RootIn(FinalOf(hash, plan, cascade, Merge), Semantic) == Some(Root({1}))
            && RecordsLineage(plan, Merge, true)
  {
    hide ReplayFrom;
    var early := ChainStep(map[Semantic := {1}], true);
    var head := ChainStep(map[Semantic := {1, 2}], false);
    var carried: Version := map[Procedural := Root({3})];
    var plan := Plan(map[], map[], map[], [early, head], head, map[], map[], map[], carried, {}, 0);
    assert plan.chain[1..] == [head] && plan.chain[0] == early;
    assert Replayable([head]) == [];
    assert EndsAtTheHead(plan) && StepsOf(plan, Merge) == [early] by {
      assert Replayable(plan.chain) == [early];
    }
    assert !DropsEpisodes(plan.base, plan.ours, early.sides);
    ReplayFaults(hash, plan, cascade, Merge, Start(plan), [early]);
    ReplayModules(hash, plan, cascade, Merge, Start(plan), [early], Semantic);
    NothingWithheld(plan, cascade, early, Semantic);
  }

  lemma NothingWithheld(plan: Plan, cascade: Cascade, step: ChainStep, kind: MemoryType)
    requires kind !in plan.carried && kind !in plan.ours && kind in step.sides
    requires plan.refused == map[] && plan.cascaded == map[] && !DropsEpisodes(plan.base, plan.ours, step.sides)
    ensures LastRoot(plan, cascade, step, kind) == Some(Root(step.sides[kind]))
  {
    hide DropsEpisodes, MergeAll;
    MergeAllIs(plan.base, plan.ours, step.sides);
    var partial := MergeAll(plan.base, plan.ours, step.sides).value;
    assert partial[kind].members == step.sides[kind];
    assert Within(cascade(partial), plan.cascaded) == map[];
    assert partial[kind].members - In(plan.refused, kind) - In(map[], kind) == step.sides[kind];
  }

  lemma OneStepNames(plan: Plan, step: ChainStep, kind: MemoryType)
    ensures SomeStepNames(plan, [step], kind) <==> Names(plan, step, kind)
  {
    assert step in [step];
  }

  /** Nothing an earlier version holds is missing from what the head, or this brain, names. */
  predicate HeadNamesAll(plan: Plan) {
    forall step, kind | step in plan.chain && kind in step.sides && kind != Provenance :: Names(plan, plan.theirs, kind)
  }

  /** No version of the chain dropped an episode. */
  predicate KeepsEpisodes(plan: Plan) {
    forall step | step in plan.chain :: !DropsEpisodes(plan.base, plan.ours, step.sides)
  }

  lemma LaterNames(plan: Plan, kind: MemoryType)
    requires IsFullyHeld(plan) && CarriesTheRest(plan) && kind != Provenance && !Names(plan, plan.theirs, kind)
    ensures RootIn(plan.head, kind).None?
    ensures SomeStepNames(plan, plan.chain, kind) <==> exists step | step in plan.chain :: kind in step.sides
  {
  }

  /**
   A rebase goes through and ends with the membership of a squash, in every module but provenance, exactly when
   the squash goes through, no replayed version dropped an episode, and none held a module that neither the head
   nor this brain names.
   */
  lemma RebaseEqualsSquashExactly(hash: Hash, plan: Plan, cascade: Cascade)
    requires IsFullyHeld(plan) && CarriesTheRest(plan)
    ensures (Finishes(hash, plan, cascade, Rebase) && Finishes(hash, plan, cascade, Squash)
             && EndsTheSame(FinalOf(hash, plan, cascade, Rebase), FinalOf(hash, plan, cascade, Squash)))
            <==> Finishes(hash, plan, cascade, Squash) && KeepsEpisodes(plan) && HeadNamesAll(plan)
  {
    hide ReplayFrom, LastRoot, Names, DropsEpisodes, StepsOf, CarriesTheRest;
    StepsAre(plan, Rebase);
    StepsAre(plan, Squash);
    var steps := StepsOf(plan, Rebase);
    ReplayFaults(hash, plan, cascade, Rebase, Start(plan), steps);
    ReplayFaults(hash, plan, cascade, Squash, Start(plan), [plan.theirs]);
    RebaseFinishes(hash, plan, cascade);
    if Finishes(hash, plan, cascade, Squash) && Finishes(hash, plan, cascade, Rebase) {
      forall kind | kind != Provenance
        ensures RootIn(FinalOf(hash, plan, cascade, Rebase), kind) == RootIn(FinalOf(hash, plan, cascade, Squash), kind)
                <==> (Names(plan, plan.theirs, kind) || !exists step | step in plan.chain :: kind in step.sides)
      {
        ReplayModules(hash, plan, cascade, Rebase, Start(plan), steps, kind);
        ReplayModules(hash, plan, cascade, Squash, Start(plan), [plan.theirs], kind);
        OneStepNames(plan, plan.theirs, kind);
        if !Names(plan, plan.theirs, kind) {
          LaterNames(plan, kind);
        }
      }
      NamingIs(plan);
    }
  }

  lemma NamingIs(plan: Plan)
    ensures HeadNamesAll(plan) <==>
            forall kind | kind != Provenance ::
              Names(plan, plan.theirs, kind) || !exists step | step in plan.chain :: kind in step.sides
  {
    hide Names;
  }

  lemma RebaseFinishes(hash: Hash, plan: Plan, cascade: Cascade)
    requires IsFullyHeld(plan)
    ensures Finishes(hash, plan, cascade, Squash) ==> (Finishes(hash, plan, cascade, Rebase) <==> KeepsEpisodes(plan))
  {
    hide ReplayFrom, DropsEpisodes, StepsOf;
    StepsAre(plan, Rebase);
    StepsAre(plan, Squash);
    ReplayFaults(hash, plan, cascade, Rebase, Start(plan), StepsOf(plan, Rebase));
    ReplayFaults(hash, plan, cascade, Squash, Start(plan), [plan.theirs]);
    assert plan.theirs in [plan.theirs];
  }

  /** A module an earlier version held and the head dropped: the rebase keeps it, the squash never had it. */
  lemma DroppedModuleTellsThemApart(hash: Hash, cascade: Cascade)
    ensures var early := ChainStep(map[Semantic := {1}], true);
            var head := ChainStep(map[], true);
            var plan := Plan(map[], map[], map[], [early, head], head, map[], map[], map[], map[], {}, 0);
            Finishes(hash, plan, cascade, Rebase) && Finishes(hash, plan, cascade, Squash)
            && !EndsTheSame(FinalOf(hash, plan, cascade, Rebase), FinalOf(hash, plan, cascade, Squash))
  {
    hide ReplayFrom, StepsOf, EndsTheSame, Finishes, FinalOf;
    var early := ChainStep(map[Semantic := {1}], true);
    var head := ChainStep(map[], true);
    var plan := Plan(map[], map[], map[], [early, head], head, map[], map[], map[], map[], {}, 0);
    RebaseEqualsSquashExactly(hash, plan, cascade);
    assert early == plan.chain[0] && Semantic in early.sides && !Names(plan, plan.theirs, Semantic);
    assert !HeadNamesAll(plan);
    assert KeepsEpisodes(plan);
    SquashFinishes(hash, plan, cascade);
    RebaseFinishes(hash, plan, cascade);
  }

  lemma SquashFinishes(hash: Hash, plan: Plan, cascade: Cascade)
    requires IsFullyHeld(plan)
    ensures Finishes(hash, plan, cascade, Squash) <==> !DropsEpisodes(plan.base, plan.ours, plan.theirs.sides)
  {
    hide ReplayFrom, DropsEpisodes, StepsOf;
    StepsAre(plan, Squash);
    ReplayFaults(hash, plan, cascade, Squash, Start(plan), [plan.theirs]);
    assert plan.theirs in [plan.theirs];
  }
}
