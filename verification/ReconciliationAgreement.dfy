/** Reconciler and verifier agree on removals: joining a history with its books in order keeps them in order. */
module ReconciliationAgreement {
  import opened Common
  import opened Documents
  import opened Hashing
  import opened Removals
  import opened Merging
  import opened Replay
  import opened Strategies
  import opened Bookkeeping

  // --- The other history --------------------------------------------------------------------------

  /** What the other history last said of each module, before a version of it. */
  function Before(base: Sides, previous: Sides): (r: Sides) {
    base + previous
  }

  /** A version of theirs that drops no module, no provenance, and nothing else without a record of it. */
  ghost predicate StepKeepsItsBooks(hash: Hash, base: Sides, previous: Sides, next: Sides) {
    && previous.Keys <= next.Keys && Provenance in next
    && (Provenance in base ==> base[Provenance] <= next[Provenance])
    && forall kind, block | kind in Before(base, previous) && kind in next
                            && block in Before(base, previous)[kind] && block !in next[kind]
         :: Explains(hash, next[Provenance], kind, block)
  }

  /** The versions of theirs that are joined with, each against the one before it and the first against the ancestor. */
  ghost predicate KeepsItsBooks(hash: Hash, base: Sides, previous: Sides, steps: seq<ChainStep>)
    decreases |steps|
  {
    steps == []
    || (StepKeepsItsBooks(hash, base, previous, steps[0].sides)
        && KeepsItsBooks(hash, base, steps[0].sides, steps[1..]))
  }

  // --- This side, and the plan ------------------------------------------------------------------------

  /**
   What the head names is read here or carried, provenance dropped nothing, and what is kept out is not ours and
   no removal record.
   */
  ghost predicate IsSoundPlan(hash: Hash, plan: Plan) {
    && Provenance !in plan.carried
    && (forall kind | kind in plan.head && kind !in plan.carried ::
          kind in plan.ours && plan.head[kind] == Root(plan.ours[kind]))
    && (Provenance in plan.base && Provenance in plan.ours ==> plan.base[Provenance] <= plan.ours[Provenance])
    && (forall kind | kind in plan.ours :: In(plan.refused, kind) !! plan.ours[kind])
    && (forall blocks, kind, detail ::
          hash.block(RemovalBlock(blocks, kind, detail)) !in In(plan.refused, Provenance)
            + In(plan.cascaded, Provenance))
  }

  // --- One version --------------------------------------------------------------------------------------

  /** What a version holds, less what the replay authored. */
  function Joined(plan: Plan, cascade: Cascade, step: ChainStep): (r: Sides)
    requires MergeAll(plan.base, plan.ours, step.sides).Ok?
  {
    var partial := MergeAll(plan.base, plan.ours, step.sides).value;
    Reconciled(plan, Within(cascade(partial), plan.cascaded), partial, {})
  }

  /** The blocks one version holds and the next does not. */
  predicate IsLostBetween(before: Version, after: Version, kind: MemoryType, block: Id) {
    && kind in before && before[kind].Root? && block in before[kind].members
    && (kind !in after || (after[kind].Root? && block !in after[kind].members))
  }

  /** A version that holds, in each module that is joined, these blocks and what was authored. */
  predicate Holding(plan: Plan, held: Sides, authored: set<Id>, version: Version) {
    forall kind | kind in version && kind !in plan.carried ::
      kind in held && version[kind] == Root(held[kind] + if kind == Provenance then authored else {})
  }

  /** A block that a join of one module would keep. */
  predicate CameFrom(base: Option<set<Id>>, ours: Option<set<Id>>, theirs: Option<set<Id>>, block: Id) {
    if ours.Some? && theirs.Some? then
      || (block in ours.value && block in theirs.value)
      || ((base.Some? ==> block !in base.value) && (block in ours.value || block in theirs.value))
    else (ours.Some? && block in ours.value) || (theirs.Some? && block in theirs.value)
  }

  lemma MergedCameFrom(
    kind: MemoryType, base: Option<set<Id>>, ours: Option<set<Id>>, theirs: Option<set<Id>>, merged: Merged, block: Id)
    requires MergeModule(kind, base, ours, theirs) == Ok(Some(merged)) && block in merged.members
    ensures CameFrom(base, ours, theirs, block)
  {
  }

  /** What a further join takes out of one module, the other history had taken out. */
  lemma LostByThem(
    kind: MemoryType, base: Option<set<Id>>, ours: Option<set<Id>>, previous: Option<set<Id>>, next: Option<set<Id>>,
    merged: Merged, block: Id)
    requires CameFrom(base, ours, previous, block) && (previous.Some? ==> next.Some?)
    requires MergeModule(kind, base, ours, next) == Ok(Some(merged)) && block !in merged.members
    ensures next.Some? && block !in next.value
    ensures if previous.Some? then block in previous.value else base.Some? && block in base.value
  {
  }

  /** Where this side stands before a step: what the last join left of both histories. */
  ghost predicate IsReached(plan: Plan, previous: Sides, held: Sides) {
    forall kind | kind in held && kind !in plan.carried ::
      && (kind in plan.ours || kind in previous)
      && forall block | block in held[kind] ::
           block !in In(plan.refused, kind)
           && CameFrom(Side(plan.base, kind), Side(plan.ours, kind), Side(previous, kind), block)
  }

  lemma OnlyTheirLosses(plan: Plan, previous: Sides, held: Sides, step: ChainStep, kind: MemoryType, block: Id)
    requires IsReached(plan, previous, held) && previous.Keys <= step.sides.Keys
    requires kind in held && kind !in plan.carried && block in held[kind]
    requires MergeAll(plan.base, plan.ours, step.sides).Ok?
    ensures kind in MergeAll(plan.base, plan.ours, step.sides).value
    ensures block !in MergeAll(plan.base, plan.ours, step.sides).value[kind].members ==>
              && kind in Before(plan.base, previous) && kind in step.sides
              && block in Before(plan.base, previous)[kind] && block !in step.sides[kind]
  {
    hide MergeAll, MergeModule, DropsEpisodes, In, CameFrom;
    MergeAllIs(plan.base, plan.ours, step.sides);
    var merged := MergeAll(plan.base, plan.ours, step.sides).value[kind];
    if block !in merged.members {
      LostByThem(kind, Side(plan.base, kind), Side(plan.ours, kind), Side(previous, kind), Side(step.sides, kind),
                 merged, block);
    }
  }

  /** Their removal records come through a join. */
  lemma TheirRecordsArrive(hash: Hash, plan: Plan, cascade: Cascade, previous: Sides, step: ChainStep)
    requires IsSoundPlan(hash, plan) && StepKeepsItsBooks(hash, plan.base, previous, step.sides)
    requires MergeAll(plan.base, plan.ours, step.sides).Ok?
    ensures Provenance in Joined(plan, cascade, step)
    ensures forall kind, block | Explains(hash, step.sides[Provenance], kind, block) ::
              Explains(hash, Joined(plan, cascade, step)[Provenance], kind, block)
  {
    hide MergeAll, DropsEpisodes, MergeModule, Within, In;
    MergeAllIs(plan.base, plan.ours, step.sides);
    var partial := MergeAll(plan.base, plan.ours, step.sides).value;
    WithinIsAccepted(cascade(partial), plan.cascaded, Provenance);
    forall block | block in step.sides[Provenance]
      ensures block in partial[Provenance].members
    {
      TheirProvenanceStays(plan, step, block);
    }
    forall kind, block | Explains(hash, step.sides[Provenance], kind, block)
      ensures Explains(hash, Joined(plan, cascade, step)[Provenance], kind, block)
    {
      var blocks, detail :| block in blocks && hash.block(RemovalBlock(blocks, kind, detail)) in step.sides[Provenance];
      assert hash.block(RemovalBlock(blocks, kind, detail)) in Joined(plan, cascade, step)[Provenance];
    }
  }

  lemma TheirProvenanceStays(plan: Plan, step: ChainStep, block: Id)
    requires MergeAll(plan.base, plan.ours, step.sides).Ok? && Provenance in step.sides
    requires Provenance in plan.base && Provenance in plan.ours ==> plan.base[Provenance] <= plan.ours[Provenance]
    requires block in step.sides[Provenance]
    ensures Provenance in MergeAll(plan.base, plan.ours, step.sides).value
    ensures block in MergeAll(plan.base, plan.ours, step.sides).value[Provenance].members
  {
    hide MergeAll, DropsEpisodes;
    MergeAllIs(plan.base, plan.ours, step.sides);
    if Provenance in plan.ours {
      MergeIsThreeWay(Provenance, Side(plan.base, Provenance), plan.ours[Provenance], step.sides[Provenance], block);
    }
  }

  lemma WithinIsAccepted(cascaded: map<MemoryType, set<Id>>, accepted: map<MemoryType, set<Id>>, kind: MemoryType)
    ensures In(Within(cascaded, accepted), kind) <= In(accepted, kind)
  {
  }

  /** After a step, this side stands where the step says. */
  lemma ReachesNext(plan: Plan, cascade: Cascade, step: ChainStep)
    requires MergeAll(plan.base, plan.ours, step.sides).Ok?
    ensures IsReached(plan, step.sides, Joined(plan, cascade, step))
  {
    hide MergeAll, MergeModule, DropsEpisodes, In, Within, CameFrom;
    MergeAllIs(plan.base, plan.ours, step.sides);
    var partial := MergeAll(plan.base, plan.ours, step.sides).value;
    var joined := Joined(plan, cascade, step);
    forall kind, block | kind in joined && block in joined[kind]
      ensures CameFrom(Side(plan.base, kind), Side(plan.ours, kind), Side(step.sides, kind), block)
    {
      MergedCameFrom(kind, Side(plan.base, kind), Side(plan.ours, kind), Side(step.sides, kind), partial[kind], block);
    }
  }

  lemma ReachedAtStart(hash: Hash, plan: Plan)
    requires IsSoundPlan(hash, plan)
    ensures IsReached(plan, map[], plan.ours) && Holding(plan, plan.ours, {}, plan.head)
  {
    hide In;
  }

  lemma MembersSplit(
    plan: Plan, cascaded: map<MemoryType, set<Id>>, partial: map<MemoryType, Merged>, authored: set<Id>,
    additions: set<Id>, kind: MemoryType)
    ensures var members := WithAdditions(Reconciled(plan, cascaded, partial, authored), additions);
            && (kind in members <==> kind in partial)
            && (kind in Reconciled(plan, cascaded, partial, {}) <==> kind in partial)
            && (kind in partial ==>
                  members[kind] == Reconciled(plan, cascaded, partial, {})[kind]
                                   + if kind == Provenance then authored + additions else {})
  {
    hide In;
  }

  /** A version names each module that is joined as the step has it, and no other that was not there before. */
  lemma StepVersion(
    hash: Hash, plan: Plan, cascade: Cascade, strategy: Strategy, carry: Carry, step: ChainStep, last: bool,
    kind: MemoryType)
    requires WriteStep(hash, plan, cascade, strategy, carry, step, last).Ok? && HasProvenance(plan, [step])
    requires kind !in plan.carried
    ensures MergeAll(plan.base, plan.ours, step.sides).Ok?
    ensures var (written, after) := WriteStep(hash, plan, cascade, strategy, carry, step, last).value;
            var joined := Joined(plan, cascade, step);
            && written.version == after.modules
            && (kind in joined ==>
                  && kind in written.members && kind in after.modules
                  && written.members[kind] == joined[kind] + (if kind == Provenance then after.authored else {})
                  && after.modules[kind] == Root(written.members[kind]))
            && (kind in after.modules && kind !in joined ==> kind in carry.modules)
  {
    hide MergeAll, WriteStep, Within, FreshRecords, IdsIn, AllOf, References, WithAdditions, Reconciled, HasProvenance;
    StepParts(hash, plan, cascade, strategy, carry, step, last);
    StepHoldsAuthored(hash, plan, cascade, strategy, carry, step, last);
    var (written, after) := WriteStep(hash, plan, cascade, strategy, carry, step, last).value;
    var partial := MergeAll(plan.base, plan.ours, step.sides).value;
    MembersSplit(plan, written.cascaded, partial, carry.authored, IdsIn(hash, written.settled + written.recorded),
                 kind);
    ReferencesIn(written.members, plan.carried, kind);
    RootOver(carry.modules, References(written.members, plan.carried), kind);
  }

  lemma JoinedIs(plan: Plan, cascade: Cascade, step: ChainStep)
    requires MergeAll(plan.base, plan.ours, step.sides).Ok?
    ensures Joined(plan, cascade, step).Keys == plan.ours.Keys + step.sides.Keys
  {
    hide MergeAll, DropsEpisodes, In, Within;
    MergeAllIs(plan.base, plan.ours, step.sides);
  }

  /** What the step leaves it holding. */
  lemma StepHolds(
    hash: Hash, plan: Plan, cascade: Cascade, strategy: Strategy, carry: Carry, step: ChainStep, last: bool,
    previous: Sides, held: Sides)
    requires WriteStep(hash, plan, cascade, strategy, carry, step, last).Ok? && HasProvenance(plan, [step])
    requires Holding(plan, held, carry.authored, carry.modules) && IsReached(plan, previous, held)
    requires previous.Keys <= step.sides.Keys
    ensures MergeAll(plan.base, plan.ours, step.sides).Ok?
    ensures var after := WriteStep(hash, plan, cascade, strategy, carry, step, last).value.1;
            Holding(plan, Joined(plan, cascade, step), after.authored, after.modules)
  {
    hide MergeAll, WriteStep, Joined, HasProvenance, IsReached;
    StepParts(hash, plan, cascade, strategy, carry, step, last);
    JoinedIs(plan, cascade, step);
    var (written, after) := WriteStep(hash, plan, cascade, strategy, carry, step, last).value;
    forall kind | kind in after.modules && kind !in plan.carried
      ensures kind in Joined(plan, cascade, step)
              && after.modules[kind] == Root(Joined(plan, cascade, step)[kind]
                                             + if kind == Provenance then after.authored else {})
    {
      StepVersion(hash, plan, cascade, strategy, carry, step, last, kind);
      if kind !in Joined(plan, cascade, step) {
        HeldIsNamed(plan, previous, held, step, kind);
      }
    }
  }

  /** What a step keeps of a module: what the join left, less what is kept out. */
  lemma JoinedMembers(plan: Plan, cascade: Cascade, step: ChainStep, kind: MemoryType, block: Id)
    requires MergeAll(plan.base, plan.ours, step.sides).Ok? && kind in Joined(plan, cascade, step)
    ensures var partial := MergeAll(plan.base, plan.ours, step.sides).value;
            && kind in partial
            && (block in Joined(plan, cascade, step)[kind] <==>
                block in partial[kind].members && block !in In(plan.refused, kind)
                && block !in In(Within(cascade(partial), plan.cascaded), kind))
  {
    hide MergeAll, In, Within;
  }

  /** A block that the step drops was let go by them, or taken along by the cascade. Either way it is on record. */
  lemma LossIsOnRecord(
    hash: Hash, plan: Plan, cascade: Cascade, strategy: Strategy, carry: Carry, step: ChainStep, last: bool,
    home: Id -> MemoryType, previous: Sides, held: Sides, kind: MemoryType, block: Id)
    requires WriteStep(hash, plan, cascade, strategy, carry, step, last).Ok? && HasProvenance(plan, [step])
    requires IsSoundPlan(hash, plan) && StepKeepsItsBooks(hash, plan.base, previous, step.sides)
    requires IsHomed(cascade, home) && IsExplained(hash, home, carry) && IsReached(plan, previous, held)
    requires kind !in plan.carried && kind in held && block in held[kind]
    requires MergeAll(plan.base, plan.ours, step.sides).Ok?
    requires kind in Joined(plan, cascade, step) && block !in Joined(plan, cascade, step)[kind]
    ensures Explains(hash, ProvenanceOf(WriteStep(hash, plan, cascade, strategy, carry, step, last).value.0), kind,
                     block)
  {
    hide MergeAll, WriteStep, IsHomed, Explains, IsSoundPlan, Joined, HasProvenance, Within, FreshRecords, References,
         WithAdditions, Reconciled, IdsIn, AllOf, CameFrom;
    var (written, after) := WriteStep(hash, plan, cascade, strategy, carry, step, last).value;
    assert Provenance !in plan.carried by { NotCarried(hash, plan); }
    StepVersion(hash, plan, cascade, strategy, carry, step, last, Provenance);
    TheirRecordsArrive(hash, plan, cascade, previous, step);
    JoinedMembers(plan, cascade, step, kind, block);
    if block in MergeAll(plan.base, plan.ours, step.sides).value[kind].members {
      StepParts(hash, plan, cascade, strategy, carry, step, last);
      StepExplains(hash, plan, cascade, strategy, carry, step, last, home);
      assert block in after.cascaded && home(block) == kind;
      MoreRecordsExplainMore(hash, after.authored, ProvenanceOf(written), kind, block);
    } else {
      OnlyTheirLosses(plan, previous, held, step, kind, block);
      MoreRecordsExplainMore(hash, Joined(plan, cascade, step)[Provenance], ProvenanceOf(written), kind, block);
    }
  }

  lemma NotCarried(hash: Hash, plan: Plan)
    requires IsSoundPlan(hash, plan)
    ensures Provenance !in plan.carried
  {
  }

  /** Whatever a version lets go of is named, under its module, by a removal record among its own provenance. */
  lemma StepIsOnRecord(
    hash: Hash, plan: Plan, cascade: Cascade, strategy: Strategy, carry: Carry, step: ChainStep, last: bool,
    home: Id -> MemoryType, previous: Sides, held: Sides, kind: MemoryType, block: Id)
    requires WriteStep(hash, plan, cascade, strategy, carry, step, last).Ok? && HasProvenance(plan, [step])
    requires IsSoundPlan(hash, plan) && StepKeepsItsBooks(hash, plan.base, previous, step.sides)
    requires IsHomed(cascade, home) && IsExplained(hash, home, carry)
    requires Holding(plan, held, carry.authored, carry.modules) && IsReached(plan, previous, held)
    requires kind !in plan.carried
    requires var version := WriteStep(hash, plan, cascade, strategy, carry, step, last).value.0.version;
             IsLostBetween(carry.modules, version, kind, block)
    ensures Explains(hash, ProvenanceOf(WriteStep(hash, plan, cascade, strategy, carry, step, last).value.0), kind,
                     block)
  {
    hide MergeAll, WriteStep, IsHomed, IsExplained, Explains, IsReached, IsSoundPlan, Joined, HasProvenance, IdsIn,
         AllOf;
    StepVersion(hash, plan, cascade, strategy, carry, step, last, kind);
    StepHoldsAuthored(hash, plan, cascade, strategy, carry, step, last);
    JoinedIs(plan, cascade, step);
    HeldIsNamed(plan, previous, held, step, kind);
    LossIsOnRecord(hash, plan, cascade, strategy, carry, step, last, home, previous, held, kind, block);
  }

  lemma HeldIsNamed(plan: Plan, previous: Sides, held: Sides, step: ChainStep, kind: MemoryType)
    requires IsReached(plan, previous, held) && previous.Keys <= step.sides.Keys && kind in held
             && kind !in plan.carried
    ensures kind in plan.ours.Keys + step.sides.Keys
  {
  }

  // --- The whole replay -------------------------------------------------------------------------------

  function VersionBefore(first: Version, written: seq<Written>, k: nat): (r: Version)
    requires k < |written|
  {
    if k == 0 then first else written[k - 1].version
  }

  /** Version by version, what was lost is on record in the version that lost it. */
  ghost predicate LossesAreOnRecord(hash: Hash, plan: Plan, first: Version, written: seq<Written>) {
    forall k, kind, block | 0 <= k < |written| && kind !in plan.carried
                            && IsLostBetween(VersionBefore(first, written, k), written[k].version, kind, block)
      :: Explains(hash, ProvenanceOf(written[k]), kind, block)
  }

  lemma OneMoreOnRecord(hash: Hash, plan: Plan, first: Version, one: Written, rest: seq<Written>)
    requires LossesAreOnRecord(hash, plan, one.version, rest)
    requires forall kind, block | kind !in plan.carried && IsLostBetween(first, one.version, kind, block) ::
               Explains(hash, ProvenanceOf(one), kind, block)
    ensures LossesAreOnRecord(hash, plan, first, [one] + rest)
  {
    hide IsLostBetween, Explains;
    var all := [one] + rest;
    forall k, kind, block | 0 <= k < |all| && kind !in plan.carried
                            && IsLostBetween(VersionBefore(first, all, k), all[k].version, kind, block)
      ensures Explains(hash, ProvenanceOf(all[k]), kind, block)
    {
      if k > 0 {
        assert all[k] == rest[k - 1];
        assert VersionBefore(first, all, k) == VersionBefore(one.version, rest, k - 1);
      }
    }
  }

  lemma {:induction false} ReplayIsOnRecord(
    hash: Hash, plan: Plan, cascade: Cascade, strategy: Strategy, carry: Carry, steps: seq<ChainStep>,
    home: Id -> MemoryType, previous: Sides, held: Sides)
    requires ReplayFrom(hash, plan, cascade, strategy, carry, steps).1.Ok? && HasProvenance(plan, steps)
    requires IsSoundPlan(hash, plan) && KeepsItsBooks(hash, plan.base, previous, steps)
    requires IsHomed(cascade, home) && IsExplained(hash, home, carry)
    requires Holding(plan, held, carry.authored, carry.modules) && IsReached(plan, previous, held)
    ensures LossesAreOnRecord(hash, plan, carry.modules, ReplayFrom(hash, plan, cascade, strategy, carry, steps).0)
    decreases |steps|
  {
    hide WriteStep, IsSoundPlan, IsHomed, IsExplained, Holding, IsReached, IsLostBetween, Explains, Joined, MergeAll,
         StepKeepsItsBooks, LossesAreOnRecord;
    if steps == [] {
      NothingIsLost(hash, plan, carry.modules);
    } else {
      var last := |steps| == 1;
      var (one, after) := WriteStep(hash, plan, cascade, strategy, carry, steps[0], last).value;
      assert HasProvenance(plan, [steps[0]]);
      BooksNameModules(hash, plan.base, previous, steps[0].sides);
      StepHolds(hash, plan, cascade, strategy, carry, steps[0], last, previous, held);
      StepExplains(hash, plan, cascade, strategy, carry, steps[0], last, home);
      ReachesNext(plan, cascade, steps[0]);
      ReplayIsOnRecord(
        hash, plan, cascade, strategy, after, steps[1..], home, steps[0].sides, Joined(plan, cascade, steps[0]));
      forall kind, block | kind !in plan.carried && IsLostBetween(carry.modules, one.version, kind, block)
        ensures Explains(hash, ProvenanceOf(one), kind, block)
      {
        StepIsOnRecord(hash, plan, cascade, strategy, carry, steps[0], last, home, previous, held, kind, block);
      }
      StepParts(hash, plan, cascade, strategy, carry, steps[0], last);
      OneMoreOnRecord(
        hash, plan, carry.modules, one, ReplayFrom(hash, plan, cascade, strategy, after, steps[1..]).0);
    }
  }

  lemma NothingIsLost(hash: Hash, plan: Plan, first: Version)
    ensures LossesAreOnRecord(hash, plan, first, [])
  {
  }

  lemma BooksNameModules(hash: Hash, base: Sides, previous: Sides, next: Sides)
    requires StepKeepsItsBooks(hash, base, previous, next)
    ensures previous.Keys <= next.Keys
  {
  }

  // --- What the check says of it -------------------------------------------------------------------------

  /** A snapshot that names these modules at these roots. */
  predicate IsVersion(snapshot: Snapshot, version: Version) {
    snapshot.modules.Keys == version.Keys && forall kind | kind in version ::
      snapshot.modules[kind].root == version[kind]
  }

  /**
   One version against the one before it: its provenance can be read, and a module that was adopted by its root
   alone stood at that root already or could not be read before.
   */
  ghost predicate IsCheckable(
    docs: map<Id, Document>, plan: Plan, parent: Snapshot, child: Snapshot, written: Written)
  {
    && child.FirstParent() == Some(parent.digest) && IsVersion(child, written.version)
    && Provenance in child.modules && ReadComposition(docs, child.modules[Provenance]).Some?
    && (forall id | id in ProvenanceOf(written) :: id in docs)
    && forall kind | kind in plan.carried && kind in parent.modules && kind in child.modules ::
         parent.modules[kind].root == child.modules[kind].root || ReadComposition(docs, parent.modules[kind]).None?
  }

  lemma ExplainedIsRecorded(
    hash: Hash, meaning: Id -> Document, docs: map<Id, Document>, records: set<Id>, kind: MemoryType, block: Id)
    requires IsFaithful(hash, meaning) && Holds(docs, meaning) && Explains(hash, records, kind, block)
    requires forall id | id in records :: id in docs
    ensures IsRecordedIn(docs, records, kind, block)
  {
    var blocks, detail :| block in blocks && hash.block(RemovalBlock(blocks, kind, detail)) in records;
    var id := hash.block(RemovalBlock(blocks, kind, detail));
    assert docs[id] == meaning(id) == BlockDoc(RemovalBlock(blocks, kind, detail));
    assert RecordsRemovalOf(docs, id, kind, block);
  }

  lemma LostInTheCheck(docs: map<Id, Document>, before: Version, after: Version, parent: Snapshot, child: Snapshot,
                       kind: MemoryType, block: Id)
    requires IsVersion(parent, before) && IsVersion(child, after) && kind in parent.modules
    requires ChangeOf(docs, parent.modules, child.modules, kind).Lost?
    requires block in ChangeOf(docs, parent.modules, child.modules, kind).blocks
    ensures IsLostBetween(before, after, kind, block)
    ensures kind in child.modules ==>
              parent.modules[kind].root != child.modules[kind].root && ReadComposition(docs, parent.modules[kind]).Some?
  {
  }

  lemma OneVersionIsAccepted(
    hash: Hash, meaning: Id -> Document, docs: map<Id, Document>, plan: Plan, before: Version, written: Written,
    parent: Snapshot, child: Snapshot)
    requires IsFaithful(hash, meaning) && Holds(docs, meaning)
    requires IsVersion(parent, before) && IsCheckable(docs, plan, parent, child, written)
    requires NamesItsModules(plan, written)
    requires forall kind, block | kind !in plan.carried && IsLostBetween(before, written.version, kind, block) ::
               Explains(hash, ProvenanceOf(written), kind, block)
    ensures Checked(docs, child, Some(parent)).IsValid()
  {
    hide IsFaithful, Holds, ChangeOf, IsLostBetween, Explains, Checked, IsRecordedIn, Ledger, ProvenanceOf;
    AcceptedMeansRecorded(docs, child, parent);
    LedgerIsProvenance(docs, plan, parent, child, written);
    forall kind, block | kind in parent.modules && ChangeOf(docs, parent.modules, child.modules, kind).Lost?
                         && block in ChangeOf(docs, parent.modules, child.modules, kind).blocks
      ensures IsRecorded(docs, child.modules, kind, block)
    {
      LostInTheCheck(docs, before, written.version, parent, child, kind, block);
      if kind !in plan.carried {
        ExplainedIsRecorded(hash, meaning, docs, ProvenanceOf(written), kind, block);
      }
    }
  }

  /** A version names what was carried, and its provenance by the root of what it holds. */
  predicate NamesItsModules(plan: Plan, written: Written) {
    && (forall kind | kind in plan.carried :: kind in written.version)
    && Provenance in written.version && written.version[Provenance] == Root(ProvenanceOf(written))
  }

  lemma LedgerIsProvenance(docs: map<Id, Document>, plan: Plan, parent: Snapshot, child: Snapshot, written: Written)
    requires IsCheckable(docs, plan, parent, child, written) && NamesItsModules(plan, written)
    ensures Ledger(docs, child.modules) == ProvenanceOf(written)
  {
  }

  lemma StepNamesItsModules(
    hash: Hash, plan: Plan, cascade: Cascade, strategy: Strategy, carry: Carry, step: ChainStep, last: bool)
    requires WriteStep(hash, plan, cascade, strategy, carry, step, last).Ok? && HasProvenance(plan, [step])
    requires Provenance !in plan.carried
    ensures NamesItsModules(plan, WriteStep(hash, plan, cascade, strategy, carry, step, last).value.0)
  {
    hide MergeAll, WriteStep, Joined, WithAdditions, Reconciled, Within, FreshRecords, IdsIn, HasProvenance;
    StepVersion(hash, plan, cascade, strategy, carry, step, last, Provenance);
    StepParts(hash, plan, cascade, strategy, carry, step, last);
    StepHasProvenance(plan, step);
    JoinedIs(plan, cascade, step);
  }

  lemma StepHasProvenance(plan: Plan, step: ChainStep)
    requires HasProvenance(plan, [step])
    ensures Provenance in plan.ours.Keys + step.sides.Keys
  {
    assert step in [step];
  }

  lemma {:induction false} VersionsNameTheirModules(
    hash: Hash, plan: Plan, cascade: Cascade, strategy: Strategy, carry: Carry, steps: seq<ChainStep>)
    requires HasProvenance(plan, steps) && Provenance !in plan.carried
    ensures forall written | written in ReplayFrom(hash, plan, cascade, strategy, carry, steps).0 ::
              NamesItsModules(plan, written)
    decreases |steps|
  {
    hide WriteStep, NamesItsModules;
    if steps != [] && WriteStep(hash, plan, cascade, strategy, carry, steps[0], |steps| == 1).Ok? {
      var (one, after) := WriteStep(hash, plan, cascade, strategy, carry, steps[0], |steps| == 1).value;
      assert HasProvenance(plan, [steps[0]]);
      StepNamesItsModules(hash, plan, cascade, strategy, carry, steps[0], |steps| == 1);
      VersionsNameTheirModules(hash, plan, cascade, strategy, after, steps[1..]);
      var rest := ReplayFrom(hash, plan, cascade, strategy, after, steps[1..]).0;
      assert forall written :: written in [one] + rest <==> written == one || written in rest;
    }
  }

  /**
   Joining a history whose versions each account for what they removed, every version the reconciliation writes,
   by any strategy, passes the removal check against the version before it, the head being the first.
   */
  lemma ReconciliationIsAccepted(
    hash: Hash, meaning: Id -> Document, docs: map<Id, Document>, plan: Plan, cascade: Cascade, strategy: Strategy,
    home: Id -> MemoryType, k: nat, parent: Snapshot, child: Snapshot)
    requires IsFaithful(hash, meaning) && Holds(docs, meaning)
    requires Finishes(hash, plan, cascade, strategy) && IsHomed(cascade, home)
    requires IsSoundPlan(hash, plan) && KeepsItsBooks(hash, plan.base, map[], StepsOf(plan, strategy))
    requires k < |Replayed(hash, plan, cascade, strategy).0|
    requires var written := Replayed(hash, plan, cascade, strategy).0;
             IsVersion(parent, VersionBefore(plan.head, written, k))
               && IsCheckable(docs, plan, parent, child, written[k])
    ensures Checked(docs, child, Some(parent)).IsValid()
  {
    hide IsFaithful, Holds, ReplayFrom, IsSoundPlan, KeepsItsBooks, IsHomed, StepsOf, IsLostBetween, Explains, Checked,
         IsVersion, IsCheckable, IsReached, Holding, HasProvenance, NamesItsModules;
    var steps := StepsOf(plan, strategy);
    BooksNameProvenance(hash, plan, map[], steps);
    ReachedAtStart(hash, plan);
    ReplayIsOnRecord(hash, plan, cascade, strategy, Start(plan), steps, home, map[], plan.ours);
    NotCarried(hash, plan);
    VersionsNameTheirModules(hash, plan, cascade, strategy, Start(plan), steps);
    var written := Replayed(hash, plan, cascade, strategy).0;
    OneVersionIsAccepted(hash, meaning, docs, plan, VersionBefore(plan.head, written, k), written[k], parent, child);
  }

  lemma {:induction false} BooksNameProvenance(hash: Hash, plan: Plan, previous: Sides, steps: seq<ChainStep>)
    requires KeepsItsBooks(hash, plan.base, previous, steps)
    ensures HasProvenance(plan, steps)
    decreases |steps|
  {
    hide Explains;
    if steps != [] {
      BooksNameProvenance(hash, plan, steps[0].sides, steps[1..]);
      assert forall step :: step in steps <==> step == steps[0] || step in steps[1..];
    }
  }
}
