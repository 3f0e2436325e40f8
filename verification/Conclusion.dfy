/** When a reconciliation writes nothing, and when it cannot be stopped by a block that is missing. */
module Conclusion {
  import opened Common
  import opened Documents
  import opened Hashing
  import opened Merging
  import opened Replay

  // --- Nothing missing -----------------------------------------------------------------------------

  lemma MergeInvents(kind: MemoryType, base: Option<set<Id>>, ours: Option<set<Id>>, theirs: Option<set<Id>>)
    requires MergeModule(kind, base, ours, theirs).Ok? && MergeModule(kind, base, ours, theirs).value.Some?
    ensures MergeModule(kind, base, ours, theirs).value.value.members <=
            (if ours.Some? then ours.value else {}) + (if theirs.Some? then theirs.value else {})
  {
  }

  lemma MergedModuleInvents(base: Sides, ours: Sides, theirs: Sides, kind: MemoryType, block: Id)
    requires MergeAll(base, ours, theirs).Ok? && kind in MergeAll(base, ours, theirs).value
    requires block in MergeAll(base, ours, theirs).value[kind].members
    ensures block in AllOf(ours) + AllOf(theirs)
  {
    hide MergeAll, MergeModule;
    MergeAllIs(base, ours, theirs);
    MergeInvents(kind, Side(base, kind), Side(ours, kind), Side(theirs, kind));
  }

  lemma VersionInvents(
    plan: Plan, cascaded: map<MemoryType, set<Id>>, partial: map<MemoryType, Merged>, authored: set<Id>,
    additions: set<Id>, block: Id)
    requires block in AllOf(WithAdditions(Reconciled(plan, cascaded, partial, authored), additions))
    ensures block in authored + additions || exists kind :: kind in partial && block in partial[kind].members
  {
    hide In;
    var reconciled := Reconciled(plan, cascaded, partial, authored);
    var members := WithAdditions(reconciled, additions);
    var kind :| kind in members && block in members[kind];
    assert kind in reconciled && kind in partial;
  }

  /** A version names what one of the two sides held, and what the reconciliation authored itself. */
  lemma StepInventsNothing(
    hash: Hash, plan: Plan, cascade: Cascade, strategy: Strategy, carry: Carry, step: ChainStep, last: bool)
    requires WriteStep(hash, plan, cascade, strategy, carry, step, last).Ok?
    ensures var (written, after) := WriteStep(hash, plan, cascade, strategy, carry, step, last).value;
            && AllOf(written.members) <= AllOf(plan.ours) + AllOf(step.sides) + after.authored
            && after.authored == carry.authored + AuthoredIn(hash, written)
  {
    hide MergeAll, Within, FreshRecords, IsSupported, References, RecordsLineage, IdsIn, AllOf, Reconciled,
         WithAdditions;
    var partial := MergeAll(plan.base, plan.ours, step.sides).value;
    var (written, after) := WriteStep(hash, plan, cascade, strategy, carry, step, last).value;
    forall block | block in AllOf(written.members)
      ensures block in AllOf(plan.ours) + AllOf(step.sides) + after.authored
    {
      VersionInvents(plan, written.cascaded, partial, carry.authored, AuthoredIn(hash, written), block);
      if block !in after.authored {
        var kind :| kind in partial && block in partial[kind].members;
        MergedModuleInvents(plan.base, plan.ours, step.sides, kind, block);
      }
    }
  }

  /** With the blocks of both sides at hand, every version that was worked out comes about. */
  lemma {:induction false} EverythingLands(
    hash: Hash, plan: Plan, cascade: Cascade, strategy: Strategy, carry: Carry, steps: seq<ChainStep>, held: set<Id>)
    requires AllOf(plan.ours) <= held && carry.authored <= held
    requires forall step | step in steps :: AllOf(step.sides) <= held
    ensures var written := ReplayFrom(hash, plan, cascade, strategy, carry, steps).0;
            Landed(hash, held, written) == written
    decreases |steps|
  {
    hide WriteStep, AllOf, AuthoredIn;
    if steps != [] && WriteStep(hash, plan, cascade, strategy, carry, steps[0], |steps| == 1).Ok? {
      var (one, after) := WriteStep(hash, plan, cascade, strategy, carry, steps[0], |steps| == 1).value;
      StepInventsNothing(hash, plan, cascade, strategy, carry, steps[0], |steps| == 1);
      assert steps[0] in steps;
      var known := held + AuthoredIn(hash, one);
      EverythingLands(hash, plan, cascade, strategy, after, steps[1..], known);
      var rest := ReplayFrom(hash, plan, cascade, strategy, after, steps[1..]).0;
      assert ([one] + rest)[1..] == rest;
    }
  }

  // --- Nothing to do ----------------------------------------------------------------------------------

  /** No decision let in a block that the gate had turned away. */
  predicate OverrulesNothing(plan: Plan, partial: map<MemoryType, Merged>) {
    forall kind, block | kind in partial && kind !in plan.carried && block in partial[kind].members
                         && block !in In(plan.cascaded, kind) && block in In(plan.turnedAway, kind)
      :: block in In(plan.refused, kind)
  }

  /** Every record it would write is in the joined provenance anyway, or provenance is not joined here. */
  predicate RecordsNothing(hash: Hash, plan: Plan, partial: map<MemoryType, Merged>) {
    Provenance in partial && Provenance !in plan.carried ==>
      IdsIn(hash, plan.precedence + FreshRecords(plan.cascaded, {}, plan.detail)) <=
      partial[Provenance].members - In(plan.refused, Provenance) - In(plan.cascaded, Provenance)
  }

  lemma WithinItself(cascaded: map<MemoryType, set<Id>>)
    ensures forall kind :: In(Within(cascaded, cascaded), kind) == In(cascaded, kind)
    ensures forall kind | kind in Within(cascaded, cascaded) ::
              kind in cascaded && cascaded[kind] == Within(cascaded, cascaded)[kind] != {}
    ensures forall kind | kind in cascaded && cascaded[kind] != {} :: kind in Within(cascaded, cascaded)
  {
    forall kind | kind in cascaded
      ensures cascaded[kind] * In(cascaded, kind) == cascaded[kind]
    {
    }
  }

  lemma SameRecords(cascaded: map<MemoryType, set<Id>>, detail: nat)
    ensures FreshRecords(Within(cascaded, cascaded), {}, detail) == FreshRecords(cascaded, {}, detail)
  {
    hide Within;
    WithinItself(cascaded);
    var within := Within(cascaded, cascaded);
    forall record
      ensures record in FreshRecords(within, {}, detail) <==> record in FreshRecords(cascaded, {}, detail)
    {
      if record in FreshRecords(within, {}, detail) {
        var kind :| kind in within && within[kind] - {} != {}
          && record == RemovalBlock(within[kind] - {}, kind, detail);
        assert kind in cascaded && cascaded[kind] - {} != {};
      }
      if record in FreshRecords(cascaded, {}, detail) {
        var kind :| kind in cascaded && cascaded[kind] - {} != {}
          && record == RemovalBlock(cascaded[kind] - {}, kind, detail);
        assert kind in within && within[kind] - {} != {};
      }
    }
  }

  lemma OneVersion(hash: Hash, plan: Plan, cascade: Cascade, strategy: Strategy)
    requires plan.chain == [] && MergeAll(plan.base, plan.ours, plan.theirs.sides).Ok?
    requires plan.cascaded == cascade(MergeAll(plan.base, plan.ours, plan.theirs.sides).value)
    ensures var partial := MergeAll(plan.base, plan.ours, plan.theirs.sides).value;
            var records := IdsIn(hash, plan.precedence + FreshRecords(plan.cascaded, {}, plan.detail));
            Replayed(hash, plan, cascade, strategy).1.Ok?
            && Replayed(hash, plan, cascade, strategy).1.value.modules ==
               plan.head + References(WithAdditions(Reconciled(plan, plan.cascaded, partial, {}), records),
                                      plan.carried)
  {
    hide MergeAll, References, WithAdditions, IsSupported, FreshRecords, IdsIn, In, Within, AllOf;
    var partial := MergeAll(plan.base, plan.ours, plan.theirs.sides).value;
    var within := Within(plan.cascaded, plan.cascaded);
    WithinItself(plan.cascaded);
    SameRecords(plan.cascaded, plan.detail);
    assert Reconciled(plan, within, partial, {}) == Reconciled(plan, plan.cascaded, partial, {});
    assert StepsOf(plan, strategy) == [plan.theirs];
    var carry := Start(plan);
    StepGoes(hash, plan, cascade, strategy, carry, plan.theirs, true, partial);
    ReplayStep(hash, plan, cascade, strategy, carry, [plan.theirs]);
    var (written, after) := WriteStep(hash, plan, cascade, strategy, carry, plan.theirs, true).value;
    assert [plan.theirs][1..] == [];
    ReplayEnd(hash, plan, cascade, strategy, after);
    assert written.settled == plan.precedence;
    assert !RecordsLineage(plan, strategy, true);
  }

  /** One module: what the replay would leave in it against what was expected of it. */
  lemma ModuleStaysExactly(joined: set<Id>, turnedAway: set<Id>, refused: set<Id>, cascaded: set<Id>, records: set<Id>)
    ensures joined - refused - cascaded + records == joined - turnedAway - cascaded - refused <==>
            (forall block | block in joined && block !in cascaded && block in turnedAway :: block in refused)
            && records <= joined - refused - cascaded
  {
    var left, right := joined - refused - cascaded + records, joined - turnedAway - cascaded - refused;
    if left == right {
      forall block | block in joined && block !in cascaded && block in turnedAway
        ensures block in refused
      {
        assert block !in right;
      }
      forall block | block in records
        ensures block in joined - refused - cascaded
      {
        assert block in left;
      }
    }
  }

  /** The head stays when every module that is joined comes out as the head has it. */
  lemma HeadStaysExactly(plan: Plan, members: map<MemoryType, set<Id>>)
    requires plan.head.Keys == members.Keys + plan.carried.Keys
    requires forall kind | kind in plan.carried :: plan.head[kind] == plan.carried[kind]
    ensures plan.head + References(members, plan.carried) == plan.head <==>
            forall kind | kind in members && kind !in plan.carried :: plan.head[kind] == Root(members[kind])
  {
    var version := plan.head + References(members, plan.carried);
    if version == plan.head {
      forall kind | kind in members && kind !in plan.carried
        ensures plan.head[kind] == Root(members[kind])
      {
        assert version[kind] == Root(members[kind]);
      }
    }
  }

  /**
   Writing nothing is right exactly when writing would have changed nothing: no decision admitted a block that the
   gate had turned away, and there is no record to write that provenance does not hold. It holds of any plan, those
   that are not coherent in the sense below included.
   */
  lemma StoppingEarlyIsRightExactly(hash: Hash, plan: Plan, cascade: Cascade, strategy: Strategy)
    requires IsSettledAlready(plan)
    requires plan.cascaded == cascade(MergeAll(plan.base, plan.ours, plan.theirs.sides).value)
    ensures var partial := MergeAll(plan.base, plan.ours, plan.theirs.sides).value;
            && Replayed(hash, plan, cascade, strategy).1.Ok?
            && (Replayed(hash, plan, cascade, strategy).1.value.modules == plan.head <==>
                OverrulesNothing(plan, partial) && RecordsNothing(hash, plan, partial))
  {
    hide MergeAll, Replayed, IdsIn, FreshRecords, In, References, OverrulesNothing, RecordsNothing;
    OneVersion(hash, plan, cascade, strategy);
    var partial := MergeAll(plan.base, plan.ours, plan.theirs.sides).value;
    var records := IdsIn(hash, plan.precedence + FreshRecords(plan.cascaded, {}, plan.detail));
    var members := WithAdditions(Reconciled(plan, plan.cascaded, partial, {}), records);
    HeadIsExpected(plan, partial);
    HeadStaysExactly(plan, members);
    forall kind | kind in partial && kind !in plan.carried
      ensures plan.head[kind] == Root(members[kind]) <==>
              AdmitsNothing(plan, partial, kind) && AddsNothing(plan, partial, records, kind)
    {
      ModuleStays(plan, partial, records, kind);
    }
    NothingChanges(hash, plan, partial);
  }

  predicate AdmitsNothing(plan: Plan, partial: map<MemoryType, Merged>, kind: MemoryType)
    requires kind in partial
  {
    forall block | block in partial[kind].members && block !in In(plan.cascaded, kind)
      && block in In(plan.turnedAway, kind)
      :: block in In(plan.refused, kind)
  }

  predicate AddsNothing(plan: Plan, partial: map<MemoryType, Merged>, records: set<Id>, kind: MemoryType)
    requires kind in partial
  {
    kind == Provenance ==> records <= partial[kind].members - In(plan.refused, kind) - In(plan.cascaded, kind)
  }

  lemma NothingChanges(hash: Hash, plan: Plan, partial: map<MemoryType, Merged>)
    ensures OverrulesNothing(plan, partial) && RecordsNothing(hash, plan, partial) <==>
            var records := IdsIn(hash, plan.precedence + FreshRecords(plan.cascaded, {}, plan.detail));
            forall kind | kind in partial && kind !in plan.carried ::
              AdmitsNothing(plan, partial, kind) && AddsNothing(plan, partial, records, kind)
  {
    hide IdsIn, FreshRecords, In;
  }

  lemma HeadIsExpected(plan: Plan, partial: map<MemoryType, Merged>)
    requires Expected(plan, partial) == plan.head
    ensures plan.head.Keys == partial.Keys + plan.carried.Keys
    ensures forall kind | kind in plan.carried :: plan.head[kind] == plan.carried[kind]
    ensures forall kind | kind in partial && kind !in plan.carried ::
              plan.head[kind] == Root(partial[kind].members - In(plan.turnedAway, kind) - In(plan.cascaded, kind)
                                      - In(plan.refused, kind))
  {
    hide In;
  }

  lemma ModuleStays(plan: Plan, partial: map<MemoryType, Merged>, records: set<Id>, kind: MemoryType)
    requires Expected(plan, partial) == plan.head && kind in partial && kind !in plan.carried
    ensures var members := WithAdditions(Reconciled(plan, plan.cascaded, partial, {}), records);
            && kind in plan.head && kind in members
            && (plan.head[kind] == Root(members[kind]) <==>
                AdmitsNothing(plan, partial, kind) && AddsNothing(plan, partial, records, kind))
  {
    hide In, Expected;
    HeadIsExpected(plan, partial);
    var members := WithAdditions(Reconciled(plan, plan.cascaded, partial, {}), records);
    var added := if kind == Provenance then records else {};
    assert members[kind] == partial[kind].members - In(plan.refused, kind) - In(plan.cascaded, kind) + added;
    ModuleStaysExactly(
      partial[kind].members, In(plan.turnedAway, kind), In(plan.refused, kind), In(plan.cascaded, kind), added);
  }

  /** With nothing above the ancestor, the other head is the ancestor. */
  predicate IsCoherent(plan: Plan) {
    plan.chain == [] ==> plan.base == plan.theirs.sides
  }

  /**
   A module to adopt, whose one block the gate turned away and somebody then admitted. The head names the module
   empty, and this brain does not have the composition of that version, which is why the module is not joined.
   */
  lemma AdmittedBlockIsForgotten(hash: Hash, strategy: Strategy)
    ensures var shared := map[Semantic := {1}];
            var plan := Plan(shared, map[], map[Semantic := Root({})], [], ChainStep(shared, true),
                             map[Semantic := {1}], map[], map[], map[], {}, 0);
            && IsCoherent(plan) && IsSettledAlready(plan)
            && Replayed(hash, plan, _ => map[], strategy).1.Ok?
            && Replayed(hash, plan, _ => map[], strategy).1.value.modules != plan.head
  {
    hide Replayed, MergeModule;
    var cascade: Cascade := _ => map[];
    var shared := map[Semantic := {1}];
    var plan := Plan(shared, map[], map[Semantic := Root({})], [], ChainStep(shared, true), map[Semantic := {1}],
                     map[], map[], map[], {}, 0);
    MergeAllIs(plan.base, plan.ours, plan.theirs.sides);
    OnlyTheirs();
    var partial := MergeAll(plan.base, plan.ours, plan.theirs.sides).value;
    assert partial == map[Semantic := Merged({1}, {}, {1}, true)];
    assert partial[Semantic].members - In(plan.turnedAway, Semantic) - In(plan.cascaded, Semantic)
           - In(plan.refused, Semantic) == {};
    StoppingEarlyIsRightExactly(hash, plan, cascade, strategy);
    assert 1 in partial[Semantic].members && 1 in In(plan.turnedAway, Semantic) && 1 !in In(plan.refused, Semantic);
  }

  lemma OnlyTheirs()
    ensures MergeModule(Semantic, Some({1}), None, Some({1})) == Ok(Some(Merged({1}, {}, {1}, true)))
  {
  }
}
