/** What a replay keeps on record, version by version. */
module Bookkeeping {
  import opened Common
  import opened Documents
  import opened Hashing
  import opened Merging
  import opened Replay
  import opened Strategies

  /** Some removal record among these addresses names the block, under its module. */
  ghost predicate Explains(hash: Hash, records: set<Id>, kind: MemoryType, block: Id) {
    exists blocks, detail :: block in blocks && hash.block(RemovalBlock(blocks, kind, detail)) in records
  }

  lemma MoreRecordsExplainMore(hash: Hash, fewer: set<Id>, more: set<Id>, kind: MemoryType, block: Id)
    requires fewer <= more && Explains(hash, fewer, kind, block)
    ensures Explains(hash, more, kind, block)
  {
    var blocks, detail :| block in blocks && hash.block(RemovalBlock(blocks, kind, detail)) in fewer;
    assert hash.block(RemovalBlock(blocks, kind, detail)) in more;
  }

  /** A block belongs to one module, so a cascade never takes it from two. */
  ghost predicate IsHomed(cascade: Cascade, home: Id -> MemoryType) {
    forall partial: map<MemoryType, Merged>, kind, block ::
      kind in cascade(partial) && block in cascade(partial)[kind] ==> home(block) == kind
  }

  /** Everything cascaded so far is explained by what was authored so far. */
  ghost predicate IsExplained(hash: Hash, home: Id -> MemoryType, carry: Carry) {
    forall block | block in carry.cascaded :: Explains(hash, carry.authored, home(block), block)
  }

  /** The provenance module is among the members of every version. */
  predicate HasProvenance(plan: Plan, steps: seq<ChainStep>) {
    forall step | step in steps :: Provenance in plan.ours || Provenance in step.sides
  }

  function ProvenanceOf(written: Written): (r: set<Id>) {
    In(written.members, Provenance)
  }

  // --- One version --------------------------------------------------------------------------------

  lemma WithinIsNarrower(cascaded: map<MemoryType, set<Id>>, accepted: map<MemoryType, set<Id>>)
    ensures forall kind | kind in Within(cascaded, accepted) ::
              kind in cascaded && Within(cascaded, accepted)[kind] <= cascaded[kind]
  {
  }

  lemma FreshExplains(
    hash: Hash, cascaded: map<MemoryType, set<Id>>, known: set<Id>, detail: nat, settled: set<Block>, kind: MemoryType,
    block: Id)
    requires kind in cascaded && block in cascaded[kind] && block !in known
    ensures Explains(hash, IdsIn(hash, settled + FreshRecords(cascaded, known, detail)), kind, block)
  {
    var blocks := cascaded[kind] - known;
    assert block in blocks;
    assert RemovalBlock(blocks, kind, detail) in FreshRecords(cascaded, known, detail);
    assert RemovalBlock(blocks, kind, detail) in settled + FreshRecords(cascaded, known, detail);
  }

  /** What a version's provenance holds: everything authored up to and including it. */
  lemma StepHoldsAuthored(
    hash: Hash, plan: Plan, cascade: Cascade, strategy: Strategy, carry: Carry, step: ChainStep, last: bool)
    requires WriteStep(hash, plan, cascade, strategy, carry, step, last).Ok? && HasProvenance(plan, [step])
    ensures var (written, after) := WriteStep(hash, plan, cascade, strategy, carry, step, last).value;
            && after.authored == carry.authored + IdsIn(hash, written.settled + written.recorded)
            && after.authored <= ProvenanceOf(written)
            && after.cascaded == carry.cascaded + AllOf(written.cascaded)
  {
    hide MergeModule, IsSupported, Within, FreshRecords, MergeAll, DropsEpisodes, References, RecordsLineage, IdsIn,
         AllOf;
    MergeAllIs(plan.base, plan.ours, step.sides);
    assert step in [step];
  }

  lemma StepExplains(
    hash: Hash, plan: Plan, cascade: Cascade, strategy: Strategy, carry: Carry, step: ChainStep, last: bool,
    home: Id -> MemoryType)
    requires WriteStep(hash, plan, cascade, strategy, carry, step, last).Ok? && HasProvenance(plan, [step])
    requires IsHomed(cascade, home) && IsExplained(hash, home, carry)
    ensures var (written, after) := WriteStep(hash, plan, cascade, strategy, carry, step, last).value;
            && IsExplained(hash, home, after)
            && forall kind, block | kind in written.cascaded && block in written.cascaded[kind] ::
                 home(block) == kind && block in after.cascaded
  {
    hide WriteStep, IsHomed, Explains, HasProvenance;
    var (written, after) := WriteStep(hash, plan, cascade, strategy, carry, step, last).value;
    StepHoldsAuthored(hash, plan, cascade, strategy, carry, step, last);
    StepCascade(hash, plan, cascade, strategy, carry, step, last, home);
    forall block | block in after.cascaded
      ensures Explains(hash, after.authored, home(block), block)
    {
      if block in carry.cascaded {
        MoreRecordsExplainMore(hash, carry.authored, after.authored, home(block), block);
      } else {
        var kind :| kind in written.cascaded && block in written.cascaded[kind];
        FreshExplains(hash, written.cascaded, carry.cascaded, plan.detail, written.settled, kind, block);
        MoreRecordsExplainMore(hash, IdsIn(hash, written.settled + written.recorded), after.authored, kind, block);
      }
    }
  }

  lemma StepCascade(
    hash: Hash, plan: Plan, cascade: Cascade, strategy: Strategy, carry: Carry, step: ChainStep, last: bool,
    home: Id -> MemoryType)
    requires WriteStep(hash, plan, cascade, strategy, carry, step, last).Ok? && IsHomed(cascade, home)
    ensures var written := WriteStep(hash, plan, cascade, strategy, carry, step, last).value.0;
            && written.recorded == FreshRecords(written.cascaded, carry.cascaded, plan.detail)
            && forall kind, block | kind in written.cascaded && block in written.cascaded[kind] :: home(block) == kind
  {
    hide MergeModule, IsSupported, FreshRecords, MergeAll, References, RecordsLineage, IdsIn, AllOf, WithAdditions,
         Reconciled;
    var partial := MergeAll(plan.base, plan.ours, step.sides).value;
    WithinIsNarrower(cascade(partial), plan.cascaded);
  }

  // --- The whole replay ------------------------------------------------------------------------------

  /** Everything authored stays, and everything cascaded stays explained, from the version it happened in on. */
  ghost predicate StaysOnRecord(hash: Hash, written: seq<Written>) {
    forall i, k | 0 <= i <= k < |written| ::
      && IdsIn(hash, written[i].settled + written[i].recorded) <= ProvenanceOf(written[k])
      && forall kind, block | kind in written[i].cascaded && block in written[i].cascaded[kind] ::
           Explains(hash, ProvenanceOf(written[k]), kind, block)
  }

  ghost predicate CarriesOver(hash: Hash, home: Id -> MemoryType, carry: Carry, written: seq<Written>) {
    forall k | 0 <= k < |written| ::
      && carry.authored <= ProvenanceOf(written[k])
      && forall block | block in carry.cascaded :: Explains(hash, ProvenanceOf(written[k]), home(block), block)
  }

  lemma CarryBack(
    hash: Hash, home: Id -> MemoryType, carry: Carry, after: Carry, one: Written, rest: seq<Written>)
    requires carry.authored <= after.authored && carry.cascaded <= after.cascaded
    requires after.authored <= ProvenanceOf(one) && IsExplained(hash, home, carry)
    requires CarriesOver(hash, home, after, rest)
    ensures CarriesOver(hash, home, carry, [one] + rest)
  {
    hide Explains;
    forall k, block | 0 <= k < |[one] + rest| && block in carry.cascaded
      ensures Explains(hash, ProvenanceOf(([one] + rest)[k]), home(block), block)
    {
      MoreRecordsExplainMore(hash, carry.authored, ProvenanceOf(([one] + rest)[k]), home(block), block);
    }
  }

  lemma RecordOneMore(hash: Hash, home: Id -> MemoryType, after: Carry, one: Written, rest: seq<Written>)
    requires StaysOnRecord(hash, rest) && CarriesOver(hash, home, after, rest)
    requires IdsIn(hash, one.settled + one.recorded) <= after.authored && after.authored <= ProvenanceOf(one)
    requires IsExplained(hash, home, after)
    requires forall kind, block | kind in one.cascaded && block in one.cascaded[kind] ::
               home(block) == kind && block in after.cascaded
    ensures StaysOnRecord(hash, [one] + rest)
  {
    hide Explains;
    var all := [one] + rest;
    forall i, k | 0 <= i <= k < |all|
      ensures IdsIn(hash, all[i].settled + all[i].recorded) <= ProvenanceOf(all[k])
      ensures forall kind, block | kind in all[i].cascaded && block in all[i].cascaded[kind] ::
                Explains(hash, ProvenanceOf(all[k]), kind, block)
    {
      if i > 0 {
        assert all[i] == rest[i - 1] && all[k] == rest[k - 1];
      } else {
        assert all[i] == one;
        forall kind, block | kind in one.cascaded && block in one.cascaded[kind]
          ensures Explains(hash, ProvenanceOf(all[k]), kind, block)
        {
          assert home(block) == kind && block in after.cascaded;
          if k == 0 {
            MoreRecordsExplainMore(hash, after.authored, ProvenanceOf(one), home(block), block);
          } else {
            assert all[k] == rest[k - 1];
          }
        }
      }
    }
  }

  /**
   In every version a replay writes, each block the cascade took in it or before it is named, under its module, by
   a removal record in that version's own provenance, and nothing authored on the way drops out again.
   */
  lemma {:induction false} ReplayStaysOnRecord(
    hash: Hash, plan: Plan, cascade: Cascade, strategy: Strategy, carry: Carry, steps: seq<ChainStep>,
    home: Id -> MemoryType)
    requires ReplayFrom(hash, plan, cascade, strategy, carry, steps).1.Ok? && HasProvenance(plan, steps)
    requires IsHomed(cascade, home) && IsExplained(hash, home, carry)
    ensures var written := ReplayFrom(hash, plan, cascade, strategy, carry, steps).0;
            |written| == |steps| && StaysOnRecord(hash, written) && CarriesOver(hash, home, carry, written)
    decreases |steps|
  {
    hide WriteStep, IsHomed, StaysOnRecord, CarriesOver, IsExplained, Explains;
    if steps == [] {
      NothingOnRecord(hash, home, carry);
    } else {
      var last := |steps| == 1;
      var (one, after) := WriteStep(hash, plan, cascade, strategy, carry, steps[0], last).value;
      assert HasProvenance(plan, [steps[0]]);
      StepHoldsAuthored(hash, plan, cascade, strategy, carry, steps[0], last);
      StepExplains(hash, plan, cascade, strategy, carry, steps[0], last, home);
      ReplayStaysOnRecord(hash, plan, cascade, strategy, after, steps[1..], home);
      var rest := ReplayFrom(hash, plan, cascade, strategy, after, steps[1..]).0;
      RecordOneMore(hash, home, after, one, rest);
      CarryBack(hash, home, carry, after, one, rest);
    }
  }

  lemma NothingOnRecord(hash: Hash, home: Id -> MemoryType, carry: Carry)
    ensures StaysOnRecord(hash, []) && CarriesOver(hash, home, carry, [])
  {
  }

  // --- Precedence -----------------------------------------------------------------------------------------

  /** Each record is settled in exactly one version, where both its blocks are members unless it is the last. */
  ghost predicate SettlesOnce(written: seq<Written>, pending: set<Block>) {
    && (forall record | record in pending :: exists k :: 0 <= k < |written| && record in written[k].settled)
    && (forall k, record | 0 <= k < |written| && record in written[k].settled ::
          record in pending && (k == |written| - 1 || IsRoomFor(record, written[k].reconciled)))
    && (forall k, l, record | 0 <= k < l < |written| && record in written[l].settled ::
          record !in written[k].settled && !IsRoomFor(record, written[k].reconciled))
  }

  /** A supersession needs the block that stays and the block it replaces, each in some module; others need nothing. */
  ghost predicate IsRoomFor(record: Block, members: map<MemoryType, set<Id>>) {
    forall block, supersedes | record in {ProvenanceV1(Supersession(block, supersedes)),
                                          ProvenanceV2(Supersession(block, supersedes))} ::
      (exists kind :: block in In(members, kind)) && exists kind :: supersedes in In(members, kind)
  }

  lemma RoomExactly(record: Block, members: map<MemoryType, set<Id>>)
    ensures IsSupported(record, members) <==> IsRoomFor(record, members)
  {
    forall id: Id
      ensures IsMember(id, members) <==> exists kind :: id in In(members, kind)
    {
      if kind :| kind in members && id in members[kind] {
        assert id in In(members, kind);
      }
    }
    if !record.PlainBlock? && record.entry.Supersession? {
      var block, supersedes := record.entry.block, record.entry.supersedes;
      assert record in {ProvenanceV1(Supersession(block, supersedes)), ProvenanceV2(Supersession(block, supersedes))};
    }
  }

  lemma StepSettles(
    hash: Hash, plan: Plan, cascade: Cascade, strategy: Strategy, carry: Carry, step: ChainStep, last: bool)
    requires WriteStep(hash, plan, cascade, strategy, carry, step, last).Ok?
    ensures var (written, after) := WriteStep(hash, plan, cascade, strategy, carry, step, last).value;
            && after.pending == carry.pending - written.settled
            && forall record :: record in written.settled <==>
                                record in carry.pending && (last || IsSupported(record, written.reconciled))
  {
    hide MergeModule, IsSupported, Within, FreshRecords, MergeAll, References, RecordsLineage, IdsIn, AllOf,
         WithAdditions, Reconciled;
  }

  lemma SettleOneMore(one: Written, rest: seq<Written>, pending: set<Block>)
    requires forall record :: record in one.settled <==>
                              record in pending && (rest == [] || IsRoomFor(record, one.reconciled))
    requires rest != [] ==> SettlesOnce(rest, pending - one.settled)
    ensures SettlesOnce([one] + rest, pending)
  {
    hide IsRoomFor;
    var all := [one] + rest;
    forall record | record in pending
      ensures exists k :: 0 <= k < |all| && record in all[k].settled
    {
      if record in one.settled {
        assert record in all[0].settled;
      } else {
        assert record in pending - one.settled;
        var k :| 0 <= k < |rest| && record in rest[k].settled;
        assert record in all[k + 1].settled;
      }
    }
    forall k, record | 0 <= k < |all| && record in all[k].settled
      ensures record in pending && (k == |all| - 1 || IsRoomFor(record, all[k].reconciled))
    {
      if k > 0 {
        assert all[k] == rest[k - 1];
        assert record in pending - one.settled;
      } else {
        assert all[k] == one;
      }
    }
    forall k, l, record | 0 <= k < l < |all| && record in all[l].settled
      ensures record !in all[k].settled && !IsRoomFor(record, all[k].reconciled)
    {
      assert all[l] == rest[l - 1] && (k > 0 ==> all[k] == rest[k - 1]);
      assert record in pending - one.settled;
    }
  }

  /**
   Each precedence record lands exactly once, in the first version that holds both its blocks, or in the last one
   when none before it does.
   */
  lemma {:induction false} PrecedenceSettlesOnce(
    hash: Hash, plan: Plan, cascade: Cascade, strategy: Strategy, carry: Carry, steps: seq<ChainStep>)
    requires steps != [] && ReplayFrom(hash, plan, cascade, strategy, carry, steps).1.Ok?
    ensures SettlesOnce(ReplayFrom(hash, plan, cascade, strategy, carry, steps).0, carry.pending)
    decreases |steps|
  {
    hide WriteStep, IsSupported, IsRoomFor, SettlesOnce;
    var last := |steps| == 1;
    var (one, after) := WriteStep(hash, plan, cascade, strategy, carry, steps[0], last).value;
    StepSettles(hash, plan, cascade, strategy, carry, steps[0], last);
    var rest := ReplayFrom(hash, plan, cascade, strategy, after, steps[1..]).0;
    if !last {
      PrecedenceSettlesOnce(hash, plan, cascade, strategy, after, steps[1..]);
      assert rest != [] by { SomethingIsWritten(hash, plan, cascade, strategy, after, steps[1..]); }
    }
    forall record
      ensures IsSupported(record, one.reconciled) <==> IsRoomFor(record, one.reconciled)
    {
      RoomExactly(record, one.reconciled);
    }
    SettleOneMore(one, rest, carry.pending);
  }

  lemma SomethingIsWritten(
    hash: Hash, plan: Plan, cascade: Cascade, strategy: Strategy, carry: Carry, steps: seq<ChainStep>)
    requires steps != [] && ReplayFrom(hash, plan, cascade, strategy, carry, steps).1.Ok?
    ensures ReplayFrom(hash, plan, cascade, strategy, carry, steps).0 != []
  {
    hide WriteStep;
  }

  // --- Provenance at the end -------------------------------------------------------------------------------

  /** Addresses of the precedence records that were to be written, or of removal records. */
  ghost predicate IsAuthored(hash: Hash, plan: Plan, ids: set<Id>) {
    forall id | id in ids :: IsRecordOf(hash, plan, id)
  }

  ghost predicate IsRecordOf(hash: Hash, plan: Plan, id: Id) {
    || (exists record | record in plan.precedence :: id == hash.block(record))
    || exists blocks, kind, detail :: id == hash.block(RemovalBlock(blocks, kind, detail))
  }

  /** The joined provenance, before anything this reconciliation authored. */
  function JoinedProvenance(plan: Plan, cascade: Cascade, step: ChainStep): (r: set<Id>)
    requires MergeAll(plan.base, plan.ours, step.sides).Ok?
    requires Provenance in MergeAll(plan.base, plan.ours, step.sides).value
  {
    var partial := MergeAll(plan.base, plan.ours, step.sides).value;
    partial[Provenance].members - In(plan.refused, Provenance)
    - In(Within(cascade(partial), plan.cascaded), Provenance)
  }

  lemma StepProvenance(
    hash: Hash, plan: Plan, cascade: Cascade, strategy: Strategy, carry: Carry, step: ChainStep, last: bool)
    requires WriteStep(hash, plan, cascade, strategy, carry, step, last).Ok? && HasProvenance(plan, [step])
    requires Provenance !in plan.carried
    requires IsAuthored(hash, plan, carry.authored) && carry.pending <= plan.precedence
    ensures MergeAll(plan.base, plan.ours, step.sides).Ok?
            && Provenance in MergeAll(plan.base, plan.ours, step.sides).value
    ensures var after := WriteStep(hash, plan, cascade, strategy, carry, step, last).value.1;
            && IsAuthored(hash, plan, after.authored) && after.pending <= plan.precedence
            && RootIn(after.modules, Provenance) == Some(Root(JoinedProvenance(plan, cascade, step) + after.authored))
  {
    hide MergeModule, IsSupported, Within, MergeAll, RecordsLineage, AllOf, WriteStep, References, DropsEpisodes,
         IsRecordOf;
    MergeAllIs(plan.base, plan.ours, step.sides);
    assert step in [step];
    var (written, after) := WriteStep(hash, plan, cascade, strategy, carry, step, last).value;
    StepHoldsAuthored(hash, plan, cascade, strategy, carry, step, last);
    StepSettles(hash, plan, cascade, strategy, carry, step, last);
    StepParts(hash, plan, cascade, strategy, carry, step, last);
    ReferencesIn(written.members, plan.carried, Provenance);
    RootOver(carry.modules, References(written.members, plan.carried), Provenance);
    forall id | id in after.authored
      ensures IsRecordOf(hash, plan, id)
    {
      if id !in carry.authored {
        AuthoredNow(hash, plan, written, carry, id);
      }
    }
    assert written.members[Provenance] == JoinedProvenance(plan, cascade, step) + after.authored;
  }

  lemma AuthoredNow(hash: Hash, plan: Plan, written: Written, carry: Carry, id: Id)
    requires id in IdsIn(hash, written.settled + written.recorded)
    requires written.settled <= plan.precedence
    requires written.recorded == FreshRecords(written.cascaded, carry.cascaded, plan.detail)
    ensures IsRecordOf(hash, plan, id)
  {
  }

  /** The parts a written version is made of. */
  lemma StepParts(
    hash: Hash, plan: Plan, cascade: Cascade, strategy: Strategy, carry: Carry, step: ChainStep, last: bool)
    requires WriteStep(hash, plan, cascade, strategy, carry, step, last).Ok?
    ensures MergeAll(plan.base, plan.ours, step.sides).Ok?
    ensures var (written, after) := WriteStep(hash, plan, cascade, strategy, carry, step, last).value;
            var partial := MergeAll(plan.base, plan.ours, step.sides).value;
            && written.cascaded == Within(cascade(partial), plan.cascaded)
            && written.recorded == FreshRecords(written.cascaded, carry.cascaded, plan.detail)
            && written.members == WithAdditions(Reconciled(plan, written.cascaded, partial, carry.authored),
                                                IdsIn(hash, written.settled + written.recorded))
            && written.version == after.modules
            && (after.modules == References(written.members, plan.carried)
                || after.modules == carry.modules + References(written.members, plan.carried))
  {
    hide MergeModule, IsSupported, Within, FreshRecords, MergeAll, References, RecordsLineage, IdsIn, AllOf,
         WithAdditions, Reconciled;
  }

  /** Whatever the strategy, provenance ends as Equation 1 has it plus records this reconciliation authored. */
  lemma {:induction false} ProvenanceIsJoined(
    hash: Hash, plan: Plan, cascade: Cascade, strategy: Strategy, carry: Carry, steps: seq<ChainStep>)
    requires steps != [] && ReplayFrom(hash, plan, cascade, strategy, carry, steps).1.Ok? && HasProvenance(plan, steps)
    requires Provenance !in plan.carried
    requires IsAuthored(hash, plan, carry.authored) && carry.pending <= plan.precedence
    ensures var last := steps[|steps| - 1];
            var final := ReplayFrom(hash, plan, cascade, strategy, carry, steps).1.value;
            && MergeAll(plan.base, plan.ours, last.sides).Ok?
            && Provenance in MergeAll(plan.base, plan.ours, last.sides).value
            && IsAuthored(hash, plan, final.authored)
            && RootIn(final.modules, Provenance) == Some(Root(JoinedProvenance(plan, cascade, last) + final.authored))
    decreases |steps|
  {
    hide WriteStep, MergeAll, IsAuthored, JoinedProvenance, RootIn;
    assert HasProvenance(plan, [steps[0]]);
    StepProvenance(hash, plan, cascade, strategy, carry, steps[0], |steps| == 1);
    var after := WriteStep(hash, plan, cascade, strategy, carry, steps[0], |steps| == 1).value.1;
    if |steps| > 1 {
      ProvenanceIsJoined(hash, plan, cascade, strategy, after, steps[1..]);
    }
  }

  /** All of it, for one reconciliation from its start. */
  lemma ReconciliationKeepsItsBooks(
    hash: Hash, plan: Plan, cascade: Cascade, strategy: Strategy, home: Id -> MemoryType)
    requires Finishes(hash, plan, cascade, strategy) && HasProvenance(plan, StepsOf(plan, strategy))
    requires IsHomed(cascade, home) && Provenance !in plan.carried
    ensures var (written, final) := Replayed(hash, plan, cascade, strategy);
            var steps := StepsOf(plan, strategy);
            && |written| == |steps|
            && StaysOnRecord(hash, written)
            && SettlesOnce(written, plan.precedence)
            && MergeAll(plan.base, plan.ours, steps[|steps| - 1].sides).Ok?
            && Provenance in MergeAll(plan.base, plan.ours, steps[|steps| - 1].sides).value
            && IsAuthored(hash, plan, final.value.authored)
            && RootIn(final.value.modules, Provenance) ==
               Some(Root(JoinedProvenance(plan, cascade, steps[|steps| - 1]) + final.value.authored))
  {
    hide ReplayFrom, StaysOnRecord, SettlesOnce, StepsOf, MergeAll, JoinedProvenance, IsHomed, RootIn;
    ReplayStaysOnRecord(hash, plan, cascade, strategy, Start(plan), StepsOf(plan, strategy), home);
    PrecedenceSettlesOnce(hash, plan, cascade, strategy, Start(plan), StepsOf(plan, strategy));
    ProvenanceIsJoined(hash, plan, cascade, strategy, Start(plan), StepsOf(plan, strategy));
  }
}
