/** How a reconciliation reaches the brain: step by step, each version a state of its own. */
module Replay {
  import opened Common
  import opened Documents
  import opened Hashing
  import opened Merging

  datatype Strategy = Merge | Rebase | Squash

  /** One version of the other history: what can be read of it, and whether all of it can. */
  datatype ChainStep = ChainStep(sides: Sides, reopenable: bool)

  /** Excluded evidence takes along what cites it; which blocks that is depends only on the joined modules. */
  type Cascade = map<MemoryType, Merged> -> map<MemoryType, set<Id>>

  /** A version's modules, by the root each one has. */
  type Version = map<MemoryType, Root>

  /**
   A plan ready to be carried out. `turnedAway` is what the gate would keep out, `refused` what is kept out after
   the decisions taken since; `cascaded` follows excluded evidence out, and `carried` is not joined but adopted
   by its root. `precedence` holds the records that decide between competing successors.
   */
  datatype Plan = Plan(
    base: Sides,
    ours: Sides,
    head: Version,
    chain: seq<ChainStep>,
    theirs: ChainStep,
    turnedAway: map<MemoryType, set<Id>>,
    refused: map<MemoryType, set<Id>>,
    cascaded: map<MemoryType, set<Id>>,
    carried: Version,
    precedence: set<Block>,
    detail: nat)

  function Replayable(chain: seq<ChainStep>): (r: seq<ChainStep>) {
    if chain == [] then []
    else (if chain[0].reopenable then [chain[0]] else []) + Replayable(chain[1..])
  }

  /** Which of their versions a strategy joins with, one after another. */
  function StepsOf(plan: Plan, strategy: Strategy): (r: seq<ChainStep>)
    ensures |r| > 0
  {
    var replayable := Replayable(plan.chain);
    if replayable == [] then [plan.theirs]
    else if strategy == Rebase then replayable
    else [replayable[|replayable| - 1]]
  }

  /** What a step may take along: no more than somebody was shown beforehand. */
  function Within(cascaded: map<MemoryType, set<Id>>, accepted: map<MemoryType, set<Id>>)
    : (r: map<MemoryType, set<Id>>)
  {
    map kind | kind in cascaded && cascaded[kind] * In(accepted, kind) != {} :: cascaded[kind] * In(accepted, kind)
  }

  predicate IsSupported(record: Block, members: map<MemoryType, set<Id>>) {
    record.PlainBlock? || !record.entry.Supersession?
    || (IsMember(record.entry.block, members) && IsMember(record.entry.supersedes, members))
  }

  predicate IsMember(block: Id, members: map<MemoryType, set<Id>>) {
    exists kind | kind in members :: block in members[kind]
  }

  /** A removal record for each module that loses blocks not recorded before. */
  function FreshRecords(cascaded: map<MemoryType, set<Id>>, known: set<Id>, detail: nat): (r: set<Block>) {
    set kind | kind in cascaded && cascaded[kind] - known != {} :: RemovalBlock(cascaded[kind] - known, kind, detail)
  }

  function IdsIn(hash: Hash, records: set<Block>): (r: set<Id>) {
    set record | record in records :: hash.block(record)
  }

  function AllOf(cascaded: map<MemoryType, set<Id>>): (r: set<Id>) {
    set kind, block | kind in cascaded && block in cascaded[kind] :: block
  }

  /** What the loop carries from one version to the next. */
  datatype Carry = Carry(authored: set<Id>, cascaded: set<Id>, pending: set<Block>, modules: Version)

  /** One version as it was written. */
  datatype Written = Written(
    reconciled: map<MemoryType, set<Id>>,
    members: map<MemoryType, set<Id>>,
    cascaded: map<MemoryType, set<Id>>,
    settled: set<Block>,
    recorded: set<Block>,
    version: Version)

  function Reconciled(plan: Plan, cascaded: map<MemoryType, set<Id>>, partial: map<MemoryType, Merged>,
                      authored: set<Id>)
    : (r: map<MemoryType, set<Id>>)
  {
    map kind | kind in partial ::
      partial[kind].members - In(plan.refused, kind) - In(cascaded, kind) + if kind == Provenance then authored else {}
  }

  function WithAdditions(members: map<MemoryType, set<Id>>, additions: set<Id>): (r: map<MemoryType, set<Id>>) {
    map kind | kind in members :: members[kind] + if kind == Provenance then additions else {}
  }

  function References(members: map<MemoryType, set<Id>>, carried: Version): (r: Version) {
    map kind | kind in members.Keys + carried.Keys :: if kind in carried then carried[kind] else Root(members[kind])
  }

  /** Only a merge that has lineage to record starts its modules afresh. */
  predicate RecordsLineage(plan: Plan, strategy: Strategy, last: bool) {
    strategy == Merge && last && plan.chain != []
  }

  function WriteStep(
    hash: Hash, plan: Plan, cascade: Cascade, strategy: Strategy, carry: Carry, step: ChainStep, last: bool)
    : (r: Result<(Written, Carry), MergeFault>)
  {
    var partial :- MergeAll(plan.base, plan.ours, step.sides);
    var cascaded := Within(cascade(partial), plan.cascaded);
    var reconciled := Reconciled(plan, cascaded, partial, carry.authored);
    var removals := FreshRecords(cascaded, carry.cascaded, plan.detail);
    var settled := set record | record in carry.pending && (last || IsSupported(record, reconciled));
    var additions := IdsIn(hash, settled + removals);
    var members := WithAdditions(reconciled, additions);
    var references := References(members, plan.carried);
    var version := if RecordsLineage(plan, strategy, last) then references else carry.modules + references;
    Ok((Written(reconciled, members, cascaded, settled, removals, version),
        Carry(carry.authored + additions, carry.cascaded + AllOf(cascaded), carry.pending - settled, version)))
  }

  /** The versions written, and what the loop ends with or the fault that stopped it. */
  function ReplayFrom(
    hash: Hash, plan: Plan, cascade: Cascade, strategy: Strategy, carry: Carry, steps: seq<ChainStep>)
    : (r: (seq<Written>, Result<Carry, MergeFault>))
    decreases |steps|
  {
    if steps == [] then ([], Ok(carry))
    else
      var written := WriteStep(hash, plan, cascade, strategy, carry, steps[0], |steps| == 1);
      if written.Err? then ([], Err(written.error))
      else
        var rest := ReplayFrom(hash, plan, cascade, strategy, written.value.1, steps[1..]);
        ([written.value.0] + rest.0, rest.1)
  }

  function Start(plan: Plan): (r: Carry) {
    Carry({}, {}, plan.precedence, plan.head)
  }

  function Replayed(hash: Hash, plan: Plan, cascade: Cascade, strategy: Strategy)
    : (r: (seq<Written>, Result<Carry, MergeFault>))
  {
    ReplayFrom(hash, plan, cascade, strategy, Start(plan), StepsOf(plan, strategy))
  }

  function Prefixed(written: seq<Written>, rest: (seq<Written>, Result<Carry, MergeFault>))
    : (r: (seq<Written>, Result<Carry, MergeFault>))
  {
    (written + rest.0, rest.1)
  }

  lemma PrefixedStep(written: seq<Written>, one: Written, rest: (seq<Written>, Result<Carry, MergeFault>))
    ensures Prefixed(written, ([one] + rest.0, rest.1)) == Prefixed(written + [one], rest)
  {
    assert written + ([one] + rest.0) == (written + [one]) + rest.0;
  }

  // --- Nothing to do --------------------------------------------------------------------------------

  /** What the code takes the result to be: it withholds what the gate turned away, whatever was decided since. */
  function Expected(plan: Plan, partial: map<MemoryType, Merged>): (r: Version) {
    References(
      map kind | kind in partial ::
        partial[kind].members - In(plan.turnedAway, kind) - In(plan.cascaded, kind) - In(plan.refused, kind),
      plan.carried)
  }

  /** No history to record, and the head already is what is expected. */
  predicate IsSettledAlready(plan: Plan) {
    && plan.chain == [] && MergeAll(plan.base, plan.ours, plan.theirs.sides).Ok?
    && Expected(plan, MergeAll(plan.base, plan.ours, plan.theirs.sides).value) == plan.head
  }

  // --- Blocks that never arrived ----------------------------------------------------------------------

  function AuthoredIn(hash: Hash, written: Written): (r: set<Id>) {
    IdsIn(hash, written.settled + written.recorded)
  }

  /** The versions that come about: a version that names a block nobody holds ends the replay before it. */
  function Landed(hash: Hash, held: set<Id>, written: seq<Written>): (r: seq<Written>)
    ensures |r| <= |written| && r == written[..|r|]
    decreases |written|
  {
    if written == [] then []
    else
      var known := held + AuthoredIn(hash, written[0]);
      if AllOf(written[0].members) <= known then [written[0]] + Landed(hash, known, written[1..]) else []
  }

  datatype ReconcileFault = Joining(fault: MergeFault) | BlocksAbsent

  /** One move of the head: the version, and whether the other history becomes a second parent of it. */
  datatype Publication = Publication(version: Version, merged: bool)

  /** The brain a reconciliation is written to: each version moves its head, and a fault leaves the ones before it. */
  class Reconciler {
    const hash: Hash
    var modules: Version
    var published: seq<Publication>
    var held: set<Id>
    var reconciling: bool

    constructor (hash: Hash, modules: Version, held: set<Id>, reconciling: bool)
      ensures this.hash == hash && this.modules == modules && published == []
      ensures this.held == held && this.reconciling == reconciling
    {
      this.hash, this.modules, this.published, this.held, this.reconciling := hash, modules, [], held, reconciling;
    }

    /** The records are stored first; then a version that names only what is held moves the head. */
    method WriteReconciliation(
      members: map<MemoryType, set<Id>>, carried: Version, additions: set<Id>, merged: bool) returns (ok: bool)
      modifies this
      ensures held == old(held) + additions && reconciling == old(reconciling)
      ensures ok <==> AllOf(members) <= held
      ensures ok ==>
                && modules == (if merged then References(members, carried)
                               else old(modules) + References(members, carried))
                && published == old(published) + [Publication(modules, merged)]
      ensures !ok ==> modules == old(modules) && published == old(published)
    {
      hide References;
      held := held + additions;
      if !(AllOf(members) <= held) {
        return false;
      }
      modules := if merged then References(members, carried) else modules + References(members, carried);
      published := published + [Publication(modules, merged)];
      ok := true;
    }

    /** The versions one after another, carrying authored records, recorded cascades and open precedence questions. */
    method WriteAll(plan: Plan, cascade: Cascade, strategy: Strategy, steps: seq<ChainStep>)
      returns (written: seq<Written>, r: Result<(), ReconcileFault>)
      requires modules == plan.head && published == []
      modifies this
      ensures reconciling == old(reconciling)
      ensures var all := ReplayFrom(hash, plan, cascade, strategy, Start(plan), steps);
              && written == Landed(hash, old(held), all.0)
              && r == (if |written| < |all.0| then Err(BlocksAbsent)
                       else if all.1.Err? then Err(Joining(all.1.error)) else Ok(()))
              && (r.Ok? ==> modules == all.1.value.modules)
      ensures ArePublished(plan, strategy, |steps|, written, modules, published)
    {
      hide MergeAll, Within, Reconciled, FreshRecords, References, WithAdditions, ReplayFrom, AllOf, Landed, IdsIn,
           RecordsLineage, Stands, WriteStep, IsSupported, ArePublished;
      written := [];
      var authored: set<Id> := {};
      var known: set<Id> := {};
      var pending := plan.precedence;
      ghost var all := ReplayFrom(hash, plan, cascade, strategy, Start(plan), steps);
      assert steps[0..] == steps;
      NothingStands(hash, held, all);
      NothingPublished(plan, strategy, |steps|);
      for i := 0 to |steps|
        invariant Stands(hash, old(held), held, all, written, ReplayFrom(
                    hash, plan, cascade, strategy, Carry(authored, known, pending, modules), steps[i..]))
        invariant reconciling == old(reconciling) && |written| == i
        invariant ArePublished(plan, strategy, |steps|, written, modules, published)
      {
        ghost var carry, earlier := Carry(authored, known, pending, modules), published;
        assert steps[i..][0] == steps[i] && steps[i..][1..] == steps[i + 1..];
        ReplayStep(hash, plan, cascade, strategy, carry, steps[i..]);
        var last := i == |steps| - 1;
        var merged := ReconciledModules(plan.base, plan.ours, steps[i].sides);
        if merged.Err? {
          StepFails(hash, plan, cascade, strategy, carry, steps[i], last);
          AllStandBefore(hash, old(held), held, all, written, merged.error);
          return written, Err(Joining(merged.error));
        }
        var cascaded := Within(cascade(merged.value), plan.cascaded);
        var reconciled := Reconciled(plan, cascaded, merged.value, authored);
        var removals := FreshRecords(cascaded, known, plan.detail);
        var settled := set record | record in pending && (last || IsSupported(record, reconciled));
        var additions := IdsIn(hash, settled + removals);
        var members := WithAdditions(reconciled, additions);
        StepGoes(hash, plan, cascade, strategy, carry, steps[i], last, merged.value);
        ghost var (one, after) := WriteStep(hash, plan, cascade, strategy, carry, steps[i], last).value;
        OneMoreStands(hash, old(held), held, all, written, one,
                      ReplayFrom(hash, plan, cascade, strategy, after, steps[i + 1..]));
        var ok := WriteReconciliation(members, plan.carried, additions, RecordsLineage(plan, strategy, last));
        if !ok {
          return written, Err(BlocksAbsent);
        }
        OneMorePublished(plan, strategy, |steps|, written, carry.modules, earlier, one,
                         Publication(modules, RecordsLineage(plan, strategy, last)));
        pending := pending - settled;
        authored := authored + additions;
        known := known + AllOf(cascaded);
        written := written + [Written(reconciled, members, cascaded, settled, removals, modules)];
      }
      ReplayEnd(hash, plan, cascade, strategy, Carry(authored, known, pending, modules));
      AllStand(hash, old(held), held, all, written, Carry(authored, known, pending, modules));
      r := Ok(());
    }

    /** Nothing is open any more once writing starts, and nothing is written when there is nothing to do. */
    method Conclude(plan: Plan, cascade: Cascade, strategy: Strategy)
      returns (written: seq<Written>, r: Result<(), ReconcileFault>)
      requires modules == plan.head && published == []
      modifies this
      ensures !reconciling
      ensures IsSettledAlready(plan) ==> r.Ok? && written == [] && held == old(held)
      ensures !IsSettledAlready(plan) ==>
                var all := Replayed(hash, plan, cascade, strategy);
                && written == Landed(hash, old(held), all.0)
                && r == (if |written| < |all.0| then Err(BlocksAbsent)
                         else if all.1.Err? then Err(Joining(all.1.error)) else Ok(()))
                && (r.Ok? ==> modules == all.1.value.modules)
      ensures ArePublished(plan, strategy, |StepsOf(plan, strategy)|, written, modules, published)
      ensures strategy != Merge || plan.chain == [] ==> forall i | 0 <= i < |published| :: !published[i].merged
      ensures r.Ok? && strategy == Merge && plan.chain != [] ==>
                |published| == 1 && published[0].merged && published[0].version == modules
    {
      hide MergeAll, StepsOf, ReplayFrom, Expected, Landed, RecordsLineage;
      reconciling := false;
      if plan.chain == [] {
        var joined := ReconciledModules(plan.base, plan.ours, plan.theirs.sides);
        if joined.Ok? && Expected(plan, joined.value) == modules {
          return [], Ok(());
        }
      }
      written, r := WriteAll(plan, cascade, strategy, StepsOf(plan, strategy));
      ReplayLength(hash, plan, cascade, strategy, Start(plan), StepsOf(plan, strategy));
      OnlyMergesRecordLineage(plan, strategy, written, modules, published);
    }
  }

  /** One move of the head per version written, and the head is where the last one left it. */
  predicate ArePublished(
    plan: Plan, strategy: Strategy, steps: nat, written: seq<Written>, modules: Version, published: seq<Publication>)
  {
    && modules == (if written == [] then plan.head else written[|written| - 1].version)
    && |published| == |written|
    && forall i | 0 <= i < |written| ::
         published[i] == Publication(written[i].version, RecordsLineage(plan, strategy, i == steps - 1))
  }

  /** The other history becomes a parent of the one version a merge writes, and of no other. */
  lemma OnlyMergesRecordLineage(
    plan: Plan, strategy: Strategy, written: seq<Written>, modules: Version, published: seq<Publication>)
    requires ArePublished(plan, strategy, |StepsOf(plan, strategy)|, written, modules, published)
    ensures strategy != Merge || plan.chain == [] ==> forall i | 0 <= i < |published| :: !published[i].merged
    ensures |written| == |StepsOf(plan, strategy)| && strategy == Merge && plan.chain != [] ==>
              |published| == 1 && published[0].merged && published[0].version == modules
  {
  }

  lemma {:induction false} ReplayLength(
    hash: Hash, plan: Plan, cascade: Cascade, strategy: Strategy, carry: Carry, steps: seq<ChainStep>)
    ensures var all := ReplayFrom(hash, plan, cascade, strategy, carry, steps);
            |all.0| <= |steps| && (all.1.Ok? ==> |all.0| == |steps|)
    decreases |steps|
  {
    hide WriteStep;
    if steps != [] && WriteStep(hash, plan, cascade, strategy, carry, steps[0], |steps| == 1).Ok? {
      var after := WriteStep(hash, plan, cascade, strategy, carry, steps[0], |steps| == 1).value.1;
      ReplayLength(hash, plan, cascade, strategy, after, steps[1..]);
    }
  }

  lemma NothingPublished(plan: Plan, strategy: Strategy, steps: nat)
    ensures ArePublished(plan, strategy, steps, [], plan.head, [])
  {
  }

  lemma OneMorePublished(
    plan: Plan, strategy: Strategy, steps: nat, written: seq<Written>, modules: Version, published: seq<Publication>,
    one: Written, publication: Publication)
    requires ArePublished(plan, strategy, steps, written, modules, published)
    requires publication == Publication(one.version, RecordsLineage(plan, strategy, |written| == steps - 1))
    ensures ArePublished(plan, strategy, steps, written + [one], one.version, published + [publication])
    ensures |published| == |written|
  {
  }

  /** Where the loop stands: what was written so far, and what the replay has left to write. */
  ghost predicate Stands(
    hash: Hash, before: set<Id>, held: set<Id>, all: (seq<Written>, Result<Carry, MergeFault>), written: seq<Written>,
    rest: (seq<Written>, Result<Carry, MergeFault>))
  {
    all == Prefixed(written, rest) && Landed(hash, before, all.0) == written + Landed(hash, held, rest.0)
  }

  lemma NothingStands(hash: Hash, held: set<Id>, all: (seq<Written>, Result<Carry, MergeFault>))
    ensures Stands(hash, held, held, all, [], all)
  {
    assert [] + all.0 == all.0;
    assert [] + Landed(hash, held, all.0) == Landed(hash, held, all.0);
  }

  lemma OneMoreStands(
    hash: Hash, before: set<Id>, held: set<Id>, all: (seq<Written>, Result<Carry, MergeFault>), written: seq<Written>,
    one: Written, rest: (seq<Written>, Result<Carry, MergeFault>))
    requires Stands(hash, before, held, all, written, ([one] + rest.0, rest.1))
    ensures var known := held + IdsIn(hash, one.settled + one.recorded);
            if AllOf(one.members) <= known then Stands(hash, before, known, all, written + [one], rest)
            else Landed(hash, before, all.0) == written && |written| < |all.0|
  {
    hide AllOf, IdsIn;
    PrefixedStep(written, one, rest);
    assert ([one] + rest.0)[1..] == rest.0;
    var known := held + IdsIn(hash, one.settled + one.recorded);
    assert written + ([one] + Landed(hash, known, rest.0)) == (written + [one]) + Landed(hash, known, rest.0);
  }

  lemma AllStandBefore(
    hash: Hash, before: set<Id>, held: set<Id>, all: (seq<Written>, Result<Carry, MergeFault>), written: seq<Written>,
    fault: MergeFault)
    requires Stands(hash, before, held, all, written, ([], Err(fault)))
    ensures Landed(hash, before, all.0) == written == all.0 && all.1 == Err(fault)
  {
  }

  lemma AllStand(
    hash: Hash, before: set<Id>, held: set<Id>, all: (seq<Written>, Result<Carry, MergeFault>), written: seq<Written>,
    carry: Carry)
    requires Stands(hash, before, held, all, written, ([], Ok(carry)))
    ensures Landed(hash, before, all.0) == written == all.0 && all.1 == Ok(carry)
  {
  }

  lemma StepFails(
    hash: Hash, plan: Plan, cascade: Cascade, strategy: Strategy, carry: Carry, step: ChainStep, last: bool)
    requires MergeAll(plan.base, plan.ours, step.sides).Err?
    ensures WriteStep(hash, plan, cascade, strategy, carry, step, last) ==
            Err(MergeAll(plan.base, plan.ours, step.sides).error)
  {
    hide MergeAll;
  }

  lemma StepGoes(
    hash: Hash, plan: Plan, cascade: Cascade, strategy: Strategy, carry: Carry, step: ChainStep, last: bool,
    partial: map<MemoryType, Merged>)
    requires MergeAll(plan.base, plan.ours, step.sides) == Ok(partial)
    ensures var cascaded := Within(cascade(partial), plan.cascaded);
            var reconciled := Reconciled(plan, cascaded, partial, carry.authored);
            var removals := FreshRecords(cascaded, carry.cascaded, plan.detail);
            var settled := set record | record in carry.pending && (last || IsSupported(record, reconciled));
            var additions := IdsIn(hash, settled + removals);
            var members := WithAdditions(reconciled, additions);
            var references := References(members, plan.carried);
            var version := if RecordsLineage(plan, strategy, last) then references else carry.modules + references;
            WriteStep(hash, plan, cascade, strategy, carry, step, last) ==
            Ok((Written(reconciled, members, cascaded, settled, removals, version),
                Carry(carry.authored + additions, carry.cascaded + AllOf(cascaded), carry.pending - settled, version)))
  {
    hide MergeAll, Within, Reconciled, FreshRecords, References, WithAdditions, AllOf, IdsIn, RecordsLineage,
         IsSupported;
  }

  lemma ReplayStep(
    hash: Hash, plan: Plan, cascade: Cascade, strategy: Strategy, carry: Carry, steps: seq<ChainStep>)
    requires steps != []
    ensures var written := WriteStep(hash, plan, cascade, strategy, carry, steps[0], |steps| == 1);
            ReplayFrom(hash, plan, cascade, strategy, carry, steps) ==
            if written.Err? then ([], Err(written.error))
            else var rest := ReplayFrom(hash, plan, cascade, strategy, written.value.1, steps[1..]);
                 ([written.value.0] + rest.0, rest.1)
  {
    hide WriteStep;
  }

  lemma ReplayEnd(hash: Hash, plan: Plan, cascade: Cascade, strategy: Strategy, carry: Carry)
    ensures ReplayFrom(hash, plan, cascade, strategy, carry, []) == ([], Ok(carry))
  {
  }
}
