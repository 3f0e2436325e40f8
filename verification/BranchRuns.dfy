/** Whole runs of pointer writes, crashes and prunes. */
module BranchRuns {
  import opened Common
  import opened Documents
  import opened Hashing
  import opened Retention
  import opened BranchPointers
  import Branches

  // --- Checkout -----------------------------------------------------------------------------------

  /**
   A checkout can stop after any of its three pointer writes: the branches a reader then finds, repaired or not,
   have the heads they had, and the current one is the branch that was left or the one that was asked for.
   */
  lemma CheckoutIsCrashSafe(
    start: System, announced: System, moved: System, settled: System, target: string, roots: nat)
    requires IsConsistent(start) && roots >= 1
    requires Next(start, Announce(target), announced, roots)
    requires Next(announced, MoveHead, moved, roots)
    requires Next(moved, Settle, settled, roots)
    ensures var view := ViewOf(start.disk);
            && ViewOf(announced.disk) in {view, view.(current := target)}
            && ViewOf(moved.disk) == view.(current := target)
            && ViewOf(settled.disk) == view.(current := target)
            && IsQuiet(settled.disk) && IsConsistent(settled)
    ensures forall stopped | stopped in {announced.disk, moved.disk} ::
              stopped.refs.Some? && stopped.head.Some?
              && var repaired := RefsWritten(stopped, Repaired(stopped.refs.value, stopped.head));
                 IsQuiet(repaired) && ViewOf(repaired) == ViewOf(stopped)
  {
    hide IsHeadWrite, ViewOf;
    StepRefines(start, Announce(target), announced, roots);
    StepRefines(announced, MoveHead, moved, roots);
    MoveRefines(announced, moved, roots);
    StepRefines(moved, Settle, settled, roots);
    RepairIsInvisible(announced.disk);
    RepairIsInvisible(moved.disk);
  }

  /** A checkout records where the branch it leaves was, origin included, and takes both from the one it goes to. */
  lemma CheckoutCarriesOrigins(
    start: System, announced: System, moved: System, settled: System, target: string, roots: nat)
    requires start.disk.head.Some? && Next(start, Announce(target), announced, roots)
    requires Next(announced, MoveHead, moved, roots) && Next(moved, Settle, settled, roots)
    ensures var head, here := start.disk.head.value, ViewOf(start.disk).current;
            && settled.disk.refs.Some? && settled.disk.head.Some? && settled.task == Idle
            && var branches := settled.disk.refs.value.branches;
               && settled.disk.refs.value.current == target && settled.disk.refs.value.switching == None
               && here in branches && branches[here] == BranchRef(head.snapshot, head.origin)
               && (start.disk.refs.Some? ==>
                     forall name | name in start.disk.refs.value.branches && name != here ::
                       name in branches && branches[name] == start.disk.refs.value.branches[name])
               && target in branches && target != here
               && branches[target] == BranchRef(settled.disk.head.value.snapshot, settled.disk.head.value.origin)
  {
  }

  /** Going to a branch and back leaves the head where it was, with the origin it had. */
  lemma ThereAndBack(systems: seq<System>, there: string, roots: nat)
    requires systems != [] && systems[0].disk.head.Some?
    requires IsRun(systems, [Announce(there), MoveHead, Settle, Announce(ViewOf(systems[0].disk).current), MoveHead,
                             Settle], roots)
    ensures var first, last := systems[0].disk, systems[6].disk;
            && last.head.Some? && last.head.value.snapshot == first.head.value.snapshot
            && last.head.value.origin == first.head.value.origin
            && ViewOf(last).current == ViewOf(first).current
  {
    hide IsHeadWrite;
    var here := ViewOf(systems[0].disk).current;
    var steps := [Announce(there), MoveHead, Settle, Announce(here), MoveHead, Settle];
    assert Next(systems[0], steps[0], systems[1], roots) && Next(systems[1], steps[1], systems[2], roots);
    assert Next(systems[2], steps[2], systems[3], roots) && Next(systems[3], steps[3], systems[4], roots);
    assert Next(systems[4], steps[4], systems[5], roots) && Next(systems[5], steps[5], systems[6], roots);
    hide Next, ViewOf;
    CheckoutCarriesOrigins(systems[0], systems[1], systems[2], systems[3], there, roots);
    CurrentIs(systems[3].disk);
    CheckoutCarriesOrigins(systems[3], systems[4], systems[5], systems[6], here, roots);
    CurrentIs(systems[6].disk);
  }

  lemma CurrentIs(disk: Disk)
    requires disk.head.Some? && disk.refs.Some? && disk.refs.value.switching == None
    ensures ViewOf(disk).current == disk.refs.value.current
  {
  }

  /** Whether a head that names the target of an open checkout would still do so after it moved. */
  predicate ReadsTheSame(table: RefTable, before: Id, after: Id) {
    table.switching.Some? && table.switching.value in table.branches ==>
      (before == table.branches[table.switching.value].snapshot <==>
       after == table.branches[table.switching.value].snapshot)
  }

  /**
   A commit over a checkout that was interrupted and not repaired lands on the branch a reader would have called
   current exactly when it does not change which way the repair goes.
   */
  lemma UnrepairedCommitIsFaithfulExactly(
    disk: Disk, after: Disk, digest: Id, origin: Option<Origin>, retain: seq<Id>, roots: nat)
    requires disk.head.Some? && disk.refs.Some? && disk.refs.value.current in disk.refs.value.branches
    requires disk.refs.value.switching != Some(disk.refs.value.current)
    requires IsHeadWrite(disk, after, digest, origin, retain, roots)
    ensures ViewOf(after) == View(ViewOf(disk).current, ViewOf(disk).heads[ViewOf(disk).current := digest])
            <==> ReadsTheSame(disk.refs.value, disk.head.value.snapshot, digest)
  {
    var table := disk.refs.value;
    var one, two := ViewOf(disk), ViewOf(after);
    if ReadsTheSame(table, disk.head.value.snapshot, digest) {
      assert two.current == one.current;
      assert two.heads == one.heads[one.current := digest];
    } else {
      assert two.current != one.current;
    }
  }

  // --- Runs of the pointers ---------------------------------------------------------------------------

  ghost predicate IsRun(systems: seq<System>, steps: seq<Label>, roots: nat) {
    && |systems| == |steps| + 1
    && forall i | 0 <= i < |steps| :: Next(systems[i], steps[i], systems[i + 1], roots)
  }

  /** In every run, crashes included, each step does to the branches what its operation is for. */
  lemma {:induction false} RunRefines(systems: seq<System>, steps: seq<Label>, roots: nat, i: nat)
    requires IsRun(systems, steps, roots) && IsConsistent(systems[0]) && roots >= 1 && i < |systems|
    ensures IsConsistent(systems[i])
    ensures i < |steps| ==> Refines(ViewOf(systems[i].disk), steps[i], ViewOf(systems[i + 1].disk))
  {
    hide IsConsistent, Next, ViewOf, Refines;
    if i > 0 {
      RunRefines(systems, steps, roots, i - 1);
      assert Next(systems[i - 1], steps[i - 1], systems[i - 1 + 1], roots);
      StepRefines(systems[i - 1], steps[i - 1], systems[i], roots);
    }
    if i < |steps| {
      ConsistentHasHead(systems[i]);
      StepRefines(systems[i], steps[i], systems[i + 1], roots);
      ConsistentHasHead(systems[i + 1]);
    }
  }

  lemma ConsistentHasHead(system: System)
    requires IsConsistent(system)
    ensures system.disk.head.Some?
  {
  }

  predicate WritesHead(step: Label) {
    step.Commit? || step.RewriteHead? || step.MoveHead?
  }

  /** Every head write of a run leaves the retained set as it should be. */
  lemma EveryHeadWriteRetains(before: System, step: Label, after: System, roots: nat)
    requires IsConsistent(before) && Next(before, step, after, roots) && roots >= 1
    ensures after.disk.head.Some?
    ensures WritesHead(step) ==>
              IsRetention(after.disk.head.value.retained, after.disk.head.value.snapshot, HeadsIn(after.disk.refs),
                          roots)
    ensures !WritesHead(step) ==> after.disk.head == before.disk.head
  {
    hide IsHeadWrite, IsRetention, HeadsIn;
    match step
    case Commit(digest, origin, retain) =>
      HeadWriteRetains(before.disk, after.disk, digest, origin, retain, roots);
      HeadWriteIs(before.disk, after.disk, digest, origin, retain, roots);
    case RewriteHead =>
      var head := before.disk.head.value;
      HeadWriteRetains(before.disk, after.disk, head.snapshot, head.origin, [], roots);
      HeadWriteIs(before.disk, after.disk, head.snapshot, head.origin, [], roots);
    case MoveHead =>
      var ref := before.task.table.branches[before.task.target];
      HeadWriteRetains(before.disk, after.disk, ref.snapshot, ref.origin, [], roots);
      HeadWriteIs(before.disk, after.disk, ref.snapshot, ref.origin, [], roots);
    case _ =>
  }

  // --- Runs over a store ---------------------------------------------------------------------------------

  /** The pointers, and the store behind them. */
  datatype World = World(system: System, docs: map<Id, Document>, signatures: map<Id, seq<Id>>)

  datatype Event = Point(step: Label) | Sweep(tagged: set<Id>)

  /** The retained snapshots and the branch heads: what a prune starts from. */
  function Roots(disk: Disk): (r: set<Id>) {
    (if disk.head.Some? then Members(disk.head.value.retained) else {}) + HeadsIn(disk.refs)
  }

  predicate IsAddressed(docs: map<Id, Document>) {
    forall id | id in docs && docs[id].SnapshotDoc? :: docs[id].snapshot.digest == id
  }

  predicate IsHeld(docs: map<Id, Document>, id: Id) {
    id in docs && docs[id].SnapshotDoc?
  }

  /** Blobs go in before a pointer names them, and a branch starts at a snapshot that is held. */
  predicate StartsHeld(before: World, step: Label, after: World) {
    && (step.Commit? ==> IsHeld(after.docs, step.digest))
    && (step.Create? ==> IsHeld(before.docs, step.start))
  }

  ghost predicate Moves(before: World, event: Event, after: World, roots: nat) {
    match event
    case Point(step) =>
      && Next(before.system, step, after.system, roots) && StartsHeld(before, step, after)
      && Grows(before.docs, after.docs) && NamesMore(before.signatures, after.signatures) && IsAddressed(after.docs)
    case Sweep(tagged) =>
      && after.system == before.system && after.signatures == before.signatures
      && after.docs == Swept(before.docs, Kept(before.docs, before.signatures, Roots(before.system.disk), tagged))
  }

  /** The head pointer and every branch name a snapshot that can be read. */
  ghost predicate IsSafe(world: World) {
    && IsConsistent(world.system) && IsAddressed(world.docs)
    && IsHeld(world.docs, world.system.disk.head.value.snapshot)
    && forall id | id in HeadsIn(world.system.disk.refs) :: IsHeld(world.docs, id)
  }

  lemma HeldGrows(before: map<Id, Document>, after: map<Id, Document>, id: Id)
    requires Grows(before, after) && IsHeld(before, id)
    ensures IsHeld(after, id)
  {
  }

  /** The heads a step leaves named were named before, or are the one it was given. */
  lemma StepHeads(before: System, step: Label, after: System, roots: nat)
    requires IsConsistent(before) && Next(before, step, after, roots)
    ensures after.disk.head.Some?
    ensures after.disk.head.value.snapshot in {before.disk.head.value.snapshot} + HeadsIn(before.disk.refs)
            || (step.Commit? && after.disk.head.value.snapshot == step.digest)
    ensures forall id | id in HeadsIn(after.disk.refs) ::
              id == before.disk.head.value.snapshot || id in HeadsIn(before.disk.refs)
                || (step.Create? && id == step.start)
  {
  }

  lemma RootIsKept(world: World, tagged: set<Id>, id: Id)
    requires IsHeld(world.docs, id) && IsAddressed(world.docs) && id in Roots(world.system.disk)
    ensures var kept := Kept(world.docs, world.signatures, Roots(world.system.disk), tagged);
            && Needs(world.docs, world.docs[id].snapshot) <= kept && id in kept
            && Members(NamedIn(world.signatures, id)) <= kept
  {
    hide Needs, Kept;
    var snapshot := world.docs[id].snapshot;
    RootsAreKept(world.docs, world.signatures, Roots(world.system.disk), tagged, snapshot);
    NeedsItself(world.docs, snapshot);
  }

  /** Whatever happens, a crash or a prune included, no branch is left without its head. */
  lemma WorldStaysSafe(before: World, event: Event, after: World, roots: nat)
    requires IsSafe(before) && Moves(before, event, after, roots) && roots >= 1
    ensures IsSafe(after)
  {
    hide Next, Kept, IsConsistent, IsHeld;
    ConsistentHasHead(before.system);
    match event
    case Point(step) =>
      StepRefines(before.system, step, after.system, roots);
      StepHeads(before.system, step, after.system, roots);
      forall id | IsHeld(before.docs, id)
        ensures IsHeld(after.docs, id)
      {
        HeldGrows(before.docs, after.docs, id);
      }
    case Sweep(tagged) =>
      forall id | id in {before.system.disk.head.value.snapshot} + HeadsIn(before.system.disk.refs)
        ensures IsHeld(after.docs, id)
      {
        HeadIsRoot(before.system, id);
        RootIsKept(before, tagged, id);
        SweptHolds(before.docs, Kept(before.docs, before.signatures, Roots(before.system.disk), tagged), id);
      }
      SweptIsAddressed(before.docs, Kept(before.docs, before.signatures, Roots(before.system.disk), tagged));
  }

  lemma HeadIsRoot(system: System, id: Id)
    requires IsConsistent(system) && id in {system.disk.head.value.snapshot} + HeadsIn(system.disk.refs)
    ensures id in Roots(system.disk)
  {
  }

  lemma SweptHolds(docs: map<Id, Document>, kept: set<Id>, id: Id)
    requires IsHeld(docs, id) && id in kept
    ensures IsHeld(Swept(docs, kept), id)
  {
  }

  lemma SweptIsAddressed(docs: map<Id, Document>, kept: set<Id>)
    requires IsAddressed(docs)
    ensures IsAddressed(Swept(docs, kept))
  {
  }

  // --- What a root keeps alive ----------------------------------------------------------------------------

  lemma NeedsGrow(before: map<Id, Document>, after: map<Id, Document>, snapshot: Snapshot)
    requires Grows(before, after)
    ensures Needs(before, snapshot) <= Needs(after, snapshot)
  {
    hide NamedBy;
    forall kind | kind in snapshot.modules
      ensures NamedBy(before, snapshot.modules[kind]) <= NamedBy(after, snapshot.modules[kind])
    {
      NamesGrow(before, after, snapshot.modules[kind]);
    }
  }

  lemma NamesGrow(before: map<Id, Document>, after: map<Id, Document>, reference: ModuleRef)
    requires Grows(before, after)
    ensures NamedBy(before, reference) <= NamedBy(after, reference)
  {
    if reference.composition in before && before[reference.composition].CompositionDoc? {
      var blocks := before[reference.composition].composition.blocks;
      forall block | block in blocks
        ensures ContentOf(before, block) <= ContentOf(after, block)
      {
      }
    }
  }

  /** A held snapshot, documents it needs, and records that cover it. */
  ghost predicate IsCovered(world: World, snapshot: Snapshot, documents: map<Id, Document>, records: set<Id>) {
    && LoadSnapshot(Store(world.docs, map[]), snapshot.digest) == Some(snapshot)
    && Grows(documents, world.docs)
    && documents.Keys <= Needs(world.docs, snapshot) + records
    && records <= Members(NamedIn(world.signatures, snapshot.digest))
  }

  /** Nothing a retained snapshot or a branch head needs is lost by a step that starts while it is a root. */
  lemma RootKeepsItsOwn(
    before: World, event: Event, after: World, roots: nat, snapshot: Snapshot, documents: map<Id, Document>,
    records: set<Id>)
    requires Moves(before, event, after, roots) && IsAddressed(before.docs)
    requires snapshot.digest in Roots(before.system.disk) && IsCovered(before, snapshot, documents, records)
    ensures IsCovered(after, snapshot, documents, records)
  {
    hide Next, Needs, Kept, Roots;
    match event
    case Point(step) =>
      NeedsGrow(before.docs, after.docs, snapshot);
      GrowthComposes(documents, before.docs, after.docs);
    case Sweep(tagged) =>
      RootIsKept(before, tagged, snapshot.digest);
      NeedsSurvive(before.docs, Kept(before.docs, before.signatures, Roots(before.system.disk), tagged), snapshot);
  }

  ghost predicate IsWorldRun(worlds: seq<World>, events: seq<Event>, roots: nat) {
    && |worlds| == |events| + 1
    && forall i | 0 <= i < |events| :: Moves(worlds[i], events[i], worlds[i + 1], roots)
  }

  /** In every state of every run, each branch a reader sees has a head that can be read. */
  lemma {:induction false} RunStaysSafe(worlds: seq<World>, events: seq<Event>, roots: nat, i: nat)
    requires IsWorldRun(worlds, events, roots) && IsSafe(worlds[0]) && roots >= 1 && i < |worlds|
    ensures IsSafe(worlds[i])
    ensures forall name | name in ViewOf(worlds[i].system.disk).heads ::
              IsHeld(worlds[i].docs, ViewOf(worlds[i].system.disk).heads[name])
  {
    hide Moves, IsConsistent, IsHeld;
    if i > 0 {
      RunStaysSafe(worlds, events, roots, i - 1);
      assert Moves(worlds[i - 1], events[i - 1], worlds[i - 1 + 1], roots);
      WorldStaysSafe(worlds[i - 1], events[i - 1], worlds[i], roots);
    }
    ConsistentHasHead(worlds[i].system);
    ViewNamesHeads(worlds[i].system.disk);
  }

  lemma ViewNamesHeads(disk: Disk)
    requires disk.head.Some?
    ensures forall name | name in ViewOf(disk).heads ::
              ViewOf(disk).heads[name] == disk.head.value.snapshot || ViewOf(disk).heads[name] in HeadsIn(disk.refs)
  {
  }

  /**
   Over any run, for as long as a snapshot stays retained or stays a branch head, none of the documents,
   compositions, blocks, named content and signature records it had is reclaimed.
   */
  lemma {:induction false} RunKeepsRoots(
    worlds: seq<World>, events: seq<Event>, roots: nat, first: nat, last: nat, snapshot: Snapshot,
    documents: map<Id, Document>, records: set<Id>)
    requires IsWorldRun(worlds, events, roots) && IsSafe(worlds[0]) && roots >= 1
    requires first <= last < |worlds| && IsCovered(worlds[first], snapshot, documents, records)
    requires forall k | first <= k < last :: snapshot.digest in Roots(worlds[k].system.disk)
    ensures IsCovered(worlds[last], snapshot, documents, records)
    decreases last
  {
    hide Moves, IsSafe, IsCovered, Roots;
    if first < last {
      RunKeepsRoots(worlds, events, roots, first, last - 1, snapshot, documents, records);
      RunStaysSafe(worlds, events, roots, last - 1);
      assert Moves(worlds[last - 1], events[last - 1], worlds[last - 1 + 1], roots);
      SafeIsAddressed(worlds[last - 1]);
      RootKeepsItsOwn(worlds[last - 1], events[last - 1], worlds[last], roots, snapshot, documents, records);
    }
  }

  /** A snapshot the head retains, or one a branch is at. */
  predicate IsRetainedOrHead(disk: Disk, id: Id) {
    || (disk.head.Some? && id in disk.head.value.retained)
    || (disk.refs.Some? && exists name | name in disk.refs.value.branches ::
                             disk.refs.value.branches[name].snapshot == id)
  }

  lemma RootsAre(disk: Disk, id: Id)
    ensures id in Roots(disk) <==> IsRetainedOrHead(disk, id)
  {
  }

  /**
   The same, address by address: for as long as a snapshot is retained or a branch is at it, whatever it was made of
   and was there is still there, and so is every signature record that was named for it.
   */
  lemma RunKeepsContents(
    worlds: seq<World>, events: seq<Event>, roots: nat, first: nat, last: nat, digest: Id, id: Id)
    requires IsWorldRun(worlds, events, roots) && IsSafe(worlds[0]) && roots >= 1
    requires first <= last < |worlds| && IsHeld(worlds[first].docs, digest)
    requires forall k | first <= k < last :: IsRetainedOrHead(worlds[k].system.disk, digest)
    requires IsPartOf(worlds[first].docs, worlds[first].docs[digest].snapshot, id)
             || (digest in worlds[first].signatures && id in worlds[first].signatures[digest])
    ensures Stays(worlds[first].docs, worlds[last].docs, id)
    ensures IsHeld(worlds[last].docs, digest) && worlds[last].docs[digest] == worlds[first].docs[digest]
  {
    hide Moves, Needs, IsPartOf, Roots, IsRetainedOrHead;
    var docs := worlds[first].docs;
    var snapshot := docs[digest].snapshot;
    RunStaysSafe(worlds, events, roots, first);
    SafeIsAddressed(worlds[first]);
    NeedsAreItsParts(docs, snapshot, id);
    NeedsItself(docs, snapshot);
    var records := Members(NamedIn(worlds[first].signatures, digest));
    var documents := map other | other in docs && other in Needs(docs, snapshot) + records :: docs[other];
    assert IsCovered(worlds[first], snapshot, documents, records);
    forall k | first <= k < last
      ensures digest in Roots(worlds[k].system.disk)
    {
      RootsAre(worlds[k].system.disk, digest);
    }
    RunKeepsRoots(worlds, events, roots, first, last, snapshot, documents, records);
    assert id in docs ==> id in documents && documents[id] == docs[id];
    assert digest in documents;
  }

  lemma SafeIsAddressed(world: World)
    requires IsSafe(world)
    ensures IsAddressed(world.docs)
  {
  }

  // --- How runs begin ---------------------------------------------------------------------------------

  const BLANK := Disk(None, None)

  /** The first write of a head, on a disk that has no pointers yet, starts a consistent system. */
  lemma FirstHeadIsConsistent(after: Disk, digest: Id, origin: Option<Origin>, retain: seq<Id>, roots: nat)
    requires IsHeadWrite(BLANK, after, digest, origin, retain, roots) && roots >= 1
    ensures IsConsistent(System(after, Idle)) && IsQuiet(after)
    ensures ViewOf(after) == View(Branches.DEFAULT_BRANCH, map[Branches.DEFAULT_BRANCH := digest])
  {
    HeadWriteRetains(BLANK, after, digest, origin, retain, roots);
    HeadWriteIs(BLANK, after, digest, origin, retain, roots);
    assert ViewOf(after).heads == map[Branches.DEFAULT_BRANCH := digest];
  }

  /** Its document being held, the world it starts is safe. */
  lemma FirstHeadIsSafe(world: World, digest: Id, origin: Option<Origin>, retain: seq<Id>, roots: nat)
    requires IsHeadWrite(BLANK, world.system.disk, digest, origin, retain, roots) && roots >= 1
    requires world.system.task == Idle && IsAddressed(world.docs) && IsHeld(world.docs, digest)
    ensures IsSafe(world)
  {
    hide IsHeadWrite, IsConsistent;
    FirstHeadIsConsistent(world.system.disk, digest, origin, retain, roots);
    HeadWriteIs(BLANK, world.system.disk, digest, origin, retain, roots);
  }
}
