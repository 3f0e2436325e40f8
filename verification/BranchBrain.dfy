/** A brain's branches as they run: compound operations made of single pointer writes. */
module BranchBrain {
  import opened Common
  import opened Documents
  import opened Histories
  import opened BranchPointers
  import Retention
  import BranchRuns
  import Branches
  import Replay

  datatype BranchError =
    | NoSnapshotYet
    | InvalidName
    | BranchExists
    | BranchNotFound
    | SnapshotNotHeld
    | BranchIsCurrent
    | Unmerged
    | NotFastForward
    | StrategyNeeded
    | ReconciliationOpen

  datatype FastForward = Auto | Only | Never

  /** `Diverged` hands on to a reconciliation, recorded the way the caller chose. */
  datatype JoinOutcome = UpToDate | Forwarded | Diverged(strategy: Replay.Strategy)

  lemma OneMore(ids: seq<Id>, id: Id)
    ensures Members(ids + [id]) == Members(ids) + {id} && Members<Id>([]) == {}
  {
  }

  lemma UnpinnedStep(candidates: seq<Id>, pinned: set<Id>, digest: Id, bounded: seq<Id>)
    requires candidates != []
    ensures var id := candidates[0];
            bounded + Retention.Unpinned(candidates, pinned, digest, Members(bounded)) ==
            if id in bounded || (id in pinned && id != digest)
            then bounded + Retention.Unpinned(candidates[1..], pinned, digest, Members(bounded))
            else (bounded + [id]) + Retention.Unpinned(candidates[1..], pinned, digest, Members(bounded + [id]))
  {
    OneMore(bounded, candidates[0]);
    Regroup(bounded, candidates[0],
            Retention.Unpinned(candidates[1..], pinned, digest, Members(bounded + [candidates[0]])));
  }

  /** Candidates that are neither listed yet nor pinned, in turn. */
  method SkipPinned(candidates: seq<Id>, pinned: set<Id>, digest: Id) returns (bounded: seq<Id>)
    ensures bounded == Retention.Unpinned(candidates, pinned, digest, {})
  {
    hide Members, Retention.Unpinned;
    bounded := [];
    ghost var whole := Retention.Unpinned(candidates, pinned, digest, {});
    OneMore([], digest);
    assert candidates[0..] == candidates && [] + whole == whole;
    for i := 0 to |candidates|
      invariant whole == bounded + Retention.Unpinned(candidates[i..], pinned, digest, Members(bounded))
    {
      assert candidates[i..][0] == candidates[i] && candidates[i..][1..] == candidates[i + 1..];
      UnpinnedStep(candidates[i..], pinned, digest, bounded);
      if candidates[i] in bounded || (candidates[i] in pinned && candidates[i] != digest) {
        continue;
      }
      bounded := bounded + [candidates[i]];
    }
    UnpinnedEnd(pinned, digest, Members(bounded));
  }

  lemma UnpinnedEnd(pinned: set<Id>, digest: Id, taken: set<Id>)
    ensures Retention.Unpinned([], pinned, digest, taken) == []
  {
  }

  lemma RemainingStep(heads: seq<Id>, retained: seq<Id>)
    requires heads != []
    ensures retained + Retention.Remaining(heads, Members(retained)) ==
            if heads[0] in retained then retained + Retention.Remaining(heads[1..], Members(retained))
            else (retained + [heads[0]]) + Retention.Remaining(heads[1..], Members(retained + [heads[0]]))
  {
    hide Members;
    OneMore(retained, heads[0]);
    MembersHave(retained, heads[0]);
    Regroup(retained, heads[0], Retention.Remaining(heads[1..], Members(retained + [heads[0]])));
  }

  lemma MembersHave(ids: seq<Id>, id: Id)
    ensures id in Members(ids) <==> id in ids
  {
  }

  lemma Regroup(a: seq<Id>, id: Id, rest: seq<Id>)
    ensures a + ([id] + rest) == (a + [id]) + rest
  {
  }

  /** The retained list: recent candidates within the bound, then the heads that are not among them. */
  method Bound(digest: Id, retain: seq<Id>, previous: seq<Id>, heads: seq<Id>, roots: nat) returns (retained: seq<Id>)
    ensures retained == Retention.Retained(digest, retain, previous, heads, roots)
  {
    hide Retention.Unpinned, Members, Retention.Remaining;
    var bounded := SkipPinned([digest] + retain + previous, Members(heads), digest);
    bounded := Retention.Take(bounded, roots);
    retained := bounded;
    ghost var whole := bounded + Retention.Remaining(heads, Members(bounded));
    assert heads[0..] == heads;
    for i := 0 to |heads|
      invariant whole == retained + Retention.Remaining(heads[i..], Members(retained))
    {
      assert heads[i..][0] == heads[i] && heads[i..][1..] == heads[i + 1..];
      RemainingStep(heads[i..], retained);
      if heads[i] !in retained {
        retained := retained + [heads[i]];
      }
    }
    RemainingEnd(Members(retained));
  }

  lemma RemainingEnd(taken: set<Id>)
    ensures Retention.Remaining([], taken) == []
  {
  }

  class Brain {
    const roots: nat
    var head: Option<Head>
    var refs: Option<RefTable>
    var docs: map<Id, Document>
    var reconciling: bool

    constructor (roots: nat, head: Option<Head>, refs: Option<RefTable>, docs: map<Id, Document>, reconciling: bool)
      ensures this.roots == roots && Pointers() == Disk(head, refs)
      ensures this.docs == docs && this.reconciling == reconciling
    {
      this.roots, this.head, this.refs, this.docs, this.reconciling := roots, head, refs, docs, reconciling;
    }

    function Pointers(): (r: Disk)
      reads this
    {
      Disk(head, refs)
    }

    /** At least one root is retained, and the head is among what is. */
    ghost predicate Valid()
      reads this
    {
      roots >= 1 && (head.Some? ==> IsConsistent(System(Pointers(), Idle)))
    }

    /** What the refs point at, in some order. */
    method BranchHeads() returns (heads: seq<Id>)
      ensures Lists(heads, refs)
    {
      heads := [];
      if refs.None? {
        return;
      }
      var table := refs.value.branches;
      var rest := table.Keys;
      while rest != {}
        invariant rest <= table.Keys
        invariant Members(heads) == set name | name in table && name !in rest :: table[name].snapshot
        decreases |rest|
      {
        var name :| name in rest;
        OneMore(heads, table[name].snapshot);
        heads := heads + [table[name].snapshot];
        rest := rest - {name};
      }
    }

    /** One write of the head: recent roots within the bound, and no branch left out of them. */
    method WriteHead(digest: Id, origin: Option<Origin>, retain: seq<Id>)
      modifies this`head
      ensures IsHeadWrite(old(Pointers()), Pointers(), digest, origin, retain, roots)
    {
      hide Lists;
      var pinned := BranchHeads();
      var previous := if head.Some? then head.value.retained else [];
      var retained := Bound(digest, retain, previous, pinned, roots);
      head := Some(Head(digest, retained, origin));
    }

    method WriteRefs(table: RefTable)
      modifies this`refs
      ensures Pointers() == RefsWritten(old(Pointers()), table)
    {
      refs := Some(table);
    }

    /** Reading the refs settles a half-done checkout, forwards if the head has moved and backwards if not. */
    method ReadRefs() returns (table: Option<RefTable>)
      modifies this`refs
      ensures refs == table
      ensures table == if old(refs).None? then None else Some(Repaired(old(refs).value, head))
    {
      if refs.None? || refs.value.switching.None? {
        return refs;
      }
      var target := refs.value.switching.value;
      if target in refs.value.branches && head.Some? && head.value.snapshot == refs.value.branches[target].snapshot {
        WriteRefs(refs.value.(current := target, switching := None));
      } else {
        WriteRefs(refs.value.(switching := None));
      }
      table := refs;
    }

    /** The branches as a reader finds them. */
    ghost function View(): (r: BranchPointers.View)
      reads this
      requires head.Some?
    {
      ViewOf(Pointers())
    }

    ghost function Table(): (r: RefTable)
      reads this
      requires head.Some?
    {
      Recorded(TableOf(Pointers()).value, head)
    }

    /** Every branch operation begins here: the refs settled, and the current branch set to where the head is. */
    method CurrentTable() returns (table: RefTable)
      requires head.Some?
      modifies this`refs
      ensures IsQuiet(Pointers()) && ViewOf(Pointers()) == ViewOf(old(Pointers()))
      ensures table == Recorded(TableOf(Pointers()).value, head) == old(Table()) && RecordsView(table, View())
    {
      var stored := ReadRefs();
      if old(refs).Some? {
        RepairIsInvisible(old(Pointers()));
      }
      table := Recorded(if stored.Some? then stored.value else ImplicitTable(head.value), head);
    }

    method StartOf(table: RefTable, at: Start) returns (r: Result<Id, BranchError>)
      requires head.Some?
      ensures r.Ok? ==> match at
                        case AtHead => r.value == head.value.snapshot
                        case AtBranch(other) => other in table.branches && r.value == table.branches[other].snapshot
                        case AtSnapshot(id) => r.value == id && BranchRuns.IsHeld(docs, id)
      ensures r.Err? <==> !IsStart(table, docs, at)
    {
      match at
      case AtHead => return Ok(head.value.snapshot);
      case AtBranch(other) =>
        if other !in table.branches {
          return Err(BranchNotFound);
        }
        return Ok(table.branches[other].snapshot);
      case AtSnapshot(id) =>
        if id !in docs || !docs[id].SnapshotDoc? {
          return Err(SnapshotNotHeld);
        }
        return Ok(id);
    }

    /** The head pointer written over as it is, so that what it retains follows the refs. */
    method RewriteHead()
      requires Valid() && head.Some? && IsConsistent(System(Pointers(), Unpinned))
      modifies this`head
      ensures Valid() && head.Some? && View() == old(View())
      ensures head.value.snapshot == old(head).value.snapshot && head.value.origin == old(head).value.origin
      ensures Retention.IsRetention(head.value.retained, old(head).value.snapshot, HeadsIn(refs), roots)
    {
      hide ViewOf, IsHeadWrite, Retention.IsRetention, HeadsIn;
      WriteHead(head.value.snapshot, head.value.origin, []);
      RewriteRefines(System(old(Pointers()), Unpinned), System(Pointers(), Idle), roots);
      HeadWriteRetains(old(Pointers()), Pointers(), old(head).value.snapshot, old(head).value.origin, [], roots);
      HeadWriteIs(old(Pointers()), Pointers(), old(head).value.snapshot, old(head).value.origin, [], roots);
    }

    /** A new name for a snapshot, which is safe from pruning from this moment on. */
    method CreateBranch(name: string, at: Start) returns (r: Result<Id, BranchError>)
      requires Valid()
      modifies this
      ensures Valid() && docs == old(docs) && reconciling == old(reconciling) && (old(head).Some? <==> head.Some?)
      ensures r.Err? && head.Some? ==> View() == old(View())
      ensures r.Ok? <==>
                && Branches.ValidateBranchName(name).Ok? && old(head).Some?
                && name !in old(View()).heads && IsStart(old(Table()), docs, at)
      ensures r.Ok? ==> head.Some? && View() == old(View()).(heads := old(View()).heads[name := r.value])
                        && r.value in head.value.retained
      ensures r.Ok? ==> head.value.snapshot == old(head).value.snapshot && head.value.origin == old(head).value.origin
    {
      hide ViewOf, TableOf, Branches.ValidateBranchName, Retention.IsRetention, Repaired;
      if Branches.ValidateBranchName(name).Err? {
        return Err(InvalidName);
      }
      if head.None? {
        return Err(NoSnapshotYet);
      }
      var table := CurrentTable();
      ghost var before := System(Pointers(), Idle);
      if name in table.branches {
        return Err(BranchExists);
      }
      r := StartOf(table, at);
      if r.Err? {
        return;
      }
      var start := r.value;
      WriteRefs(table.(branches := table.branches[name := BranchRef(start, None)]));
      ghost var created := System(Pointers(), Unpinned);
      assert Next(before, Create(name, start), created, roots);
      CreateRefines(before, name, start, created, roots);
      NewBranchIsListed(refs.value, name);
      RewriteHead();
      RetentionCovers(head.value.retained, created.disk.head.value.snapshot, HeadsIn(refs), roots, start);
    }

    /** Make another branch current: its ref announced, the head moved, the table settled. */
    method Checkout(name: string) returns (r: Result<(), BranchError>)
      requires Valid()
      modifies this
      ensures Valid() && docs == old(docs) && reconciling == old(reconciling) && (old(head).Some? <==> head.Some?)
      ensures r.Err? && head.Some? ==> View() == old(View())
      ensures r.Ok? <==> !old(reconciling) && old(head).Some? && name in old(View()).heads
      ensures r == Err(ReconciliationOpen) <==> old(reconciling)
      ensures r.Ok? ==> head.Some? && View() == old(View()).(current := name)
      ensures r.Ok? && name != old(View()).current ==>
                && name in old(Table()).branches
                && head.value.snapshot == old(Table()).branches[name].snapshot
                && head.value.origin == old(Table()).branches[name].origin
    {
      hide ViewOf, TableOf, Retention.IsRetention, Repaired, IsHeadWrite;
      if reconciling {
        return Err(ReconciliationOpen);
      }
      if head.None? {
        return Err(NoSnapshotYet);
      }
      var table := CurrentTable();
      ghost var start := System(Pointers(), Idle);
      QuietView(Pointers());
      if name == table.current {
        return Ok(());
      }
      if name !in table.branches {
        return Err(BranchNotFound);
      }
      var target := table.branches[name];
      WriteRefs(table.(switching := Some(name)));
      ghost var announced := System(Pointers(), Announced(table, name));
      assert Next(start, Announce(name), announced, roots);
      WriteHead(target.snapshot, target.origin, []);
      ghost var moved := System(Pointers(), Moved(table, name));
      HeadWriteIs(announced.disk, moved.disk, target.snapshot, target.origin, [], roots);
      assert Next(announced, MoveHead, moved, roots);
      WriteRefs(table.(current := name, switching := None));
      ghost var settled := System(Pointers(), Idle);
      assert Next(moved, Settle, settled, roots);
      BranchRuns.CheckoutIsCrashSafe(start, announced, moved, settled, name, roots);
      r := Ok(());
    }

    /** Whether deleting a branch would leave its head without any other name. */
    method IsMergedElsewhere(table: RefTable, name: string) returns (merged: bool)
      requires name in table.branches
      ensures merged <==> IsContainedElsewhere(docs, table, name)
    {
      hide Contains;
      var gone := table.branches[name];
      merged := false;
      if gone.origin.Some? {
        var published := ReachableFrom(docs, gone.origin.value.snapshot);
        if gone.snapshot in published {
          return true;
        }
      }
      var rest := table.branches.Keys - {name};
      while rest != {}
        invariant rest <= table.branches.Keys - {name}
        invariant forall other | other in table.branches && other != name && other !in rest ::
                    !Contains(docs, table.branches[other].snapshot, gone.snapshot)
        decreases |rest|
      {
        var other :| other in rest;
        var reachable := ReachableFrom(docs, table.branches[other].snapshot);
        if gone.snapshot in reachable {
          return true;
        }
        rest := rest - {other};
      }
    }

    /** Remove a branch's ref. Unforced, it is refused when nothing else names the work. */
    method DeleteBranch(name: string, force: bool) returns (r: Result<(), BranchError>)
      requires Valid()
      modifies this
      ensures Valid() && docs == old(docs) && reconciling == old(reconciling) && (old(head).Some? <==> head.Some?)
      ensures r.Err? && head.Some? ==> View() == old(View())
      ensures r.Ok? <==>
                && old(head).Some? && name in old(View()).heads && name != old(View()).current
                && (force || (name in old(Table()).branches && IsContainedElsewhere(docs, old(Table()), name)))
      ensures r.Ok? ==> head.Some? && View() == old(View()).(heads := old(View()).heads - {name})
      ensures r.Ok? ==> head.value.snapshot == old(head).value.snapshot && head.value.origin == old(head).value.origin
    {
      hide ViewOf, TableOf, Retention.IsRetention, Repaired, IsContainedElsewhere;
      if head.None? {
        return Err(NoSnapshotYet);
      }
      var table := CurrentTable();
      ghost var before := System(Pointers(), Idle);
      QuietView(Pointers());
      if name !in table.branches {
        return Err(BranchNotFound);
      }
      if name == table.current {
        return Err(BranchIsCurrent);
      }
      if !force {
        var merged := IsMergedElsewhere(table, name);
        if !merged {
          return Err(Unmerged);
        }
      }
      WriteRefs(table.(branches := table.branches - {name}));
      ghost var deleted := System(Pointers(), Unpinned);
      assert Next(before, Delete(name), deleted, roots);
      DeleteRefines(before, name, deleted, roots);
      RewriteHead();
      r := Ok(());
    }

    /** Joining, up to the point where histories have diverged and a reconciliation takes over. */
    method Join(name: string, strategy: Option<Replay.Strategy>, forward: FastForward)
      returns (r: Result<JoinOutcome, BranchError>)
      requires Valid()
      modifies this
      ensures Valid() && docs == old(docs) && reconciling == old(reconciling) && (old(head).Some? <==> head.Some?)
      ensures (r.Err? || r.value != Forwarded) && head.Some? ==> View() == old(View())
      ensures r == Err(ReconciliationOpen) <==> old(reconciling)
      ensures r.Err? <==>
                || old(reconciling) || old(head).None? || name == old(View()).current || name !in old(View()).heads
                || ((forward == Only || strategy.None?) && old(View()).current in old(View()).heads
                    && var ours, theirs := old(View()).heads[old(View()).current], old(View()).heads[name];
                       !Contains(docs, ours, theirs) && (forward == Never || !Contains(docs, theirs, ours)))
      ensures r.Ok? ==>
                && head.Some? && name in old(View()).heads && old(View()).current in old(View()).heads
                && var ours, theirs := old(View()).heads[old(View()).current], old(View()).heads[name];
                   match r.value
                   case UpToDate => Contains(docs, ours, theirs)
                   case Forwarded =>
                     !Contains(docs, ours, theirs) && Contains(docs, theirs, ours) && forward != Never
                     && View() == old(View()).(heads := old(View()).heads[old(View()).current := theirs])
                     && head.value.snapshot == theirs && head.value.origin == old(head).value.origin
                   case Diverged(chosen) =>
                     && strategy == Some(chosen) && !Contains(docs, ours, theirs)
                     && (Contains(docs, theirs, ours) ==> forward == Never)
    {
      hide ViewOf, TableOf, Retention.IsRetention, Repaired, IsHeadWrite, Contains;
      if reconciling {
        return Err(ReconciliationOpen);
      }
      if head.None? {
        return Err(NoSnapshotYet);
      }
      var table := CurrentTable();
      QuietView(Pointers());
      if name == table.current {
        return Err(BranchIsCurrent);
      }
      if name !in table.branches {
        return Err(BranchNotFound);
      }
      var theirs := table.branches[name].snapshot;
      var contained := ReachableFrom(docs, head.value.snapshot);
      if theirs in contained {
        return Ok(UpToDate);
      }
      var ahead := ReachableFrom(docs, theirs);
      if head.value.snapshot in ahead && forward != Never {
        ghost var before := Pointers();
        WriteHead(theirs, head.value.origin, []);
        HeadWriteIs(before, Pointers(), theirs, before.head.value.origin, [], roots);
        CommitRefines(before, Pointers(), theirs, before.head.value.origin, [], roots);
        HeadWriteRetains(before, Pointers(), theirs, before.head.value.origin, [], roots);
        return Ok(Forwarded);
      }
      if forward == Only {
        return Err(NotFastForward);
      }
      if strategy.None? {
        return Err(StrategyNeeded);
      }
      r := Ok(Diverged(strategy.value));
    }

    /** The snapshots the head retains that can still be read, then the branch heads it does not. */
    method PruneRoots() returns (roots: set<Id>)
      ensures roots == set id | id in BranchRuns.Roots(Pointers()) && BranchRuns.IsHeld(docs, id)
    {
      roots := {};
      var retained := if head.Some? then head.value.retained else [];
      for i := 0 to |retained|
        invariant roots == set id | id in Members(retained[..i]) && BranchRuns.IsHeld(docs, id)
      {
        assert retained[..i + 1] == retained[..i] + [retained[i]];
        if retained[i] in docs && docs[retained[i]].SnapshotDoc? {
          roots := roots + {retained[i]};
        }
      }
      assert retained[..|retained|] == retained;
      var heads := BranchHeads();
      for i := 0 to |heads|
        invariant roots == set id | id in Members(retained) + Members(heads[..i]) && BranchRuns.IsHeld(docs, id)
      {
        assert heads[..i + 1] == heads[..i] + [heads[i]];
        if heads[i] !in roots && heads[i] in docs && docs[heads[i]].SnapshotDoc? {
          roots := roots + {heads[i]};
        }
      }
      assert heads[..|heads|] == heads;
    }

    /** Reclaim what no root needs. A block that is there and cannot be read stops it before anything is deleted. */
    method Prune(signatures: map<Id, seq<Id>>, tagged: set<Id>) returns (swept: bool)
      modifies this`docs
      ensures swept <==>
                forall root, kind |
                  root in BranchRuns.Roots(Pointers()) && BranchRuns.IsHeld(old(docs), root)
                  && kind in old(docs)[root].snapshot.modules ::
                  DecodesWhereHeld(old(docs), old(docs)[root].snapshot.modules[kind].composition)
      ensures swept ==> forall id ::
                id in docs <==>
                id in old(docs) && Retention.IsKept(old(docs), signatures, BranchRuns.Roots(Pointers()), tagged, id)
      ensures swept ==> forall id | id in docs :: docs[id] == old(docs)[id]
      ensures swept ==>
                docs == Retention.Swept(old(docs),
                                        Retention.Kept(old(docs), signatures, BranchRuns.Roots(Pointers()), tagged))
      ensures !swept ==> docs == old(docs)
    {
      var roots := PruneRoots();
      assert Retention.Resolved(docs, roots) == Retention.Resolved(docs, BranchRuns.Roots(Pointers()));
      var snapshots := Retention.Resolved(docs, roots);
      ReadableExactly(docs, BranchRuns.Roots(Pointers()));
      if exists snapshot | snapshot in snapshots :: !Retention.IsReadable(docs, snapshot) {
        return false;
      }
      var marked := Retention.Mark(docs, snapshots) + tagged;
      forall id {
        Retention.KeptExactly(docs, signatures, BranchRuns.Roots(Pointers()), tagged, id);
      }
      docs := Retention.Swept(docs, marked + Retention.SignaturesFor(signatures, marked));
      swept := true;
    }
  }

  /** A composition that is there can be decoded, and so can each of its blocks that is there. */
  predicate DecodesWhereHeld(docs: map<Id, Document>, composition: Id) {
    composition in docs ==>
      && docs[composition].CompositionDoc?
      && forall block | block in docs[composition].composition.blocks && block in docs :: docs[block].BlockDoc?
  }

  lemma ReadableExactly(docs: map<Id, Document>, roots: set<Id>)
    ensures (forall snapshot | snapshot in Retention.Resolved(docs, roots) :: Retention.IsReadable(docs, snapshot)) <==>
            forall root, kind | root in roots && BranchRuns.IsHeld(docs, root) && kind in docs[root].snapshot.modules ::
              DecodesWhereHeld(docs, docs[root].snapshot.modules[kind].composition)
  {
    forall root | root in roots && BranchRuns.IsHeld(docs, root)
      ensures docs[root].snapshot in Retention.Resolved(docs, roots)
    {
    }
  }

  /** Whether a branch can start there. */
  predicate IsStart(table: RefTable, docs: map<Id, Document>, at: Start) {
    match at
    case AtHead => true
    case AtBranch(other) => other in table.branches
    case AtSnapshot(id) => BranchRuns.IsHeld(docs, id)
  }

  /** A table that gives each branch the head a reader sees. */
  ghost predicate RecordsView(table: RefTable, view: BranchPointers.View) {
    view == BranchPointers.View(table.current, map name | name in table.branches :: table.branches[name].snapshot)
  }

  lemma NewBranchIsListed(table: RefTable, name: string)
    requires name in table.branches
    ensures table.branches[name].snapshot in HeadsIn(Some(table))
  {
  }

  lemma RetentionCovers(retained: seq<Id>, digest: Id, heads: set<Id>, roots: nat, id: Id)
    requires Retention.IsRetention(retained, digest, heads, roots) && id in heads
    ensures id in retained
  {
    assert id in Members(retained);
  }

  /** Another branch's history holds the branch's head, or what it was published as does. */
  ghost predicate IsContainedElsewhere(docs: map<Id, Document>, table: RefTable, name: string)
    requires name in table.branches
  {
    || (table.branches[name].origin.Some?
        && Contains(docs, table.branches[name].origin.value.snapshot, table.branches[name].snapshot))
    || exists other | other in table.branches ::
         other != name && Contains(docs, table.branches[other].snapshot, table.branches[name].snapshot)
  }

  /** Deleting a branch that is contained elsewhere loses no history: all it held is still held by a name. */
  lemma DeletionLosesNothing(docs: map<Id, Document>, table: RefTable, name: string, id: Id)
    requires name in table.branches && IsContainedElsewhere(docs, table, name)
    requires Contains(docs, table.branches[name].snapshot, id)
    ensures || (table.branches[name].origin.Some? && Contains(docs, table.branches[name].origin.value.snapshot, id))
            || exists other | other in table.branches ::
                 other != name && Contains(docs, table.branches[other].snapshot, id)
  {
    hide Contains;
    var gone := table.branches[name];
    if gone.origin.Some? && Contains(docs, gone.origin.value.snapshot, gone.snapshot) {
      ContainsIsTransitive(docs, gone.origin.value.snapshot, gone.snapshot, id);
    } else {
      var other :| other in table.branches && other != name
        && Contains(docs, table.branches[other].snapshot, gone.snapshot);
      ContainsIsTransitive(docs, table.branches[other].snapshot, gone.snapshot, id);
    }
  }

  /** A fast-forward drops nothing: what the branch held before, it holds after. */
  lemma ForwardingKeepsHistory(docs: map<Id, Document>, ours: Id, theirs: Id, id: Id)
    requires Contains(docs, theirs, ours) && Contains(docs, ours, id)
    ensures Contains(docs, theirs, id)
  {
    hide Contains;
    ContainsIsTransitive(docs, theirs, ours, id);
  }
}
