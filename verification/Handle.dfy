/** A handle on a brain, as it runs: the operations of the write path over one mutable state. */
module Handle {
  import opened Common
  import opened Documents
  import opened Hashing
  import opened Chain
  import opened Descent
  import opened Scopes
  import opened Verdicts
  import opened Quorum
  import opened Writer
  import opened Cascade
  import opened Drops
  import opened Rotation

  method StoreBlocks(hash: Hash, docs: map<Id, Document>, blocks: seq<Block>)
    returns (stored: map<Id, Document>, ids: set<Id>)
    ensures stored == PutBlocks(hash, docs, blocks) && ids == IdsOf(hash, blocks)
  {
    stored, ids := docs, {};
    for i := 0 to |blocks|
      invariant PutBlocks(hash, stored, blocks[i..]) == PutBlocks(hash, docs, blocks)
      invariant ids == IdsOf(hash, blocks[..i])
    {
      assert blocks[i..][1..] == blocks[i + 1..];
      assert blocks[..i + 1] == blocks[..i] + [blocks[i]];
      stored := stored[hash.block(blocks[i]) := BlockDoc(blocks[i])];
      ids := ids + {hash.block(blocks[i])};
    }
    assert blocks[..|blocks|] == blocks;
  }

  class Brain {
    const hash: Hash
    const verify: Verifier
    var store: Store
    var head: Snapshot
    var started: bool
    var reconciling: bool

    constructor (hash: Hash, verify: Verifier, state: State)
      ensures this.hash == hash && this.verify == verify && Contents() == state
    {
      this.hash, this.verify := hash, verify;
      store, head, started, reconciling := state.store, state.head, state.started, state.reconciling;
    }

    function Contents(): (r: State)
      reads this
    {
      State(store, head, started, reconciling)
    }

    method Advance(description: Description)
      modifies this
      ensures Contents() == Advanced(hash, old(Contents()), description)
    {
      var snapshot := SnapshotOf(hash, description);
      store := store.(docs := store.docs[snapshot.digest := SnapshotDoc(snapshot)]);
      head := snapshot;
      started := true;
    }

    /** The single write path: every touched module stored, derived and persisted, then one new head. */
    method Write(request: Request, stamp: nat) returns (r: Result<Snapshot, WriteError>)
      modifies this
      ensures (Contents(), r) == Written(hash, old(Contents()), request, stamp)
    {
      hide WriteKinds, OpenModule, Derive, PutBlocks, IdsOf, Persist;
      if reconciling {
        return Err(ReconciliationOpen);
      }
      var kinds := TouchedFrom(request, ALL_MODULES);
      var refs: map<MemoryType, ModuleRef> := map[];
      ghost var docs := store.docs;
      for i := 0 to |kinds|
        invariant head == old(head) && started == old(started) && !reconciling
        invariant store == old(store).(docs := store.docs)
        invariant WriteKinds(hash, docs, head, request, kinds, map[]) ==
                  WriteKinds(hash, store.docs, head, request, kinds[i..], refs)
      {
        var kind := kinds[i];
        WriteKindsStep(hash, store.docs, head, request, kinds[i..], refs);
        assert kinds[i..][1..] == kinds[i + 1..];
        var stored, ids := StoreBlocks(hash, store.docs, request.Items(kind));
        store := store.(docs := stored);
        var module_ := OpenModule(stored, head, kind);
        if module_.Err? {
          return Err(module_.error);
        }
        var derived := Derive(module_.value, ids, request);
        if derived.Err? {
          return Err(derived.error);
        }
        store := store.(docs := Persist(hash, stored, derived.value));
        refs := refs[kind := ReferenceTo(hash, derived.value)];
      }
      WriteKindsEnd(hash, store.docs, head, request, refs);
      Advance(NextDescription(Contents(), refs, stamp));
      r := Ok(head);
    }

    /** Exclude blocks, and whatever the cascade takes along, in one version. */
    method Drop(policy: RetentionPolicy, blocks: set<Id>, kind: MemoryType, detail: nat, stamp: nat)
      returns (r: Result<DropResult, WriteError>)
      modifies this
      ensures (Contents(), r) == Dropped(hash, old(Contents()), policy, blocks, kind, detail, stamp)
    {
      hide OpenModule, Written, DropWrite, SizeOf, AllReadable, CanPlan, CascadeOf;
      if !policy.PermitsDrop(kind) {
        return Err(PolicyForbids);
      }
      if kind !in head.modules {
        return Err(ModuleUnreadable);
      }
      var module_ := OpenModule(store.docs, head, kind);
      if module_.Err? {
        return Err(ModuleUnreadable);
      }
      if !(blocks <= module_.value.members) {
        return Err(NotMembers);
      }
      if !AllReadable(Contents()) {
        return Err(ModuleUnreadable);
      }
      if !CanPlan(Contents()) {
        return Err(BlockMisplaced);
      }
      var dependents := PlanMany(store.docs, head, blocks);
      if policy.RequiresReview(SizeOf(dependents, ALL_MODULES)) {
        return Ok(HeldForReview(head));
      }
      var dropped := Union(map[kind := blocks], dependents);
      if exists reached | reached in dropped :: !policy.PermitsDrop(reached) {
        return Err(PolicyForbids);
      }
      var written := Write(DropWrite(dropped, detail), stamp);
      r := if written.Err? then Err(written.error) else Ok(Published(written.value));
    }

    /** The cascade of each module something is dropped from, and how much they come to. */
    method PlanAll(origins: map<MemoryType, set<Id>>) returns (dropped: map<MemoryType, set<Id>>, size: nat)
      ensures dropped == CascadeFrom(Contents(), origins, ALL_MODULES)
              && size == SizeFrom(Contents(), origins, ALL_MODULES)
    {
      hide CascadeOf, Union, SizeOf;
      dropped, size := origins, 0;
      for i := 0 to |ALL_MODULES|
        invariant dropped == CascadeFrom(Contents(), origins, ALL_MODULES[..i])
        invariant size == SizeFrom(Contents(), origins, ALL_MODULES[..i])
      {
        assert ALL_MODULES[..i + 1][..i] == ALL_MODULES[..i];
        if ALL_MODULES[i] in origins {
          var plan := PlanMany(store.docs, head, origins[ALL_MODULES[i]]);
          dropped, size := Union(dropped, plan), size + SizeOf(plan, ALL_MODULES);
        }
      }
      assert ALL_MODULES[..|ALL_MODULES|] == ALL_MODULES;
    }

    /** Everything a producer made, over all the named modules, planned first and written once. */
    method DropByProducer(
      policy: RetentionPolicy, made: set<Id>, kinds: set<MemoryType>, detail: nat, stamp: nat)
      returns (r: Result<DropResult, WriteError>)
      modifies this
      ensures (Contents(), r) == DroppedByProducer(hash, old(Contents()), policy, made, kinds, detail, stamp)
    {
      hide OpenModule, Written, DropWrite, CanPlan, CascadeOf, IsLegible, CascadeFrom, SizeFrom, Origins;
      if !AllReadable(Contents()) {
        return Err(ModuleUnreadable);
      }
      if !IsLegible(store.docs, head, Provenance) {
        return Err(BlockMisplaced);
      }
      var origins := Origins(Contents(), made, kinds);
      if origins == map[] {
        return Ok(NothingToDrop(head));
      }
      if exists kind | kind in origins :: !policy.PermitsDrop(kind) {
        return Err(PolicyForbids);
      }
      if !CanPlan(Contents()) {
        return Err(BlockMisplaced);
      }
      var dropped, size := PlanAll(origins);
      if policy.RequiresReview(size) {
        return Ok(HeldForReview(head));
      }
      if exists kind | kind in dropped :: !policy.PermitsDrop(kind) {
        return Err(PolicyForbids);
      }
      var written := Write(DropWrite(dropped, detail), stamp);
      r := if written.Err? then Err(written.error) else Ok(Published(written.value));
    }

    /** Keep one signature record: its blob, then its name. */
    method Keep(record: SignatureRecord) returns (kept: bool)
      modifies this
      ensures (Contents(), kept) ==
              (old(Contents()).(store := Kept(hash, old(store), record).0), Kept(hash, old(store), record).1)
    {
      var held := NamedIn(store.signatures, record.snapshot);
      var id := hash.record(record);
      store := store.(docs := store.docs[id := RecordDoc(record)]);
      if id in held {
        return true;
      }
      if |held| >= MAX_RECORDS {
        return false;
      }
      store := store.(signatures := store.signatures[record.snapshot := Insert(held, id)]);
      kept := true;
    }

    /** Each distinct record once. */
    method Collect(records: seq<SignatureRecord>) returns (collected: seq<SignatureRecord>)
      ensures collected == Distinct(hash, records, {})
    {
      collected := [];
      var seen: set<Id> := {};
      for i := 0 to |records|
        invariant Distinct(hash, records, {}) == collected + Distinct(hash, records[i..], seen)
      {
        assert records[i..][1..] == records[i + 1..];
        if hash.record(records[i]) !in seen {
          seen := seen + {hash.record(records[i])};
          collected := collected + [records[i]];
        }
      }
    }

    method KeepAll(records: seq<SignatureRecord>) returns (kept: bool)
      modifies this
      ensures (Contents(), kept) ==
              (old(Contents()).(store := AllKept(hash, old(store), records).0), AllKept(hash, old(store), records).1)
    {
      hide Kept;
      assert records[0..] == records;
      for i := 0 to |records|
        invariant head == old(head) && started == old(started) && reconciling == old(reconciling)
        invariant AllKept(hash, store, records[i..]) == AllKept(hash, old(store), records)
      {
        assert records[i..][0] == records[i] && records[i..][1..] == records[i + 1..];
        var one := Keep(records[i]);
        if !one {
          return false;
        }
      }
      kept := true;
    }

    /** Change the key list: the holders of the old one have to agree before anything is stored or moved. */
    method Rotate(proposal: Proposal, records: seq<SignatureRecord>, signatures: seq<ParsedSignature>)
      returns (r: Result<Snapshot, RotateError>)
      requires WellAddressed(store)
      modifies this
      ensures
        || (Contents(), r) == Rotated(hash, verify, old(Contents()), proposal, records, signatures)
        || (&& r == Err(WalkAbandoned) && Contents() == old(Contents())
            && Prepared(hash, old(Contents()), proposal, records, signatures).Ok?
            && ExceedsWalk(
                 old(store), SnapshotOf(hash, Prepared(hash, old(Contents()), proposal, records, signatures).value.0)))
    {
      hide Count, Distinct, AllKept, RevisionOf, ExceedsWalk;
      if reconciling {
        return Err(StillReconciling);
      }
      if head.trustRoot.None? {
        return Err(Ungoverned);
      }
      var previous := head.trustRoot.value;
      var planned := RevisionOf(hash, head, proposal);
      if planned.Err? {
        return Err(planned.error);
      }
      var revision := planned.value;
      var digest := hash.snapshot(revision);
      if !AllCover(records, digest) {
        return Err(RecordCoversAnother);
      }
      var collected := Collect(records + SignedRecords(digest, signatures));
      var position := Locate(store, SnapshotOf(hash, revision));
      var met := QuorumCount(store, verify, position, collected);
      if met.Err? {
        return Err(WalkAbandoned);
      }
      if met.value < previous.governQuorum {
        return Err(QuorumNotMet);
      }
      var kept := KeepAll(collected);
      if !kept {
        return Err(TooManyRecords);
      }
      Advance(revision);
      r := Ok(head);
    }
  }

  lemma WriteKindsStep(
    hash: Hash, docs: map<Id, Document>, head: Snapshot, request: Request, kinds: seq<MemoryType>,
    refs: map<MemoryType, ModuleRef>)
    requires kinds != []
    ensures var (next, written) := WriteKind(hash, docs, head, request, kinds[0]);
            WriteKinds(hash, docs, head, request, kinds, refs) ==
            if written.Err? then Progress(next, Err(written.error))
            else WriteKinds(hash, next, head, request, kinds[1..], refs[kinds[0] := written.value])
  {
    hide WriteKind;
  }

  lemma WriteKindsEnd(
    hash: Hash, docs: map<Id, Document>, head: Snapshot, request: Request, refs: map<MemoryType, ModuleRef>)
    ensures WriteKinds(hash, docs, head, request, [], refs) == Progress(docs, Ok(refs))
  {
  }
}
