/** When a rotation goes through, said of the records and signatures that were brought. */
module RotationRules {
  import opened Common
  import opened Documents
  import opened Hashing
  import opened Chain
  import opened Descent
  import opened TrustRoots
  import opened Verdicts
  import opened Quorum
  import opened Writer
  import opened RemovalAgreement
  import opened Rotation

  // --- Collecting ---------------------------------------------------------------------------------

  lemma SameAddressSameRecord(hash: Hash, meaning: Id -> Document, a: SignatureRecord, b: SignatureRecord)
    requires IsFaithful(hash, meaning) && hash.record(a) == hash.record(b)
    ensures a == b
  {
    assert meaning(hash.record(a)) == RecordDoc(a) && meaning(hash.record(b)) == RecordDoc(b);
  }

  /** Nothing is lost in collecting, nothing is added, and no address comes twice. */
  lemma {:induction false} CollectedExactly(
    hash: Hash, meaning: Id -> Document, records: seq<SignatureRecord>, seen: set<Id>)
    requires IsFaithful(hash, meaning)
    ensures var collected := Distinct(hash, records, seen);
            && (forall record :: record in collected <==> record in records && hash.record(record) !in seen)
            && (forall i, j | 0 <= i < j < |collected| :: hash.record(collected[i]) != hash.record(collected[j]))
  {
    hide IsFaithful;
    if records != [] {
      var first := records[0];
      assert forall record :: record in records <==> record == first || record in records[1..];
      if hash.record(first) in seen {
        CollectedExactly(hash, meaning, records[1..], seen);
      } else {
        CollectedExactly(hash, meaning, records[1..], seen + {hash.record(first)});
        forall record | record in records && hash.record(record) == hash.record(first)
          ensures record == first
        {
          SameAddressSameRecord(hash, meaning, record, first);
        }
        var rest := Distinct(hash, records[1..], seen + {hash.record(first)});
        forall i, j | 0 <= i < j < |[first] + rest|
          ensures hash.record(([first] + rest)[i]) != hash.record(([first] + rest)[j])
        {
          assert ([first] + rest)[j] in rest;
        }
      }
    }
  }

  /** A record that was brought, or the one a signature that was brought amounts to. */
  predicate IsBrought(
    records: seq<SignatureRecord>, signatures: seq<ParsedSignature>, digest: Id, record: SignatureRecord)
  {
    || record in records
    || exists i | 0 <= i < |signatures| ::
         record == SignatureRecord(digest, SnapshotNamespace, signatures[i].publicKey, Some(signatures[i]))
  }

  lemma SignedExactly(
    records: seq<SignatureRecord>, signatures: seq<ParsedSignature>, digest: Id, record: SignatureRecord)
    ensures record in records + SignedRecords(digest, signatures) <==> IsBrought(records, signatures, digest, record)
  {
    var signed := SignedRecords(digest, signatures);
    assert forall other :: other in records + signed <==> other in records || other in signed;
    if i :| 0 <= i < |signatures|
            && record == SignatureRecord(digest, SnapshotNamespace, signatures[i].publicKey, Some(signatures[i])) {
      assert signed[i] == record;
    }
  }

  // --- Keeping within the cap -------------------------------------------------------------------------

  /** The addresses that keeping these records would add to those named. */
  function NewAddresses(hash: Hash, named: seq<Id>, records: seq<SignatureRecord>): (r: set<Id>) {
    set record | record in records && hash.record(record) !in named :: hash.record(record)
  }

  /** All are kept exactly when there is nothing new, or room for all that is. */
  lemma {:induction false} AllKeptExactly(hash: Hash, store: Store, records: seq<SignatureRecord>, digest: Id)
    requires forall record | record in records :: record.snapshot == digest
    ensures var named := NamedIn(store.signatures, digest);
            var (next, kept) := AllKept(hash, store, records);
            && (kept <==> NewAddresses(hash, named, records) == {}
                          || |named| + |NewAddresses(hash, named, records)| <= MAX_RECORDS)
            && (kept ==> forall id :: id in NamedIn(next.signatures, digest) <==>
                                      id in named || exists record | record in records :: id == hash.record(record))
    decreases |records|
  {
    hide NewAddresses, Kept;
    if records == [] {
      NothingNew(hash, NamedIn(store.signatures, digest));
    } else {
      var (next, kept) := Kept(hash, store, records[0]);
      var named, id, rest := NamedIn(store.signatures, digest), hash.record(records[0]), records[1..];
      KeptExactly(hash, store, records[0]);
      assert forall record :: record in records <==> record == records[0] || record in rest;
      NewAddressesStep(hash, named, if kept then NamedIn(next.signatures, digest) else named + [id], records);
      if kept {
        AllKeptExactly(hash, next, rest, digest);
      }
    }
  }

  lemma NothingNew(hash: Hash, named: seq<Id>)
    ensures NewAddresses(hash, named, []) == {}
  {
  }

  lemma KeptExactly(hash: Hash, store: Store, record: SignatureRecord)
    ensures var (next, kept) := Kept(hash, store, record);
            var named, id := NamedIn(store.signatures, record.snapshot), hash.record(record);
            var after := NamedIn(next.signatures, record.snapshot);
            && (kept <==> id in named || |named| < MAX_RECORDS)
            && (kept ==> |after| == |named| + if id in named then 0 else 1)
            && (kept ==> forall other :: other in after <==> other in named || other == id)
  {
  }

  lemma NewAddressesStep(hash: Hash, named: seq<Id>, after: seq<Id>, records: seq<SignatureRecord>)
    requires records != [] && forall other :: other in after <==> other in named || other == hash.record(records[0])
    ensures var new_, id := NewAddresses(hash, named, records), hash.record(records[0]);
            && NewAddresses(hash, after, records[1..]) == new_ - {id}
            && (id in new_ <==> id !in named)
            && (id !in named ==> |new_| == |new_ - {id}| + 1)
            && (id in named ==> new_ - {id} == new_)
  {
    assert forall record :: record in records <==> record == records[0] || record in records[1..];
    var new_, id := NewAddresses(hash, named, records), hash.record(records[0]);
    if id !in named {
      assert new_ == (new_ - {id}) + {id};
    }
  }

  // --- When a rotation goes through --------------------------------------------------------------------

  /**
   A plan that is the document it says it is, continues the head and carries a key list; or a key list of a later
   revision than the head's.
   */
  predicate FollowsHead(hash: Hash, head: Snapshot, proposal: Proposal) {
    match proposal
    case Planned(document, digest) =>
      && hash.snapshot(document) == digest
      && document.parents != [] && document.parents[0] == head.digest && document.trustRoot.Some?
    case New(trustRoot, _) => head.trustRoot.Some? && trustRoot.revision > head.trustRoot.value.revision
  }

  /** The document a proposal stands for over a head: the plan itself, or the head's content under the new key list. */
  function ProposedOver(head: Snapshot, proposal: Proposal): (r: Description) {
    match proposal
    case Planned(document, _) => document
    case New(trustRoot, stamp) => Description([head.digest], head.modules, Some(trustRoot), stamp)
  }

  lemma ProposalsExactly(hash: Hash, head: Snapshot, proposal: Proposal)
    requires head.trustRoot.Some?
    ensures RevisionOf(hash, head, proposal).Ok? <==> FollowsHead(hash, head, proposal)
    ensures FollowsHead(hash, head, proposal) ==> RevisionOf(hash, head, proposal) == Ok(ProposedOver(head, proposal))
  {
  }

  /** Some of the records and signatures that were brought are by this many distinct keys that may govern. */
  ghost predicate AreEnough(
    store: Store, verify: Verifier, snapshot: Snapshot, root: TrustRoot, records: seq<SignatureRecord>,
    signatures: seq<ParsedSignature>)
  {
    exists keys: set<Key> ::
      && |keys| >= root.governQuorum
      && forall key | key in keys ::
           && Governs(store, snapshot, root, key)
           && exists record :: IsBrought(records, signatures, snapshot.digest, record)
                               && record.key == key && IsVerified(verify, record, snapshot.digest)
  }

  /** None of them is left unverified for want of the primitive. */
  ghost predicate CanAllBeVerified(
    verify: Verifier, digest: Id, records: seq<SignatureRecord>, signatures: seq<ParsedSignature>)
  {
    forall record | IsBrought(records, signatures, digest, record)
                    && record.snapshot == digest && record.namespace == SnapshotNamespace && record.parsed.Some?
                    && record.parsed.value.publicKey == record.key ::
      verify(record.parsed.value, digest) != BackendMissing
  }

  /** The addresses of what was brought that are not named for the snapshot yet. */
  ghost predicate AreNew(
    hash: Hash, named: seq<Id>, records: seq<SignatureRecord>, signatures: seq<ParsedSignature>, digest: Id,
    ids: set<Id>)
  {
    forall id :: id in ids <==>
      id !in named && exists record :: IsBrought(records, signatures, digest, record) && id == hash.record(record)
  }

  /** There is room under the cap for what is new, or nothing is. */
  ghost predicate FitsTheCap(
    hash: Hash, store: Store, records: seq<SignatureRecord>, signatures: seq<ParsedSignature>, digest: Id)
  {
    forall ids: set<Id> | AreNew(hash, NamedIn(store.signatures, digest), records, signatures, digest, ids) ::
      ids == {} || |NamedIn(store.signatures, digest)| + |ids| <= 512
  }

  /**
   Over a governed head that is held, a rotation goes through exactly when no reconciliation is open, the proposal
   follows the head, every record brought covers it, enough distinct keys that may govern signed among the records
   and signatures brought, and what is new fits under the cap. It then leaves the proposed document as the head.
   */
  lemma RotationGoesThroughExactly(
    hash: Hash, meaning: Id -> Document, verify: Verifier, state: State, proposal: Proposal,
    records: seq<SignatureRecord>, signatures: seq<ParsedSignature>)
    requires IsFaithful(hash, meaning) && state.head.trustRoot.Some?
    requires LoadSnapshot(state.store, state.head.digest) == Some(state.head)
    ensures var (next, r) := Rotated(hash, verify, state, proposal, records, signatures);
            var root := state.head.trustRoot.value;
            var snapshot := SnapshotOf(hash, ProposedOver(state.head, proposal));
            && (r.Ok? <==>
                && !state.reconciling && FollowsHead(hash, state.head, proposal)
                && (forall record | record in records :: record.snapshot == snapshot.digest)
                && (root.governQuorum == 0
                    || (CanAllBeVerified(verify, snapshot.digest, records, signatures)
                        && AreEnough(state.store, verify, snapshot, root, records, signatures)))
                && FitsTheCap(hash, state.store, records, signatures, snapshot.digest))
            && (r.Ok? ==> r.value == next.head == snapshot && next.started)
            && (r.Err? ==> next.head == state.head)
  {
    hide IsFaithful, RevisionOf, FollowsHead, ProposedOver, Distinct, SignedRecords, AllKept, Locate, Count, AreEnough,
         CanAllBeVerified, FitsTheCap, IsBrought;
    ProposalsExactly(hash, state.head, proposal);
    if !state.reconciling && FollowsHead(hash, state.head, proposal) {
      var revision := ProposedOver(state.head, proposal);
      var digest := hash.snapshot(revision);
      var all := records + SignedRecords(digest, signatures);
      var collected := Distinct(hash, all, {});
      CollectedExactly(hash, meaning, all, {});
      if AllCover(records, digest) {
        GateExactly(hash, verify, state, proposal, records, signatures, collected);
        RoomExactly(hash, state.store, records, signatures, digest, collected);
      }
    }
  }

  lemma BroughtExactly(
    records: seq<SignatureRecord>, signatures: seq<ParsedSignature>, digest: Id, collected: seq<SignatureRecord>)
    requires forall record :: record in collected <==> record in records + SignedRecords(digest, signatures)
    ensures forall record :: record in collected <==> IsBrought(records, signatures, digest, record)
  {
    hide IsBrought, SignedRecords;
    forall record
      ensures record in collected <==> IsBrought(records, signatures, digest, record)
    {
      SignedExactly(records, signatures, digest, record);
    }
  }

  /** The quorum is counted over what was brought. */
  lemma GateExactly(
    hash: Hash, verify: Verifier, state: State, proposal: Proposal, records: seq<SignatureRecord>,
    signatures: seq<ParsedSignature>, collected: seq<SignatureRecord>)
    requires state.head.trustRoot.Some? && LoadSnapshot(state.store, state.head.digest) == Some(state.head)
    requires FollowsHead(hash, state.head, proposal)
    requires var digest := hash.snapshot(ProposedOver(state.head, proposal));
             forall record :: record in collected <==> record in records + SignedRecords(digest, signatures)
    ensures var snapshot := SnapshotOf(hash, ProposedOver(state.head, proposal));
            var root := state.head.trustRoot.value;
            Count(state.store, verify, Locate(state.store, snapshot), collected) >= root.governQuorum <==>
            root.governQuorum == 0
            || (CanAllBeVerified(verify, snapshot.digest, records, signatures)
                && AreEnough(state.store, verify, snapshot, root, records, signatures))
  {
    hide Governs, IsVerified, Count, IsBrought, SignedRecords;
    var snapshot := SnapshotOf(hash, ProposedOver(state.head, proposal));
    BroughtExactly(records, signatures, snapshot.digest, collected);
    var position := Locate(state.store, snapshot);
    assert position.inForce == state.head.trustRoot && position.snapshot == snapshot;
    if state.head.trustRoot.value.governQuorum >= 1 {
      QuorumIsMetExactly(state.store, verify, position, collected, state.head.trustRoot.value.governQuorum);
    }
  }

  lemma RoomExactly(
    hash: Hash, store: Store, records: seq<SignatureRecord>, signatures: seq<ParsedSignature>, digest: Id,
    collected: seq<SignatureRecord>)
    requires AllCover(records, digest)
    requires forall record :: record in collected <==> record in records + SignedRecords(digest, signatures)
    ensures AllKept(hash, store, collected).1 <==> FitsTheCap(hash, store, records, signatures, digest)
  {
    hide IsBrought, AllKept;
    BroughtExactly(records, signatures, digest, collected);
    forall record | record in collected
      ensures record.snapshot == digest
    {
      BroughtCovers(records, signatures, digest, record);
    }
    AllKeptExactly(hash, store, collected, digest);
    var named := NamedIn(store.signatures, digest);
    var fresh_ := NewAddresses(hash, named, collected);
    assert AreNew(hash, named, records, signatures, digest, fresh_);
    forall ids: set<Id> | AreNew(hash, named, records, signatures, digest, ids)
      ensures ids == fresh_
    {
      assert forall id :: id in ids <==> id in fresh_;
    }
  }

  lemma BroughtCovers(
    records: seq<SignatureRecord>, signatures: seq<ParsedSignature>, digest: Id, record: SignatureRecord)
    requires AllCover(records, digest) && IsBrought(records, signatures, digest, record)
    ensures record.snapshot == digest
  {
  }
}
