/** The quorum rule: how many keys that may govern, by the list before, have signed. */
module Quorum {
  import opened Common
  import opened Documents
  import opened Chain
  import opened Descent
  import opened TrustRoots
  import opened Verdicts

  /** A record that is about this snapshot, under the protocol's namespace, and whose two identities agree. */
  predicate IsRelevant(record: SignatureRecord, digest: Id) {
    && record.snapshot == digest && record.namespace == SnapshotNamespace
    && record.parsed.Some? && record.parsed.value.publicKey == record.key
  }

  predicate Signs(verify: Verifier, record: SignatureRecord, digest: Id) {
    IsRelevant(record, digest) && verify(record.parsed.value, digest) == Verified
  }

  predicate LacksBackend(verify: Verifier, records: seq<SignatureRecord>, digest: Id) {
    exists record | record in records :: IsRelevant(record, digest)
      && verify(record.parsed.value, digest) == BackendMissing
  }

  /** Whether a key may count toward the quorum at a position, its compromise marker included. */
  ghost predicate MayGovern(store: Store, position: Position, root: TrustRoot, key: Key) {
    && IsActiveGovernor(root, key)
    && var compromise := EntryFor(root, key).value.compromisedFrom;
       compromise.Some? ==> Relates(store, position.snapshot, compromise.value) == Cleared
  }

  ghost predicate Counts(
    store: Store, verify: Verifier, position: Position, root: TrustRoot, record: SignatureRecord)
  {
    Signs(verify, record, position.snapshot.digest) && MayGovern(store, position, root, record.key)
  }

  /** The distinct keys that signed and may govern: keys, never records. */
  ghost function Governors(
    store: Store, verify: Verifier, position: Position, root: TrustRoot, records: seq<SignatureRecord>)
    : (r: set<Key>)
  {
    set record | record in records && Counts(store, verify, position, root, record) :: record.key
  }

  ghost function Count(store: Store, verify: Verifier, position: Position, records: seq<SignatureRecord>): (r: nat) {
    if position.inForce.None? || LacksBackend(verify, records, position.snapshot.digest) then 0
    else |Governors(store, verify, position, position.inForce.value, records)|
  }

  /** The count as it runs: a set of keys grown record by record. */
  method QuorumCount(store: Store, verify: Verifier, position: Position, records: seq<SignatureRecord>)
    returns (r: Result<nat, ChainError>)
    requires WellAddressed(store)
    ensures r.Ok? ==> r.value == Count(store, verify, position, records)
    ensures r.Err? ==> ExceedsWalk(store, position.snapshot)
  {
    hide Relates, EntryFor;
    if position.inForce.None? {
      return Ok(0);
    }
    var root := position.inForce.value;
    var digest := position.snapshot.digest;
    var governors: set<Key> := {};
    for i := 0 to |records|
      invariant governors == Governors(store, verify, position, root, records[..i])
      invariant !LacksBackend(verify, records[..i], digest)
    {
      var record := records[i];
      assert records[..i + 1] == records[..i] + [record];
      GovernorsExtend(store, verify, position, root, records[..i], record);
      if !IsRelevant(record, digest) {
        continue;
      }
      var outcome := verify(record.parsed.value, digest);
      if outcome == BackendMissing {
        assert record in records;
        return Ok(0);
      }
      if outcome != Verified {
        continue;
      }
      if !IsActiveGovernor(root, record.key) {
        continue;
      }
      var compromise := EntryFor(root, record.key).value.compromisedFrom;
      if compromise.Some? {
        var reached :- DescendsFrom(store, position.snapshot, compromise.value);
        if reached != Cleared {
          continue;
        }
      }
      governors := governors + {record.key};
    }
    assert records[..|records|] == records;
    r := Ok(|governors|);
  }

  lemma GovernorsExtend(
    store: Store, verify: Verifier, position: Position, root: TrustRoot, records: seq<SignatureRecord>,
    record: SignatureRecord)
    ensures Governors(store, verify, position, root, records + [record]) ==
            Governors(store, verify, position, root, records)
            + if Counts(store, verify, position, root, record) then {record.key} else {}
  {
    hide Counts;
  }

  // --- What more records and more documents do to a count -------------------------------------

  /** Where the primitive runs, more records and more documents never lower the count. */
  lemma CountNeverDrops(
    small: Store, large: Store, verify: Verifier, position: Position, fewer: seq<SignatureRecord>,
    more: seq<SignatureRecord>)
    requires Extends(small, large) && forall record | record in fewer :: record in more
    requires !LacksBackend(verify, more, position.snapshot.digest)
    ensures Count(small, verify, position, fewer) <= Count(large, verify, position, more)
  {
    hide Relates, IsRelevant, EntryFor;
    if position.inForce.Some? {
      var root := position.inForce.value;
      var before := Governors(small, verify, position, root, fewer);
      var after := Governors(large, verify, position, root, more);
      forall key | key in before
        ensures key in after
      {
        var record :| record in fewer && Counts(small, verify, position, root, record) && record.key == key;
        GovernorStays(small, large, position, root, key);
        assert record in more && Counts(large, verify, position, root, record);
      }
      SubsetSize(before, after);
    }
  }

  lemma GovernorStays(small: Store, large: Store, position: Position, root: TrustRoot, key: Key)
    requires Extends(small, large) && MayGovern(small, position, root, key)
    ensures MayGovern(large, position, root, key)
  {
    hide Relates, EntryFor;
    var compromise := EntryFor(root, key).value.compromisedFrom;
    if compromise.Some? {
      DecidedAnswersAreStable(small, large, position.snapshot, compromise.value);
    }
  }

  /** A count is witnessed by that many distinct keys, each an active governor with a verified signature. */
  ghost predicate IsApprovedBy(
    store: Store, verify: Verifier, position: Position, root: TrustRoot, records: seq<SignatureRecord>, keys: set<Key>)
  {
    && |keys| >= root.governQuorum
    && forall key | key in keys ::
         && IsActiveGovernor(root, key) && MayGovern(store, position, root, key)
         && HasSigned(verify, records, position.snapshot.digest, key)
  }

  ghost predicate HasSigned(verify: Verifier, records: seq<SignatureRecord>, digest: Id, key: Key) {
    exists record | record in records :: Signs(verify, record, digest) && record.parsed.value.publicKey == key
  }

  lemma QuorumHasWitnesses(store: Store, verify: Verifier, position: Position, records: seq<SignatureRecord>)
    requires position.inForce.Some?
    requires Count(store, verify, position, records) >= position.inForce.value.governQuorum
    ensures exists keys :: IsApprovedBy(store, verify, position, position.inForce.value, records, keys)
  {
    hide Relates, EntryFor;
    var root := position.inForce.value;
    var keys := if root.governQuorum == 0 then {} else Governors(store, verify, position, root, records);
    forall key | key in keys
      ensures IsActiveGovernor(root, key) && MayGovern(store, position, root, key)
      ensures HasSigned(verify, records, position.snapshot.digest, key)
    {
      var record :| record in records && Counts(store, verify, position, root, record) && record.key == key;
    }
    assert IsApprovedBy(store, verify, position, root, records, keys);
  }

  // --- A quorum, entry by entry ------------------------------------------------------------------------

  /**
   The entry that answers for a key, which is the first one listed, lets it govern, has not retired by this revision,
   and is marked compromised, if at all, from a snapshot this one does not come after.
   */
  ghost predicate Governs(store: Store, snapshot: Snapshot, root: TrustRoot, key: Key) {
    exists i | 0 <= i < |root.keys| ::
      var entry := root.keys[i];
      && entry.key == key && (forall j | 0 <= j < i :: root.keys[j].key != key)
      && Govern in entry.scopes
      && (entry.retiredFrom.Some? ==> root.revision < entry.retiredFrom.value)
      && (entry.compromisedFrom.Some? ==> Relates(store, snapshot, entry.compromisedFrom.value) == Cleared)
  }

  /** A record over this snapshot, in the protocol's namespace, whose key is the one inside and verifies. */
  predicate IsVerified(verify: Verifier, record: SignatureRecord, digest: Id) {
    && record.snapshot == digest && record.namespace == SnapshotNamespace && record.parsed.Some?
    && record.parsed.value.publicKey == record.key && verify(record.parsed.value, digest) == Verified
  }

  /** No record over this snapshot was left unverified for want of the primitive. */
  predicate IsUnhindered(verify: Verifier, records: seq<SignatureRecord>, digest: Id) {
    forall record | record in records
                    && record.snapshot == digest && record.namespace == SnapshotNamespace && record.parsed.Some?
                    && record.parsed.value.publicKey == record.key ::
      verify(record.parsed.value, digest) != BackendMissing
  }

  lemma GovernsExactly(store: Store, position: Position, root: TrustRoot, key: Key)
    ensures MayGovern(store, position, root, key) <==> Governs(store, position.snapshot, root, key)
  {
    hide Relates;
    FirstEntryExactly(root.keys, key);
  }

  lemma GovernorsExactly(
    store: Store, verify: Verifier, position: Position, root: TrustRoot, records: seq<SignatureRecord>, key: Key)
    ensures key in Governors(store, verify, position, root, records) <==>
            && Governs(store, position.snapshot, root, key)
            && exists record | record in records ::
                 record.key == key && IsVerified(verify, record, position.snapshot.digest)
  {
    hide MayGovern, Governs;
    GovernsExactly(store, position, root, key);
  }

  /** A count is as high as that many distinct keys that may govern, each with a verified record. */
  lemma QuorumIsMetExactly(
    store: Store, verify: Verifier, position: Position, records: seq<SignatureRecord>, needed: nat)
    requires needed >= 1
    ensures Count(store, verify, position, records) >= needed <==>
            && position.inForce.Some? && IsUnhindered(verify, records, position.snapshot.digest)
            && exists keys: set<Key> ::
                 && |keys| >= needed
                 && forall key | key in keys ::
                      && Governs(store, position.snapshot, position.inForce.value, key)
                      && exists record | record in records ::
                           record.key == key && IsVerified(verify, record, position.snapshot.digest)
  {
    hide MayGovern, Governs, Governors, IsVerified;
    if position.inForce.Some? {
      var root := position.inForce.value;
      var governors := Governors(store, verify, position, root, records);
      forall key
        ensures key in governors <==>
                && Governs(store, position.snapshot, root, key)
                && exists record | record in records ::
                     record.key == key && IsVerified(verify, record, position.snapshot.digest)
      {
        GovernorsExactly(store, verify, position, root, records, key);
      }
      forall keys: set<Key> | forall key | key in keys :: key in governors
        ensures |keys| <= |governors|
      {
        SubsetSize(keys, governors);
      }
    }
  }
}
