/** Signature records kept beside snapshots, and trust-root revisions gated on their quorum. */
module Rotation {
  import opened Common
  import opened Documents
  import opened Hashing
  import opened Chain
  import opened Verdicts
  import opened Quorum
  import opened Writer

  const MAX_RECORDS: nat := 512

  // --- Keeping a record ----------------------------------------------------------------------

  /** Where an address goes in a list kept in address order. */
  function Insert(held: seq<Id>, id: Id): (r: seq<Id>)
    ensures forall other :: other in r <==> other == id || other in held
    ensures |r| == |held| + 1
  {
    if held == [] || id <= held[0] then [id] + held else [held[0]] + Insert(held[1..], id)
  }

  /** Blob first, pointer second; nothing new when it is there already, and a refusal once the pile is full. */
  function Kept(hash: Hash, store: Store, record: SignatureRecord): (r: (Store, bool)) {
    var held := NamedIn(store.signatures, record.snapshot);
    var id := hash.record(record);
    var put := store.(docs := store.docs[id := RecordDoc(record)]);
    if id in held then (put, true)
    else if |held| >= MAX_RECORDS then (put, false)
    else (put.(signatures := store.signatures[record.snapshot := Insert(held, id)]), true)
  }

  /** Records kept in turn; the first refusal ends it. */
  function AllKept(hash: Hash, store: Store, records: seq<SignatureRecord>): (r: (Store, bool))
    decreases |records|
  {
    if records == [] then (store, true)
    else
      var (next, kept) := Kept(hash, store, records[0]);
      if !kept then (next, false) else AllKept(hash, next, records[1..])
  }

  // --- Rotating --------------------------------------------------------------------------------

  /** A revision built now, or the document planned earlier under the digest it was planned as. */
  datatype Proposal = New(trustRoot: TrustRoot, stamp: nat) | Planned(document: Description, digest: Id)

  datatype RotateError =
    | StillReconciling
    | Ungoverned
    | AlteredPlan
    | StalePlan
    | PlanRevisesNothing
    | RevisionDoesNotFollow
    | RecordCoversAnother
    | QuorumNotMet
    | TooManyRecords
    | WalkAbandoned

  /** The revision a proposal amounts to over a head that carries a trust root. */
  function RevisionOf(hash: Hash, head: Snapshot, proposal: Proposal): (r: Result<Description, RotateError>)
    requires head.trustRoot.Some?
  {
    match proposal
    case Planned(document, digest) =>
      if hash.snapshot(document) != digest then Err(AlteredPlan)
      else if document.parents == [] || document.parents[0] != head.digest then Err(StalePlan)
      else if document.trustRoot.None? then Err(PlanRevisesNothing)
      else Ok(document)
    case New(trustRoot, stamp) =>
      if trustRoot.revision <= head.trustRoot.value.revision then Err(RevisionDoesNotFollow)
      else Ok(Description([head.digest], head.modules, Some(trustRoot), stamp))
  }

  /** What a local signer adds: a record of its own signature over the revision. */
  function RecordOf(digest: Id, signature: ParsedSignature): (r: SignatureRecord) {
    SignatureRecord(digest, SnapshotNamespace, signature.publicKey, Some(signature))
  }

  function SignedRecords(digest: Id, signatures: seq<ParsedSignature>): (r: seq<SignatureRecord>)
    ensures |r| == |signatures|
    ensures forall i | 0 <= i < |r| :: r[i] == RecordOf(digest, signatures[i])
  {
    if signatures == [] then [] else [RecordOf(digest, signatures[0])] + SignedRecords(digest, signatures[1..])
  }

  /** Each distinct record once, at its first place. */
  function Distinct(hash: Hash, records: seq<SignatureRecord>, seen: set<Id>): (r: seq<SignatureRecord>)
    ensures forall record | record in r :: record in records
  {
    if records == [] then []
    else if hash.record(records[0]) in seen then Distinct(hash, records[1..], seen)
    else [records[0]] + Distinct(hash, records[1..], seen + {hash.record(records[0])})
  }

  predicate AllCover(records: seq<SignatureRecord>, digest: Id) {
    forall record | record in records :: record.snapshot == digest
  }

  /** Everything but the quorum: what would be committed, and the records that speak for it. */
  function Prepared(hash: Hash, state: State, proposal: Proposal, records: seq<SignatureRecord>,
                    signatures: seq<ParsedSignature>)
    : (r: Result<(Description, seq<SignatureRecord>), RotateError>)
  {
    if state.reconciling then Err(StillReconciling)
    else if state.head.trustRoot.None? then Err(Ungoverned)
    else
      var revision :- RevisionOf(hash, state.head, proposal);
      var digest := hash.snapshot(revision);
      if !AllCover(records, digest) then Err(RecordCoversAnother)
      else Ok((revision, Distinct(hash, records + SignedRecords(digest, signatures), {})))
  }

  /** Quorum first, records second, head last. */
  ghost function Rotated(
    hash: Hash, verify: Verifier, state: State, proposal: Proposal, records: seq<SignatureRecord>,
    signatures: seq<ParsedSignature>): (r: (State, Result<Snapshot, RotateError>))
  {
    var prepared := Prepared(hash, state, proposal, records, signatures);
    if prepared.Err? then (state, Err(prepared.error))
    else
      var (revision, collected) := prepared.value;
      if Count(state.store, verify, Locate(state.store, SnapshotOf(hash, revision)), collected)
         < state.head.trustRoot.value.governQuorum then (state, Err(QuorumNotMet))
      else
        var (store, kept) := AllKept(hash, state.store, collected);
        if !kept then (state.(store := store), Err(TooManyRecords))
        else
          var next := Advanced(hash, state.(store := store), revision);
          (next, Ok(next.head))
  }

  // --- What keeping records does to a store --------------------------------------------------------

  lemma KeptGrows(hash: Hash, meaning: Id -> Document, store: Store, record: SignatureRecord)
    requires IsFaithful(hash, meaning) && Holds(store.docs, meaning)
    ensures var (next, kept) := Kept(hash, store, record);
            && Holds(next.docs, meaning) && Grows(store.docs, next.docs) && NamesMore(store.signatures, next.signatures)
            && hash.record(record) in next.docs && next.docs[hash.record(record)] == RecordDoc(record)
            && (kept ==> hash.record(record) in NamedIn(next.signatures, record.snapshot))
  {
    PutGrows(store.docs, hash.record(record), RecordDoc(record), meaning);
  }

  ghost predicate IsKept(hash: Hash, store: Store, record: SignatureRecord) {
    && hash.record(record) in NamedIn(store.signatures, record.snapshot)
    && hash.record(record) in store.docs && store.docs[hash.record(record)] == RecordDoc(record)
  }

  lemma StaysKept(hash: Hash, before: Store, after: Store, record: SignatureRecord)
    requires Grows(before.docs, after.docs) && NamesMore(before.signatures, after.signatures)
             && IsKept(hash, before, record)
    ensures IsKept(hash, after, record)
  {
  }

  lemma {:induction false} AllKeptGrow(
    hash: Hash, meaning: Id -> Document, store: Store, records: seq<SignatureRecord>)
    requires IsFaithful(hash, meaning) && Holds(store.docs, meaning)
    ensures var (next, kept) := AllKept(hash, store, records);
            && Holds(next.docs, meaning) && Grows(store.docs, next.docs) && NamesMore(store.signatures, next.signatures)
            && (kept ==> forall record | record in records :: IsKept(hash, next, record))
    decreases |records|
  {
    hide IsFaithful, Kept, NamesMore;
    if records == [] {
      SameNames(store);
    } else {
      var (next, kept) := Kept(hash, store, records[0]);
      KeptGrows(hash, meaning, store, records[0]);
      if kept {
        AllKeptGrow(hash, meaning, next, records[1..]);
        var last := AllKept(hash, next, records[1..]).0;
        GrowthComposes(store.docs, next.docs, last.docs);
        NamesCompose(store, next, last);
        StaysKept(hash, next, last, records[0]);
        assert forall record | record in records :: record == records[0] || record in records[1..];
      }
    }
  }

  lemma SameNames(store: Store)
    ensures NamesMore(store.signatures, store.signatures)
  {
  }

  lemma NamesCompose(a: Store, b: Store, c: Store)
    requires NamesMore(a.signatures, b.signatures) && NamesMore(b.signatures, c.signatures)
    ensures NamesMore(a.signatures, c.signatures)
  {
  }

  lemma KeptIsHeld(hash: Hash, store: Store, record: SignatureRecord)
    requires IsKept(hash, store, record)
    ensures record in ForSnapshot(store, record.snapshot)
  {
    RecordsAreTheNamedOnes(store.docs, NamedIn(store.signatures, record.snapshot), record);
  }

  /** What was held over a snapshot stays held. */
  lemma HeldRecordsStay(before: Store, after: Store, snapshot: Id, record: SignatureRecord)
    requires Grows(before.docs, after.docs) && NamesMore(before.signatures, after.signatures)
    requires record in ForSnapshot(before, snapshot)
    ensures record in ForSnapshot(after, snapshot)
  {
    RecordsAreTheNamedOnes(before.docs, NamedIn(before.signatures, snapshot), record);
    RecordsAreTheNamedOnes(after.docs, NamedIn(after.signatures, snapshot), record);
    var id :| id in NamedIn(before.signatures, snapshot) && id in before.docs && before.docs[id] == RecordDoc(record);
    assert id in NamedIn(after.signatures, snapshot) && id in after.docs;
  }

  /** Keeping a record twice changes nothing the second time. */
  lemma KeepingIsIdempotent(hash: Hash, store: Store, record: SignatureRecord)
    requires Kept(hash, store, record).1
    ensures Kept(hash, Kept(hash, store, record).0, record) == Kept(hash, store, record)
  {
    var once := Kept(hash, store, record).0;
    assert once.docs[hash.record(record) := RecordDoc(record)] == once.docs;
    assert hash.record(record) in NamedIn(once.signatures, record.snapshot);
  }

  predicate IsOrdered(ids: seq<Id>) {
    forall i, j | 0 <= i < j < |ids| :: ids[i] < ids[j]
  }

  lemma OrderedBehind(id: Id, rest: seq<Id>)
    requires IsOrdered(rest) && forall other | other in rest :: id < other
    ensures IsOrdered([id] + rest)
  {
    forall i, j | 0 <= i < j < |[id] + rest|
      ensures ([id] + rest)[i] < ([id] + rest)[j]
    {
      assert rest[j - 1] in rest;
    }
  }

  lemma OrderedTail(ids: seq<Id>)
    requires IsOrdered(ids) && ids != []
    ensures IsOrdered(ids[1..]) && forall other | other in ids[1..] :: ids[0] < other
  {
    var rest := ids[1..];
    assert forall i | 0 <= i < |rest| :: rest[i] == ids[i + 1];
  }

  lemma {:induction false} InsertKeepsOrder(ids: seq<Id>, id: Id)
    requires IsOrdered(ids) && id !in ids
    ensures IsOrdered(Insert(ids, id))
  {
    hide IsOrdered;
    if ids == [] {
      OneIsOrdered(id);
    } else {
      OrderedTail(ids);
      assert forall other :: other in ids <==> other == ids[0] || other in ids[1..];
      if id > ids[0] {
        InsertKeepsOrder(ids[1..], id);
        OrderedBehind(ids[0], Insert(ids[1..], id));
      } else {
        assert id != ids[0];
        OrderedBehind(id, ids);
      }
    }
  }

  lemma OneIsOrdered(id: Id)
    ensures IsOrdered([id] + [])
  {
  }

  lemma BothEmptyOrNeither(a: seq<Id>, b: seq<Id>)
    requires forall id :: id in a <==> id in b
    ensures a == [] <==> b == []
  {
    if a != [] {
      assert a[0] in a;
    }
    if b != [] {
      assert b[0] in b;
    }
  }

  /** Two lists in order that name the same records are the same list. */
  lemma {:induction false} OrderIsCanonical(a: seq<Id>, b: seq<Id>)
    requires IsOrdered(a) && IsOrdered(b) && forall id :: id in a <==> id in b
    ensures a == b
  {
    BothEmptyOrNeither(a, b);
    if a != [] {
      assert a[0] in b && b[0] in a;
      assert a[0] == b[0];
      forall id
        ensures id in a[1..] <==> id in b[1..]
      {
        assert id in a <==> id == a[0] || id in a[1..];
        assert id in b <==> id == b[0] || id in b[1..];
      }
      OrderIsCanonical(a[1..], b[1..]);
    }
  }

  /** A list in address order with one more address, unless it was there. */
  function Including(ids: seq<Id>, id: Id): (r: seq<Id>)
    ensures forall other :: other in r <==> other == id || other in ids
  {
    if id in ids then ids else Insert(ids, id)
  }

  lemma IncludingCommutes(ids: seq<Id>, a: Id, b: Id)
    requires IsOrdered(ids)
    ensures Including(Including(ids, a), b) == Including(Including(ids, b), a)
  {
    hide IsOrdered, Insert;
    IncludingKeepsOrder(ids, a);
    IncludingKeepsOrder(ids, b);
    IncludingKeepsOrder(Including(ids, a), b);
    IncludingKeepsOrder(Including(ids, b), a);
    OrderIsCanonical(Including(Including(ids, a), b), Including(Including(ids, b), a));
  }

  lemma IncludingKeepsOrder(ids: seq<Id>, id: Id)
    requires IsOrdered(ids)
    ensures IsOrdered(Including(ids, id))
  {
    if id !in ids {
      InsertKeepsOrder(ids, id);
    }
  }

  lemma KeptIncludes(hash: Hash, store: Store, record: SignatureRecord)
    requires Kept(hash, store, record).1
    ensures var after := Kept(hash, store, record).0;
            && NamedIn(after.signatures, record.snapshot) ==
               Including(NamedIn(store.signatures, record.snapshot), hash.record(record))
            && after.signatures == store.signatures[record.snapshot := NamedIn(after.signatures, record.snapshot)]
  {
    hide Insert;
  }

  /** The order records arrive in leaves no trace: the pointer written is the same. */
  lemma ArrivalOrderIsForgotten(hash: Hash, store: Store, first: SignatureRecord, second: SignatureRecord)
    requires first.snapshot == second.snapshot && IsOrdered(NamedIn(store.signatures, first.snapshot))
    requires Kept(hash, store, first).1 && Kept(hash, Kept(hash, store, first).0, second).1
    requires Kept(hash, store, second).1 && Kept(hash, Kept(hash, store, second).0, first).1
    ensures Kept(hash, Kept(hash, store, first).0, second).0.signatures ==
            Kept(hash, Kept(hash, store, second).0, first).0.signatures
  {
    hide Kept, IsOrdered, Including, NamedIn;
    KeptIncludes(hash, store, first);
    KeptIncludes(hash, Kept(hash, store, first).0, second);
    KeptIncludes(hash, store, second);
    KeptIncludes(hash, Kept(hash, store, second).0, first);
    IncludingCommutes(NamedIn(store.signatures, first.snapshot), hash.record(first), hash.record(second));
  }
}
