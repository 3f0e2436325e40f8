/** Writer and verifier agree on governance: a governed history stays free of governance findings. */
module GovernanceAgreement {
  import opened Common
  import opened Documents
  import opened Hashing
  import opened Chain
  import opened TrustRoots
  import opened Verdicts
  import opened Quorum
  import opened Authenticator
  import opened Writer
  import opened RemovalAgreement
  import opened Rotation

  // --- Histories ------------------------------------------------------------------------------

  /** The first-parent history of a head, all of it held, down to a genesis. */
  ghost predicate IsLineage(store: Store, head: Snapshot, lineage: seq<Snapshot>) {
    && |lineage| > 0 && lineage[0] == head && lineage[|lineage| - 1].parents == []
    && (forall i | 0 <= i < |lineage| :: LoadSnapshot(store, lineage[i].digest) == Some(lineage[i]))
    && (forall i | 0 <= i < |lineage| - 1 :: Continues(lineage[i], lineage[i + 1]))
  }

  predicate Continues(child: Snapshot, parent: Snapshot) {
    child.FirstParent() == Some(parent.digest)
  }

  /** A snapshot that changes no authority, or changes it alone, upward, and under the quorum before it. */
  ghost predicate IsSettled(store: Store, verify: Verifier, snapshot: Snapshot) {
    var position := Locate(store, snapshot);
    position.role == Revision ==>
      && position.inForce.Some? && position.parent.Some? && snapshot.trustRoot.Some?
      && snapshot.modules == position.parent.value.modules
      && snapshot.trustRoot.value.revision > position.inForce.value.revision
      && Count(store, verify, position, ForSnapshot(store, snapshot.digest)) >= position.inForce.value.governQuorum
  }

  ghost predicate IsSettledHistory(store: Store, verify: Verifier, lineage: seq<Snapshot>) {
    forall i | 0 <= i < |lineage| :: IsSettled(store, verify, lineage[i])
  }

  /** A brain whose authority runs, held and settled, from a genesis that carries a trust root. */
  ghost predicate IsGoverned(meaning: Id -> Document, verify: Verifier, state: State) {
    && Holds(state.store.docs, meaning) && state.started && state.head.trustRoot.Some?
    && exists lineage :: IsLineage(state.store, state.head, lineage) && IsSettledHistory(state.store, verify, lineage)
  }

  /** The primitive is installed. */
  ghost predicate Runs(verify: Verifier) {
    forall signature, digest :: verify(signature, digest) != BackendMissing
  }

  lemma GovernedBasics(meaning: Id -> Document, verify: Verifier, state: State)
    requires IsGoverned(meaning, verify, state)
    ensures Holds(state.store.docs, meaning) && state.started && state.head.trustRoot.Some?
  {
  }

  lemma HeldParentIsLocated(store: Store, child: Snapshot, parent: Snapshot)
    requires Continues(child, parent) && LoadSnapshot(store, parent.digest) == Some(parent)
    ensures Locate(store, child) ==
            Position(child, Some(parent), if parent.trustRoot == child.trustRoot then Ordinary else Revision,
                     parent.trustRoot, false)
  {
  }

  lemma OriginIsLocated(store: Store, snapshot: Snapshot)
    requires snapshot.parents == []
    ensures Locate(store, snapshot) == Position(snapshot, None, Genesis, snapshot.trustRoot, false)
  {
  }

  lemma LocatedInLineage(store: Store, head: Snapshot, lineage: seq<Snapshot>, i: nat)
    requires IsLineage(store, head, lineage) && i < |lineage|
    ensures var position := Locate(store, lineage[i]);
            && !position.truncated
            && position.parent == (if i < |lineage| - 1 then Some(lineage[i + 1]) else None)
  {
    if i < |lineage| - 1 {
      HeldParentIsLocated(store, lineage[i], lineage[i + 1]);
    } else {
      OriginIsLocated(store, lineage[i]);
    }
  }

  // --- More documents and more records unsettle nothing -----------------------------------------------

  ghost predicate Improves(before: Store, after: Store) {
    Grows(before.docs, after.docs) && NamesMore(before.signatures, after.signatures)
  }

  lemma NothingIsUnsettled(before: Store, after: Store, verify: Verifier, snapshot: Snapshot)
    requires Improves(before, after) && Runs(verify)
    requires IsSettled(before, verify, snapshot) && !Locate(before, snapshot).truncated
    ensures IsSettled(after, verify, snapshot) && Locate(after, snapshot) == Locate(before, snapshot)
  {
    hide Locate, Count, Improves, Grows, NamesMore, ForSnapshot;
    assert Extends(before, after) by { ImprovementExtends(before, after); }
    PositionIsStable(before, after, snapshot);
    var position := Locate(before, snapshot);
    var fewer, more := ForSnapshot(before, snapshot.digest), ForSnapshot(after, snapshot.digest);
    forall record | record in fewer
      ensures record in more
    {
      ImprovementKeeps(before, after, snapshot.digest, record);
    }
    LocatedSnapshot(before, snapshot);
    CountNeverDrops(before, after, verify, position, fewer, more);
  }

  lemma ImprovementExtends(before: Store, after: Store)
    requires Improves(before, after)
    ensures Extends(before, after)
  {
  }

  lemma ImprovementKeeps(before: Store, after: Store, snapshot: Id, record: SignatureRecord)
    requires Improves(before, after) && record in ForSnapshot(before, snapshot)
    ensures record in ForSnapshot(after, snapshot)
  {
    HeldRecordsStay(before, after, snapshot, record);
  }

  lemma LineageStays(before: Store, after: Store, head: Snapshot, lineage: seq<Snapshot>)
    requires Grows(before.docs, after.docs) && IsLineage(before, head, lineage)
    ensures IsLineage(after, head, lineage)
  {
  }

  lemma HistoryStaysSettled(before: Store, after: Store, verify: Verifier, head: Snapshot, lineage: seq<Snapshot>)
    requires Improves(before, after) && Runs(verify)
    requires IsLineage(before, head, lineage) && IsSettledHistory(before, verify, lineage)
    ensures IsLineage(after, head, lineage) && IsSettledHistory(after, verify, lineage)
  {
    hide IsSettled, Locate;
    LineageStays(before, after, head, lineage);
    forall i | 0 <= i < |lineage|
      ensures IsSettled(after, verify, lineage[i])
    {
      LocatedInLineage(before, head, lineage, i);
      NothingIsUnsettled(before, after, verify, lineage[i]);
    }
  }

  /** A governed brain stays governed in a better store, and under a settled successor of its head. */
  lemma SuccessorIsGoverned(
    meaning: Id -> Document, verify: Verifier, state: State, store: Store, next: Snapshot)
    requires IsGoverned(meaning, verify, state) && Runs(verify)
    requires Improves(state.store, store) && Holds(store.docs, meaning)
    requires next == state.head
             || (Continues(next, state.head) && LoadSnapshot(store, next.digest) == Some(next)
                 && next.trustRoot.Some? && IsSettled(store, verify, next))
    ensures IsGoverned(meaning, verify, state.(store := store, head := next))
  {
    hide IsSettled, Holds, Continues;
    var lineage: seq<Snapshot> :|
      IsLineage(state.store, state.head, lineage) && IsSettledHistory(state.store, verify, lineage);
    HistoryStaysSettled(state.store, store, verify, state.head, lineage);
    if next != state.head {
      var longer := [next] + lineage;
      assert IsLineage(store, next, longer);
      assert IsSettledHistory(store, verify, longer);
    }
  }

  // --- The operations -----------------------------------------------------------------------------------

  lemma SameNamesMore(before: Store, after: Store)
    requires before.signatures == after.signatures
    ensures NamesMore(before.signatures, after.signatures)
  {
  }

  /** Writing, which carries the trust root forward as it is. */
  lemma WriteStaysGoverned(
    hash: Hash, meaning: Id -> Document, verify: Verifier, state: State, request: Request, stamp: nat)
    requires IsFaithful(hash, meaning) && IsGoverned(meaning, verify, state) && Runs(verify)
    ensures IsGoverned(meaning, verify, Written(hash, state, request, stamp).0)
  {
    hide Written, IsFaithful, ArePersisted, Locate, Count;
    WrittenSucceeds(hash, meaning, state, request, stamp);
    var (next, r) := Written(hash, state, request, stamp);
    SameNamesMore(state.store, next.store);
    if r.Ok? {
      var refs :| IsSuccessor(hash, meaning, state, request, next, refs);
      assert Continues(next.head, state.head);
      HeadIsHeld(meaning, verify, state, next.store);
      HeldParentIsLocated(next.store, next.head, state.head);
    }
    SuccessorIsGoverned(meaning, verify, state, next.store, next.head);
  }

  lemma HeadIsHeld(meaning: Id -> Document, verify: Verifier, state: State, store: Store)
    requires IsGoverned(meaning, verify, state) && Grows(state.store.docs, store.docs)
    ensures LoadSnapshot(state.store, state.head.digest) == Some(state.head)
    ensures LoadSnapshot(store, state.head.digest) == Some(state.head)
  {
    var lineage: seq<Snapshot> :|
      IsLineage(state.store, state.head, lineage) && IsSettledHistory(state.store, verify, lineage);
    assert LoadSnapshot(state.store, lineage[0].digest) == Some(lineage[0]);
  }

  /** Keeping a record, however it was come by. */
  lemma KeepingStaysGoverned(
    hash: Hash, meaning: Id -> Document, verify: Verifier, state: State, record: SignatureRecord)
    requires IsFaithful(hash, meaning) && IsGoverned(meaning, verify, state) && Runs(verify)
    ensures IsGoverned(meaning, verify, state.(store := Kept(hash, state.store, record).0))
  {
    hide Kept, IsFaithful;
    KeptGrows(hash, meaning, state.store, record);
    SuccessorIsGoverned(meaning, verify, state, Kept(hash, state.store, record).0, state.head);
  }

  /** A revision that a verifier will find nothing wrong with, as far as its own content goes. */
  predicate IsUnaltered(head: Snapshot, revision: Description) {
    && head.trustRoot.Some? && revision.trustRoot.Some?
    && (revision.trustRoot == head.trustRoot
        || (revision.modules == head.modules && revision.trustRoot.value.revision > head.trustRoot.value.revision))
  }

  /** What `plan_rotate` plans, and a fresh rotation builds, is unaltered. */
  lemma FreshRevisionsAreUnaltered(hash: Hash, head: Snapshot, trustRoot: TrustRoot, stamp: nat)
    requires head.trustRoot.Some? && RevisionOf(hash, head, New(trustRoot, stamp)).Ok?
    ensures var revision := RevisionOf(hash, head, New(trustRoot, stamp)).value;
            && IsUnaltered(head, revision)
            && RevisionOf(hash, head, Planned(revision, hash.snapshot(revision))) == Ok(revision)
  {
  }

  lemma RevisionExtendsHead(hash: Hash, head: Snapshot, proposal: Proposal)
    requires head.trustRoot.Some? && RevisionOf(hash, head, proposal).Ok?
    ensures var revision := RevisionOf(hash, head, proposal).value;
            && revision.trustRoot.Some? && Continues(SnapshotOf(hash, revision), head)
  {
  }

  /** What a rotation that went through leaves behind: the quorum it was gated on is the quorum found later. */
  lemma RotationIsCounted(
    hash: Hash, meaning: Id -> Document, verify: Verifier, state: State, proposal: Proposal,
    records: seq<SignatureRecord>, signatures: seq<ParsedSignature>)
    requires IsFaithful(hash, meaning) && IsGoverned(meaning, verify, state) && Runs(verify)
    requires Rotated(hash, verify, state, proposal, records, signatures).1.Ok?
    ensures var next := Rotated(hash, verify, state, proposal, records, signatures).0;
            var revision := RevisionOf(hash, state.head, proposal).value;
            && RevisionOf(hash, state.head, proposal).Ok?
            && next == state.(store := next.store, head := SnapshotOf(hash, revision))
            && Improves(state.store, next.store) && Holds(next.store.docs, meaning)
            && LoadSnapshot(next.store, next.head.digest) == Some(next.head)
            && Count(next.store, verify, Locate(next.store, next.head), ForSnapshot(next.store, next.head.digest))
               >= state.head.trustRoot.value.governQuorum
  {
    hide IsFaithful, AllKept, Advanced, Locate, Count, Distinct, RevisionOf, IsGoverned, Holds, Grows, IsKept,
         NamesMore;
    var (revision, collected) := Prepared(hash, state, proposal, records, signatures).value;
    var snapshot := SnapshotOf(hash, revision);
    GovernedBasics(meaning, verify, state);
    AllKeptGrow(hash, meaning, state.store, collected);
    var store := AllKept(hash, state.store, collected).0;
    AdvancedHolds(hash, meaning, state.(store := store), revision);
    var next := Advanced(hash, state.(store := store), revision);
    GrowthComposes(state.store.docs, store.docs, next.store.docs);
    SameNamesMore(store, next.store);
    NamesCompose(state.store, store, next.store);
    CollectedAreHeld(hash, store, next.store, collected, snapshot.digest);
    RevisionIsLocated(hash, meaning, verify, state, proposal, next.store);
    var held := ForSnapshot(next.store, snapshot.digest);
    assert Improves(state.store, next.store);
    ImprovementExtends(state.store, next.store);
    LocatedSnapshot(state.store, snapshot);
    CountNeverDrops(state.store, next.store, verify, Locate(state.store, snapshot), collected, held);
  }

  lemma CollectedAreHeld(
    hash: Hash, store: Store, after: Store, collected: seq<SignatureRecord>, digest: Id)
    requires forall record | record in collected :: record.snapshot == digest && IsKept(hash, store, record)
    requires Grows(store.docs, after.docs) && NamesMore(store.signatures, after.signatures)
    ensures forall record | record in collected :: record in ForSnapshot(after, digest)
  {
    forall record | record in collected
      ensures record in ForSnapshot(after, digest)
    {
      StaysKept(hash, store, after, record);
      KeptIsHeld(hash, after, record);
    }
  }

  lemma RevisionIsLocated(
    hash: Hash, meaning: Id -> Document, verify: Verifier, state: State, proposal: Proposal, store: Store)
    requires IsGoverned(meaning, verify, state) && Grows(state.store.docs, store.docs)
    requires RevisionOf(hash, state.head, proposal).Ok?
    ensures var snapshot := SnapshotOf(hash, RevisionOf(hash, state.head, proposal).value);
            && Locate(state.store, snapshot) == Locate(store, snapshot)
            && Locate(store, snapshot) ==
               Position(snapshot, Some(state.head),
                        if state.head.trustRoot == snapshot.trustRoot then Ordinary else Revision,
                        state.head.trustRoot, false)
  {
    hide IsGoverned, Locate, RevisionOf, LoadSnapshot;
    HeadIsHeld(meaning, verify, state, store);
    GovernedBasics(meaning, verify, state);
    RevisionExtendsHead(hash, state.head, proposal);
    var snapshot := SnapshotOf(hash, RevisionOf(hash, state.head, proposal).value);
    HeldParentIsLocated(state.store, snapshot, state.head);
    HeldParentIsLocated(store, snapshot, state.head);
  }

  /** A rotation leaves a settled head exactly when what it committed was unaltered. */
  lemma RotationSettlesExactly(
    hash: Hash, meaning: Id -> Document, verify: Verifier, state: State, proposal: Proposal,
    records: seq<SignatureRecord>, signatures: seq<ParsedSignature>)
    requires IsFaithful(hash, meaning) && IsGoverned(meaning, verify, state) && Runs(verify)
    requires Rotated(hash, verify, state, proposal, records, signatures).1.Ok?
    ensures var next := Rotated(hash, verify, state, proposal, records, signatures).0;
            && RevisionOf(hash, state.head, proposal).Ok?
            && (IsSettled(next.store, verify, next.head) <==>
                IsUnaltered(state.head, RevisionOf(hash, state.head, proposal).value))
            && (IsSettled(next.store, verify, next.head) ==> IsGoverned(meaning, verify, next))
  {
    hide Rotated, IsFaithful, Locate, Count, ForSnapshot, RevisionOf, IsGoverned, NamesMore;
    RotationIsCounted(hash, meaning, verify, state, proposal, records, signatures);
    var next := Rotated(hash, verify, state, proposal, records, signatures).0;
    RevisionIsLocated(hash, meaning, verify, state, proposal, next.store);
    GovernedBasics(meaning, verify, state);
    RevisionExtendsHead(hash, state.head, proposal);
    if IsSettled(next.store, verify, next.head) {
      SuccessorIsGoverned(meaning, verify, state, next.store, next.head);
    }
  }

  /** A rotation that does not go through moves no head, and leaves the brain governed. */
  lemma FailedRotationStaysGoverned(
    hash: Hash, meaning: Id -> Document, verify: Verifier, state: State, proposal: Proposal,
    records: seq<SignatureRecord>, signatures: seq<ParsedSignature>)
    requires IsFaithful(hash, meaning) && IsGoverned(meaning, verify, state) && Runs(verify)
    requires Rotated(hash, verify, state, proposal, records, signatures).1.Err?
    ensures var next := Rotated(hash, verify, state, proposal, records, signatures).0;
            next.head == state.head && IsGoverned(meaning, verify, next)
  {
    hide IsFaithful, AllKept, Locate, Count, IsGoverned, RevisionOf, Distinct, Holds, Grows, NamesMore;
    var next := Rotated(hash, verify, state, proposal, records, signatures).0;
    GovernedBasics(meaning, verify, state);
    var prepared := Prepared(hash, state, proposal, records, signatures);
    if prepared.Ok? && next != state {
      AllKeptGrow(hash, meaning, state.store, prepared.value.1);
      SuccessorIsGoverned(meaning, verify, state, next.store, state.head);
    }
  }

  /** A founding act: a snapshot with no parents that carries a trust root. */
  lemma GenesisIsGoverned(
    hash: Hash, meaning: Id -> Document, verify: Verifier, state: State, trustRoot: TrustRoot, stamp: nat)
    requires IsFaithful(hash, meaning) && Holds(state.store.docs, meaning)
    ensures IsGoverned(meaning, verify, Advanced(hash, state, Description([], map[], Some(trustRoot), stamp)))
  {
    hide IsFaithful, Advanced;
    var description := Description([], map[], Some(trustRoot), stamp);
    AdvancedHolds(hash, meaning, state, description);
    var next := Advanced(hash, state, description);
    OriginIsLocated(next.store, next.head);
    var lineage: seq<Snapshot> := [next.head];
    assert IsLineage(next.store, next.head, lineage) && IsSettledHistory(next.store, verify, lineage);
  }

  // --- What a verifier then finds ---------------------------------------------------------------------------

  predicate IsGovernanceFault(kind: FindingKind) {
    kind == QuorumFailure || kind == RevisionChangedContent || kind == RevisionRegressed
  }

  predicate HasFault(findings: seq<Finding>) {
    exists finding | finding in findings :: IsGovernanceFault(finding.kind)
  }

  lemma FaultsSplit(a: seq<Finding>, b: seq<Finding>)
    ensures HasFault(a + b) <==> HasFault(a) || HasFault(b)
  {
    assert forall finding :: finding in a + b <==> finding in a || finding in b;
  }

  /** A walk over a lineage is that lineage. */
  lemma {:induction false} WalkIsLineage(store: Store, head: Snapshot, lineage: seq<Snapshot>, seen: set<Id>)
    requires IsLineage(store, head, lineage) && |seen| <= MAX_WALK && WalkFrom(store, head, seen).Ok?
    ensures var walk := WalkFrom(store, head, seen).value;
            |walk| == |lineage| && forall i | 0 <= i < |walk| :: walk[i] == Locate(store, lineage[i])
    decreases |lineage|
  {
    hide Locate;
    LocatedInLineage(store, head, lineage, 0);
    if |lineage| > 1 {
      var rest := lineage[1..];
      assert IsLineage(store, lineage[1], rest);
      WalkIsLineage(store, lineage[1], rest, seen + {head.digest});
    }
  }

  lemma {:induction false} SettledWalkIsSilent(store: Store, verify: Verifier, walk: seq<Position>, pinned: bool)
    requires forall i | 0 <= i < |walk| ::
               !walk[i].truncated && walk[i] == Locate(store, walk[i].snapshot)
                 && IsSettled(store, verify, walk[i].snapshot)
    ensures AncestryFindings(store, verify, walk, pinned) == []
  {
    hide Locate, Count;
    if walk != [] {
      SettledWalkIsSilent(store, verify, walk[1..], pinned);
    }
  }

  lemma NothingBehind(meaning: Id -> Document, verify: Verifier, state: State, pinned: bool)
    requires IsGoverned(meaning, verify, state)
    ensures BehindFindings(state.store, verify, Locate(state.store, state.head), pinned) == []
  {
    hide Locate, AncestryFindings, IsSettled, Continues;
    var store := state.store;
    var lineage: seq<Snapshot> :| IsLineage(store, state.head, lineage) && IsSettledHistory(store, verify, lineage);
    LocatedInLineage(store, state.head, lineage, 0);
    if |lineage| > 1 && WalkFrom(store, lineage[1], {}).Ok? {
      assert IsLineage(store, lineage[1], lineage[1..]);
      LineageIsSilent(store, verify, lineage[1], lineage[1..], pinned);
    } else {
      NoWalkIsSilent(store, verify, pinned);
    }
  }

  lemma NoWalkIsSilent(store: Store, verify: Verifier, pinned: bool)
    ensures AncestryFindings(store, verify, [], pinned) == []
  {
  }

  lemma {:induction false} AboutIs(records: seq<SignatureRecord>, digest: Id, record: SignatureRecord)
    ensures record in About(records, digest) <==> record in records && record.snapshot == digest
  {
    if records != [] {
      AboutIs(records[1..], digest, record);
      assert record in records <==> record == records[0] || record in records[1..];
    }
  }

  /** The records a brain holds about a snapshot, which are the ones a verifier judges by default. */
  function HeldRecords(store: Store, snapshot: Snapshot): (r: seq<SignatureRecord>) {
    About(ForSnapshot(store, snapshot.digest), snapshot.digest)
  }

  lemma CountIsAbout(store: Store, verify: Verifier, position: Position, records: seq<SignatureRecord>)
    ensures Count(store, verify, position, About(records, position.snapshot.digest)) ==
            Count(store, verify, position, records)
  {
    hide About, MayGovern;
    var about := About(records, position.snapshot.digest);
    forall record
      ensures record in about <==> record in records && record.snapshot == position.snapshot.digest
    {
      AboutIs(records, position.snapshot.digest, record);
    }
    assert LacksBackend(verify, about, position.snapshot.digest) <==>
           LacksBackend(verify, records, position.snapshot.digest);
    if position.inForce.Some? {
      assert Governors(store, verify, position, position.inForce.value, about) ==
             Governors(store, verify, position, position.inForce.value, records);
    }
  }

  /** What a verifier finds wrong with a snapshot's own change of authority is that it is not settled. */
  lemma FaultedUnlessSettled(store: Store, verify: Verifier, snapshot: Snapshot)
    requires snapshot.trustRoot.Some?
    ensures HasFault(GovernanceJudgment(store, verify, Locate(store, snapshot), HeldRecords(store, snapshot)).findings)
            <==> !IsSettled(store, verify, snapshot)
  {
    hide Locate, Count, ForSnapshot, About, ActiveGovernors;
    LocatedSnapshot(store, snapshot);
    var position := Locate(store, snapshot);
    CountIsAbout(store, verify, position, ForSnapshot(store, snapshot.digest));
    RevisionHasParent(store, snapshot);
    if position.role == Revision {
      var findings := GovernanceJudgment(store, verify, position, HeldRecords(store, snapshot)).findings;
      assert snapshot.modules != position.parent.value.modules ==> Finding(RevisionChangedContent, true) in findings;
      assert position.inForce.Some? && snapshot.trustRoot.value.revision <= position.inForce.value.revision ==>
               Finding(RevisionRegressed, true) in findings;
      assert position.inForce.None?
             || Count(store, verify, position, ForSnapshot(store, snapshot.digest))
                < position.inForce.value.governQuorum
             ==> Finding(QuorumFailure, true) in findings;
    }
  }

  lemma RevisionHasParent(store: Store, snapshot: Snapshot)
    ensures Locate(store, snapshot).role == Revision ==> Locate(store, snapshot).parent.Some?
  {
  }

  lemma NoOtherFaults(
    store: Store, verify: Verifier, consumer: Consumer, position: Position, required: Scopes.RequiredScopes)
    ensures HasFault(PreliminaryFindings(store, verify, consumer, position, required)) ==>
            HasFault(BehindFindings(store, verify, position,
                                    PinJudgment(consumer.pin, position, Walked(store, position.snapshot)).0))
  {
    hide BehindFindings, Walked, RemovalFindings, SinceFindings, PinJudgment, Removals.Checked, EvidenceFindings;
    var walk := Walked(store, position.snapshot);
    var judged := PinJudgment(consumer.pin, position, walk);
    var truncation, since := TruncationFindings(position), SinceFindings(position, walk);
    var behind := BehindFindings(store, verify, position, judged.0);
    var evidence := EvidenceFindings(required);
    var checked := Removals.Checked(store.docs, position.snapshot, position.parent);
    SmallFindingsFaultless(consumer.pin, position, walk, required);
    SinceFaultless(position, walk);
    RemovalsFaultless(checked);
    FaultsSplit(truncation, judged.1);
    FaultsSplit(truncation + judged.1, since);
    FaultsSplit(truncation + judged.1 + since, behind);
    FaultsSplit(truncation + judged.1 + since + behind, evidence);
    FaultsSplit(truncation + judged.1 + since + behind + evidence, RemovalFindings(checked));
  }

  lemma SmallFindingsFaultless(
    pin: Option<Pin>, position: Position, walk: seq<Position>, required: Scopes.RequiredScopes)
    ensures !HasFault(TruncationFindings(position)) && !HasFault(EvidenceFindings(required))
    ensures !HasFault(PinJudgment(pin, position, walk).1)
  {
  }

  lemma {:induction false} RefutedFaultless(keys: seq<TrustedKey>, observed: seq<TrustRoot>)
    ensures !HasFault(RefutedEntries(keys, observed))
  {
    if keys != [] {
      RefutedFaultless(keys[1..], observed);
    }
  }

  lemma SinceFaultless(position: Position, walk: seq<Position>)
    ensures !HasFault(SinceFindings(position, walk))
  {
    if position.inForce.Some? {
      RefutedFaultless(position.inForce.value.keys, ObservedIn(walk, {}));
    }
  }

  lemma RemovalsFaultless(removals: Removals.RemovalIntegrity)
    ensures !HasFault(RemovalFindings(removals))
  {
  }

  lemma {:induction false} WithdrawalsFaultless(verdicts: seq<Verdict>)
    ensures !HasFault(WithdrawalFindings(verdicts))
  {
    if verdicts != [] {
      WithdrawalsFaultless(verdicts[1..]);
    }
  }

  /** With nothing wrong behind a snapshot, its report is at fault exactly when its own judgment is. */
  lemma ReportFaults(
    store: Store, verify: Verifier, consumer: Consumer, snapshot: Snapshot, held: seq<SignatureRecord>,
    required: Scopes.RequiredScopes, newest: Option<TrustRoot>, stance: Stance)
    requires forall pinned :: BehindFindings(store, verify, Locate(store, snapshot), pinned) == []
    ensures HasFault(ReportOf(store, verify, consumer, snapshot, held, required, newest, stance).findings) <==>
            held != [] && HasFault(GovernanceJudgment(store, verify, Locate(store, snapshot), held).findings)
  {
    hide Locate, PreliminaryFindings, GovernanceJudgment, Judgments, Standing, Withdrawn, WithdrawalFindings,
         PolicyFindings, SignersWith, BehindFindings, PinJudgment, Walked;
    var position := Locate(store, snapshot);
    LocatedSnapshot(store, snapshot);
    var preliminary := PreliminaryFindings(store, verify, consumer, position, required);
    NoOtherFaults(store, verify, consumer, position, required);
    assert [] ==
           BehindFindings(store, verify, position, PinJudgment(consumer.pin, position, Walked(store, snapshot)).0);
    FaultsSplit(preliminary, [Finding(UnsignedBrain, true)]);
    if held != [] {
      var verdicts := Judgments(store, verify, held, position, required, newest, stance);
      var backend := if consumer.hasBackend then [] else [Finding(BackendUnavailable, false)];
      var withdrawals := WithdrawalFindings(verdicts);
      var governed := GovernanceJudgment(store, verify, position, held).findings;
      var valid, proposals := SignersWith(Standing(verdicts), Valid), SignersWith(Standing(verdicts), ValidAsProposal);
      var policed := PolicyFindings(consumer.policy, valid, proposals, stance);
      WithdrawalsFaultless(verdicts);
      PolicyFaultless(consumer.policy, valid, proposals, stance);
      FaultsSplit(preliminary, backend);
      FaultsSplit(preliminary + backend, withdrawals);
      FaultsSplit(preliminary + backend + withdrawals, governed);
      FaultsSplit(preliminary + backend + withdrawals + governed, policed);
    }
  }

  /**
   The agreement: the report a verifier draws up on the head of a governed brain, from the records the brain
   holds, carries no quorum failure, no changed content and no regressed revision, at the head or behind it.
   */
  lemma GovernedHeadsAreFaultless(
    meaning: Id -> Document, verify: Verifier, state: State, consumer: Consumer, required: Scopes.RequiredScopes,
    newest: Option<TrustRoot>, stance: Stance)
    requires IsGoverned(meaning, verify, state)
    ensures !HasFault(ReportOf(state.store, verify, consumer, state.head, HeldRecords(state.store, state.head),
                               required, newest, stance).findings)
  {
    hide Locate, GovernanceJudgment, BehindFindings, IsSettled, IsGoverned, ReportOf, HeldRecords;
    GovernedBasics(meaning, verify, state);
    forall pinned
      ensures BehindFindings(state.store, verify, Locate(state.store, state.head), pinned) == []
    {
      NothingBehind(meaning, verify, state, pinned);
    }
    HeadIsSettled(meaning, verify, state);
    FaultedUnlessSettled(state.store, verify, state.head);
    ReportFaults(state.store, verify, consumer, state.head, HeldRecords(state.store, state.head), required, newest,
                 stance);
  }

  /** A successor of a governed head has nothing wrong behind it. */
  lemma NothingBehindSuccessor(
    meaning: Id -> Document, verify: Verifier, state: State, next: Snapshot, pinned: bool)
    requires IsGoverned(meaning, verify, state) && Locate(state.store, next).parent == Some(state.head)
    ensures BehindFindings(state.store, verify, Locate(state.store, next), pinned) == []
  {
    hide Locate, AncestryFindings, IsSettled, Continues;
    var store := state.store;
    var lineage: seq<Snapshot> :| IsLineage(store, state.head, lineage) && IsSettledHistory(store, verify, lineage);
    if WalkFrom(store, state.head, {}).Ok? {
      LineageIsSilent(store, verify, state.head, lineage, pinned);
    } else {
      NoWalkIsSilent(store, verify, pinned);
    }
  }

  lemma LineageIsSilent(store: Store, verify: Verifier, head: Snapshot, lineage: seq<Snapshot>, pinned: bool)
    requires IsLineage(store, head, lineage) && IsSettledHistory(store, verify, lineage)
             && WalkFrom(store, head, {}).Ok?
    ensures AncestryFindings(store, verify, Walked(store, head), pinned) == []
  {
    hide Locate, AncestryFindings, IsSettled;
    WalkIsLineage(store, head, lineage, {});
    var walk := Walked(store, head);
    forall i | 0 <= i < |walk|
      ensures !walk[i].truncated && walk[i] == Locate(store, walk[i].snapshot)
              && IsSettled(store, verify, walk[i].snapshot)
    {
      LocatedInLineage(store, head, lineage, i);
      LocatedSnapshot(store, lineage[i]);
    }
    SettledWalkIsSilent(store, verify, walk, pinned);
  }

  /**
   A rotation that went through leaves a head whose report is without fault exactly when what it committed was
   unaltered. The one way out is a quorum of nobody: then no record need be kept, and a report without records
   judges no governance at all.
   */
  lemma RotationIsFaultlessExactly(
    hash: Hash, meaning: Id -> Document, verify: Verifier, state: State, proposal: Proposal,
    records: seq<SignatureRecord>, signatures: seq<ParsedSignature>, consumer: Consumer,
    required: Scopes.RequiredScopes, newest: Option<TrustRoot>, stance: Stance)
    requires IsFaithful(hash, meaning) && IsGoverned(meaning, verify, state) && Runs(verify)
    requires Rotated(hash, verify, state, proposal, records, signatures).1.Ok?
    ensures var next := Rotated(hash, verify, state, proposal, records, signatures).0;
            var held := HeldRecords(next.store, next.head);
            && RevisionOf(hash, state.head, proposal).Ok?
            && (!HasFault(ReportOf(next.store, verify, consumer, next.head, held, required, newest, stance).findings)
                <==> IsUnaltered(state.head, RevisionOf(hash, state.head, proposal).value) || held == [])
            && (held == [] ==> state.head.trustRoot.value.governQuorum == 0)
  {
    hide Rotated, IsFaithful, Locate, Count, ForSnapshot, RevisionOf, IsGoverned, NamesMore, ReportOf, IsSettled,
         GovernanceJudgment, BehindFindings, About;
    RotationIsCounted(hash, meaning, verify, state, proposal, records, signatures);
    var next := Rotated(hash, verify, state, proposal, records, signatures).0;
    GovernedBasics(meaning, verify, state);
    RevisionExtendsHead(hash, state.head, proposal);
    RevisionIsLocated(hash, meaning, verify, state, proposal, next.store);
    SuccessorIsGoverned(meaning, verify, state, next.store, state.head);
    forall pinned
      ensures BehindFindings(next.store, verify, Locate(next.store, next.head), pinned) == []
    {
      NothingBehindSuccessor(meaning, verify, state.(store := next.store), next.head, pinned);
    }
    var held := HeldRecords(next.store, next.head);
    RotationSettlesExactly(hash, meaning, verify, state, proposal, records, signatures);
    FaultedUnlessSettled(next.store, verify, next.head);
    ReportFaults(next.store, verify, consumer, next.head, held, required, newest, stance);
    CountIsAbout(next.store, verify, Locate(next.store, next.head), ForSnapshot(next.store, next.head.digest));
    LocatedSnapshot(next.store, next.head);
    NobodySigned(next.store, verify, Locate(next.store, next.head));
  }

  lemma NobodySigned(store: Store, verify: Verifier, position: Position)
    ensures Count(store, verify, position, []) == 0
  {
    if position.inForce.Some? {
      assert Governors(store, verify, position, position.inForce.value, []) == {};
    }
  }

  lemma HeadIsSettled(meaning: Id -> Document, verify: Verifier, state: State)
    requires IsGoverned(meaning, verify, state)
    ensures IsSettled(state.store, verify, state.head)
  {
    hide IsSettled;
    var lineage: seq<Snapshot> :|
      IsLineage(state.store, state.head, lineage) && IsSettledHistory(state.store, verify, lineage);
    assert IsSettled(state.store, verify, lineage[0]);
  }

  lemma PolicyFaultless(policy: Policy, valid: set<Key>, proposals: set<Key>, stance: Stance)
    ensures !HasFault(PolicyFindings(policy, valid, proposals, stance))
  {
  }

  // --- The plan that goes through and is faulted -----------------------------------------------------------

  /** A brain just founded, with nothing in it but the founder's key. */
  function Founded(hash: Hash): (r: State) {
    var unpublished := State(Store(map[], map[]), Snapshot(0, [], map[], None), false, false);
    Advanced(hash, unpublished, Description([], map[], Some(FOUNDING_KEYS), 0))
  }

  /** A revision that also installs a module, filed under its own digest: nothing about it looks altered. */
  function GraftedPlan(hash: Hash): (r: Description) {
    Description([Founded(hash).head.digest], map[Semantic := ModuleRef(Semantic, Root({}), 0, 0, {}, None)],
                Some(TrustRoot(2, 1, [FOUNDER])), 0)
  }

  /** The quorum agrees to it, the head moves to it, and the report on that head then carries a fault. */
  lemma GraftedPlanIsFaulted(
    hash: Hash, meaning: Id -> Document, verify: Verifier, consumer: Consumer, required: Scopes.RequiredScopes,
    newest: Option<TrustRoot>, stance: Stance)
    requires IsFaithful(hash, meaning) && Runs(verify)
    requires verify(ParsedSignature(0, 0), hash.snapshot(GraftedPlan(hash))) == Verified
    ensures var proposal := Planned(GraftedPlan(hash), hash.snapshot(GraftedPlan(hash)));
            var (next, r) := Rotated(hash, verify, Founded(hash), proposal, [], [ParsedSignature(0, 0)]);
            && r == Ok(next.head)
            && HasFault(ReportOf(next.store, verify, consumer, next.head, HeldRecords(next.store, next.head), required,
                                 newest, stance).findings)
  {
    hide IsFaithful, ReportOf, HeldRecords, IsGoverned, Rotated, RevisionOf, Advanced;
    var proposal := Planned(GraftedPlan(hash), hash.snapshot(GraftedPlan(hash)));
    GraftGoesThrough(hash, meaning, verify);
    GenesisIsGoverned(hash, meaning, verify, State(Store(map[], map[]), Snapshot(0, [], map[], None), false, false),
                      FOUNDING_KEYS, 0);
    GraftIsProposed(hash);
    RotationIsFaultlessExactly(hash, meaning, verify, Founded(hash), proposal, [], [ParsedSignature(0, 0)], consumer,
                               required, newest, stance);
  }

  lemma GraftIsProposed(hash: Hash)
    ensures var founded := Founded(hash).head;
            var proposal := Planned(GraftedPlan(hash), hash.snapshot(GraftedPlan(hash)));
            && founded.trustRoot == Some(FOUNDING_KEYS) && founded.modules == map[]
            && RevisionOf(hash, founded, proposal) == Ok(GraftedPlan(hash))
            && !IsUnaltered(founded, GraftedPlan(hash))
  {
    assert Semantic in GraftedPlan(hash).modules;
  }

  lemma FoundedStore(hash: Hash, meaning: Id -> Document)
    requires IsFaithful(hash, meaning)
    ensures var state := Founded(hash);
            && !state.reconciling && state.store.signatures == map[]
            && LoadSnapshot(state.store, state.head.digest) == Some(state.head)
  {
  }

  lemma GraftIsPrepared(hash: Hash)
    ensures var digest := hash.snapshot(GraftedPlan(hash));
            Prepared(hash, Founded(hash), Planned(GraftedPlan(hash), digest), [], [ParsedSignature(0, 0)]) ==
            Ok((GraftedPlan(hash), [RecordOf(digest, ParsedSignature(0, 0))]))
  {
    hide RevisionOf, GraftedPlan;
    GraftIsProposed(hash);
    var digest := hash.snapshot(GraftedPlan(hash));
    var record := RecordOf(digest, ParsedSignature(0, 0));
    assert SignedRecords(digest, [ParsedSignature(0, 0)]) == [record];
    assert [record][1..] == [];
    assert Distinct(hash, [record], {}) == [record];
    assert [] + SignedRecords(digest, [ParsedSignature(0, 0)]) == [record];
  }

  lemma FounderIsEnough(hash: Hash, meaning: Id -> Document, verify: Verifier)
    requires IsFaithful(hash, meaning)
    requires verify(ParsedSignature(0, 0), hash.snapshot(GraftedPlan(hash))) == Verified
    ensures var record := RecordOf(hash.snapshot(GraftedPlan(hash)), ParsedSignature(0, 0));
            Count(Founded(hash).store, verify, Locate(Founded(hash).store, SnapshotOf(hash, GraftedPlan(hash))),
                  [record]) >= 1
  {
    hide IsFaithful, EntryFor, Founded, RevisionOf;
    FoundedStore(hash, meaning);
    GraftIsProposed(hash);
    FounderIsListed();
    var state, snapshot := Founded(hash), SnapshotOf(hash, GraftedPlan(hash));
    var record := RecordOf(snapshot.digest, ParsedSignature(0, 0));
    HeldParentIsLocated(state.store, snapshot, state.head);
    var position := Locate(state.store, snapshot);
    assert Counts(state.store, verify, position, FOUNDING_KEYS, record);
    assert 0 in Governors(state.store, verify, position, FOUNDING_KEYS, [record]);
  }

  lemma GraftGoesThrough(hash: Hash, meaning: Id -> Document, verify: Verifier)
    requires IsFaithful(hash, meaning)
    requires verify(ParsedSignature(0, 0), hash.snapshot(GraftedPlan(hash))) == Verified
    ensures var proposal := Planned(GraftedPlan(hash), hash.snapshot(GraftedPlan(hash)));
            var (next, r) := Rotated(hash, verify, Founded(hash), proposal, [], [ParsedSignature(0, 0)]);
            r == Ok(next.head)
  {
    hide IsFaithful, Prepared, GraftedPlan, Founded, Advanced, Count, Locate, RevisionOf;
    FoundedStore(hash, meaning);
    GraftIsProposed(hash);
    GraftIsPrepared(hash);
    FounderIsEnough(hash, meaning, verify);
    var record := RecordOf(hash.snapshot(GraftedPlan(hash)), ParsedSignature(0, 0));
    assert Kept(hash, Founded(hash).store, record).1;
    assert AllKept(hash, Founded(hash).store, [record]).1;
  }
}
