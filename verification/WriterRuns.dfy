/** Runs of the write path: every version a brain publishes, held against both of a verifier's checks. */
module WriterRuns {
  import opened Common
  import opened Documents
  import opened Hashing
  import opened Chain
  import opened Verdicts
  import opened Quorum
  import opened Authenticator
  import opened Removals
  import opened Writer
  import opened Cascade
  import opened Drops
  import opened RemovalAgreement
  import opened Rotation
  import opened GovernanceAgreement

  datatype Act =
    | Writing(request: Request, stamp: nat)
    | Dropping(policy: RetentionPolicy, blocks: set<Id>, kind: MemoryType, detail: nat, stamp: nat)
    | DroppingByProducer(policy: RetentionPolicy, made: set<Id>, kinds: set<MemoryType>, detail: nat, stamp: nat)
    | Rotating(proposal: Proposal, records: seq<SignatureRecord>, signatures: seq<ParsedSignature>)
    | Keeping(record: SignatureRecord)
  {
    predicate IsWrite() {
      Writing? || Dropping? || DroppingByProducer?
    }
  }

  function PublishedBy(r: Result<DropResult, WriteError>): (published: Option<Snapshot>) {
    if r.Ok? && r.value.Published? then Some(r.value.snapshot) else None
  }

  /** The state an act leaves, and the version it published, if it did. */
  ghost function Perform(hash: Hash, verify: Verifier, state: State, act: Act): (r: (State, Option<Snapshot>)) {
    match act
    case Writing(request, stamp) =>
      var (next, written) := Written(hash, state, request, stamp);
      (next, if written.Ok? then Some(written.value) else None)
    case Dropping(policy, blocks, kind, detail, stamp) =>
      var (next, dropped) := Dropped(hash, state, policy, blocks, kind, detail, stamp);
      (next, PublishedBy(dropped))
    case DroppingByProducer(policy, made, kinds, detail, stamp) =>
      var (next, dropped) := DroppedByProducer(hash, state, policy, made, kinds, detail, stamp);
      (next, PublishedBy(dropped))
    case Rotating(proposal, records, signatures) =>
      var (next, rotated) := Rotated(hash, verify, state, proposal, records, signatures);
      (next, if rotated.Ok? then Some(rotated.value) else None)
    case Keeping(record) => (state.(store := Kept(hash, state.store, record).0), None)
  }

  ghost function After(hash: Hash, verify: Verifier, state: State, acts: seq<Act>): (r: State)
    decreases |acts|
  {
    if acts == [] then state else After(hash, verify, Perform(hash, verify, state, acts[0]).0, acts[1..])
  }

  // --- Every write is one write ------------------------------------------------------------------

  /** The exclusions an act comes down to. */
  ghost function Exclusions(state: State, act: Act): (r: map<MemoryType, set<Id>>)
    requires act.IsWrite()
  {
    match act
    case Writing(request, _) => request.without
    case Dropping(_, blocks, kind, _, _) => Taken(state, blocks, kind)
    case DroppingByProducer(_, made, kinds, _, _) =>
      if AllReadable(state) then CascadeFrom(state, Origins(state, made, kinds), ALL_MODULES) else map[]
  }

  ghost function RequestOf(state: State, act: Act): (r: Request)
    requires act.IsWrite()
  {
    if act.Writing? then act.request else DropWrite(Exclusions(state, act), act.detail)
  }

  /** Whichever act it was, what it wrote came through the one write path, or it changed nothing. */
  lemma ActIsWrite(hash: Hash, verify: Verifier, state: State, act: Act)
    requires act.IsWrite()
    ensures var (next, published) := Perform(hash, verify, state, act);
            var written := Written(hash, state, RequestOf(state, act), act.stamp);
            || (next == state && published.None?)
            || (next == written.0 && published == (if written.1.Ok? then Some(written.1.value) else None))
  {
    hide Written, DropWrite, Union, Origins, AllReadable, OpenModule, SizeOf, CascadeOf, CascadeFrom, SizeFrom, CanPlan,
         IsLegible;
  }

  lemma RotatedHolds(
    hash: Hash, meaning: Id -> Document, verify: Verifier, state: State, proposal: Proposal,
    records: seq<SignatureRecord>, signatures: seq<ParsedSignature>)
    requires IsFaithful(hash, meaning) && Holds(state.store.docs, meaning)
    ensures var (next, r) := Rotated(hash, verify, state, proposal, records, signatures);
            && Holds(next.store.docs, meaning) && Grows(state.store.docs, next.store.docs)
            && (r.Ok? ==>
                  && state.head.trustRoot.Some? && RevisionOf(hash, state.head, proposal).Ok?
                  && r.value == next.head == SnapshotOf(hash, RevisionOf(hash, state.head, proposal).value))
  {
    hide IsFaithful, AllKept, Advanced, Locate, Count, Distinct, Holds, Grows, NamesMore, RevisionOf;
    var prepared := Prepared(hash, state, proposal, records, signatures);
    NothingGrows(state.store.docs);
    if prepared.Ok? {
      AllKeptGrow(hash, meaning, state.store, prepared.value.1);
      var store := AllKept(hash, state.store, prepared.value.1).0;
      AdvancedHolds(hash, meaning, state.(store := store), prepared.value.0);
      GrowthComposes(
        state.store.docs, store.docs, Advanced(hash, state.(store := store), prepared.value.0).store.docs);
    }
  }

  lemma PerformedHolds(hash: Hash, meaning: Id -> Document, verify: Verifier, state: State, act: Act)
    requires IsFaithful(hash, meaning) && Holds(state.store.docs, meaning)
    ensures var (next, published) := Perform(hash, verify, state, act);
            && Holds(next.store.docs, meaning) && Grows(state.store.docs, next.store.docs)
            && (published.Some? ==> published.value == next.head)
  {
    hide Written, Rotated, Kept, RequestOf, IsFaithful, Holds, Grows, Dropped, DroppedByProducer, NamesMore;
    NothingGrows(state.store.docs);
    match act
    case Rotating(proposal, records, signatures) =>
      RotatedHolds(hash, meaning, verify, state, proposal, records, signatures);
    case Keeping(record) => KeptGrows(hash, meaning, state.store, record);
    case _ =>
      ActIsWrite(hash, verify, state, act);
      WrittenSucceeds(hash, meaning, state, RequestOf(state, act), act.stamp);
  }

  lemma {:induction false} RunHolds(hash: Hash, meaning: Id -> Document, verify: Verifier, state: State, acts: seq<Act>)
    requires IsFaithful(hash, meaning) && Holds(state.store.docs, meaning)
    ensures Holds(After(hash, verify, state, acts).store.docs, meaning)
    ensures Grows(state.store.docs, After(hash, verify, state, acts).store.docs)
    decreases |acts|
  {
    hide IsFaithful, Perform;
    if acts != [] {
      var next := Perform(hash, verify, state, acts[0]).0;
      PerformedHolds(hash, meaning, verify, state, acts[0]);
      RunHolds(hash, meaning, verify, next, acts[1..]);
      GrowthComposes(state.store.docs, next.store.docs, After(hash, verify, state, acts).store.docs);
    }
  }

  // --- The removal check -------------------------------------------------------------------------------

  /** Whatever the revision lets go of is on record in the revision. */
  ghost predicate RevisionIsAccounted(docs: map<Id, Document>, head: Snapshot, revision: Description) {
    forall kind, block | IsLoss(docs, head.modules, revision.modules, kind, block) ::
      IsRecorded(docs, revision.modules, kind, block)
  }

  /** Whatever a write was told to exclude, and that was there, is on record in the provenance it leaves. */
  ghost predicate WriteIsAccounted(hash: Hash, docs: map<Id, Document>, head: Snapshot, request: Request) {
    forall kind, block | IsLost(docs, head, request, kind, block) ::
      IsRecordedIn(docs, LedgerAfter(hash, docs, head, request), kind, block)
  }

  /** An act that records what it takes out. A first version takes nothing out. */
  ghost predicate IsAccountedFor(hash: Hash, docs: map<Id, Document>, state: State, act: Act) {
    match act
    case Keeping(_) => true
    case Rotating(proposal, _, _) =>
      state.head.trustRoot.Some? && RevisionOf(hash, state.head, proposal).Ok? ==>
        RevisionIsAccounted(docs, state.head, RevisionOf(hash, state.head, proposal).value)
    case Writing(request, _) => state.started ==> WriteIsAccounted(hash, docs, state.head, request)
    case _ => state.started ==> DropIsAccounted(hash, docs, state.head, Exclusions(state, act), act.detail)
  }

  lemma FirstVersionIsAccepted(
    hash: Hash, meaning: Id -> Document, state: State, request: Request, stamp: nat, later: map<Id, Document>)
    requires IsFaithful(hash, meaning) && Holds(state.store.docs, meaning) && !state.started
    requires Written(hash, state, request, stamp).1.Ok?
    ensures Checked(later, Written(hash, state, request, stamp).0.head, Some(state.head)).IsValid()
  {
    hide Written, IsFaithful, ArePersisted;
    WrittenSucceeds(hash, meaning, state, request, stamp);
  }

  lemma RevisionIsAcceptedExactly(
    hash: Hash, state: State, proposal: Proposal, later: map<Id, Document>)
    requires state.head.trustRoot.Some? && RevisionOf(hash, state.head, proposal).Ok?
    ensures var revision := RevisionOf(hash, state.head, proposal).value;
            Checked(later, SnapshotOf(hash, revision), Some(state.head)).IsValid() <==>
            RevisionIsAccounted(later, state.head, revision)
  {
    hide Checked, ChangeOf, IsRecorded, RevisionOf;
    RevisionExtendsHead(hash, state.head, proposal);
    var revision := RevisionOf(hash, state.head, proposal).value;
    AcceptedMeansRecorded(later, SnapshotOf(hash, revision), state.head);
    assert forall kind, block :: IsLoss(later, state.head.modules, revision.modules, kind, block) <==>
      (kind in state.head.modules && ChangeOf(later, state.head.modules, revision.modules, kind).Lost?
       && block in ChangeOf(later, state.head.modules, revision.modules, kind).blocks);
  }

  /** One act's version against the head it was published over, judged in any later store. */
  lemma ActIsAcceptedExactly(
    hash: Hash, meaning: Id -> Document, verify: Verifier, state: State, act: Act, later: map<Id, Document>)
    requires IsFaithful(hash, meaning) && Holds(state.store.docs, meaning)
    requires Perform(hash, verify, state, act).1.Some?
    requires Grows(Perform(hash, verify, state, act).0.store.docs, later) && Holds(later, meaning)
    ensures Checked(later, Perform(hash, verify, state, act).1.value, Some(state.head)).IsValid() <==>
            IsAccountedFor(hash, later, state, act)
  {
    hide Written, Rotated, IsFaithful, Checked, DropIsAccounted, RevisionIsAccounted, WriteIsAccounted, Exclusions,
         RevisionOf, Dropped, DroppedByProducer, Holds, Grows, DropWrite, Kept;
    PerformedHolds(hash, meaning, verify, state, act);
    if act.Rotating? {
      RotatedHolds(hash, meaning, verify, state, act.proposal, act.records, act.signatures);
      RevisionIsAcceptedExactly(hash, state, act.proposal, later);
    } else {
      ActIsWrite(hash, verify, state, act);
      if !state.started {
        FirstVersionIsAccepted(hash, meaning, state, RequestOf(state, act), act.stamp, later);
      } else if act.Writing? {
        WriteIsAcceptedExactly(hash, meaning, state, act.request, act.stamp, later);
        WriteAccounts(hash, later, state.head, act.request);
      } else {
        DropIsAcceptedExactly(hash, meaning, state, Exclusions(state, act), act.detail, act.stamp, later);
      }
    }
  }

  lemma WriteAccounts(hash: Hash, docs: map<Id, Document>, head: Snapshot, request: Request)
    ensures WriteIsAccounted(hash, docs, head, request) <==>
            forall kind, block | IsLost(docs, head, request, kind, block)
              :: IsRecordedIn(docs, LedgerAfter(hash, docs, head, request), kind, block)
  {
  }

  /**
   Over any run of writes, drops, rotations and records kept: a version it published passes the removal check
   against the head it was published over, in the store the run ends with, exactly when the act accounted for
   what it took out.
   */
  lemma {:induction false} RunIsAcceptedExactly(
    hash: Hash, meaning: Id -> Document, verify: Verifier, start: State, acts: seq<Act>, k: nat)
    requires IsFaithful(hash, meaning) && Holds(start.store.docs, meaning) && k < |acts|
    requires Perform(hash, verify, After(hash, verify, start, acts[..k]), acts[k]).1.Some?
    ensures var before := After(hash, verify, start, acts[..k]);
            var last := After(hash, verify, start, acts).store.docs;
            Checked(last, Perform(hash, verify, before, acts[k]).1.value, Some(before.head)).IsValid() <==>
            IsAccountedFor(hash, last, before, acts[k])
    decreases k
  {
    hide IsFaithful, Perform, IsAccountedFor, Checked;
    var next := Perform(hash, verify, start, acts[0]).0;
    PerformedHolds(hash, meaning, verify, start, acts[0]);
    RunHolds(hash, meaning, verify, next, acts[1..]);
    if k == 0 {
      assert acts[..0] == [];
      ActIsAcceptedExactly(hash, meaning, verify, start, acts[0], After(hash, verify, start, acts).store.docs);
    } else {
      assert acts[..k][0] == acts[0] && acts[..k][1..] == acts[1..][..k - 1];
      RunIsAcceptedExactly(hash, meaning, verify, next, acts[1..], k - 1);
    }
  }

  /**
   An act whose books balance by its shape alone: a write that excludes nothing, a drop that does not reach
   provenance from another module, a revision that names the modules it found.
   */
  ghost predicate IsPlain(hash: Hash, state: State, act: Act) {
    match act
    case Keeping(_) => true
    case Rotating(proposal, _, _) =>
      state.head.trustRoot.Some? && RevisionOf(hash, state.head, proposal).Ok? ==>
        RevisionOf(hash, state.head, proposal).value.modules == state.head.modules
    case Writing(request, _) => request.without == map[]
    case _ => Provenance in Exclusions(state, act) ==> Exclusions(state, act).Keys == {Provenance}
  }

  lemma PlainActsAreAccounted(hash: Hash, rank: Id -> nat, docs: map<Id, Document>, state: State, act: Act)
    requires IsGrounded(hash, rank) && IsPlain(hash, state, act)
    ensures IsAccountedFor(hash, docs, state, act)
  {
    hide IsGrounded, DropIsAccounted, Exclusions, RevisionOf, OpenModule;
    if act.Dropping? || act.DroppingByProducer? {
      PlainDropsAreAccounted(hash, rank, docs, state.head, Exclusions(state, act), act.detail);
    }
  }

  /** Where no record is given as derived, every drop that names no provenance is plain. */
  lemma SparingDropsArePlain(hash: Hash, state: State, act: Act)
    requires DerivesNoRecord(state.store.docs, state.head)
    requires (act.Dropping? && act.kind != Provenance) || (act.DroppingByProducer? && Provenance !in act.kinds)
    ensures IsPlain(hash, state, act)
  {
    hide DerivesNoRecord, CascadeFrom, Taken, OpenModule;
    if act.Dropping? {
      DropsSpareRecords(state, act.blocks, act.kind);
    } else if AllReadable(state) {
      ProducerDropsSpareRecords(state, Origins(state, act.made, act.kinds), ALL_MODULES);
    }
  }

  /**
   A drop that names no provenance and does not account for what it takes writes a removal record that was there
   before it, and that some readable record gives as derived.
   */
  lemma UnaccountedDropsRepeatARecord(hash: Hash, docs: map<Id, Document>, state: State, act: Act)
    requires (act.Dropping? && act.kind != Provenance) || (act.DroppingByProducer? && Provenance !in act.kinds)
    requires !IsAccountedFor(hash, docs, state, act)
    ensures var held := MembersOf(state.store.docs, state.head, Provenance);
            var dropped := Exclusions(state, act);
            exists reached | reached in dropped ::
              var record := hash.block(RemovalBlock(dropped[reached], reached, act.detail));
              record in held
              && exists other | other in held ::
                   IsDerivation(state.store.docs, other) && state.store.docs[other].block.entry.block == record
  {
    hide CascadeFrom, Taken, OpenModule, MembersOf, DropIsAccounted, ReachesRecordsByCascade;
    if act.Dropping? {
      DropsReachRecordsByCascade(state, act.blocks, act.kind);
    } else if AllReadable(state) {
      ProducerDropsReachRecordsByCascade(state, Origins(state, act.made, act.kinds), ALL_MODULES);
    } else {
      NoExclusionIsAccounted(hash, docs, state, act.detail);
    }
    FailedDropsRepeatARecord(hash, docs, state, Exclusions(state, act), act.detail);
  }

  lemma NoExclusionIsAccounted(hash: Hash, docs: map<Id, Document>, state: State, detail: nat)
    ensures DropIsAccounted(hash, docs, state.head, map[], detail)
  {
    hide OpenModule, WasRecorded;
    DropExcludes(map[], detail);
  }

  /** So every version that a plain act of a run published is accepted, in the store the run ends with. */
  lemma RunIsAccepted(
    hash: Hash, meaning: Id -> Document, rank: Id -> nat, verify: Verifier, start: State, acts: seq<Act>, k: nat)
    requires IsFaithful(hash, meaning) && IsGrounded(hash, rank) && Holds(start.store.docs, meaning) && k < |acts|
    requires Perform(hash, verify, After(hash, verify, start, acts[..k]), acts[k]).1.Some?
    requires IsPlain(hash, After(hash, verify, start, acts[..k]), acts[k])
    ensures var before := After(hash, verify, start, acts[..k]);
            Checked(After(hash, verify, start, acts).store.docs, Perform(hash, verify, before, acts[k]).1.value,
                    Some(before.head)).IsValid()
  {
    hide IsFaithful, IsGrounded, Holds, Perform, After, IsPlain, IsAccountedFor, Checked;
    RunIsAcceptedExactly(hash, meaning, verify, start, acts, k);
    PlainActsAreAccounted(
      hash, rank, After(hash, verify, start, acts).store.docs, After(hash, verify, start, acts[..k]), acts[k]);
  }

  // --- The governance check ------------------------------------------------------------------------------

  /** No rotation of the run goes through with an altered plan. */
  ghost predicate PlansAreUnaltered(hash: Hash, verify: Verifier, state: State, acts: seq<Act>)
    decreases |acts|
  {
    acts == []
    || (PlanIsUnaltered(hash, verify, state, acts[0])
        && PlansAreUnaltered(hash, verify, Perform(hash, verify, state, acts[0]).0, acts[1..]))
  }

  ghost predicate PlanIsUnaltered(hash: Hash, verify: Verifier, state: State, act: Act) {
    act.Rotating? && Perform(hash, verify, state, act).1.Some? ==>
      && state.head.trustRoot.Some? && RevisionOf(hash, state.head, act.proposal).Ok?
      && IsUnaltered(state.head, RevisionOf(hash, state.head, act.proposal).value)
  }

  lemma ActStaysGoverned(hash: Hash, meaning: Id -> Document, verify: Verifier, state: State, act: Act)
    requires IsFaithful(hash, meaning) && IsGoverned(meaning, verify, state) && Runs(verify)
    requires PlanIsUnaltered(hash, verify, state, act)
    ensures IsGoverned(meaning, verify, Perform(hash, verify, state, act).0)
  {
    hide IsFaithful, Written, Rotated, Kept, IsGoverned, IsUnaltered, IsSettled, Dropped, DroppedByProducer, RequestOf,
         RevisionOf;
    match act
    case Keeping(record) => KeepingStaysGoverned(hash, meaning, verify, state, record);
    case Rotating(proposal, records, signatures) =>
      if Rotated(hash, verify, state, proposal, records, signatures).1.Ok? {
        RotationSettlesExactly(hash, meaning, verify, state, proposal, records, signatures);
      } else {
        FailedRotationStaysGoverned(hash, meaning, verify, state, proposal, records, signatures);
      }
    case _ =>
      ActIsWrite(hash, verify, state, act);
      WriteStaysGoverned(hash, meaning, verify, state, RequestOf(state, act), act.stamp);
  }

  lemma {:induction false} RunStaysGoverned(
    hash: Hash, meaning: Id -> Document, verify: Verifier, state: State, acts: seq<Act>)
    requires IsFaithful(hash, meaning) && IsGoverned(meaning, verify, state) && Runs(verify)
    requires PlansAreUnaltered(hash, verify, state, acts)
    ensures IsGoverned(meaning, verify, After(hash, verify, state, acts))
    decreases |acts|
  {
    hide IsFaithful, IsGoverned, PlanIsUnaltered, Perform;
    if acts != [] {
      ActStaysGoverned(hash, meaning, verify, state, acts[0]);
      RunStaysGoverned(hash, meaning, verify, Perform(hash, verify, state, acts[0]).0, acts[1..]);
    }
  }

  /** Whatever a governed brain goes through, writes, drops, rotations and records kept, its head stays faultless. */
  lemma RunsAreFaultless(
    hash: Hash, meaning: Id -> Document, verify: Verifier, start: State, acts: seq<Act>, consumer: Consumer,
    required: Scopes.RequiredScopes, newest: Option<TrustRoot>, stance: Stance)
    requires IsFaithful(hash, meaning) && IsGoverned(meaning, verify, start) && Runs(verify)
    requires PlansAreUnaltered(hash, verify, start, acts)
    ensures var last := After(hash, verify, start, acts);
            !HasFault(ReportOf(last.store, verify, consumer, last.head, HeldRecords(last.store, last.head), required,
                               newest, stance).findings)
  {
    hide IsFaithful, IsGoverned, PlansAreUnaltered, After, ReportOf;
    RunStaysGoverned(hash, meaning, verify, start, acts);
    GovernedHeadsAreFaultless(meaning, verify, After(hash, verify, start, acts), consumer, required, newest, stance);
  }
}
