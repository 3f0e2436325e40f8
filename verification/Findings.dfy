/** What a report says, finding by finding, and what it amounts to: each with exactly its cause. */
module Findings {
  import opened Common
  import opened Documents
  import opened Chain
  import opened Descent
  import opened TrustRoots
  import opened Scopes
  import opened Verdicts
  import opened Quorum
  import opened Authenticator
  import opened Custody

  /** A case to be judged: everything a report is drawn up from. */
  datatype Case = Case(
    store: Store,
    verify: Verifier,
    consumer: Consumer,
    snapshot: Snapshot,
    held: seq<SignatureRecord>,
    required: RequiredScopes,
    newest: Option<TrustRoot>,
    stance: Stance)
  {
    ghost function Report(): (r: Authenticator.Report) {
      ReportOf(store, verify, consumer, snapshot, held, required, newest, stance)
    }

    function Here(): (r: Position) {
      Locate(store, snapshot)
    }

    function Walk(): (r: seq<Position>) {
      Walked(store, snapshot)
    }

    /** What a record is judged to be. */
    ghost function OutcomeOf(record: SignatureRecord): (r: Outcome) {
      Judged(store, verify, record, Here(), required, newest, stance).outcome
    }

    ghost function KeysJudged(outcome: Outcome): (r: set<Key>) {
      set record | record in held && OutcomeOf(record) == outcome :: record.key
    }
  }

  // --- Causes ------------------------------------------------------------------------------------

  /** The quorum a key list asks for was reached by verified records of distinct keys that may govern. */
  ghost predicate IsReachedBy(
    store: Store, verify: Verifier, snapshot: Snapshot, root: TrustRoot, records: seq<SignatureRecord>)
  {
    root.governQuorum == 0
    || (&& IsUnhindered(verify, records, snapshot.digest)
        && exists keys: set<Key> ::
             && |keys| >= root.governQuorum
             && forall key | key in keys ::
                  && Governs(store, snapshot, root, key)
                  && exists record | record in records ::
                       record.key == key && IsVerified(verify, record, snapshot.digest))
  }

  /** A change of authority without the quorum of the key list before it. */
  ghost predicate IsUngranted(store: Store, verify: Verifier, position: Position, records: seq<SignatureRecord>) {
    && position.role == Revision
    && (position.inForce.None? || !IsReachedBy(store, verify, position.snapshot, position.inForce.value, records))
  }

  ghost predicate IsUngrantedBehind(c: Case, i: nat)
    requires i < |c.Walk()|
  {
    IsUngranted(c.store, c.verify, c.Walk()[i], ForSnapshot(c.store, c.Walk()[i].snapshot.digest))
  }

  /** The chain resolves to another genesis than the pin was taken for. */
  predicate IsAnotherBrain(c: Case) {
    && c.consumer.pin.Some? && c.consumer.pin.value.genesis.Some? && c.Walk() != []
    && var last := c.Walk()[|c.Walk()| - 1].snapshot;
       last.parents == [] && last.digest != c.consumer.pin.value.genesis.value
  }

  /** The pinned trust root is carried by some snapshot of the chain. */
  predicate IsAnchored(c: Case) {
    && c.consumer.pin.Some? && !c.Here().truncated
    && exists i | 0 <= i < |c.Walk()| :: c.Walk()[i].snapshot.trustRoot == Some(c.consumer.pin.value.trustRoot)
  }

  /** A claim to have been listed since a revision that a key list of the chain, from then or later, belies. */
  predicate IsRefutedOnWalk(c: Case, entry: TrustedKey) {
    exists i | 0 <= i < |c.Walk()| ::
      && c.Walk()[i].snapshot.trustRoot.Some?
      && c.Walk()[i].snapshot.trustRoot.value.revision >= entry.since
      && forall other | other in c.Walk()[i].snapshot.trustRoot.value.keys :: other.key != entry.key
  }

  /** The keys that a list lets govern and has not retired. */
  function Holders(root: TrustRoot): (r: set<Key>) {
    set entry | entry in root.keys && Govern in entry.scopes
                && (entry.retiredFrom.Some? ==> root.revision < entry.retiredFrom.value)
      :: entry.key
  }

  /** Some change of authority behind the snapshot went without its quorum. */
  ghost predicate IsUngrantedSomewhere(c: Case) {
    exists i | 0 < i < |c.Walk()| :: IsUngrantedBehind(c, i)
  }

  /** The chain behind the snapshot breaks off, every change of authority up to there being granted. */
  ghost predicate BreaksOff(c: Case) {
    |c.Walk()| > 1 && c.Walk()[|c.Walk()| - 1].truncated && !IsUngrantedSomewhere(c)
  }

  predicate IsRefutedInForce(c: Case) {
    c.Here().inForce.Some? && exists entry | entry in c.Here().inForce.value.keys :: IsRefutedOnWalk(c, entry)
  }

  predicate ChangesContent(c: Case) {
    c.Here().role == Revision && c.Here().parent.Some? && c.snapshot.modules != c.Here().parent.value.modules
  }

  predicate Regresses(c: Case) {
    && c.Here().role == Revision && c.Here().inForce.Some? && c.snapshot.trustRoot.Some?
    && c.snapshot.trustRoot.value.revision <= c.Here().inForce.value.revision
  }

  /** A founding snapshot signed by fewer than the key list it carries asks for. */
  ghost predicate FallsShortOfItself(c: Case) {
    && c.snapshot.parents == [] && c.snapshot.trustRoot.Some?
    && !IsReachedBy(c.store, c.verify, c.snapshot, c.snapshot.trustRoot.value, c.held)
  }

  /** A key list that, losing one more holder, could never be revised again. */
  predicate HasNoMargin(c: Case) {
    && c.Here().role != Ordinary && c.snapshot.trustRoot.Some?
    && |Holders(c.snapshot.trustRoot.value)| <= c.snapshot.trustRoot.value.governQuorum
  }

  /** Nothing but proposals, under a policy that does not let them speak for a head. */
  ghost predicate IsOnlyProposed(c: Case) {
    && c.stance == Head && |c.KeysJudged(Valid)| < c.consumer.policy.requiredSignatures
    && c.KeysJudged(ValidAsProposal) != {} && c.KeysJudged(Valid) == {} && !c.consumer.policy.allowProposeHead
  }

  /** Otherwise too few keys, the proposals among them counted if the policy lets them. */
  ghost predicate HasTooFew(c: Case) {
    && c.stance == Head && |c.KeysJudged(Valid)| < c.consumer.policy.requiredSignatures && !IsOnlyProposed(c)
    && !(c.consumer.policy.allowProposeHead
         && |c.KeysJudged(Valid) + c.KeysJudged(ValidAsProposal)| >= c.consumer.policy.requiredSignatures)
  }

  ghost predicate HasWithdrawn(c: Case) {
    exists record | record in c.held :: c.OutcomeOf(record) == CompromisedKey
  }

  function RemovalsOf(c: Case): (r: Removals.RemovalIntegrity) {
    Removals.Checked(c.store.docs, c.snapshot, c.Here().parent)
  }

  /** Exactly when each finding is due, and whether it blocks. Most need a record over the snapshot to be there. */
  ghost predicate IsDue(c: Case, finding: Finding) {
    match finding.kind
    case UnsignedBrain => finding.blocking && c.held == []
    case ChainTruncated =>
      || (finding.blocking && c.Here().truncated)
      || (BreaksOff(c) && (finding.blocking <==> !IsAnchored(c) || IsAnotherBrain(c)))
    case TrustRootMismatch => finding.blocking && c.consumer.pin.Some? && !IsAnotherBrain(c) && !IsAnchored(c)
    case PinBrainMismatch => finding.blocking && IsAnotherBrain(c)
    case SinceRefuted => finding.blocking && IsRefutedInForce(c)
    case QuorumFailure =>
      finding.blocking
      && (IsUngrantedSomewhere(c) || (c.held != [] && IsUngranted(c.store, c.verify, c.Here(), c.held)))
    case RevisionChangedContent => finding.blocking && c.held != [] && ChangesContent(c)
    case RevisionRegressed => finding.blocking && c.held != [] && Regresses(c)
    case SignaturesBelowPolicy => finding.blocking && c.held != [] && HasTooFew(c)
    case ProposedHead => finding.blocking && c.held != [] && IsOnlyProposed(c)
    case CompromisedSignature => !finding.blocking && HasWithdrawn(c)
    case GenesisBelowQuorum => !finding.blocking && c.held != [] && FallsShortOfItself(c)
    case QuorumMargin => !finding.blocking && c.held != [] && HasNoMargin(c)
    case EvidenceIncomplete => !finding.blocking && c.required.undetermined != {}
    case RemovalInvariant => finding.blocking && !RemovalsOf(c).IsValid()
    case RemovalUndecidable => !finding.blocking && RemovalsOf(c).IsValid() && !RemovalsOf(c).IsComplete()
    case BackendUnavailable => !finding.blocking && c.held != [] && !c.consumer.hasBackend
  }

  // --- Part by part -----------------------------------------------------------------------------------

  lemma ReachedExactly(store: Store, verify: Verifier, position: Position, records: seq<SignatureRecord>)
    requires position.inForce.Some?
    ensures Count(store, verify, position, records) >= position.inForce.value.governQuorum <==>
            IsReachedBy(store, verify, position.snapshot, position.inForce.value, records)
  {
    hide Count, Governs, IsVerified, IsUnhindered;
    if position.inForce.value.governQuorum >= 1 {
      QuorumIsMetExactly(store, verify, position, records, position.inForce.value.governQuorum);
    }
  }

  lemma PinExactly(c: Case, finding: Finding)
    requires WalksComplete(c.store, c.snapshot)
    ensures var (pinned, findings) := PinJudgment(c.consumer.pin, c.Here(), c.Walk());
            && (pinned <==> IsAnchored(c) && !IsAnotherBrain(c))
            && (finding in findings <==>
                finding.blocking
                && ((finding.kind == PinBrainMismatch && IsAnotherBrain(c))
                    || (finding.kind == TrustRootMismatch && c.consumer.pin.Some?
                        && !IsAnotherBrain(c) && !IsAnchored(c))))
  {
    hide Locate;
    var walk := c.Walk();
    CompletedWalk(c.store, c.snapshot, {});
    WalkEndsAtGenesisOrGap(c.store, walk);
    assert walk[0] == c.Here();
    if !walk[0].truncated && walk[0].inForce.Some? {
      InForceIsOnWalk(c.store, walk);
    }
    TruncatedHasNoAuthority(c.store, c.snapshot);
    GenesisExactly(c.store, walk[|walk| - 1].snapshot);
    assert walk[|walk| - 1] == Locate(c.store, walk[|walk| - 1].snapshot);
  }

  lemma TruncatedHasNoAuthority(store: Store, snapshot: Snapshot)
    ensures Locate(store, snapshot).truncated ==> Locate(store, snapshot).inForce.None?
  {
  }

  /** What is found behind a snapshot: the first change without its quorum, or else the gap. */
  lemma {:induction false} AncestryExactly(
    store: Store, verify: Verifier, walk: seq<Position>, pinned: bool, finding: Finding)
    requires forall i | 0 <= i < |walk| - 1 :: !walk[i].truncated
    requires forall i | 0 <= i < |walk| && walk[i].truncated :: walk[i].role == Ordinary
    ensures finding in AncestryFindings(store, verify, walk, pinned) <==>
            || (finding == Finding(QuorumFailure, true)
                && exists i | 0 <= i < |walk| ::
                     IsUngranted(store, verify, walk[i], ForSnapshot(store, walk[i].snapshot.digest)))
            || (finding == Finding(ChainTruncated, !pinned) && walk != [] && walk[|walk| - 1].truncated
                && forall i | 0 <= i < |walk| ::
                     !IsUngranted(store, verify, walk[i], ForSnapshot(store, walk[i].snapshot.digest)))
  {
    hide Count, IsReachedBy, ForSnapshot;
    if walk != [] {
      var first, rest := walk[0], walk[1..];
      assert forall i | 0 <= i < |rest| :: rest[i] == walk[i + 1];
      if first.inForce.Some? {
        ReachedExactly(store, verify, first, ForSnapshot(store, first.snapshot.digest));
      }
      if first.truncated {
        assert |walk| == 1;
      } else {
        AncestryExactly(store, verify, rest, pinned, finding);
        assert forall i | 0 < i < |walk| :: walk[i] == rest[i - 1];
      }
    }
  }

  lemma BehindExactly(c: Case, pinned: bool, finding: Finding)
    requires WalksComplete(c.store, c.snapshot)
    ensures finding in BehindFindings(c.store, c.verify, c.Here(), pinned) <==>
            || (finding == Finding(QuorumFailure, true) && IsUngrantedSomewhere(c))
            || (finding == Finding(ChainTruncated, !pinned) && BreaksOff(c))
  {
    hide Locate, IsUngranted, AncestryFindings, ForSnapshot, Walked;
    var walk := c.Walk();
    CompletedHere(c);
    if c.Here().parent.Some? {
      var behind := Walked(c.store, c.Here().parent.value);
      assert behind == walk[1..] && |behind| > 0;
      forall i | 0 <= i < |behind|
        ensures behind[i] == walk[i + 1] && (behind[i].truncated ==> behind[i].role == Ordinary)
      {
        TruncatedIsOrdinary(c.store, walk[i + 1].snapshot);
      }
      AncestryExactly(c.store, c.verify, behind, pinned, finding);
      UngrantedShifted(c, behind);
    }
  }

  lemma CompletedHere(c: Case)
    requires WalksComplete(c.store, c.snapshot)
    ensures var walk := c.Walk();
            && |walk| > 0 && walk[0] == c.Here()
            && (forall i | 0 <= i < |walk| :: walk[i] == Locate(c.store, walk[i].snapshot))
            && (forall i | 0 <= i < |walk| - 1 :: !walk[i].truncated)
            && (if c.Here().parent.Some? then Walked(c.store, c.Here().parent.value) == walk[1..] && |walk| > 1
                else |walk| == 1)
  {
    hide Locate;
    CompletedWalk(c.store, c.snapshot, {});
    WalkEndsAtGenesisOrGap(c.store, c.Walk());
    if c.Here().parent.Some? {
      WalkBehindTheParent(c.store, c.snapshot);
      CompletedWalk(c.store, c.Here().parent.value, {});
    }
  }

  lemma UngrantedShifted(c: Case, behind: seq<Position>)
    requires |c.Walk()| > 1 && behind == c.Walk()[1..]
    ensures (exists i | 0 <= i < |behind| ::
               IsUngranted(c.store, c.verify, behind[i], ForSnapshot(c.store, behind[i].snapshot.digest)))
            <==> IsUngrantedSomewhere(c)
    ensures behind[|behind| - 1] == c.Walk()[|c.Walk()| - 1]
  {
    hide IsUngranted, ForSnapshot, Walked;
    var walk := c.Walk();
    if IsUngrantedSomewhere(c) {
      var i :| 0 < i < |walk| && IsUngrantedBehind(c, i);
      assert behind[i - 1] == walk[i];
    }
    if i :| 0 <= i < |behind|
            && IsUngranted(c.store, c.verify, behind[i], ForSnapshot(c.store, behind[i].snapshot.digest)) {
      assert behind[i] == walk[i + 1] && IsUngrantedBehind(c, i + 1);
    }
  }

  lemma {:induction false} RefutedExactly(keys: seq<TrustedKey>, observed: seq<TrustRoot>, finding: Finding)
    ensures finding in RefutedEntries(keys, observed) <==>
            finding == Finding(SinceRefuted, true)
              && exists entry | entry in keys :: ConfirmSince(observed, entry) == Refuted
  {
    hide ConfirmSince;
    if keys != [] {
      RefutedExactly(keys[1..], observed, finding);
      assert forall entry :: entry in keys <==> entry == keys[0] || entry in keys[1..];
    }
  }

  lemma ClaimExactly(c: Case, entry: TrustedKey)
    ensures ConfirmSince(ObservedIn(c.Walk(), {}), entry) == Refuted <==> IsRefutedOnWalk(c, entry)
  {
    hide ObservedIn, Walked;
    var walk, observed := c.Walk(), ObservedIn(c.Walk(), {});
    forall root: TrustRoot
      ensures root in observed <==> exists i | 0 <= i < |walk| :: walk[i].snapshot.trustRoot == Some(root)
      ensures EntryFor(root, entry.key).None? <==> forall other | other in root.keys :: other.key != entry.key
    {
      ObservedExactly(walk, {}, root);
    }
  }

  lemma SinceExactly(c: Case, finding: Finding)
    ensures finding in SinceFindings(c.Here(), c.Walk()) <==>
            finding == Finding(SinceRefuted, true) && IsRefutedInForce(c)
  {
    hide Locate, ObservedIn, ConfirmSince, IsRefutedOnWalk, Walked, RefutedEntries;
    TruncatedHasNoAuthority(c.store, c.snapshot);
    if c.Here().inForce.Some? {
      RefutedExactly(c.Here().inForce.value.keys, ObservedIn(c.Walk(), {}), finding);
      forall entry
        ensures ConfirmSince(ObservedIn(c.Walk(), {}), entry) == Refuted <==> IsRefutedOnWalk(c, entry)
      {
        ClaimExactly(c, entry);
      }
    }
  }

  lemma GovernanceExactly(c: Case, finding: Finding)
    ensures finding in GovernanceJudgment(c.store, c.verify, c.Here(), c.held).findings <==>
            || (finding == Finding(QuorumMargin, false) && HasNoMargin(c))
            || (finding == Finding(RevisionChangedContent, true) && ChangesContent(c))
            || (finding == Finding(RevisionRegressed, true) && Regresses(c))
            || (finding == Finding(QuorumFailure, true) && IsUngranted(c.store, c.verify, c.Here(), c.held))
            || (finding == Finding(GenesisBelowQuorum, false) && FallsShortOfItself(c))
  {
    hide Locate, Count, IsReachedBy, MarginFindings, ContentFindings, RegressionFindings, HasNoMargin;
    var here := c.Here();
    GenesisExactly(c.store, c.snapshot);
    MarginExactly(c, finding);
    ContentExactly(c, finding);
    RegressionExactly(c, finding);
    if c.snapshot.trustRoot.Some? {
      ReachedExactly(c.store, c.verify, FoundingPosition(here), c.held);
    }
    if here.inForce.Some? {
      ReachedExactly(c.store, c.verify, here, c.held);
    }
  }

  lemma MarginExactly(c: Case, finding: Finding)
    ensures finding in MarginFindings(c.Here()) <==> finding == Finding(QuorumMargin, false) && HasNoMargin(c)
  {
    hide Locate;
    GenesisExactly(c.store, c.snapshot);
    if c.snapshot.trustRoot.Some? {
      HoldersExactly(c.snapshot.trustRoot.value);
    }
  }

  lemma ContentExactly(c: Case, finding: Finding)
    ensures c.Here().role == Revision ==>
              (finding in ContentFindings(c.Here()) <==>
               finding == Finding(RevisionChangedContent, true) && ChangesContent(c))
  {
    hide Locate;
    GenesisExactly(c.store, c.snapshot);
  }

  lemma RegressionExactly(c: Case, finding: Finding)
    ensures c.Here().role == Revision && c.Here().inForce.Some? ==>
              (finding in RegressionFindings(c.Here(), c.Here().inForce.value) <==>
               finding == Finding(RevisionRegressed, true) && Regresses(c))
  {
    hide Locate;
    GenesisExactly(c.store, c.snapshot);
  }

  lemma GenesisExactly(store: Store, snapshot: Snapshot)
    ensures Locate(store, snapshot).role == Genesis <==> snapshot.parents == []
    ensures Locate(store, snapshot).snapshot == snapshot
  {
  }

  lemma HoldersExactly(root: TrustRoot)
    ensures ActiveGovernors(root) == Holders(root)
  {
  }

  // --- Verdicts ----------------------------------------------------------------------------------------

  /** The verdicts that stand, and those that were withdrawn, are those of the records. */
  lemma {:induction false} VerdictsExactly(c: Case, records: seq<SignatureRecord>, verdict: Verdict)
    ensures var verdicts := Judgments(c.store, c.verify, records, c.Here(), c.required, c.newest, c.stance);
            && (verdict in Standing(verdicts) <==>
                verdict.outcome != CompromisedKey
                  && exists record | record in records :: IsVerdictOn(c, record, verdict))
            && (verdict in Withdrawn(verdicts) <==>
                verdict.outcome == CompromisedKey
                  && exists record | record in records :: IsVerdictOn(c, record, verdict))
            && (forall finding :: finding in WithdrawalFindings(verdicts) <==>
                  finding == Finding(CompromisedSignature, false)
                  && exists record | record in records :: c.OutcomeOf(record) == CompromisedKey)
  {
    hide Judged, Locate;
    if records != [] {
      VerdictsExactly(c, records[1..], verdict);
      assert forall record :: record in records <==> record == records[0] || record in records[1..];
      var verdicts := Judgments(c.store, c.verify, records, c.Here(), c.required, c.newest, c.stance);
      assert verdicts[0] == Judged(c.store, c.verify, records[0], c.Here(), c.required, c.newest, c.stance);
      assert verdicts[1..] == Judgments(c.store, c.verify, records[1..], c.Here(), c.required, c.newest, c.stance);
      assert IsVerdictOn(c, records[0], verdicts[0]);
      assert c.OutcomeOf(records[0]) == verdicts[0].outcome;
    }
  }

  ghost predicate IsVerdictOn(c: Case, record: SignatureRecord, verdict: Verdict) {
    Judged(c.store, c.verify, record, c.Here(), c.required, c.newest, c.stance) == verdict
  }

  lemma SignersExactly(c: Case, outcome: Outcome)
    requires Accepts(outcome)
    ensures var standing := Standing(Judgments(c.store, c.verify, c.held, c.Here(), c.required, c.newest, c.stance));
            SignersWith(standing, outcome) == c.KeysJudged(outcome)
  {
    hide Judged, Locate, Judgments, Standing;
    var verdicts := Judgments(c.store, c.verify, c.held, c.Here(), c.required, c.newest, c.stance);
    var standing := Standing(verdicts);
    forall record | record in c.held && c.OutcomeOf(record) == outcome
      ensures record.key in SignersWith(standing, outcome)
    {
      var verdict := Judged(c.store, c.verify, record, c.Here(), c.required, c.newest, c.stance);
      AcceptedNamesItsKey(c.store, c.verify, record, c.Here(), c.required, c.newest, c.stance);
      assert IsVerdictOn(c, record, verdict);
      VerdictsExactly(c, c.held, verdict);
    }
    forall key | key in SignersWith(standing, outcome)
      ensures key in c.KeysJudged(outcome)
    {
      var verdict :| verdict in standing && verdict.outcome == outcome && verdict.signer == Some(key);
      VerdictsExactly(c, c.held, verdict);
      var record :| record in c.held && IsVerdictOn(c, record, verdict);
      AcceptedNamesItsKey(c.store, c.verify, record, c.Here(), c.required, c.newest, c.stance);
    }
  }

  // --- The whole report ----------------------------------------------------------------------------------

  /** The findings that do not depend on there being a record over the snapshot. */
  ghost predicate IsStructural(c: Case, finding: Finding) {
    || (finding == Finding(ChainTruncated, true) && c.Here().truncated)
    || (finding == Finding(PinBrainMismatch, true) && IsAnotherBrain(c))
    || (finding == Finding(TrustRootMismatch, true) && c.consumer.pin.Some? && !IsAnotherBrain(c) && !IsAnchored(c))
    || (finding == Finding(SinceRefuted, true) && IsRefutedInForce(c))
    || (finding == Finding(QuorumFailure, true) && IsUngrantedSomewhere(c))
    || (finding == Finding(ChainTruncated, !IsAnchored(c) || IsAnotherBrain(c)) && BreaksOff(c))
    || (finding == Finding(EvidenceIncomplete, false) && c.required.undetermined != {})
    || (finding == Finding(RemovalInvariant, true) && !RemovalsOf(c).IsValid())
    || (finding == Finding(RemovalUndecidable, false) && RemovalsOf(c).IsValid() && !RemovalsOf(c).IsComplete())
  }

  lemma PreliminaryExactly(c: Case, finding: Finding)
    requires WalksComplete(c.store, c.snapshot)
    ensures finding in PreliminaryFindings(c.store, c.verify, c.consumer, c.Here(), c.required) <==>
            IsStructural(c, finding)
  {
    hide Locate, PinJudgment, SinceFindings, BehindFindings, Removals.Checked, Walked, IsAnchored, IsAnotherBrain,
         IsUngrantedSomewhere, BreaksOff, IsRefutedInForce;
    GenesisExactly(c.store, c.snapshot);
    PinExactly(c, finding);
    SinceExactly(c, finding);
    BehindExactly(c, IsAnchored(c) && !IsAnotherBrain(c), finding);
  }

  lemma PolicyExactly(c: Case, finding: Finding)
    ensures finding in PolicyFindings(c.consumer.policy, c.KeysJudged(Valid), c.KeysJudged(ValidAsProposal),
                                      c.stance) <==>
            || (finding == Finding(SignaturesBelowPolicy, true) && HasTooFew(c))
            || (finding == Finding(ProposedHead, true) && IsOnlyProposed(c))
  {
    hide Locate, Case.OutcomeOf, Case.KeysJudged;
    var valid, proposals := c.KeysJudged(Valid), c.KeysJudged(ValidAsProposal);
    if proposals == {} {
      assert valid + proposals == valid;
    }
  }

  lemma FindingsInParts(c: Case, finding: Finding)
    ensures finding in c.Report().findings <==>
            || finding in PreliminaryFindings(c.store, c.verify, c.consumer, c.Here(), c.required)
            || (c.held == [] && finding == Finding(UnsignedBrain, true))
            || (c.held != []
                && (var verdicts := Judgments(c.store, c.verify, c.held, c.Here(), c.required, c.newest, c.stance);
                    || (finding == Finding(BackendUnavailable, false) && !c.consumer.hasBackend)
                    || finding in WithdrawalFindings(verdicts)
                    || finding in GovernanceJudgment(c.store, c.verify, c.Here(), c.held).findings
                    || finding in PolicyFindings(c.consumer.policy, SignersWith(Standing(verdicts), Valid),
                                                 SignersWith(Standing(verdicts), ValidAsProposal), c.stance)))
  {
    hide Locate, PinJudgment, PreliminaryFindings, GovernanceJudgment, Judgments, Standing, Withdrawn,
         WithdrawalFindings, PolicyFindings, SignersWith, Walked;
  }

  lemma DueInParts(c: Case, finding: Finding)
    ensures IsDue(c, finding) <==>
            || IsStructural(c, finding)
            || (c.held == [] && finding == Finding(UnsignedBrain, true))
            || (finding == Finding(CompromisedSignature, false) && HasWithdrawn(c))
            || (c.held != []
                && (|| (finding == Finding(BackendUnavailable, false) && !c.consumer.hasBackend)
                    || (finding == Finding(QuorumMargin, false) && HasNoMargin(c))
                    || (finding == Finding(RevisionChangedContent, true) && ChangesContent(c))
                    || (finding == Finding(RevisionRegressed, true) && Regresses(c))
                    || (finding == Finding(QuorumFailure, true) && IsUngranted(c.store, c.verify, c.Here(), c.held))
                    || (finding == Finding(GenesisBelowQuorum, false) && FallsShortOfItself(c))
                    || (finding == Finding(SignaturesBelowPolicy, true) && HasTooFew(c))
                    || (finding == Finding(ProposedHead, true) && IsOnlyProposed(c))))
  {
    hide Locate, Walked, IsAnchored, IsAnotherBrain, IsUngrantedSomewhere, BreaksOff, IsRefutedInForce, IsUngranted,
         ChangesContent, Regresses, FallsShortOfItself, HasNoMargin, IsOnlyProposed, HasTooFew, RemovalsOf,
         HasWithdrawn;
  }

  /** A report contains exactly the findings that are due. */
  lemma FindingsExactly(c: Case, finding: Finding)
    requires WalksComplete(c.store, c.snapshot)
    ensures finding in c.Report().findings <==> IsDue(c, finding)
  {
    hide Locate, PreliminaryFindings, GovernanceJudgment, Judgments, Standing, WithdrawalFindings, PolicyFindings,
         SignersWith, Walked, IsStructural, IsDue, IsUngranted, ChangesContent, Regresses, FallsShortOfItself,
         HasNoMargin, IsOnlyProposed, HasTooFew, Case.OutcomeOf, Case.KeysJudged, Case.Report;
    PreliminaryExactly(c, finding);
    FindingsInParts(c, finding);
    DueInParts(c, finding);
    if c.held != [] {
      GovernanceExactly(c, finding);
      SignersExactly(c, Valid);
      SignersExactly(c, ValidAsProposal);
      PolicyExactly(c, finding);
      VerdictsExactly(c, c.held, Judged(c.store, c.verify, c.held[0], c.Here(), c.required, c.newest, c.stance));
    }
  }

  // --- What it amounts to ------------------------------------------------------------------------------

  ghost predicate IsUnblocked(c: Case) {
    forall kind :: !IsDue(c, Finding(kind, true))
  }

  /** The keys judged valid, fully or as proposals. */
  ghost function Accepted(c: Case): (r: set<Key>) {
    c.KeysJudged(Valid) + c.KeysJudged(ValidAsProposal)
  }

  lemma BlockedExactly(c: Case)
    requires WalksComplete(c.store, c.snapshot)
    ensures c.Report().IsBlocked() <==> !IsUnblocked(c)
  {
    hide IsDue, Case.Report;
    forall finding
      ensures finding in c.Report().findings <==> IsDue(c, finding)
    {
      FindingsExactly(c, finding);
    }
    if finding :| finding in c.Report().findings && finding.blocking {
      assert finding == Finding(finding.kind, true);
    }
    if kind :| IsDue(c, Finding(kind, true)) {
      assert Finding(kind, true) in c.Report().findings;
    }
  }

  lemma VerdictsOfReport(c: Case)
    ensures c.Report().signatures == [] && c.Report().withdrawn == [] <==> c.held == []
    ensures c.Report().AcceptedKeys() == Accepted(c)
    ensures c.Report().NamesAnAuthor() <==>
            exists record | record in c.held :: c.OutcomeOf(record) in {AttributableKey, ValidAsProposal}
    ensures c.Report().signaturesRequired == c.consumer.policy.requiredSignatures && c.Report().stance == c.stance
  {
    hide Judged, Locate, Judgments, Standing, Withdrawn, PreliminaryFindings, GovernanceJudgment, PolicyFindings,
         SignersWith, WithdrawalFindings, PinJudgment, Walked;
    var report := c.Report();
    if c.held != [] {
      var verdicts := Judgments(c.store, c.verify, c.held, c.Here(), c.required, c.newest, c.stance);
      assert report.signatures == Standing(verdicts) && report.withdrawn == Withdrawn(verdicts);
      forall record | record in c.held
        ensures var verdict := Judged(c.store, c.verify, record, c.Here(), c.required, c.newest, c.stance);
                verdict in if verdict.outcome == CompromisedKey then report.withdrawn else report.signatures
        ensures var verdict := Judged(c.store, c.verify, record, c.Here(), c.required, c.newest, c.stance);
                Accepts(verdict.outcome) ==> verdict.embedded == Some(record.key)
      {
        var verdict := Judged(c.store, c.verify, record, c.Here(), c.required, c.newest, c.stance);
        assert IsVerdictOn(c, record, verdict);
        VerdictsExactly(c, c.held, verdict);
        AcceptedNamesItsKey(c.store, c.verify, record, c.Here(), c.required, c.newest, c.stance);
      }
      assert c.held[0] in c.held;
      forall verdict | verdict in report.signatures
        ensures exists record | record in c.held :: IsVerdictOn(c, record, verdict)
      {
        VerdictsExactly(c, c.held, verdict);
      }
      AcceptedFrom(c, report);
      AuthorsFrom(c, report);
    }
  }

  lemma AcceptedFrom(c: Case, report: Authenticator.Report)
    requires forall verdict | verdict in report.signatures :: exists record | record in c.held ::
             IsVerdictOn(c, record, verdict)
    requires forall record | record in c.held ::
               var verdict := Judged(c.store, c.verify, record, c.Here(), c.required, c.newest, c.stance);
               Accepts(verdict.outcome) ==> verdict in report.signatures && verdict.embedded == Some(record.key)
    ensures report.AcceptedKeys() == Accepted(c)
  {
    hide Judged, Locate;
    forall key | key in report.AcceptedKeys()
      ensures key in Accepted(c)
    {
      var verdict :| verdict in report.signatures && verdict.embedded == Some(key) && Accepts(verdict.outcome);
      var record :| record in c.held && IsVerdictOn(c, record, verdict);
    }
    forall record | record in c.held && Accepts(c.OutcomeOf(record))
      ensures record.key in report.AcceptedKeys()
    {
    }
  }

  lemma AuthorsFrom(c: Case, report: Authenticator.Report)
    requires forall verdict | verdict in report.signatures :: exists record | record in c.held ::
             IsVerdictOn(c, record, verdict)
    requires forall record | record in c.held ::
               var verdict := Judged(c.store, c.verify, record, c.Here(), c.required, c.newest, c.stance);
               verdict.outcome != CompromisedKey ==> verdict in report.signatures
    ensures report.NamesAnAuthor() <==>
            exists record | record in c.held :: c.OutcomeOf(record) in {AttributableKey, ValidAsProposal}
  {
    hide Judged, Locate;
    if verdict :| verdict in report.signatures && verdict.outcome in {AttributableKey, ValidAsProposal} {
      var record :| record in c.held && IsVerdictOn(c, record, verdict);
      assert c.OutcomeOf(record) == verdict.outcome;
    }
  }

  /**
   A snapshot is authorized exactly when somebody signed it, no blocking finding is due, and as many distinct keys as
   the policy asks for were judged valid. Each of the other states has its condition too.
   */
  lemma StatesExactly(c: Case)
    requires WalksComplete(c.store, c.snapshot)
    ensures var state := c.Report().State();
            var enough := |Accepted(c)| >= c.consumer.policy.requiredSignatures;
            && (state == Unsigned <==> c.held == [])
            && (state == Authorized <==> c.held != [] && IsUnblocked(c) && enough)
            && (state == Attributable <==>
                && c.held != [] && IsUnblocked(c) && !enough && c.stance == Offered
                && exists record | record in c.held :: c.OutcomeOf(record) in {AttributableKey, ValidAsProposal})
  {
    hide Case.Report, IsUnblocked, Accepted, Report.IsBlocked, Report.AcceptedKeys, Report.NamesAnAuthor,
         Case.OutcomeOf;
    BlockedExactly(c);
    VerdictsOfReport(c);
  }

  /** Under a pin, only a chain that carries the pinned trust root, and is of the pinned brain, is authorized. */
  lemma AuthorizedHonoursThePin(c: Case)
    requires WalksComplete(c.store, c.snapshot) && c.consumer.pin.Some?
    requires c.Report().State() == Authorized
    ensures exists i | 0 <= i < |c.Walk()| :: c.Walk()[i].snapshot.trustRoot == Some(c.consumer.pin.value.trustRoot)
    ensures var last := c.Walk()[|c.Walk()| - 1].snapshot;
            c.Walk() != []
            && (c.consumer.pin.value.genesis.Some? && last.parents == [] ==>
                  last.digest == c.consumer.pin.value.genesis.value)
  {
    hide Case.Report, Locate, Walked, Accepted;
    StatesExactly(c);
    assert !IsDue(c, Finding(TrustRootMismatch, true)) && !IsDue(c, Finding(PinBrainMismatch, true));
    CompletedHere(c);
  }

  /** The rest of a report: whether a pin holds it, and the quorum asked for and met where there is one to meet. */
  lemma ColumnsExactly(c: Case)
    requires WalksComplete(c.store, c.snapshot)
    ensures c.Report().pinned <==> IsAnchored(c) && !IsAnotherBrain(c)
    ensures c.Report().position == c.Here() && c.Report().required == c.required
    ensures c.Report().quorumRequired ==
            if c.held == [] then None
            else if c.snapshot.parents == [] then
              (if c.snapshot.trustRoot.Some? then Some(c.snapshot.trustRoot.value.governQuorum) else None)
            else if c.Here().role == Revision && c.Here().inForce.Some? then Some(c.Here().inForce.value.governQuorum)
            else None
    ensures c.Report().quorumMet.Some? <==> c.Report().quorumRequired.Some?
    ensures c.Report().quorumMet.Some? ==>
              (c.Report().quorumMet.value >= c.Report().quorumRequired.value <==>
               IsReachedBy(c.store, c.verify, c.snapshot,
                           if c.snapshot.parents == [] then c.snapshot.trustRoot.value
                             else c.Here().inForce.value, c.held))
  {
    hide Locate, PreliminaryFindings, Judgments, Standing, Withdrawn, PolicyFindings, SignersWith, WithdrawalFindings,
         Walked, Count, IsReachedBy, MarginFindings, ContentFindings, RegressionFindings;
    PinExactly(c, Finding(TrustRootMismatch, true));
    GenesisExactly(c.store, c.snapshot);
    if c.snapshot.trustRoot.Some? {
      ReachedExactly(c.store, c.verify, FoundingPosition(c.Here()), c.held);
    }
    if c.Here().inForce.Some? {
      ReachedExactly(c.store, c.verify, c.Here(), c.held);
    }
  }
}
