/** What an authorized report says about the whole chain behind a snapshot, not only about its head. */
module Custody {
  import opened Common
  import opened Documents
  import opened Chain
  import opened Descent
  import opened TrustRoots
  import opened Scopes
  import opened Verdicts
  import opened Quorum
  import opened Authenticator

  /** A change of authority granted by the authority before it; every other position changes none. */
  ghost predicate IsGranted(store: Store, verify: Verifier, position: Position, records: seq<SignatureRecord>) {
    position.role == Revision ==>
      && position.inForce.Some?
      && exists keys :: IsApprovedBy(store, verify, position, position.inForce.value, records, keys)
  }

  /** Every change of authority on a walk is granted, by the records the store holds for it. */
  ghost predicate IsGrantedThroughout(store: Store, verify: Verifier, walk: seq<Position>) {
    forall i | 0 <= i < |walk| :: IsGranted(store, verify, walk[i], ForSnapshot(store, walk[i].snapshot.digest))
  }

  /** Custody: an unbroken chain of grants, from a genesis that founds the authority. */
  ghost predicate IsFounded(walk: seq<Position>) {
    && |walk| > 0 && walk[|walk| - 1].role == Genesis && walk[|walk| - 1].snapshot.trustRoot.Some?
    && forall i | 0 <= i < |walk| :: walk[i].inForce.Some?
  }

  /**
   Each position of a walk is the held first parent of the one before, answers to the key list of the one behind
   it, and is a revision exactly when it changes that key list.
   */
  ghost predicate IsHandedDown(store: Store, walk: seq<Position>) {
    forall i | 0 <= i < |walk| - 1 :: IsHandedTo(store, walk[i + 1].snapshot, walk[i])
  }

  predicate IsHandedTo(store: Store, behind: Snapshot, position: Position) {
    && position.snapshot.parents != [] && LoadSnapshot(store, position.snapshot.parents[0]) == Some(behind)
    && position.inForce == behind.trustRoot
    && (position.role == Revision <==> position.snapshot.trustRoot != behind.trustRoot)
  }

  lemma WalksAreHandedDown(store: Store, walk: seq<Position>)
    requires IsWalk(store, walk)
    ensures IsHandedDown(store, walk)
  {
    forall i | 0 <= i < |walk| - 1
      ensures IsHandedTo(store, walk[i + 1].snapshot, walk[i])
    {
      assert walk[i] == Locate(store, walk[i].snapshot);
      assert walk[i].parent == Some(walk[i + 1].snapshot);
    }
  }

  predicate Blocks(findings: seq<Finding>) {
    exists finding | finding in findings :: finding.blocking
  }

  lemma BlocksSplit(a: seq<Finding>, b: seq<Finding>)
    ensures Blocks(a + b) <==> Blocks(a) || Blocks(b)
  {
    assert forall finding :: finding in a + b <==> finding in a || finding in b;
  }

  /** A walk without a blocking finding is granted throughout, and any gap in it was anchored. */
  lemma {:induction false} CleanAncestryIsGranted(store: Store, verify: Verifier, walk: seq<Position>, pinned: bool)
    requires IsWalk(store, walk) && !Blocks(AncestryFindings(store, verify, walk, pinned))
    ensures IsGrantedThroughout(store, verify, walk)
    ensures walk[|walk| - 1].role == Genesis || pinned
    decreases |walk|
  {
    hide Count, ForSnapshot, IsApprovedBy, Locate;
    var first := walk[0];
    var rest := walk[1..];
    WalkEndsAtGenesisOrGap(store, walk);
    if first.role == Revision && !first.truncated {
      assert first.inForce.None?
             || Count(store, verify, first, ForSnapshot(store, first.snapshot.digest))
                < first.inForce.value.governQuorum
             ==> Finding(QuorumFailure, true) in AncestryFindings(store, verify, walk, pinned);
      QuorumHasWitnesses(store, verify, first, ForSnapshot(store, first.snapshot.digest));
    }
    if first.truncated {
      assert Finding(ChainTruncated, !pinned) in AncestryFindings(store, verify, walk, pinned);
      TruncatedIsOrdinary(store, first.snapshot);
      assert |walk| == 1;
    } else if |walk| > 1 {
      assert IsWalk(store, rest);
      CleanAncestryIsGranted(store, verify, rest, pinned);
      assert forall i | 0 < i < |walk| :: walk[i] == rest[i - 1];
    }
  }

  lemma TruncatedIsOrdinary(store: Store, snapshot: Snapshot)
    ensures Locate(store, snapshot).truncated ==> Locate(store, snapshot).role == Ordinary
  {
  }

  /** Where every change was granted, a head under some key list has only positions under one behind it. */
  lemma {:induction false} AuthorityRunsBack(store: Store, walk: seq<Position>, i: nat)
    requires IsWalk(store, walk) && i < |walk| && walk[0].inForce.Some?
    requires forall j | 0 <= j < |walk| :: walk[j].role == Revision ==> walk[j].inForce.Some?
    requires walk[|walk| - 1].role == Genesis
    ensures walk[i].inForce.Some?
  {
    if i > 0 {
      AuthorityRunsBack(store, walk, i - 1);
      var above, here := walk[i - 1], walk[i];
      assert above == Locate(store, above.snapshot) && here == Locate(store, here.snapshot);
      assert above.inForce == here.snapshot.trustRoot;
      if i < |walk| - 1 {
        assert here.parent == Some(walk[i + 1].snapshot);
      }
    }
  }

  // --- From the report to its parts -----------------------------------------------------------

  /** A report under which someone is accepted was judged against some trust root. */
  lemma {:induction false} AcceptanceNeedsAuthority(
    store: Store, verify: Verifier, records: seq<SignatureRecord>, position: Position, required: RequiredScopes,
    current: Option<TrustRoot>, stance: Stance, verdict: Verdict)
    requires verdict in Standing(Judgments(store, verify, records, position, required, current, stance))
    requires Accepts(verdict.outcome)
    ensures position.inForce.Some?
  {
    hide IsApprovedBy;
    var all := Judgments(store, verify, records, position, required, current, stance);
    if verdict != all[0] {
      assert all[1..] == Judgments(store, verify, records[1..], position, required, current, stance);
      AcceptanceNeedsAuthority(store, verify, records[1..], position, required, current, stance, verdict);
    }
  }

  /** What an authorized report lets one read off: no blocking finding of any of the structural kinds. */
  ghost predicate IsClean(
    store: Store, verify: Verifier, consumer: Consumer, position: Position, held: seq<SignatureRecord>)
  {
    var judged := PinJudgment(consumer.pin, position, Walked(store, position.snapshot));
    && !position.truncated && position.inForce.Some?
    && !Blocks(judged.1)
    && !Blocks(BehindFindings(store, verify, position, judged.0))
    && !Blocks(GovernanceJudgment(store, verify, position, held).findings)
  }

  lemma PreliminaryIsClean(
    store: Store, verify: Verifier, consumer: Consumer, position: Position, required: RequiredScopes)
    requires !Blocks(PreliminaryFindings(store, verify, consumer, position, required))
    ensures var judged := PinJudgment(consumer.pin, position, Walked(store, position.snapshot));
            !position.truncated && !Blocks(judged.1) && !Blocks(BehindFindings(store, verify, position, judged.0))
  {
    hide PinJudgment, BehindFindings, SinceFindings, RemovalFindings, Walked;
    var judged := PinJudgment(consumer.pin, position, Walked(store, position.snapshot));
    var truncation := TruncationFindings(position);
    var since := SinceFindings(position, Walked(store, position.snapshot));
    var behind := BehindFindings(store, verify, position, judged.0);
    var evidence := EvidenceFindings(required);
    var removals := RemovalFindings(Removals.Checked(store.docs, position.snapshot, position.parent));
    BlocksSplit(truncation, judged.1);
    BlocksSplit(truncation + judged.1, since);
    BlocksSplit(truncation + judged.1 + since, behind);
    BlocksSplit(truncation + judged.1 + since + behind, evidence);
    BlocksSplit(truncation + judged.1 + since + behind + evidence, removals);
    assert position.truncated ==> Finding(ChainTruncated, true) in truncation;
  }

  lemma AuthorizedIsClean(
    store: Store, verify: Verifier, consumer: Consumer, snapshot: Snapshot, held: seq<SignatureRecord>,
    required: RequiredScopes, newest: Option<TrustRoot>, stance: Stance)
    requires consumer.policy.requiredSignatures >= 1
    requires ReportOf(store, verify, consumer, snapshot, held, required, newest, stance).State() == Authorized
    ensures IsClean(store, verify, consumer, Locate(store, snapshot), held)
  {
    hide PreliminaryFindings, Locate, PinJudgment, Judgments, GovernanceJudgment, Standing, Withdrawn,
         WithdrawalFindings, PolicyFindings, SignersWith, Walked, BehindFindings;
    var report := ReportOf(store, verify, consumer, snapshot, held, required, newest, stance);
    var position := Locate(store, snapshot);
    var preliminary := PreliminaryFindings(store, verify, consumer, position, required);
    assert !Blocks(report.findings);
    SomeoneIsAccepted(report);
    var verdict :| verdict in report.signatures && Accepts(verdict.outcome);
    var verdicts := Judgments(store, verify, held, position, required, newest, stance);
    AcceptanceNeedsAuthority(store, verify, held, position, required, newest, stance, verdict);
    var governed := GovernanceJudgment(store, verify, position, held).findings;
    var backend := if consumer.hasBackend then [] else [Finding(BackendUnavailable, false)];
    var policed := PolicyFindings(consumer.policy, SignersWith(Standing(verdicts), Valid),
                                  SignersWith(Standing(verdicts), ValidAsProposal), stance);
    var withdrawals := WithdrawalFindings(verdicts);
    BlocksSplit(preliminary + backend + withdrawals + governed, policed);
    BlocksSplit(preliminary + backend + withdrawals, governed);
    BlocksSplit(preliminary + backend, withdrawals);
    BlocksSplit(preliminary, backend);
    PreliminaryIsClean(store, verify, consumer, position, required);
  }

  lemma SomeoneIsAccepted(report: Report)
    requires report.State() == Authorized && report.signaturesRequired >= 1
    ensures exists verdict | verdict in report.signatures :: Accepts(verdict.outcome)
  {
    assert |report.AcceptedKeys()| > 0;
    var key :| key in report.AcceptedKeys();
  }

  // --- Who an authorized report rests on ----------------------------------------------------------

  /**
   A record that earns acceptance for its key: an active key whose scopes cover, or may propose, all there could be.
   */
  ghost predicate Earns(
    store: Store, verify: Verifier, record: SignatureRecord, position: Position, required: RequiredScopes,
    current: Option<TrustRoot>, outcome: Outcome)
  {
    var granted := GrantedScopes(record, position);
    && IsByActiveKey(store, verify, record, position, current)
    && if outcome == Valid then required.Possible() <= granted
       else outcome == ValidAsProposal && Propose in granted && required.Possible() <= PROPOSABLE_SCOPES
  }

  ghost predicate HasEarned(
    store: Store, verify: Verifier, held: seq<SignatureRecord>, position: Position, required: RequiredScopes,
    current: Option<TrustRoot>, outcome: Outcome, key: Key)
  {
    exists record | record in held ::
      record.key == key && Earns(store, verify, record, position, required, current, outcome)
  }

  /** Every accepted verdict that stands has a record behind it that earned it. */
  lemma {:induction false} AcceptedIsEarned(
    store: Store, verify: Verifier, held: seq<SignatureRecord>, position: Position, required: RequiredScopes,
    current: Option<TrustRoot>, stance: Stance, verdict: Verdict)
    requires verdict in Standing(Judgments(store, verify, held, position, required, current, stance))
    requires Accepts(verdict.outcome)
    ensures verdict.embedded == verdict.signer && verdict.signer.Some?
    ensures HasEarned(store, verify, held, position, required, current, verdict.outcome, verdict.signer.value)
  {
    hide IsByActiveKey, GrantedScopes, RequiredScopes.Possible, Judged;
    var all := Judgments(store, verify, held, position, required, current, stance);
    if verdict == all[0] {
      AcceptedExactly(store, verify, held[0], position, required, current, stance);
      AcceptedNamesItsKey(store, verify, held[0], position, required, current, stance);
      assert Earns(store, verify, held[0], position, required, current, verdict.outcome);
    } else {
      assert all[1..] == Judgments(store, verify, held[1..], position, required, current, stance);
      AcceptedIsEarned(store, verify, held[1..], position, required, current, stance, verdict);
    }
  }

  lemma AcceptedNamesItsKey(
    store: Store, verify: Verifier, record: SignatureRecord, position: Position, required: RequiredScopes,
    current: Option<TrustRoot>, stance: Stance)
    ensures var verdict := Judged(store, verify, record, position, required, current, stance);
            Accepts(verdict.outcome) ==> verdict.embedded == Some(record.key) && verdict.signer == Some(record.key)
  {
    hide Relates, EntryFor, RequiredScopes.Possible, IsRetired;
  }

  /**
   An authorized report rests on that many distinct keys, each with a record that earned it; of a head, they are
   keys with full authority, unless the policy lets proposals count and full authority is not enough.
   */
  lemma AuthorizedIsEarned(
    store: Store, verify: Verifier, consumer: Consumer, snapshot: Snapshot, held: seq<SignatureRecord>,
    required: RequiredScopes, newest: Option<TrustRoot>, stance: Stance)
    requires ReportOf(store, verify, consumer, snapshot, held, required, newest, stance).State() == Authorized
    ensures exists valid: set<Key>, proposals: set<Key> ::
              && (forall key | key in valid ::
                    HasEarned(store, verify, held, Locate(store, snapshot), required, newest, Valid, key))
              && (forall key | key in proposals ::
                    HasEarned(store, verify, held, Locate(store, snapshot), required, newest, ValidAsProposal, key))
              && |valid + proposals| >= consumer.policy.requiredSignatures
              && (stance == Head ==>
                    |valid| >= consumer.policy.requiredSignatures || consumer.policy.allowProposeHead)
  {
    hide Locate, PreliminaryFindings, PinJudgment, GovernanceJudgment, Judgments, Standing, Withdrawn,
         WithdrawalFindings, HasEarned, Walked, SignersWith, PolicyFindings, Report.AcceptedKeys;
    var report := ReportOf(store, verify, consumer, snapshot, held, required, newest, stance);
    var position := Locate(store, snapshot);
    var standing := report.signatures;
    var verdicts := Judgments(store, verify, held, position, required, newest, stance);
    assert held != [] && standing == Standing(verdicts);
    var valid, proposals := SignersWith(standing, Valid), SignersWith(standing, ValidAsProposal);
    forall verdict | verdict in standing && Accepts(verdict.outcome)
      ensures verdict.embedded == verdict.signer && verdict.signer.Some?
      ensures HasEarned(store, verify, held, position, required, newest, verdict.outcome, verdict.signer.value)
    {
      AcceptedIsEarned(store, verify, held, position, required, newest, stance, verdict);
    }
    forall key | key in valid
      ensures HasEarned(store, verify, held, position, required, newest, Valid, key)
    {
      SignersAreAccepted(standing, Valid, key);
    }
    forall key | key in proposals
      ensures HasEarned(store, verify, held, position, required, newest, ValidAsProposal, key)
    {
      SignersAreAccepted(standing, ValidAsProposal, key);
    }
    AcceptedAreSigners(report);
    PolicyIsMet(report, consumer.policy, valid, proposals, stance);
  }

  lemma AcceptedAreSigners(report: Report)
    requires forall verdict | verdict in report.signatures && Accepts(verdict.outcome) ::
               verdict.embedded == verdict.signer && verdict.signer.Some?
    ensures |report.AcceptedKeys()| <=
            |SignersWith(report.signatures, Valid) + SignersWith(report.signatures, ValidAsProposal)|
  {
    SubsetSize(report.AcceptedKeys(),
               SignersWith(report.signatures, Valid) + SignersWith(report.signatures, ValidAsProposal));
  }

  lemma SignersAreAccepted(verdicts: seq<Verdict>, outcome: Outcome, key: Key)
    requires key in SignersWith(verdicts, outcome)
    ensures exists verdict :: verdict in verdicts && verdict.outcome == outcome && verdict.signer == Some(key)
  {
  }

  lemma PolicyIsMet(report: Report, policy: Policy, valid: set<Key>, proposals: set<Key>, stance: Stance)
    requires !report.IsBlocked()
    requires exists before :: report.findings == before + PolicyFindings(policy, valid, proposals, stance)
    ensures stance == Head ==> |valid| >= policy.requiredSignatures || policy.allowProposeHead
  {
    var findings := PolicyFindings(policy, valid, proposals, stance);
    assert forall finding | finding in findings :: finding in report.findings;
    assert stance == Head && |valid| < policy.requiredSignatures && !policy.allowProposeHead ==>
             Finding(ProposedHead, true) in findings || Finding(SignaturesBelowPolicy, true) in findings;
  }

  // --- Custody -------------------------------------------------------------------------------------

  /** The head's own change of authority, when it makes one, is granted by the records being judged. */
  lemma CleanHeadIsGranted(store: Store, verify: Verifier, position: Position, held: seq<SignatureRecord>)
    requires !Blocks(GovernanceJudgment(store, verify, position, held).findings)
    ensures IsGranted(store, verify, position, held)
  {
    hide Count, IsApprovedBy, MarginFindings, ContentFindings, RegressionFindings;
    if position.role == Revision {
      assert position.inForce.None? || Count(store, verify, position, held) < position.inForce.value.governQuorum
             ==> Finding(QuorumFailure, true) in GovernanceJudgment(store, verify, position, held).findings;
      QuorumHasWitnesses(store, verify, position, held);
    }
  }

  /** The chain behind a clean head. */
  lemma CleanChainIsGranted(
    store: Store, verify: Verifier, consumer: Consumer, snapshot: Snapshot, held: seq<SignatureRecord>)
    requires WalksComplete(store, snapshot)
    requires IsClean(store, verify, consumer, Locate(store, snapshot), held)
    ensures var walk := Walked(store, snapshot);
            && IsWalk(store, walk) && walk[0] == Locate(store, snapshot)
            && IsGranted(store, verify, walk[0], held)
            && IsGrantedThroughout(store, verify, walk[1..])
            && (walk[|walk| - 1].role == Genesis
                || PinJudgment(consumer.pin, walk[0], walk).0)
  {
    hide Locate, GovernanceJudgment, IsGranted, AncestryFindings, PinJudgment;
    var walk := Walked(store, snapshot);
    var position := Locate(store, snapshot);
    CompletedWalk(store, snapshot, {});
    CleanHeadIsGranted(store, verify, position, held);
    WalkEndsAtGenesisOrGap(store, walk);
    if position.parent.Some? {
      WalkBehindTheParent(store, snapshot);
      var behind := Walked(store, position.parent.value);
      assert walk[1..] == behind;
      CompletedWalk(store, position.parent.value, {});
      CleanAncestryIsGranted(store, verify, behind, PinJudgment(consumer.pin, position, walk).0);
      assert walk[|walk| - 1] == behind[|behind| - 1];
    } else {
      assert |walk| == 1;
    }
  }

  /**
   An authorized report that rests on no pin: the chain ends at a genesis that carries a trust root, authority
   is in force at every position on it, and every change of authority, the head's included, was signed by at
   least the quorum of distinct, active governors of the authority before it.
   */
  lemma AuthorizedMeansCustody(
    store: Store, verify: Verifier, consumer: Consumer, snapshot: Snapshot, held: seq<SignatureRecord>,
    required: RequiredScopes, newest: Option<TrustRoot>, stance: Stance)
    requires consumer.policy.requiredSignatures >= 1
    requires Locate(store, snapshot).inForce.Some? ==> WalksComplete(store, snapshot)
    requires ReportOf(store, verify, consumer, snapshot, held, required, newest, stance).State() == Authorized
    requires !ReportOf(store, verify, consumer, snapshot, held, required, newest, stance).pinned
    ensures var walk := Walked(store, snapshot);
            && IsWalk(store, walk) && walk[0] == Locate(store, snapshot) && walk[0].snapshot == snapshot
            && IsHandedDown(store, walk) && IsFounded(walk)
            && IsGranted(store, verify, walk[0], held)
            && IsGrantedThroughout(store, verify, walk[1..])
  {
    hide PinJudgment, Locate, IsApprovedBy, GovernanceJudgment, BehindFindings, Judgments, PreliminaryFindings,
         IsHandedDown;
    AuthorizedIsClean(store, verify, consumer, snapshot, held, required, newest, stance);
    CleanChainIsGranted(store, verify, consumer, snapshot, held);
    LocatedHere(store, snapshot);
    var walk := Walked(store, snapshot);
    forall i | 0 <= i < |walk|
      ensures walk[i].role == Revision ==> walk[i].inForce.Some?
    {
      if i > 0 {
        assert walk[1..][i - 1] == walk[i];
      }
    }
    forall i | 0 <= i < |walk|
      ensures walk[i].inForce.Some?
    {
      AuthorityRunsBack(store, walk, i);
    }
    GenesisAnswersToItself(store, walk[|walk| - 1].snapshot);
    WalksAreHandedDown(store, walk);
  }

  lemma LocatedHere(store: Store, snapshot: Snapshot)
    ensures Locate(store, snapshot).snapshot == snapshot
  {
  }

  lemma GenesisAnswersToItself(store: Store, snapshot: Snapshot)
    ensures Locate(store, snapshot).role == Genesis ==> Locate(store, snapshot).inForce == snapshot.trustRoot
  {
  }

  /**
   An authorized report that rests on a pin: the pinned trust root is on the chain that was read, and every
   change of authority on it was granted. Only what lies behind the gap, if there is one, goes unsaid.
   */
  lemma AuthorizedUnderAPin(
    store: Store, verify: Verifier, consumer: Consumer, snapshot: Snapshot, held: seq<SignatureRecord>,
    required: RequiredScopes, newest: Option<TrustRoot>, stance: Stance)
    requires consumer.policy.requiredSignatures >= 1
    requires Locate(store, snapshot).inForce.Some? ==> WalksComplete(store, snapshot)
    requires ReportOf(store, verify, consumer, snapshot, held, required, newest, stance).State() == Authorized
    requires ReportOf(store, verify, consumer, snapshot, held, required, newest, stance).pinned
    ensures var walk := Walked(store, snapshot);
            && IsWalk(store, walk) && walk[0] == Locate(store, snapshot) && walk[0].snapshot == snapshot
            && IsHandedDown(store, walk)
            && IsGranted(store, verify, walk[0], held)
            && IsGrantedThroughout(store, verify, walk[1..])
            && consumer.pin.Some? && IsOnWalk(walk, consumer.pin.value.trustRoot)
  {
    hide IsApprovedBy, GovernanceJudgment, BehindFindings, Judgments, PreliminaryFindings, IsGranted, Locate, IsOnWalk,
         IsHandedDown;
    AuthorizedIsClean(store, verify, consumer, snapshot, held, required, newest, stance);
    CleanChainIsGranted(store, verify, consumer, snapshot, held);
    LocatedHere(store, snapshot);
    var walk := Walked(store, snapshot);
    InForceIsOnWalk(store, walk);
    WalksAreHandedDown(store, walk);
  }

  lemma InForceIsOnWalk(store: Store, walk: seq<Position>)
    requires IsWalk(store, walk) && !walk[0].truncated && walk[0].inForce.Some?
    ensures IsOnWalk(walk, walk[0].inForce.value)
  {
    assert walk[0] == Locate(store, walk[0].snapshot);
    if |walk| > 1 {
      assert walk[1].snapshot.trustRoot == walk[0].inForce;
    } else {
      assert walk[0].snapshot.trustRoot == walk[0].inForce;
    }
  }
}
