/** The authenticity check: a report assembled from findings and verdicts, and the state it amounts to. */
module Authenticator {
  import opened Common
  import opened Documents
  import opened Chain
  import opened Descent
  import opened TrustRoots
  import opened Scopes
  import opened Verdicts
  import opened Quorum
  import opened Removals

  datatype FindingKind =
    | UnsignedBrain
    | ChainTruncated
    | TrustRootMismatch
    | PinBrainMismatch
    | SinceRefuted
    | QuorumFailure
    | RevisionChangedContent
    | RevisionRegressed
    | SignaturesBelowPolicy
    | ProposedHead
    | CompromisedSignature
    | GenesisBelowQuorum
    | QuorumMargin
    | EvidenceIncomplete
    | RemovalInvariant
    | RemovalUndecidable
    | BackendUnavailable

  datatype Finding = Finding(kind: FindingKind, blocking: bool)

  datatype Policy = Policy(requiredSignatures: nat, allowProposeHead: bool)

  /** The consumer's anchor: a trust root, and the genesis of the brain it was taken for. */
  datatype Pin = Pin(trustRoot: TrustRoot, genesis: Option<Id>)

  datatype AuthorshipState = Authorized | Unsigned | Attributable | Unauthorized

  datatype Report = Report(
    position: Position,
    pinned: bool,
    required: RequiredScopes,
    signatures: seq<Verdict>,
    withdrawn: seq<Verdict>,
    quorumRequired: Option<nat>,
    quorumMet: Option<nat>,
    findings: seq<Finding>,
    signaturesRequired: nat,
    stance: Stance)
  {
    predicate IsBlocked() {
      exists finding | finding in findings :: finding.blocking
    }

    function AcceptedKeys(): (r: set<Key>) {
      set verdict | verdict in signatures && verdict.embedded.Some?
        && Accepts(verdict.outcome) :: verdict.embedded.value
    }

    predicate NamesAnAuthor() {
      exists verdict | verdict in signatures :: verdict.outcome == AttributableKey || verdict.outcome == ValidAsProposal
    }

    /** What the findings and verdicts add up to. */
    function State(): (r: AuthorshipState) {
      if signatures == [] && withdrawn == [] then Unsigned
      else if IsBlocked() then Unauthorized
      else if |AcceptedKeys()| >= signaturesRequired then Authorized
      else if stance == Offered && NamesAnAuthor() then Attributable
      else Unauthorized
    }
  }

  /** Why no report is reached: a walk that had to give up, or evidence filed under the wrong name. */
  datatype Failure = WalkFailed(walk: ChainError) | EvidenceFailed(fault: Fault)

  // --- The pin -------------------------------------------------------------------

  predicate IsOnWalk(walk: seq<Position>, anchored: TrustRoot) {
    exists i | 0 <= i < |walk| :: walk[i].snapshot.trustRoot == Some(anchored)
  }

  /** Whether the pin holds the walk down anywhere, and the mismatch to report when it does not. */
  function PinJudgment(pin: Option<Pin>, position: Position, walk: seq<Position>): (r: (bool, seq<Finding>)) {
    if pin.None? then (false, [])
    else if pin.value.genesis.Some? && walk != [] && GenesisOf(walk).Some? && GenesisOf(walk) != pin.value.genesis then
      (false, [Finding(PinBrainMismatch, true)])
    else if position.inForce == Some(pin.value.trustRoot) then (true, [])
    else if !position.truncated && IsOnWalk(walk, pin.value.trustRoot) then (true, [])
    else (false, [Finding(TrustRootMismatch, true)])
  }

  // --- Ancestry --------------------------------------------------------------------

  /** Every trust-root transition on a walk, judged nearest first; the first failure ends the judgment. */
  ghost function AncestryFindings(store: Store, verify: Verifier, walk: seq<Position>, pinned: bool)
    : (r: seq<Finding>)
  {
    if walk == [] then []
    else
      var ancestor := walk[0];
      if ancestor.truncated then [Finding(ChainTruncated, !pinned)]
      else if ancestor.role != Revision then AncestryFindings(store, verify, walk[1..], pinned)
      else if ancestor.inForce.None? then [Finding(QuorumFailure, true)]
      else if Count(store, verify, ancestor, ForSnapshot(store, ancestor.snapshot.digest))
              < ancestor.inForce.value.governQuorum
      then [Finding(QuorumFailure, true)]
      else AncestryFindings(store, verify, walk[1..], pinned)
  }

  ghost function BehindFindings(store: Store, verify: Verifier, position: Position, pinned: bool): (r: seq<Finding>) {
    if position.parent.None? then [] else AncestryFindings(store, verify, Walked(store, position.parent.value), pinned)
  }

  /** The walk from a snapshot, when it completes. */
  function Walked(store: Store, snapshot: Snapshot): (r: seq<Position>) {
    var walk := WalkFrom(store, snapshot, {});
    if walk.Ok? then walk.value else []
  }

  /** A first-parent walk that gives up, or a snapshot on it whose ancestry no walk will read. */
  ghost predicate IsTooDeep(store: Store, snapshot: Snapshot) {
    || WalkFrom(store, snapshot, {}).Err?
    || exists position | position in Walked(store, snapshot) :: ExceedsWalk(store, position.snapshot)
  }

  method JudgeAncestry(store: Store, verify: Verifier, position: Position, pinned: bool)
    returns (r: Result<seq<Finding>, ChainError>)
    requires WellAddressed(store)
    ensures r.Ok? ==> r.value == BehindFindings(store, verify, position, pinned)
    ensures r.Err? ==> position.parent.Some? && IsTooDeep(store, position.parent.value)
  {
    hide Count, ForSnapshot, ExceedsWalk;
    if position.parent.None? {
      return Ok([]);
    }
    var walk :- WalkFirstParents(store, position.parent.value);
    for i := 0 to |walk|
      invariant AncestryFindings(store, verify, walk, pinned) == AncestryFindings(store, verify, walk[i..], pinned)
    {
      var ancestor := walk[i];
      assert walk[i..][0] == ancestor && walk[i..][1..] == walk[i + 1..];
      if ancestor.truncated {
        return Ok([Finding(ChainTruncated, !pinned)]);
      }
      if ancestor.role != Revision {
        continue;
      }
      if ancestor.inForce.None? {
        return Ok([Finding(QuorumFailure, true)]);
      }
      var met :- QuorumCount(store, verify, ancestor, ForSnapshot(store, ancestor.snapshot.digest));
      if met < ancestor.inForce.value.governQuorum {
        return Ok([Finding(QuorumFailure, true)]);
      }
    }
    r := Ok([]);
  }

  // --- Governance of the snapshot itself ------------------------------------------------

  datatype Governance = Governance(findings: seq<Finding>, required: Option<nat>, met: Option<nat>)

  /** The position a genesis is counted at: against its own declared root. */
  function FoundingPosition(position: Position): (r: Position) {
    position.(parent := None, inForce := position.snapshot.trustRoot, truncated := false)
  }

  function ActiveGovernors(root: TrustRoot): (r: set<Key>) {
    set entry | entry in root.keys && Govern in entry.scopes && !IsRetired(root, entry) :: entry.key
  }

  function MarginFindings(position: Position): (r: seq<Finding>) {
    var introduced := position.snapshot.trustRoot;
    if introduced.Some? && position.role != Ordinary
      && |ActiveGovernors(introduced.value)| <= introduced.value.governQuorum
    then [Finding(QuorumMargin, false)] else []
  }

  function ContentFindings(position: Position): (r: seq<Finding>) {
    if position.parent.Some? && position.snapshot.modules != position.parent.value.modules
    then [Finding(RevisionChangedContent, true)] else []
  }

  function RegressionFindings(position: Position, previous: TrustRoot): (r: seq<Finding>) {
    if position.snapshot.trustRoot.Some? && position.snapshot.trustRoot.value.revision <= previous.revision
    then [Finding(RevisionRegressed, true)] else []
  }

  ghost function GovernanceJudgment(
    store: Store, verify: Verifier, position: Position, records: seq<SignatureRecord>): (r: Governance)
  {
    var margin := MarginFindings(position);
    if position.role == Revision then
      var changed := margin + ContentFindings(position);
      if position.inForce.None? then Governance(changed + [Finding(QuorumFailure, true)], None, None)
      else
        var previous := position.inForce.value;
        var met := Count(store, verify, position, records);
        Governance(
          changed + RegressionFindings(position, previous)
          + (if met < previous.governQuorum then [Finding(QuorumFailure, true)] else []),
          Some(previous.governQuorum), Some(met))
    else if position.role == Genesis && position.snapshot.trustRoot.Some? then
      var declared := position.snapshot.trustRoot.value.governQuorum;
      var met := Count(store, verify, FoundingPosition(position), records);
      Governance(margin + (if met < declared then [Finding(GenesisBelowQuorum, false)] else []), Some(declared),
                 Some(met))
    else Governance(margin, None, None)
  }

  method JudgeGovernance(store: Store, verify: Verifier, position: Position, records: seq<SignatureRecord>)
    returns (r: Result<Governance, ChainError>)
    requires WellAddressed(store)
    ensures r.Ok? ==> r.value == GovernanceJudgment(store, verify, position, records)
    ensures r.Err? ==> ExceedsWalk(store, position.snapshot)
  {
    hide Count, ActiveGovernors, ExceedsWalk;
    var findings := MarginFindings(position);
    if position.role == Revision {
      findings := findings + ContentFindings(position);
      if position.inForce.None? {
        return Ok(Governance(findings + [Finding(QuorumFailure, true)], None, None));
      }
      var previous := position.inForce.value;
      findings := findings + RegressionFindings(position, previous);
      var met :- QuorumCount(store, verify, position, records);
      if met < previous.governQuorum {
        findings := findings + [Finding(QuorumFailure, true)];
      }
      return Ok(Governance(findings, Some(previous.governQuorum), Some(met)));
    }
    if position.role == Genesis && position.snapshot.trustRoot.Some? {
      var declared := position.snapshot.trustRoot.value.governQuorum;
      var met :- QuorumCount(store, verify, FoundingPosition(position), records);
      if met < declared {
        findings := findings + [Finding(GenesisBelowQuorum, false)];
      }
      return Ok(Governance(findings, Some(declared), Some(met)));
    }
    r := Ok(Governance(findings, None, None));
  }

  // --- The remaining findings --------------------------------------------------------------

  function TruncationFindings(position: Position): (r: seq<Finding>) {
    if position.truncated then [Finding(ChainTruncated, true)] else []
  }

  function RefutedEntries(keys: seq<TrustedKey>, observed: seq<TrustRoot>): (r: seq<Finding>) {
    if keys == [] then []
    else (if ConfirmSince(observed, keys[0]) == Refuted then [Finding(SinceRefuted, true)] else [])
         + RefutedEntries(keys[1..], observed)
  }

  function SinceFindings(position: Position, walk: seq<Position>): (r: seq<Finding>) {
    if position.inForce.None? || position.truncated then []
    else RefutedEntries(position.inForce.value.keys, ObservedIn(walk, {}))
  }

  function EvidenceFindings(required: RequiredScopes): (r: seq<Finding>) {
    if required.undetermined == {} then [] else [Finding(EvidenceIncomplete, false)]
  }

  function RemovalFindings(removals: RemovalIntegrity): (r: seq<Finding>) {
    if !removals.IsValid() then [Finding(RemovalInvariant, true)]
    else if !removals.IsComplete() then [Finding(RemovalUndecidable, false)]
    else []
  }

  /** The policy's bar for a head: enough fully valid keys, or proposals where the policy allows them. */
  function PolicyFindings(policy: Policy, valid: set<Key>, proposals: set<Key>, stance: Stance): (r: seq<Finding>) {
    if stance == Offered || |valid| >= policy.requiredSignatures then []
    else if proposals != {} && valid == {} && !policy.allowProposeHead then [Finding(ProposedHead, true)]
    else if proposals != {} && policy.allowProposeHead && |valid + proposals| >= policy.requiredSignatures then []
    else [Finding(SignaturesBelowPolicy, true)]
  }

  // --- The report -----------------------------------------------------------------------------

  /** The verdicts on all records, in their order. */
  ghost function Judgments(
    store: Store, verify: Verifier, records: seq<SignatureRecord>, position: Position, required: RequiredScopes,
    current: Option<TrustRoot>, stance: Stance): (r: seq<Verdict>)
    ensures |r| == |records|
  {
    if records == [] then []
    else [Judged(store, verify, records[0], position, required, current, stance)]
         + Judgments(store, verify, records[1..], position, required, current, stance)
  }

  function Standing(verdicts: seq<Verdict>): (r: seq<Verdict>) {
    if verdicts == [] then []
    else (if verdicts[0].IsWithdrawn() then [] else [verdicts[0]]) + Standing(verdicts[1..])
  }

  function Withdrawn(verdicts: seq<Verdict>): (r: seq<Verdict>) {
    if verdicts == [] then []
    else (if verdicts[0].IsWithdrawn() then [verdicts[0]] else []) + Withdrawn(verdicts[1..])
  }

  function WithdrawalFindings(verdicts: seq<Verdict>): (r: seq<Finding>) {
    if verdicts == [] then []
    else
      (if verdicts[0].IsWithdrawn() then [Finding(CompromisedSignature, false)] else [])
      + WithdrawalFindings(verdicts[1..])
  }

  function SignersWith(verdicts: seq<Verdict>, outcome: Outcome): (r: set<Key>) {
    set verdict | verdict in verdicts && verdict.outcome == outcome && verdict.signer.Some? :: verdict.signer.value
  }

  /** The records that are about this snapshot, among those given or held. */
  function About(records: seq<SignatureRecord>, digest: Id): (r: seq<SignatureRecord>) {
    if records == [] then []
    else (if records[0].snapshot == digest then [records[0]] else []) + About(records[1..], digest)
  }

  lemma {:induction false} AboutExactly(records: seq<SignatureRecord>, digest: Id, record: SignatureRecord)
    ensures record in About(records, digest) <==> record in records && record.snapshot == digest
  {
    if records != [] {
      AboutExactly(records[1..], digest, record);
    }
  }

  /** Everything the check consults besides the snapshot: the consumer's side of it. */
  datatype Consumer = Consumer(policy: Policy, pin: Option<Pin>, hasBackend: bool)

  ghost function PreliminaryFindings(
    store: Store, verify: Verifier, consumer: Consumer, position: Position, required: RequiredScopes): (r: seq<Finding>)
  {
    var snapshot := position.snapshot;
    var walk := Walked(store, snapshot);
    var (pinned, pinFindings) := PinJudgment(consumer.pin, position, walk);
    TruncationFindings(position) + pinFindings + SinceFindings(position, walk)
    + BehindFindings(store, verify, position, pinned) + EvidenceFindings(required)
    + RemovalFindings(Checked(store.docs, snapshot, position.parent))
  }

  ghost function ReportOf(
    store: Store, verify: Verifier, consumer: Consumer, snapshot: Snapshot, held: seq<SignatureRecord>,
    required: RequiredScopes, newest: Option<TrustRoot>, stance: Stance): (r: Report)
  {
    var position := Locate(store, snapshot);
    var pinned := PinJudgment(consumer.pin, position, Walked(store, snapshot)).0;
    var findings := PreliminaryFindings(store, verify, consumer, position, required);
    if held == [] then
      Report(position, pinned, required, [], [], None, None, findings + [Finding(UnsignedBrain, true)],
             consumer.policy.requiredSignatures, stance)
    else
      var verdicts := Judgments(store, verify, held, position, required, newest, stance);
      var governance := GovernanceJudgment(store, verify, position, held);
      Report(position, pinned, required, Standing(verdicts), Withdrawn(verdicts),
             governance.required, governance.met,
             findings + (if consumer.hasBackend then [] else [Finding(BackendUnavailable, false)])
             + WithdrawalFindings(verdicts) + governance.findings
             + PolicyFindings(consumer.policy, SignersWith(Standing(verdicts), Valid),
                              SignersWith(Standing(verdicts), ValidAsProposal), stance),
             consumer.policy.requiredSignatures, stance)
  }

  /** Whether every walk the check starts completes. */
  predicate WalksComplete(store: Store, snapshot: Snapshot) {
    WalkFrom(store, snapshot, {}).Ok?
  }

  /** What has to be wrong for no report to be reached: evidence misfiled, or a history too deep to walk. */
  ghost predicate IsExcused(store: Store, snapshot: Snapshot, failure: Failure) {
    match failure
    case WalkFailed(_) => IsTooDeep(store, snapshot)
    case EvidenceFailed(fault) => RequiredOver(store, snapshot, Locate(store, snapshot).parent) == Err(fault)
  }

  lemma DeepParentIsDeep(store: Store, snapshot: Snapshot)
    requires Locate(store, snapshot).parent.Some? && IsTooDeep(store, Locate(store, snapshot).parent.value)
    ensures IsTooDeep(store, snapshot)
  {
    hide Locate, ExceedsWalk;
    if WalkFrom(store, snapshot, {}).Ok? {
      WalkBehindTheParent(store, snapshot);
    }
  }

  /** The walk from a snapshot passes the snapshot itself. */
  lemma DeepHereIsExcused(store: Store, snapshot: Snapshot, error: ChainError)
    requires ExceedsWalk(store, snapshot)
    ensures IsExcused(store, snapshot, WalkFailed(error))
  {
    hide Locate, ExceedsWalk;
    if WalkFrom(store, snapshot, {}).Ok? {
      assert Walked(store, snapshot)[0] == Locate(store, snapshot);
    }
  }

  // --- The check as it runs ------------------------------------------------------------------

  method JudgePin(store: Store, pin: Option<Pin>, position: Position)
    returns (r: Result<(bool, seq<Finding>), ChainError>)
    requires position == Locate(store, position.snapshot)
    ensures r.Ok? ==> r.value == PinJudgment(pin, position, Walked(store, position.snapshot))
    ensures r.Ok? && pin.Some? && position.inForce.None? ==> WalksComplete(store, position.snapshot)
    ensures r.Err? ==> WalkFrom(store, position.snapshot, {}).Err?
  {
    if pin.None? {
      return Ok((false, []));
    }
    if pin.value.genesis.Some? {
      var walk :- WalkFirstParents(store, position.snapshot);
      if GenesisOf(walk).Some? && GenesisOf(walk) != pin.value.genesis {
        return Ok((false, [Finding(PinBrainMismatch, true)]));
      }
    }
    if position.inForce == Some(pin.value.trustRoot) {
      return Ok((true, []));
    }
    if !position.truncated {
      var walk :- WalkFirstParents(store, position.snapshot);
      for i := 0 to |walk|
        invariant forall j | 0 <= j < i :: walk[j].snapshot.trustRoot != Some(pin.value.trustRoot)
      {
        if walk[i].snapshot.trustRoot == Some(pin.value.trustRoot) {
          return Ok((true, []));
        }
      }
    }
    r := Ok((false, [Finding(TrustRootMismatch, true)]));
  }

  /** What judging the records accumulates. */
  datatype Tally = Tally(
    standing: seq<Verdict>, withdrawn: seq<Verdict>, findings: seq<Finding>, valid: set<Key>, proposals: set<Key>)
  {
    function Add(verdict: Verdict): (r: Tally) {
      if verdict.IsWithdrawn() then
        this.(withdrawn := withdrawn + [verdict], findings := findings + [Finding(CompromisedSignature, false)])
      else
        this.(standing := standing + [verdict],
              valid := valid + if verdict.outcome == Valid && verdict.signer.Some? then {verdict.signer.value} else {},
              proposals := proposals + if verdict.outcome == ValidAsProposal && verdict.signer.Some?
                                       then {verdict.signer.value} else {})
    }
  }

  function TallyAll(tally: Tally, verdicts: seq<Verdict>): (r: Tally)
    decreases |verdicts|
  {
    if verdicts == [] then tally else TallyAll(tally.Add(verdicts[0]), verdicts[1..])
  }

  /** What a tally over all verdicts comes to. */
  function TallyOf(verdicts: seq<Verdict>): (r: Tally) {
    Tally(Standing(verdicts), Withdrawn(verdicts), WithdrawalFindings(verdicts),
          SignersWith(Standing(verdicts), Valid), SignersWith(Standing(verdicts), ValidAsProposal))
  }

  function Join(a: Tally, b: Tally): (r: Tally) {
    Tally(a.standing + b.standing, a.withdrawn + b.withdrawn, a.findings + b.findings, a.valid + b.valid,
          a.proposals + b.proposals)
  }

  lemma SignersJoin(a: seq<Verdict>, b: seq<Verdict>, outcome: Outcome)
    ensures SignersWith(a + b, outcome) == SignersWith(a, outcome) + SignersWith(b, outcome)
  {
  }

  lemma SignersOfOne(verdict: Verdict, outcome: Outcome)
    ensures SignersWith([verdict], outcome) ==
            if verdict.outcome == outcome && verdict.signer.Some? then {verdict.signer.value} else {}
  {
  }

  lemma OneVerdict(verdict: Verdict)
    ensures Standing([verdict]) == if verdict.IsWithdrawn() then [] else [verdict]
    ensures Withdrawn([verdict]) == if verdict.IsWithdrawn() then [verdict] else []
    ensures WithdrawalFindings([verdict]) ==
            if verdict.IsWithdrawn() then [Finding(CompromisedSignature, false)] else []
  {
    assert [verdict][1..] == [];
  }

  lemma AddIsJoin(tally: Tally, verdict: Verdict)
    ensures tally.Add(verdict) == Join(tally, TallyOf([verdict]))
  {
    hide SignersWith, Standing, Withdrawn, WithdrawalFindings;
    NoSigners();
    OneVerdict(verdict);
    if !verdict.IsWithdrawn() {
      SignersOfOne(verdict, Valid);
      SignersOfOne(verdict, ValidAsProposal);
    }
    assert tally.standing + [] == tally.standing && tally.withdrawn + [] == tally.withdrawn;
    assert tally.findings + [] == tally.findings;
    assert tally.valid + {} == tally.valid && tally.proposals + {} == tally.proposals;
  }

  lemma FirstVerdictJoins(verdicts: seq<Verdict>)
    requires verdicts != []
    ensures TallyOf(verdicts) == Join(TallyOf([verdicts[0]]), TallyOf(verdicts[1..]))
  {
    hide SignersWith;
    var first, rest := [verdicts[0]], verdicts[1..];
    OneVerdict(verdicts[0]);
    assert Standing(verdicts) == Standing(first) + Standing(rest);
    assert Withdrawn(verdicts) == Withdrawn(first) + Withdrawn(rest);
    assert WithdrawalFindings(verdicts) == WithdrawalFindings(first) + WithdrawalFindings(rest);
    SignersJoin(Standing(first), Standing(rest), Valid);
    SignersJoin(Standing(first), Standing(rest), ValidAsProposal);
  }

  lemma JoinIsAssociative(a: Tally, b: Tally, c: Tally)
    ensures Join(Join(a, b), c) == Join(a, Join(b, c))
  {
  }

  lemma NothingToJoin(tally: Tally)
    ensures Join(tally, TallyOf([])) == tally && Join(NO_VERDICTS, tally) == tally
  {
  }

  lemma {:induction false} TallyIs(tally: Tally, verdicts: seq<Verdict>)
    ensures TallyAll(tally, verdicts) == Join(tally, TallyOf(verdicts))
    decreases |verdicts|
  {
    hide TallyOf, Join;
    if verdicts == [] {
      NothingToJoin(tally);
    } else {
      TallyIs(tally.Add(verdicts[0]), verdicts[1..]);
      AddIsJoin(tally, verdicts[0]);
      FirstVerdictJoins(verdicts);
      JoinIsAssociative(tally, TallyOf([verdicts[0]]), TallyOf(verdicts[1..]));
    }
  }

  lemma NoSigners()
    ensures SignersWith([], Valid) == {} && SignersWith([], ValidAsProposal) == {}
  {
  }

  lemma TallyStep(tally: Tally, verdict: Verdict, rest: seq<Verdict>)
    ensures TallyAll(tally, [verdict] + rest) == TallyAll(tally.Add(verdict), rest)
  {
    assert ([verdict] + rest)[1..] == rest;
  }

  lemma TallyEnd(tally: Tally)
    ensures TallyAll(tally, []) == tally
  {
  }

  const NO_VERDICTS := Tally([], [], [], {}, {})

  /** Every record in turn: withdrawn verdicts apart, accepted keys gathered by kind. */
  method JudgeAll(
    store: Store, verify: Verifier, records: seq<SignatureRecord>, position: Position, required: RequiredScopes,
    current: Option<TrustRoot>, stance: Stance)
    returns (r: Result<Tally, ChainError>)
    requires WellAddressed(store)
    ensures r.Ok? ==> r.value == TallyOf(Judgments(store, verify, records, position, required, current, stance))
    ensures r.Err? ==> ExceedsWalk(store, position.snapshot)
  {
    hide ExceedsWalk, Judged, TallyOf, Join, TallyAll;
    var tally := NO_VERDICTS;
    ghost var all := Judgments(store, verify, records, position, required, current, stance);
    assert records[0..] == records;
    for i := 0 to |records|
      invariant TallyAll(NO_VERDICTS, all) ==
                TallyAll(tally, Judgments(store, verify, records[i..], position, required, current, stance))
    {
      var verdict :- Judge(store, verify, records[i], position, required, current, stance);
      assert records[i..][0] == records[i] && records[i..][1..] == records[i + 1..];
      TallyStep(tally, verdict, Judgments(store, verify, records[i + 1..], position, required, current, stance));
      tally := tally.Add(verdict);
    }
    TallyEnd(tally);
    TallyIs(NO_VERDICTS, all);
    NothingToJoin(TallyOf(all));
    r := Ok(tally);
  }

  /** Findings of one store about one position, before any signature is looked at. */
  method JudgeStructure(store: Store, verify: Verifier, consumer: Consumer, snapshot: Snapshot)
    returns (r: Result<(bool, RequiredScopes, seq<Finding>), Failure>)
    requires WellAddressed(store)
    ensures r.Ok? ==>
              var position := Locate(store, snapshot);
              && RequiredOver(store, snapshot, position.parent) == Ok(r.value.1)
              && r.value.0 == PinJudgment(consumer.pin, position, Walked(store, snapshot)).0
              && r.value.2 == PreliminaryFindings(store, verify, consumer, position, r.value.1)
              && (position.inForce.Some? || consumer.pin.Some? ==> WalksComplete(store, snapshot))
    ensures r.Err? ==> IsExcused(store, snapshot, r.error)
  {
    hide ExceedsWalk, AncestryFindings, PinJudgment, RefutedEntries, RemovalFindings, Checked, GatherEvidence, Required,
         BehindFindings;
    var position := Locate(store, snapshot);
    var findings := TruncationFindings(position);
    var pinJudged := JudgePin(store, consumer.pin, position);
    if pinJudged.Err? {
      return Err(WalkFailed(pinJudged.error));
    }
    var (pinned, pinFindings) := pinJudged.value;
    findings := findings + pinFindings;
    if position.inForce.Some? && !position.truncated {
      var walked := WalkFirstParents(store, snapshot);
      if walked.Err? {
        return Err(WalkFailed(walked.error));
      }
      var observed := ObservedRevisions(walked.value);
      findings := findings + RefutedEntries(position.inForce.value.keys, observed);
    }
    var behind := JudgeAncestry(store, verify, position, pinned);
    if behind.Err? {
      DeepParentIsDeep(store, snapshot);
      return Err(WalkFailed(behind.error));
    }
    findings := findings + behind.value;
    var evidence := GatherEvidence(store, snapshot, position.parent);
    if evidence.Err? {
      return Err(EvidenceFailed(evidence.error));
    }
    var required := ComputeRequired(evidence.value);
    if required.Err? {
      return Err(EvidenceFailed(required.error));
    }
    findings := findings + EvidenceFindings(required.value);
    var removals := CheckRemovalInvariant(store.docs, snapshot, position.parent);
    findings := findings + RemovalFindings(removals);
    r := Ok((pinned, required.value, findings));
  }

  /**
   The whole check. `given` are the records to judge, or those the store holds; `current` is the newest trust
   root known, which has the last word on compromised keys.
   */
  method Authenticate(
    store: Store, verify: Verifier, consumer: Consumer, snapshot: Snapshot, given: Option<seq<SignatureRecord>>,
    current: Option<TrustRoot>, stance: Stance) returns (r: Result<Report, Failure>)
    requires WellAddressed(store)
    ensures r.Ok? ==>
              var position := Locate(store, snapshot);
              var records := if given.Some? then given.value else ForSnapshot(store, snapshot.digest);
              && RequiredOver(store, snapshot, position.parent).Ok?
              && r.value == ReportOf(store, verify, consumer, snapshot, About(records, snapshot.digest),
                                     RequiredOver(store, snapshot, position.parent).value,
                                     if current.Some? then current else snapshot.trustRoot, stance)
              && (position.inForce.Some? || consumer.pin.Some? ==> WalksComplete(store, snapshot))
    ensures r.Err? ==> IsExcused(store, snapshot, r.error)
  {
    hide IsExcused, ExceedsWalk, Judgments, IsTooDeep, WalksComplete, PreliminaryFindings, PinJudgment, RequiredOver,
         Locate, GovernanceJudgment, PolicyFindings, Standing, Withdrawn, WithdrawalFindings, SignersWith, About,
         ForSnapshot;
    var position := Locate(store, snapshot);
    var newest := if current.Some? then current else snapshot.trustRoot;
    var held := About(if given.Some? then given.value else ForSnapshot(store, snapshot.digest), snapshot.digest);
    var structure :- JudgeStructure(store, verify, consumer, snapshot);
    var (pinned, required, findings) := structure;
    if held == [] {
      return Ok(Report(position, pinned, required, [], [], None, None, findings + [Finding(UnsignedBrain, true)],
                       consumer.policy.requiredSignatures, stance));
    }
    if !consumer.hasBackend {
      findings := findings + [Finding(BackendUnavailable, false)];
    }
    var judged := JudgeAll(store, verify, held, position, required, newest, stance);
    if judged.Err? {
      DeepHereIsExcused(store, snapshot, judged.error);
      return Err(WalkFailed(judged.error));
    }
    var tally := judged.value;
    findings := findings + tally.findings;
    var governed := JudgeGovernance(store, verify, position, held);
    if governed.Err? {
      DeepHereIsExcused(store, snapshot, governed.error);
      return Err(WalkFailed(governed.error));
    }
    var governance := governed.value;
    findings := findings + governance.findings + PolicyFindings(consumer.policy, tally.valid, tally.proposals, stance);
    r := Ok(Report(position, pinned, required, tally.standing, tally.withdrawn, governance.required, governance.met,
                   findings, consumer.policy.requiredSignatures, stance));
  }
}
