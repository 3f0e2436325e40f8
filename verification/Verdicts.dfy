/** What one signature record is worth at one position. */
module Verdicts {
  import opened Common
  import opened Documents
  import opened Chain
  import opened Descent
  import opened TrustRoots
  import opened Scopes

  /** What the primitive says of one signature over one snapshot. */
  datatype Verification = Verified | NamespaceMismatch | UnsupportedKey | BackendMissing | Broken

  /** The cryptographic check, left uninterpreted: signature container and signed snapshot in, answer out. */
  type Verifier = (ParsedSignature, Id) -> Verification

  datatype Stance = Head | Offered

  datatype Outcome =
    | Valid
    | ValidAsProposal
    | WrongNamespace
    | FingerprintMismatch
    | InvalidSignature
    | UnsupportedKeyType
    | UnauthorizedKey
    | AttributableKey
    | InsufficientScope
    | InsufficientEvidence
    | RetiredKey
    | CompromisedKey
    | CompromiseUndecidable
    | Unverifiable

  /** `signer` is the embedded key once its signature verified, which is what later decisions count. */
  datatype Verdict = Verdict(named: Key, embedded: Option<Key>, outcome: Outcome, signer: Option<Key>) {
    predicate IsWithdrawn() {
      outcome == CompromisedKey
    }
  }

  /** Proposing covers these and no others. */
  const PROPOSABLE_SCOPES: set<Scope> := {Ingest, Commit}

  /** A key is compromised from where the latest known key list says, or else where this one does. */
  function CompromisePosition(key: Key, entry: TrustedKey, current: Option<TrustRoot>): (r: Option<Id>) {
    if current.Some? && EntryFor(current.value, key).Some? && EntryFor(current.value, key).value.compromisedFrom.Some?
    then EntryFor(current.value, key).value.compromisedFrom
    else entry.compromisedFrom
  }

  /** What the granted scopes amount to against a requirement. */
  function ScopeOutcome(required: RequiredScopes, granted: set<Scope>): (r: Outcome) {
    if required.Possible() <= granted then Valid
    else if required.scopes <= granted then InsufficientEvidence
    else if Propose in granted && required.Possible() <= PROPOSABLE_SCOPES then ValidAsProposal
    else InsufficientScope
  }

  /** The fate of a signature that verified under an authorized, unretired key. */
  function AuthorizedOutcome(required: RequiredScopes, granted: set<Scope>, reached: Relation): (r: Outcome) {
    match reached
    case Reached => CompromisedKey
    case Undecided => CompromiseUndecidable
    case Cleared => ScopeOutcome(required, granted)
  }

  /** The judgment, with reachability taken as what the evidence supports. */
  ghost function Judged(
    store: Store, verify: Verifier, record: SignatureRecord, position: Position, required: RequiredScopes,
    current: Option<TrustRoot>, stance: Stance): (r: Verdict)
  {
    if record.namespace != SnapshotNamespace then Verdict(record.key, None, WrongNamespace, None)
    else if record.parsed.None? then Verdict(record.key, None, InvalidSignature, None)
    else
      var key := record.parsed.value.publicKey;
      if key != record.key then Verdict(record.key, Some(key), FingerprintMismatch, None)
      else
        match verify(record.parsed.value, position.snapshot.digest)
        case NamespaceMismatch => Verdict(record.key, Some(key), WrongNamespace, None)
        case UnsupportedKey => Verdict(record.key, Some(key), UnsupportedKeyType, None)
        case BackendMissing => Verdict(record.key, Some(key), Unverifiable, None)
        case Broken => Verdict(record.key, Some(key), InvalidSignature, None)
        case Verified =>
          Verdict(record.key, Some(key), VerifiedOutcome(store, key, position, required, current, stance), Some(key))
  }

  ghost function VerifiedOutcome(
    store: Store, key: Key, position: Position, required: RequiredScopes, current: Option<TrustRoot>, stance: Stance)
    : (r: Outcome)
  {
    if position.inForce.None? || EntryFor(position.inForce.value, key).None? then
      if stance == Offered then AttributableKey else UnauthorizedKey
    else
      var entry := EntryFor(position.inForce.value, key).value;
      if IsRetired(position.inForce.value, entry) then RetiredKey
      else
        var compromise := CompromisePosition(key, entry, current);
        AuthorizedOutcome(required, entry.Granted(),
                          if compromise.Some? then Relates(store, position.snapshot, compromise.value) else Cleared)
  }

  /** The judgment as it runs. It can only fail to answer when an ancestry exceeds the walk's cap. */
  method Judge(
    store: Store, verify: Verifier, record: SignatureRecord, position: Position, required: RequiredScopes,
    current: Option<TrustRoot>, stance: Stance) returns (r: Result<Verdict, ChainError>)
    requires WellAddressed(store)
    ensures r.Ok? ==> r.value == Judged(store, verify, record, position, required, current, stance)
    ensures r.Err? ==> ExceedsWalk(store, position.snapshot)
  {
    if record.namespace != SnapshotNamespace {
      return Ok(Verdict(record.key, None, WrongNamespace, None));
    }
    if record.parsed.None? {
      return Ok(Verdict(record.key, None, InvalidSignature, None));
    }
    var key := record.parsed.value.publicKey;
    if key != record.key {
      return Ok(Verdict(record.key, Some(key), FingerprintMismatch, None));
    }
    match verify(record.parsed.value, position.snapshot.digest) {
      case NamespaceMismatch => return Ok(Verdict(record.key, Some(key), WrongNamespace, None));
      case UnsupportedKey => return Ok(Verdict(record.key, Some(key), UnsupportedKeyType, None));
      case BackendMissing => return Ok(Verdict(record.key, Some(key), Unverifiable, None));
      case Broken => return Ok(Verdict(record.key, Some(key), InvalidSignature, None));
      case Verified =>
    }
    if position.inForce.None? || EntryFor(position.inForce.value, key).None? {
      var unknown := if stance == Offered then AttributableKey else UnauthorizedKey;
      return Ok(Verdict(record.key, Some(key), unknown, Some(key)));
    }
    var entry := EntryFor(position.inForce.value, key).value;
    if IsRetired(position.inForce.value, entry) {
      return Ok(Verdict(record.key, Some(key), RetiredKey, Some(key)));
    }
    var compromise := CompromisePosition(key, entry, current);
    if compromise.Some? {
      var reached :- DescendsFrom(store, position.snapshot, compromise.value);
      if reached == Reached {
        return Ok(Verdict(record.key, Some(key), CompromisedKey, Some(key)));
      }
      if reached == Undecided {
        return Ok(Verdict(record.key, Some(key), CompromiseUndecidable, Some(key)));
      }
    }
    r := Ok(Verdict(record.key, Some(key), ScopeOutcome(required, entry.Granted()), Some(key)));
  }

  // --- Withholding evidence never upgrades a signature --------------------------------------

  /** A verified signature whose key is listed at this position, has not retired, and is clear of any compromise. */
  ghost predicate IsByActiveKey(
    store: Store, verify: Verifier, record: SignatureRecord, position: Position, current: Option<TrustRoot>)
  {
    && record.namespace == SnapshotNamespace && record.parsed.Some? && record.parsed.value.publicKey == record.key
    && verify(record.parsed.value, position.snapshot.digest) == Verified
    && position.inForce.Some? && EntryFor(position.inForce.value, record.key).Some?
    && var entry := EntryFor(position.inForce.value, record.key).value;
       var compromise := CompromisePosition(record.key, entry, current);
       !IsRetired(position.inForce.value, entry)
       && (compromise.Some? ==> Relates(store, position.snapshot, compromise.value) == Cleared)
  }

  function GrantedScopes(record: SignatureRecord, position: Position): (r: set<Scope>) {
    if position.inForce.Some? && EntryFor(position.inForce.value, record.key).Some?
    then EntryFor(position.inForce.value, record.key).value.Granted() else {}
  }

  /** Exactly what is accepted: an active key that holds all that might be required, or may propose all of it. */
  lemma AcceptedExactly(
    store: Store, verify: Verifier, record: SignatureRecord, position: Position, required: RequiredScopes,
    current: Option<TrustRoot>, stance: Stance)
    ensures var outcome := Judged(store, verify, record, position, required, current, stance).outcome;
            var granted := GrantedScopes(record, position);
            && (outcome == Valid <==>
                  IsByActiveKey(store, verify, record, position, current) && required.Possible() <= granted)
            && (outcome == ValidAsProposal <==>
                  IsByActiveKey(store, verify, record, position, current)
                  && !(required.Possible() <= granted) && !(required.scopes <= granted)
                  && Propose in granted && required.Possible() <= PROPOSABLE_SCOPES)
  {
    hide Relates, EntryFor, RequiredScopes.Possible, IsRetired;
  }

  /** The whole path from a store to a verdict: position, requirement, judgment. */
  ghost function JudgedOver(
    store: Store, verify: Verifier, record: SignatureRecord, snapshot: Snapshot,
    current: Option<TrustRoot>, stance: Stance): (r: Result<Verdict, Fault>)
  {
    var position := Locate(store, snapshot);
    var required :- RequiredOver(store, snapshot, position.parent);
    Ok(Judged(store, verify, record, position, required, current, stance))
  }

  predicate Accepts(outcome: Outcome) {
    outcome == Valid || outcome == ValidAsProposal
  }

  /** A requirement with more certain and less possible scopes keeps an acceptance exactly as it was. */
  lemma AcceptanceSurvivesNarrowing(less: RequiredScopes, more: RequiredScopes, granted: set<Scope>)
    requires less.scopes <= more.scopes && more.Possible() <= less.Possible()
    requires Accepts(ScopeOutcome(less, granted))
    ensures ScopeOutcome(more, granted) == ScopeOutcome(less, granted)
  {
    assert more.scopes <= more.Possible();
  }

  /** A position that is not truncated is the same position over any larger store. */
  lemma PositionIsStable(small: Store, large: Store, snapshot: Snapshot)
    requires Extends(small, large) && !Locate(small, snapshot).truncated
    ensures Locate(large, snapshot) == Locate(small, snapshot)
  {
  }

  lemma VerifiedAcceptanceIsStable(
    small: Store, large: Store, key: Key, position: Position, less: RequiredScopes, more: RequiredScopes,
    current: Option<TrustRoot>, stance: Stance)
    requires Extends(small, large)
    requires less.scopes <= more.scopes && more.Possible() <= less.Possible()
    requires Accepts(VerifiedOutcome(small, key, position, less, current, stance))
    ensures VerifiedOutcome(large, key, position, more, current, stance)
         == VerifiedOutcome(small, key, position, less, current, stance)
  {
    hide Relates, ScopeOutcome, EntryFor;
    var entry := EntryFor(position.inForce.value, key).value;
    AcceptanceSurvivesNarrowing(less, more, entry.Granted());
    var compromise := CompromisePosition(key, entry, current);
    if compromise.Some? {
      DecidedAnswersAreStable(small, large, position.snapshot, compromise.value);
    }
  }

  /**
   Whatever is withheld, an accepted signature was not accepted because of it: over any store that holds
   more, the same record has the same accepting outcome, unless the additional documents are misfiled
   compositions, in which case no verdict is reached at all.
   */
  lemma WithholdingNeverUpgrades(
    small: Store, large: Store, verify: Verifier, record: SignatureRecord, snapshot: Snapshot,
    current: Option<TrustRoot>, stance: Stance)
    requires Extends(small, large)
    requires JudgedOver(small, verify, record, snapshot, current, stance).Ok?
    requires Accepts(JudgedOver(small, verify, record, snapshot, current, stance).value.outcome)
    ensures var position := Locate(large, snapshot);
            if Misfiled(large, snapshot, position.parent)
            then JudgedOver(large, verify, record, snapshot, current, stance).Err?
            else JudgedOver(large, verify, record, snapshot, current, stance)
                 == JudgedOver(small, verify, record, snapshot, current, stance)
  {
    hide RequiredOver, VerifiedOutcome, Locate;
    AcceptedIsNotTruncated(small, verify, record, snapshot, current, stance);
    PositionIsStable(small, large, snapshot);
    var position := Locate(small, snapshot);
    LocatedSnapshot(small, snapshot);
    RequirementFailsExactlyWhenMisfiled(large, snapshot, position.parent);
    if !Misfiled(large, snapshot, position.parent) {
      EvidenceNarrowsTheRequirement(small, large, snapshot, position.parent);
      VerifiedAcceptanceIsStable(
        small, large, record.parsed.value.publicKey, position,
        RequiredOver(small, snapshot, position.parent).value, RequiredOver(large, snapshot, position.parent).value,
        current, stance);
    }
  }

  lemma LocatedSnapshot(store: Store, snapshot: Snapshot)
    ensures Locate(store, snapshot).snapshot == snapshot
  {
  }

  lemma AcceptedIsNotTruncated(
    store: Store, verify: Verifier, record: SignatureRecord, snapshot: Snapshot,
    current: Option<TrustRoot>, stance: Stance)
    requires JudgedOver(store, verify, record, snapshot, current, stance).Ok?
    requires Accepts(JudgedOver(store, verify, record, snapshot, current, stance).value.outcome)
    ensures !Locate(store, snapshot).truncated
  {
    hide RequiredOver, AuthorizedOutcome;
  }

  /** And a withdrawal, once the evidence supports it, is never lifted by more evidence. */
  lemma WithdrawalIsFinal(
    small: Store, large: Store, verify: Verifier, record: SignatureRecord, snapshot: Snapshot,
    current: Option<TrustRoot>, stance: Stance)
    requires Extends(small, large)
    requires JudgedOver(small, verify, record, snapshot, current, stance).Ok?
    requires JudgedOver(large, verify, record, snapshot, current, stance).Ok?
    requires JudgedOver(small, verify, record, snapshot, current, stance).value.IsWithdrawn()
    ensures JudgedOver(large, verify, record, snapshot, current, stance).value.IsWithdrawn()
  {
    hide RequiredOver, Relates, ScopeOutcome, EntryFor;
    var key := record.parsed.value.publicKey;
    var position := Locate(small, snapshot);
    assert !position.truncated;
    PositionIsStable(small, large, snapshot);
    var entry := EntryFor(position.inForce.value, key).value;
    var compromise := CompromisePosition(key, entry, current);
    ScopesNeverWithdraw(RequiredOver(small, snapshot, position.parent).value, entry.Granted());
    DecidedAnswersAreStable(small, large, position.snapshot, compromise.value);
  }

  lemma ScopesNeverWithdraw(required: RequiredScopes, granted: set<Scope>)
    ensures ScopeOutcome(required, granted) != CompromisedKey
  {
  }

  // --- Every outcome, by its cause ------------------------------------------------------------------

  /** The entry that answers for a key in a key list: the first one that lists it. */
  predicate IsEntryOf(root: TrustRoot, key: Key, entry: TrustedKey) {
    exists i | 0 <= i < |root.keys| ::
      root.keys[i] == entry && entry.key == key && forall j | 0 <= j < i :: root.keys[j].key != key
  }

  predicate IsUnlisted(root: TrustRoot, key: Key) {
    forall entry | entry in root.keys :: entry.key != key
  }

  /** The newest key list marks the key compromised from here. */
  ghost predicate NewestMarks(current: Option<TrustRoot>, key: Key, from: Id) {
    current.Some? && exists entry :: IsEntryOf(current.value, key, entry) && entry.compromisedFrom == Some(from)
  }

  /** Where an entry's key is compromised from: the newest list's mark goes before the entry's own. */
  ghost predicate IsMarkedFrom(entry: TrustedKey, current: Option<TrustRoot>, from: Id) {
    || NewestMarks(current, entry.key, from)
    || (entry.compromisedFrom == Some(from) && forall other :: !NewestMarks(current, entry.key, other))
  }

  lemma EntryExactly(root: TrustRoot, key: Key)
    ensures forall entry :: EntryFor(root, key) == Some(entry) <==> IsEntryOf(root, key, entry)
    ensures EntryFor(root, key).None? <==> IsUnlisted(root, key)
  {
    FirstEntryExactly(root.keys, key);
  }

  lemma MarkExactly(entry: TrustedKey, current: Option<TrustRoot>, from: Id)
    ensures CompromisePosition(entry.key, entry, current) == Some(from) <==> IsMarkedFrom(entry, current, from)
  {
    hide EntryFor, IsEntryOf;
    if current.Some? {
      EntryExactly(current.value, entry.key);
      var newest := EntryFor(current.value, entry.key);
      if newest.Some? && newest.value.compromisedFrom.Some? {
        assert NewestMarks(current, entry.key, newest.value.compromisedFrom.value);
      }
      forall other: Id | NewestMarks(current, entry.key, other)
        ensures newest.Some? && newest.value.compromisedFrom == Some(other)
      {
        var marking :| IsEntryOf(current.value, entry.key, marking) && marking.compromisedFrom == Some(other);
        assert newest == Some(marking);
      }
    }
  }

  /** A record over the snapshot whose parts agree with each other, whatever the primitive says of it. */
  predicate IsWellMade(record: SignatureRecord) {
    && record.namespace == SnapshotNamespace && record.parsed.Some?
    && record.parsed.value.publicKey == record.key
  }

  /** A well-made record that verified, by a key whose entry under the authority in force is this one, not retired. */
  ghost predicate IsByUnretired(verify: Verifier, record: SignatureRecord, position: Position, entry: TrustedKey) {
    && IsWellMade(record) && verify(record.parsed.value, position.snapshot.digest) == Verified
    && position.inForce.Some? && IsEntryOf(position.inForce.value, record.key, entry)
    && (entry.retiredFrom.Some? ==> position.inForce.value.revision < entry.retiredFrom.value)
  }

  /** Clear of every mark, and so judged by its scopes. */
  ghost predicate IsJudgedByScopes(
    store: Store, verify: Verifier, record: SignatureRecord, position: Position, current: Option<TrustRoot>,
    entry: TrustedKey)
  {
    && IsByUnretired(verify, record, position, entry)
    && forall from | IsMarkedFrom(entry, current, from) :: Relates(store, position.snapshot, from) == Cleared
  }

  /** The outcomes that need no key list. */
  lemma UnverifiedExactly(
    store: Store, verify: Verifier, record: SignatureRecord, position: Position, required: RequiredScopes,
    current: Option<TrustRoot>, stance: Stance)
    ensures var outcome := Judged(store, verify, record, position, required, current, stance).outcome;
            && (outcome == FingerprintMismatch <==>
                record.namespace == SnapshotNamespace && record.parsed.Some?
                && record.parsed.value.publicKey != record.key)
            && (outcome == WrongNamespace <==>
                record.namespace != SnapshotNamespace
                || (IsWellMade(record) && verify(record.parsed.value, position.snapshot.digest) == NamespaceMismatch))
            && (outcome == InvalidSignature <==>
                record.namespace == SnapshotNamespace
                && (record.parsed.None?
                    || (IsWellMade(record) && verify(record.parsed.value, position.snapshot.digest) == Broken)))
            && (outcome == UnsupportedKeyType <==>
                IsWellMade(record) && verify(record.parsed.value, position.snapshot.digest) == UnsupportedKey)
            && (outcome == Unverifiable <==>
                IsWellMade(record) && verify(record.parsed.value, position.snapshot.digest) == BackendMissing)
  {
    hide Relates, EntryFor, ScopeOutcome;
    assert forall reached, granted ::
        AuthorizedOutcome(required, granted, reached) in {CompromisedKey, CompromiseUndecidable,
          ScopeOutcome(required, granted)};
    assert forall granted ::
        ScopeOutcome(required, granted) in {Valid, InsufficientEvidence, ValidAsProposal, InsufficientScope} by {
      forall granted {
        ScopeOutcomes(required, granted);
      }
    }
  }

  lemma ScopeOutcomes(required: RequiredScopes, granted: set<Scope>)
    ensures ScopeOutcome(required, granted) in {Valid, InsufficientEvidence, ValidAsProposal, InsufficientScope}
  {
  }

  /** The outcomes of a signature that verified. */
  lemma VerifiedExactly(
    store: Store, verify: Verifier, record: SignatureRecord, position: Position, required: RequiredScopes,
    current: Option<TrustRoot>, stance: Stance, entry: TrustedKey)
    requires IsWellMade(record) && verify(record.parsed.value, position.snapshot.digest) == Verified
    requires position.inForce.Some? && IsEntryOf(position.inForce.value, record.key, entry)
    ensures var outcome := Judged(store, verify, record, position, required, current, stance).outcome;
            var judged := IsJudgedByScopes(store, verify, record, position, current, entry);
            var granted := set scope | scope in entry.scopes;
            && (outcome == RetiredKey <==>
                entry.retiredFrom.Some? && position.inForce.value.revision >= entry.retiredFrom.value)
            && (outcome == CompromisedKey <==>
                IsByUnretired(verify, record, position, entry)
                && exists from | IsMarkedFrom(entry, current, from) ::
                   Relates(store, position.snapshot, from) == Reached)
            && (outcome == CompromiseUndecidable <==>
                IsByUnretired(verify, record, position, entry)
                && exists from | IsMarkedFrom(entry, current, from) ::
                   Relates(store, position.snapshot, from) == Undecided)
            && (outcome == Valid <==> judged && required.Possible() <= granted)
            && (outcome == InsufficientEvidence <==>
                judged && required.scopes <= granted && !(required.Possible() <= granted))
            && (outcome == ValidAsProposal <==>
                judged && !(required.scopes <= granted)
                && Propose in granted && required.Possible() <= {Ingest, Commit})
            && (outcome == InsufficientScope <==>
                judged && !(required.scopes <= granted)
                && !(Propose in granted && required.Possible() <= {Ingest, Commit}))
  {
    hide Relates, EntryFor, IsEntryOf, IsMarkedFrom, RequiredScopes.Possible, CompromisePosition;
    EntryExactly(position.inForce.value, record.key);
    assert entry.key == record.key by { EntryNames(position.inForce.value, record.key, entry); }
    forall from: Id
      ensures CompromisePosition(entry.key, entry, current) == Some(from) <==> IsMarkedFrom(entry, current, from)
    {
      MarkExactly(entry, current, from);
    }
    assert required.scopes <= required.Possible() by { CertainIsPossible(required); }
    assert entry.Granted() == set scope | scope in entry.scopes;
  }

  lemma EntryNames(root: TrustRoot, key: Key, entry: TrustedKey)
    requires IsEntryOf(root, key, entry)
    ensures entry.key == key
  {
  }

  lemma CertainIsPossible(required: RequiredScopes)
    ensures required.scopes <= required.Possible()
  {
  }

  /** A verified signature by a key that no list in force names. */
  lemma UnlistedExactly(
    store: Store, verify: Verifier, record: SignatureRecord, position: Position, required: RequiredScopes,
    current: Option<TrustRoot>, stance: Stance)
    requires IsWellMade(record) && verify(record.parsed.value, position.snapshot.digest) == Verified
    ensures var outcome := Judged(store, verify, record, position, required, current, stance).outcome;
            var unlisted := position.inForce.Some? ==> IsUnlisted(position.inForce.value, record.key);
            && (outcome == UnauthorizedKey <==> unlisted && stance == Head)
            && (outcome == AttributableKey <==> unlisted && stance == Offered)
  {
    hide Relates, EntryFor, IsUnlisted, ScopeOutcome, CompromisePosition;
    if position.inForce.Some? {
      EntryExactly(position.inForce.value, record.key);
      if EntryFor(position.inForce.value, record.key).Some? {
        ScopeOutcomes(required, EntryFor(position.inForce.value, record.key).value.Granted());
      }
    }
  }

  // --- The verdict that is never reached ------------------------------------------------------------

  const FOUNDER: TrustedKey :=
    TrustedKey(0, None, [Ingest, Commit, DropCanonical, Redact, Govern], 1, None, None)

  const FOUNDING_KEYS: TrustRoot := TrustRoot(1, 1, [FOUNDER])

  /** A first version over one source, founded by one key. Its composition is filed under 2. */
  const FOUNDING: Snapshot :=
    Snapshot(1, [], map[Canonical := ModuleRef(Canonical, Root({3}), 2, 1, {}, None)], Some(FOUNDING_KEYS))

  const FOUNDING_RECORD: SignatureRecord := SignatureRecord(1, SnapshotNamespace, 0, Some(ParsedSignature(0, 0)))

  lemma FounderIsListed()
    ensures EntryFor(FOUNDING_KEYS, 0) == Some(FOUNDER) && !IsRetired(FOUNDING_KEYS, FOUNDER)
  {
  }

  /**
   An acceptance that more documents undo: without the composition the founder's signature is accepted, and with
   a document that is no composition in its place the requirement cannot be computed.
   */
  lemma MisfiledCompositionSilencesTheVerdict(signatures: map<Id, seq<Id>>, verify: Verifier, stance: Stance)
    requires verify(FOUNDING_RECORD.parsed.value, FOUNDING.digest) == Verified
    ensures var small, large := Store(map[], signatures), Store(map[2 := OtherDoc(0)], signatures);
            && Extends(small, large)
            && JudgedOver(small, verify, FOUNDING_RECORD, FOUNDING, None, stance)
               == Ok(Verdict(0, Some(0), Valid, Some(0)))
            && JudgedOver(large, verify, FOUNDING_RECORD, FOUNDING, None, stance).Err?
  {
    hide EntryFor, ScopesUpTo;
    var small, large := Store(map[], signatures), Store(map[2 := OtherDoc(0)], signatures);
    FounderIsListed();
    FoundingRequires(small);
    assert CompositionAt(large, FOUNDING, Canonical) == Malformed;
    RequirementFailsExactlyWhenMisfiled(large, FOUNDING, None);
  }

  lemma FoundingRequires(small: Store)
    requires small.docs == map[]
    ensures RequiredOver(small, FOUNDING, None).Ok?
    ensures RequiredOver(small, FOUNDING, None).value.Possible() <= FOUNDER.Granted()
  {
    hide ScopesUpTo;
    RequirementFailsExactlyWhenMisfiled(small, FOUNDING, None);
    forall scope {
      EveryModuleIsPassed(GatherEvidence(small, FOUNDING, None).value, scope);
    }
  }
}
