/** Queries over a list of authorized keys, and what construction of one refuses. */
module TrustRoots {
  import opened Common
  import opened Documents

  // --- Construction ------------------------------------------------------------

  const PROTOCOL_VERSION: int := 1

  /** A key list as somebody wrote it down. */
  datatype KeyDraft = KeyDraft(
    key: Key,
    subject: Option<nat>,
    scopes: seq<Scope>,
    since: int,
    retiredFrom: Option<int>,
    compromisedFrom: Option<Id>)

  datatype RootDraft = RootDraft(
    version: int, revision: int, namespace: Namespace, governQuorum: int, keys: seq<KeyDraft>)

  predicate RepeatsNothing(scopes: seq<Scope>) {
    forall i, j | 0 <= i < j < |scopes| :: scopes[i] != scopes[j]
  }

  predicate DraftIsCoherent(isActor: nat -> bool, draft: KeyDraft) {
    && (draft.subject.Some? ==> isActor(draft.subject.value))
    && draft.scopes != [] && RepeatsNothing(draft.scopes) && draft.since >= 1
    && (draft.retiredFrom.Some? ==> draft.retiredFrom.value > draft.since)
  }

  predicate DraftKnowsItsPositions(draft: RootDraft, entry: KeyDraft) {
    entry.since <= draft.revision && (entry.retiredFrom.Some? ==> entry.retiredFrom.value <= draft.revision)
  }

  /** A key list that may be constructed. */
  ghost predicate IsConforming(isActor: nat -> bool, draft: RootDraft) {
    && draft.version == PROTOCOL_VERSION && draft.namespace == SnapshotNamespace
    && draft.revision >= 1 && draft.governQuorum >= 1
    && (forall i | 0 <= i < |draft.keys| ::
          DraftIsCoherent(isActor, draft.keys[i]) && DraftKnowsItsPositions(draft, draft.keys[i]))
    && (forall i, j | 0 <= i < j < |draft.keys| :: draft.keys[i].key != draft.keys[j].key)
    && (exists i | 0 <= i < |draft.keys| :: Govern in draft.keys[i].scopes)
  }

  function EntryOf(draft: KeyDraft): (r: TrustedKey)
    requires draft.since >= 1 && (draft.retiredFrom.Some? ==> draft.retiredFrom.value > draft.since)
  {
    TrustedKey(draft.key, draft.subject, draft.scopes, draft.since,
               if draft.retiredFrom.Some? then Some(draft.retiredFrom.value) else None, draft.compromisedFrom)
  }

  predicate KeyIsCoherent(entry: TrustedKey) {
    && entry.scopes != [] && RepeatsNothing(entry.scopes) && entry.since >= 1
    && (entry.retiredFrom.Some? ==> entry.retiredFrom.value > entry.since)
  }

  predicate KnowsItsPositions(root: TrustRoot, entry: TrustedKey) {
    && entry.since <= root.revision
    && (entry.retiredFrom.Some? ==> entry.retiredFrom.value <= root.revision)
  }

  /** A trust root some conforming writer could have produced. */
  ghost predicate IsAdmissible(root: TrustRoot) {
    && root.revision >= 1 && root.governQuorum >= 1
    && (forall entry | entry in root.keys :: KeyIsCoherent(entry) && KnowsItsPositions(root, entry))
    && (forall i, j | 0 <= i < j < |root.keys| :: root.keys[i].key != root.keys[j].key)
    && (exists entry | entry in root.keys :: Govern in entry.scopes)
  }

  /** A list is as long as the set of its members exactly when it repeats none. */
  lemma {:induction false} RepetitionShows(scopes: seq<Scope>)
    ensures |set scope | scope in scopes| <= |scopes|
    ensures |set scope | scope in scopes| == |scopes| <==> RepeatsNothing(scopes)
  {
    var all := set scope | scope in scopes;
    if scopes != [] {
      var rest := set scope | scope in scopes[1..];
      RepetitionShows(scopes[1..]);
      assert all == rest + {scopes[0]};
      assert RepeatsNothing(scopes) <==> RepeatsNothing(scopes[1..]) && scopes[0] !in rest;
    }
  }

  /** One entry at a time: what is wrong with it by itself. */
  method CheckKey(isActor: nat -> bool, draft: KeyDraft) returns (accepted: bool)
    ensures accepted <==> DraftIsCoherent(isActor, draft)
  {
    if draft.scopes == [] || draft.since < 1 || (draft.retiredFrom.Some? && draft.retiredFrom.value < 1) {
      return false;
    }
    if draft.subject.Some? && !isActor(draft.subject.value) {
      return false;
    }
    RepetitionShows(draft.scopes);
    if |set scope | scope in draft.scopes| != |draft.scopes| {
      return false;
    }
    if draft.retiredFrom.Some? && draft.retiredFrom.value <= draft.since {
      return false;
    }
    accepted := true;
  }

  /** Construction: the entries, then what only the list shows. */
  method Validate(isActor: nat -> bool, draft: RootDraft) returns (r: Option<TrustRoot>)
    ensures r.Some? <==> IsConforming(isActor, draft)
    ensures r.Some? ==>
              && IsAdmissible(r.value)
              && r.value.revision == draft.revision && r.value.governQuorum == draft.governQuorum
              && |r.value.keys| == |draft.keys|
              && forall i | 0 <= i < |draft.keys| :: r.value.keys[i] == EntryOf(draft.keys[i])
  {
    if draft.version != PROTOCOL_VERSION || draft.revision < 1 || draft.governQuorum < 1 {
      return None;
    }
    var entries: seq<TrustedKey> := [];
    for i := 0 to |draft.keys|
      invariant |entries| == i
      invariant forall j | 0 <= j < i :: DraftIsCoherent(isActor, draft.keys[j]) && entries[j] == EntryOf(draft.keys[j])
    {
      var accepted := CheckKey(isActor, draft.keys[i]);
      if !accepted {
        return None;
      }
      entries := entries + [EntryOf(draft.keys[i])];
    }
    if draft.keys == [] || draft.namespace != SnapshotNamespace {
      return None;
    }
    var seen: set<Key> := {};
    for i := 0 to |draft.keys|
      invariant seen == set j | 0 <= j < i :: draft.keys[j].key
      invariant forall j, k | 0 <= j < k < i :: draft.keys[j].key != draft.keys[k].key
    {
      if draft.keys[i].key in seen {
        return None;
      }
      seen := seen + {draft.keys[i].key};
    }
    if !exists i | 0 <= i < |draft.keys| :: Govern in draft.keys[i].scopes {
      return None;
    }
    for i := 0 to |draft.keys|
      invariant forall j | 0 <= j < i :: DraftKnowsItsPositions(draft, draft.keys[j])
    {
      if !DraftKnowsItsPositions(draft, draft.keys[i]) {
        return None;
      }
    }
    var root := TrustRoot(draft.revision, draft.governQuorum, entries);
    ConformingIsAdmissible(isActor, draft, root);
    r := Some(root);
  }

  lemma ConformingIsAdmissible(isActor: nat -> bool, draft: RootDraft, root: TrustRoot)
    requires IsConforming(isActor, draft)
    requires root.revision == draft.revision && root.governQuorum == draft.governQuorum && |root.keys| == |draft.keys|
    requires forall i | 0 <= i < |draft.keys| ::
               DraftIsCoherent(isActor, draft.keys[i]) && root.keys[i] == EntryOf(draft.keys[i])
    ensures IsAdmissible(root)
  {
    forall entry | entry in root.keys
      ensures KeyIsCoherent(entry) && KnowsItsPositions(root, entry)
    {
      var i :| 0 <= i < |root.keys| && root.keys[i] == entry;
      assert DraftIsCoherent(isActor, draft.keys[i]) && DraftKnowsItsPositions(draft, draft.keys[i]);
    }
    var i :| 0 <= i < |draft.keys| && Govern in draft.keys[i].scopes;
    assert Govern in root.keys[i].scopes && root.keys[i] in root.keys;
  }

  // --- Queries -----------------------------------------------------------------

  /** Lookup by key; should a list name a key twice, the earlier entry answers. */
  function FirstEntry(keys: seq<TrustedKey>, key: Key): (r: Option<TrustedKey>)
    ensures r.Some? ==> r.value in keys && r.value.key == key
    ensures r.None? ==> forall entry | entry in keys :: entry.key != key
  {
    if keys == [] then None
    else if keys[0].key == key then Some(keys[0])
    else FirstEntry(keys[1..], key)
  }

  function EntryFor(root: TrustRoot, key: Key): (r: Option<TrustedKey>) {
    FirstEntry(root.keys, key)
  }

  /** The lookup answers with the first entry that lists the key, and only then. */
  lemma {:induction false} FirstEntryExactly(keys: seq<TrustedKey>, key: Key)
    ensures FirstEntry(keys, key).None? <==> forall i | 0 <= i < |keys| :: keys[i].key != key
    ensures FirstEntry(keys, key).Some? ==>
              exists i | 0 <= i < |keys| ::
                FirstEntry(keys, key) == Some(keys[i]) && forall j | 0 <= j < i :: keys[j].key != key
  {
    if keys != [] && keys[0].key != key {
      FirstEntryExactly(keys[1..], key);
      var found := FirstEntry(keys[1..], key);
      if found.Some? {
        var i :| 0 <= i < |keys[1..]| && found == Some(keys[1..][i])
          && forall j | 0 <= j < i :: keys[1..][j].key != key;
        assert keys[i + 1] == keys[1..][i];
        assert forall j | 0 < j < i + 1 :: keys[j] == keys[1..][j - 1];
      }
    } else if keys != [] {
      assert FirstEntry(keys, key) == Some(keys[0]);
    }
  }

  /** In an admissible root the lookup finds the one entry there is. */
  lemma LookupIsUnambiguous(root: TrustRoot, entry: TrustedKey)
    requires IsAdmissible(root) && entry in root.keys
    ensures EntryFor(root, entry.key) == Some(entry)
  {
    var found := EntryFor(root, entry.key).value;
    var i :| 0 <= i < |root.keys| && root.keys[i] == entry;
    var j :| 0 <= j < |root.keys| && root.keys[j] == found;
    assert root.keys[i].key == root.keys[j].key;
  }

  predicate IsRetired(root: TrustRoot, entry: TrustedKey) {
    entry.retiredFrom.Some? && root.revision >= entry.retiredFrom.value
  }

  predicate IsActiveGovernor(root: TrustRoot, key: Key) {
    && EntryFor(root, key).Some?
    && Govern in EntryFor(root, key).value.scopes
    && !IsRetired(root, EntryFor(root, key).value)
  }

  datatype SinceVerdict = Confirmed | Refuted | Unobservable

  /** A key's admission claim against the revisions observed: refuted by any that should list it and does not. */
  function ConfirmSince(observed: seq<TrustRoot>, entry: TrustedKey): (r: SinceVerdict) {
    if exists root | root in observed :: root.revision >= entry.since && EntryFor(root, entry.key).None? then Refuted
    else if exists root | root in observed :: root.revision == entry.since then Confirmed
    else Unobservable
  }

  /** The three answers, told by the entries themselves. */
  lemma SinceIsJudgedExactly(observed: seq<TrustRoot>, entry: TrustedKey)
    ensures ConfirmSince(observed, entry) == Refuted <==>
            exists root | root in observed ::
              root.revision >= entry.since && forall other | other in root.keys :: other.key != entry.key
    ensures ConfirmSince(observed, entry) == Confirmed <==>
            && (exists root | root in observed :: root.revision == entry.since)
            && forall root | root in observed && root.revision >= entry.since ::
                 exists other | other in root.keys :: other.key == entry.key
  {
    forall root: TrustRoot
      ensures EntryFor(root, entry.key).None? <==> forall other | other in root.keys :: other.key != entry.key
    {
      FirstEntryExactly(root.keys, entry.key);
    }
  }

  /** A refutation survives anything else observed, and a claim unrefuted by more was unrefuted by less. */
  lemma RefutationIsFinal(observed: seq<TrustRoot>, more: seq<TrustRoot>, entry: TrustedKey)
    requires forall root | root in observed :: root in more
    requires ConfirmSince(observed, entry) == Refuted
    ensures ConfirmSince(more, entry) == Refuted
  {
    var root :| root in observed && root.revision >= entry.since && EntryFor(root, entry.key).None?;
    assert root in more;
  }
}
