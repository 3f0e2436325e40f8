/** What a change requires of its signer, told by the documents of the two snapshots. */
module ScopeRules {
  import opened Common
  import opened Documents
  import opened Scopes

  type Modules = map<MemoryType, ModuleRef>

  /** The blocks of a module, read from a composition that reproduces the root it is filed under. */
  predicate Reads(store: Store, modules: Modules, kind: MemoryType, blocks: set<Id>) {
    && kind in modules && modules[kind].composition in store.docs
    && store.docs[modules[kind].composition].CompositionDoc?
    && store.docs[modules[kind].composition].composition.blocks == blocks
    && modules[kind].root == Root(blocks)
  }

  predicate HasMoved(before: Modules, after: Modules, kind: MemoryType) {
    || (kind in before && kind !in after)
    || (kind !in before && kind in after)
    || (kind in before && kind in after && before[kind].root != after[kind].root)
  }

  /** A block that the second version of a module holds and the first does not, both of them readable. */
  ghost predicate Adds(store: Store, before: Modules, after: Modules, kind: MemoryType, id: Id) {
    exists less, more :: Reads(store, before, kind, less) && Reads(store, after, kind, more) && id in more
      && id !in less
  }

  ghost predicate AddsSome(store: Store, before: Modules, after: Modules, kind: MemoryType) {
    exists id :: Adds(store, before, after, kind, id)
  }

  /** A provenance block that is new: in the second version, and not in the first if there is one. */
  ghost predicate IsNewRecord(store: Store, before: Modules, after: Modules, id: Id) {
    && (exists more :: Reads(store, after, Provenance, more) && id in more)
    && (Provenance in before ==> exists less :: Reads(store, before, Provenance, less) && id !in less)
  }

  predicate IsBlockThere(store: Store, id: Id) {
    id in store.docs && store.docs[id].BlockDoc?
  }

  /** All that is new in provenance can be read. */
  ghost predicate CanTellRecords(store: Store, before: Modules, after: Modules) {
    && (exists more :: Reads(store, after, Provenance, more))
    && (Provenance in before ==> exists less :: Reads(store, before, Provenance, less))
    && forall id | IsNewRecord(store, before, after, id) :: IsBlockThere(store, id)
  }

  /** Provenance is there, says it is not empty, and is not what it was. */
  predicate MayTellRedactions(before: Modules, after: Modules) {
    Provenance in after && after[Provenance].blockCount > 0 && HasMoved(before, after, Provenance)
  }

  predicate TellsRedaction(store: Store, id: Id) {
    && IsBlockThere(store, id) && store.docs[id].block.ProvenanceV1? && store.docs[id].block.entry.Removal?
    && store.docs[id].block.entry.mechanism in {Tombstone, CryptoShred, LineageRewrite}
  }

  /** A source that is marked gone and was not before. */
  predicate MarksGone(before: Modules, after: Modules, kind: MemoryType) {
    kind in after && exists id | id in after[kind].tombstones :: kind in before ==> id !in before[kind].tombstones
  }

  /** Each scope, and the change that takes it. */
  ghost predicate IsRequired(store: Store, child: Snapshot, parent: Option<Snapshot>, scope: Scope) {
    var before, after := if parent.Some? then parent.value.modules else map[], child.modules;
    match scope
    case Govern => child.trustRoot != (if parent.Some? then parent.value.trustRoot else None)
    case Commit => exists kind :: kind != Canonical && HasMoved(before, after, kind)
    case Ingest =>
      || (Canonical !in before && Canonical in after && after[Canonical].blockCount > 0)
      || (HasMoved(before, after, Canonical) && AddsSome(store, before, after, Canonical))
    case DropCanonical =>
      || (Canonical in before && Canonical !in after && before[Canonical].blockCount > 0)
      || (HasMoved(before, after, Canonical) && AddsSome(store, after, before, Canonical))
    case Redact =>
      || (exists kind :: MarksGone(before, after, kind))
      || (&& MayTellRedactions(before, after) && CanTellRecords(store, before, after)
          && exists id :: IsNewRecord(store, before, after, id) && TellsRedaction(store, id))
    case Propose => false
  }

  /** Each question, and what leaves it open. */
  ghost predicate IsOpen(store: Store, child: Snapshot, parent: Option<Snapshot>, question: ScopeQuestion) {
    var before, after := if parent.Some? then parent.value.modules else map[], child.modules;
    match question
    case ParentUnresolvable => false
    case CanonicalUnreadable =>
      && Canonical in before && Canonical in after && HasMoved(before, after, Canonical)
      && ((forall blocks :: !Reads(store, before, Canonical, blocks))
          || forall blocks :: !Reads(store, after, Canonical, blocks))
    case RedactionUndetermined => MayTellRedactions(before, after) && !CanTellRecords(store, before, after)
  }

  // --- Reading -------------------------------------------------------------------------------------------

  lemma ReadingExactly(store: Store, snapshot: Snapshot, kind: MemoryType)
    ensures var reading := CompositionAt(store, snapshot, kind);
            && (reading.NotNamed? <==> kind !in snapshot.modules)
            && (forall blocks :: Reads(store, snapshot.modules, kind, blocks) <==>
                                 reading.Held? && reading.composition.blocks == blocks)
  {
  }

  /** The blocks new in provenance, where they can be told. */
  lemma NewRecordsExactly(store: Store, child: Snapshot, parent: Option<Snapshot>, id: Id)
    ensures var before := if parent.Some? then parent.value.modules else map[];
            var reading := CompositionAt(store, child, Provenance);
            var earlier := if parent.Some? then CompositionAt(store, parent.value, Provenance) else NotNamed;
            IsNewRecord(store, before, child.modules, id) <==>
            && reading.Held? && id in reading.composition.blocks
            && (Provenance in before ==> earlier.Held? && id !in earlier.composition.blocks)
  {
    hide CompositionAt, Reads;
    ReadingExactly(store, child, Provenance);
    var reading := CompositionAt(store, child, Provenance);
    if reading.Held? {
      assert Reads(store, child.modules, Provenance, reading.composition.blocks);
    }
    if parent.Some? {
      ReadingExactly(store, parent.value, Provenance);
      var earlier := CompositionAt(store, parent.value, Provenance);
      if earlier.Held? {
        assert Reads(store, parent.value.modules, Provenance, earlier.composition.blocks);
      }
    }
  }

  lemma CanTellExactly(store: Store, child: Snapshot, parent: Option<Snapshot>)
    ensures var before := if parent.Some? then parent.value.modules else map[];
            var reading := CompositionAt(store, child, Provenance);
            var earlier := if parent.Some? then CompositionAt(store, parent.value, Provenance) else NotNamed;
            CanTellRecords(store, before, child.modules) <==>
            && reading.Held? && (Provenance in before ==> earlier.Held?)
            && forall id | IsNewRecord(store, before, child.modules, id) :: IsBlockThere(store, id)
  {
    hide CompositionAt, Reads, IsNewRecord;
    ReadingExactly(store, child, Provenance);
    var reading := CompositionAt(store, child, Provenance);
    if reading.Held? {
      assert Reads(store, child.modules, Provenance, reading.composition.blocks);
    }
    if parent.Some? {
      ReadingExactly(store, parent.value, Provenance);
      var earlier := CompositionAt(store, parent.value, Provenance);
      if earlier.Held? {
        assert Reads(store, parent.value.modules, Provenance, earlier.composition.blocks);
      }
    }
  }

  /** Where provenance moved, what was added to it is what can be told of it. */
  lemma AddedExactly(store: Store, child: Snapshot, parent: Option<Snapshot>)
    requires var before := if parent.Some? then parent.value.modules else map[];
             Provenance in child.modules && HasMoved(before, child.modules, Provenance)
    ensures var before := if parent.Some? then parent.value.modules else map[];
            var reading := CompositionAt(store, child, Provenance);
            var earlier := if parent.Some? then CompositionAt(store, parent.value, Provenance) else NotNamed;
            var added := Added(store, child, parent, reading, earlier);
            && (added.Some? <==> CanTellRecords(store, before, child.modules))
            && (added.Some? ==>
                  ((exists entry | entry in added.value :: RecordsRedaction(entry)) <==>
                   exists id :: IsNewRecord(store, before, child.modules, id) && TellsRedaction(store, id)))
  {
    hide CompositionAt, IsNewRecord, CanTellRecords;
    var before := if parent.Some? then parent.value.modules else map[];
    var reading := CompositionAt(store, child, Provenance);
    var earlier := if parent.Some? then CompositionAt(store, parent.value, Provenance) else NotNamed;
    CanTellExactly(store, child, parent);
    ReadingExactly(store, child, Provenance);
    if parent.Some? {
      ReadingExactly(store, parent.value, Provenance);
    }
    if reading.Held? && (Provenance in before ==> earlier.Held?) {
      var gained := reading.composition.blocks - if earlier.Held? then earlier.composition.blocks else {};
      assert earlier.Held? ==> Provenance in before by {
        if earlier.Held? {
          assert Reads(store, before, Provenance, earlier.composition.blocks);
        }
      }
      forall id
        ensures id in gained <==> IsNewRecord(store, before, child.modules, id)
        ensures IsBlockHeld(store, id) <==> IsBlockThere(store, id)
      {
        NewRecordsExactly(store, child, parent, id);
      }
      RedactionsAmong(store, gained);
    }
  }

  lemma RedactionsAmong(store: Store, gained: set<Id>)
    ensures (forall id | id in gained :: IsBlockHeld(store, id)) ==>
              ((exists entry | entry in EntriesOf(store, gained) :: RecordsRedaction(entry)) <==>
               exists id | id in gained :: TellsRedaction(store, id))
  {
    if id :| id in gained && TellsRedaction(store, id) {
      if forall id | id in gained :: IsBlockHeld(store, id) {
        assert store.docs[id].block.entry in EntriesOf(store, gained);
      }
    }
  }

  // --- The rule -------------------------------------------------------------------------------------------

  lemma GainsExactly(store: Store, a: Snapshot, b: Snapshot, kind: MemoryType)
    ensures Gains(CompositionAt(store, a, kind), CompositionAt(store, b, kind)) <==>
            AddsSome(store, a.modules, b.modules, kind)
  {
    hide CompositionAt, Reads;
    ReadingExactly(store, a, kind);
    ReadingExactly(store, b, kind);
    var less, more := CompositionAt(store, a, kind), CompositionAt(store, b, kind);
    if Gains(less, more) {
      var id :| id in more.composition.blocks - less.composition.blocks;
      assert Reads(store, a.modules, kind, less.composition.blocks)
             && Reads(store, b.modules, kind, more.composition.blocks);
      assert Adds(store, a.modules, b.modules, kind, id);
    }
    if id :| Adds(store, a.modules, b.modules, kind, id) {
      var from, to :| Reads(store, a.modules, kind, from) && Reads(store, b.modules, kind, to) && id in to
        && id !in from;
      assert id in more.composition.blocks - less.composition.blocks;
    }
  }

  lemma MovedExactly(before: Modules, after: Modules, kind: MemoryType)
    ensures RootsDiffer(before, after, kind) <==> HasMoved(before, after, kind)
    ensures CanonicalChanged(before, after) <==>
            Canonical in before && Canonical in after && HasMoved(before, after, Canonical)
    ensures ProvenanceAdvanced(before, after) <==> MayTellRedactions(before, after)
    ensures TombstonesOf(after, kind) - TombstonesOf(before, kind) != {} <==> MarksGone(before, after, kind)
  {
    if id :| id in TombstonesOf(after, kind) - TombstonesOf(before, kind) {
      assert id in after[kind].tombstones;
    }
    if kind in after {
      forall id | id in after[kind].tombstones && (kind in before ==> id !in before[kind].tombstones)
        ensures id in TombstonesOf(after, kind) - TombstonesOf(before, kind)
      {
      }
    }
  }

  /**
   The scopes required and the questions left open, each exactly for its cause. A parent that is named and cannot be
   had leaves everything open instead.
   */
  lemma RequirementExactly(
    store: Store, child: Snapshot, parent: Option<Snapshot>, scope: Scope, question: ScopeQuestion)
    requires RequiredOver(store, child, parent).Ok?
    ensures var required := RequiredOver(store, child, parent).value;
            if parent.None? && child.parents != [] then required == RequiredScopes({}, {ParentUnresolvable})
            else
              && (scope in required.scopes <==> IsRequired(store, child, parent, scope))
              && (question in required.undetermined <==> IsOpen(store, child, parent, question))
  {
    hide CompositionAt, Added, Required, IsRequired, IsOpen;
    var evidence := GatherEvidence(store, child, parent).value;
    if parent.None? && child.parents != [] {
      assert Required(evidence) == Ok(RequiredScopes({}, {ParentUnresolvable})) by { NothingCanBeSaid(evidence); }
    } else {
      EachScopeOver(store, child, parent, scope);
      EachQuestionOver(store, child, parent, question);
    }
  }

  lemma NothingCanBeSaid(evidence: ScopeEvidence)
    requires evidence.parent.None? && evidence.child.parents != []
    ensures Required(evidence) == Ok(RequiredScopes({}, {ParentUnresolvable}))
  {
  }

  lemma SourcesExactly(store: Store, child: Snapshot, parent: Option<Snapshot>)
    requires GatherEvidence(store, child, parent).Ok?
    ensures var evidence := GatherEvidence(store, child, parent).value;
            && (SourceGained(evidence) <==> IsRequired(store, child, parent, Ingest))
            && (SourceLost(evidence) <==> IsRequired(store, child, parent, DropCanonical))
  {
    hide CompositionAt, Added, AddsSome, HasMoved, CanonicalChanged, Gains;
    var before := if parent.Some? then parent.value.modules else map[];
    MovedExactly(before, child.modules, Canonical);
    if parent.Some? {
      GainsExactly(store, parent.value, child, Canonical);
      GainsExactly(store, child, parent.value, Canonical);
    }
    AddsNeedBoth(store, before, child.modules);
    AddsNeedBoth(store, child.modules, before);
  }

  lemma AddsNeedBoth(store: Store, before: Modules, after: Modules)
    ensures AddsSome(store, before, after, Canonical) ==> Canonical in before && Canonical in after
  {
  }

  lemma EachScopeOver(store: Store, child: Snapshot, parent: Option<Snapshot>, scope: Scope)
    requires RequiredOver(store, child, parent).Ok? && (parent.Some? || child.parents == [])
    ensures scope in RequiredOver(store, child, parent).value.scopes <==> IsRequired(store, child, parent, scope)
  {
    hide CompositionAt, Added, Required, Adds, HasMoved, RootsDiffer, TombstonesOf, SourceGained, SourceLost, AddsSome,
         BetraysRedaction, MayTellRedactions, CanTellRecords, MarksGone, IsNewRecord, TellsRedaction;
    var evidence := GatherEvidence(store, child, parent).value;
    var before := if parent.Some? then parent.value.modules else map[];
    EachScopeExactly(evidence);
    forall kind
      ensures RootsDiffer(before, child.modules, kind) <==> HasMoved(before, child.modules, kind)
      ensures TombstonesOf(child.modules, kind) - TombstonesOf(before, kind) != {} <==>
              MarksGone(before, child.modules, kind)
    {
      MovedExactly(before, child.modules, kind);
    }
    SourcesExactly(store, child, parent);
    BetraysExactly(store, child, parent);
  }

  lemma BetraysExactly(store: Store, child: Snapshot, parent: Option<Snapshot>)
    requires GatherEvidence(store, child, parent).Ok?
    ensures var evidence := GatherEvidence(store, child, parent).value;
            var before, after := if parent.Some? then parent.value.modules else map[], child.modules;
            && (BetraysRedaction(evidence) <==>
                && MayTellRedactions(before, after) && CanTellRecords(store, before, after)
                && exists id :: IsNewRecord(store, before, after, id) && TellsRedaction(store, id))
            && (HidesRedaction(evidence) <==>
                MayTellRedactions(before, after) && !CanTellRecords(store, before, after))
  {
    hide CompositionAt, Added, CanTellRecords, IsNewRecord, TellsRedaction, ProvenanceAdvanced, HasMoved,
         RecordsRedaction;
    var before := if parent.Some? then parent.value.modules else map[];
    MovedExactly(before, child.modules, Provenance);
    if MayTellRedactions(before, child.modules) {
      AddedExactly(store, child, parent);
    }
  }

  lemma EachQuestionOver(store: Store, child: Snapshot, parent: Option<Snapshot>, question: ScopeQuestion)
    requires RequiredOver(store, child, parent).Ok? && (parent.Some? || child.parents == [])
    ensures question in RequiredOver(store, child, parent).value.undetermined <==>
            IsOpen(store, child, parent, question)
  {
    hide CompositionAt, Added, HasMoved, CanonicalChanged, Reads, MayTellRedactions, CanTellRecords, HidesRedaction,
         GovernScopes, ScopesUpTo, BetraysRedaction, IsMixed;
    var before := if parent.Some? then parent.value.modules else map[];
    MovedExactly(before, child.modules, Canonical);
    BetraysExactly(store, child, parent);
    ReadableExactly(store, child, Canonical);
    if parent.Some? {
      ReadableExactly(store, parent.value, Canonical);
    }
  }

  lemma ReadableExactly(store: Store, snapshot: Snapshot, kind: MemoryType)
    ensures CompositionAt(store, snapshot, kind).Held? <==>
            exists blocks :: Reads(store, snapshot.modules, kind, blocks)
  {
    hide CompositionAt, Reads;
    ReadingExactly(store, snapshot, kind);
    var reading := CompositionAt(store, snapshot, kind);
    if reading.Held? {
      assert Reads(store, snapshot.modules, kind, reading.composition.blocks);
    }
  }

  // --- Where no requirement is reached --------------------------------------------------------------------

  /** Something else is held where a composition is expected. */
  predicate IsMisplaced(store: Store, modules: Modules, kind: MemoryType) {
    kind in modules && modules[kind].composition in store.docs && !store.docs[modules[kind].composition].CompositionDoc?
  }

  /** Two readable canonical versions that are not of one module. */
  predicate IsMixedUp(store: Store, before: Modules, after: Modules) {
    exists less, more | less in store.docs && more in store.docs ::
      && Canonical in before && before[Canonical].composition == less && store.docs[less].CompositionDoc?
      && Canonical in after && after[Canonical].composition == more && store.docs[more].CompositionDoc?
      && before[Canonical].root == Root(store.docs[less].composition.blocks)
      && after[Canonical].root == Root(store.docs[more].composition.blocks)
      && before[Canonical].root != after[Canonical].root
      && store.docs[less].composition.memoryType != store.docs[more].composition.memoryType
  }

  /** No requirement is reached exactly when evidence is misplaced or mixed up. */
  lemma RequirementFailsExactly(store: Store, child: Snapshot, parent: Option<Snapshot>)
    ensures RequiredOver(store, child, parent).Err? <==>
            || IsMisplaced(store, child.modules, Canonical) || IsMisplaced(store, child.modules, Provenance)
            || (parent.Some? && (IsMisplaced(store, parent.value.modules, Canonical)
                                 || IsMisplaced(store, parent.value.modules, Provenance)
                                 || IsMixedUp(store, parent.value.modules, child.modules)))
  {
    hide RequiredOver;
    RequirementFailsExactlyWhenMisfiled(store, child, parent);
  }
}
