/** The scopes a snapshot's change required, computed fail-closed from what could be read. */
module Scopes {
  import opened Common
  import opened Documents

  datatype ScopeQuestion = ParentUnresolvable | CanonicalUnreadable | RedactionUndetermined

  /** The scopes that an unanswered question might turn out to need. */
  function QuestionScopes(question: ScopeQuestion): (r: set<Scope>) {
    match question
    case ParentUnresolvable => {Ingest, Commit, DropCanonical, Redact, Govern}
    case CanonicalUnreadable => {Ingest, DropCanonical}
    case RedactionUndetermined => {Redact}
  }

  /** The scopes certainly required, and the questions the evidence leaves open. */
  datatype RequiredScopes = RequiredScopes(scopes: set<Scope>, undetermined: set<ScopeQuestion>) {
    /** The worst case: what is certain and whatever the open questions could add. */
    function Possible(): (r: set<Scope>) {
      scopes
      + (if ParentUnresolvable in undetermined then QuestionScopes(ParentUnresolvable) else {})
      + (if CanonicalUnreadable in undetermined then QuestionScopes(CanonicalUnreadable) else {})
      + (if RedactionUndetermined in undetermined then QuestionScopes(RedactionUndetermined) else {})
    }
  }

  /** What a requirement might come to, scope by scope. */
  lemma PossibleExactly(required: RequiredScopes, scope: Scope)
    ensures scope in required.Possible() <==>
            || scope in required.scopes
            || (ParentUnresolvable in required.undetermined && scope != Propose)
            || (CanonicalUnreadable in required.undetermined && (scope == Ingest || scope == DropCanonical))
            || (RedactionUndetermined in required.undetermined && scope == Redact)
  {
  }

  // --- Evidence ----------------------------------------------------------------

  /** Faults the gathering does not absorb: they escape as exceptions and no verdict is reached. */
  datatype Fault = MalformedComposition | MixedModules

  /** One module's composition at one snapshot. */
  datatype CompositionReading = NotNamed | Unreadable | Malformed | Held(composition: Composition)

  function CompositionAt(store: Store, snapshot: Snapshot, kind: MemoryType): (r: CompositionReading) {
    if kind !in snapshot.modules then NotNamed
    else
      var reference := snapshot.modules[kind];
      if reference.composition !in store.docs then Unreadable
      else
        match store.docs[reference.composition]
        case CompositionDoc(composition) =>
          if Root(composition.blocks) != reference.root then Unreadable else Held(composition)
        case _ => Malformed
  }

  /** The entries of the version-1 provenance blocks added, or nothing when they cannot be established. */
  type AddedProvenance = Option<set<Entry>>

  datatype ScopeEvidence = ScopeEvidence(
    child: Snapshot,
    parent: Option<Snapshot>,
    childCanonical: CompositionReading,
    parentCanonical: CompositionReading,
    added: AddedProvenance)

  predicate IsBlockHeld(store: Store, id: Id) {
    id in store.docs && store.docs[id].BlockDoc?
  }

  function EntriesOf(store: Store, ids: set<Id>): (r: set<Entry>)
    requires forall id | id in ids :: IsBlockHeld(store, id)
  {
    set id | id in ids && IsBlockHeld(store, id) && store.docs[id].block.ProvenanceV1? :: store.docs[id].block.entry
  }

  /** The provenance the child added over its parent, given both provenance compositions. */
  function Added(store: Store, child: Snapshot, parent: Option<Snapshot>,
                 childReading: CompositionReading, parentReading: CompositionReading): (r: AddedProvenance)
  {
    var before := if parent.Some? && Provenance in parent.value.modules then Some(parent.value.modules[Provenance])
      else None;
    if Provenance !in child.modules then Some({})
    else if before.Some? && child.modules[Provenance].root == before.value.root then Some({})
    else if !childReading.Held? || (before.Some? && !parentReading.Held?) then None
    else
      var carried := if parentReading.Held? then parentReading.composition.blocks else {};
      var gained := childReading.composition.blocks - carried;
      if forall id | id in gained :: IsBlockHeld(store, id) then Some(EntriesOf(store, gained)) else None
  }

  /** The loop that collects them, one block at a time. */
  method CollectAdded(store: Store, gained: set<Id>) returns (added: AddedProvenance)
    ensures added == if forall id | id in gained :: IsBlockHeld(store, id) then Some(EntriesOf(store, gained)) else None
  {
    var entries: set<Entry> := {};
    var left := gained;
    while left != {}
      invariant left <= gained && forall id | id in gained - left :: IsBlockHeld(store, id)
      invariant entries == EntriesOf(store, gained - left)
      decreases left
    {
      var id :| id in left;
      if !IsBlockHeld(store, id) {
        return None;
      }
      left := left - {id};
      assert gained - left == (gained - (left + {id})) + {id};
      if store.docs[id].block.ProvenanceV1? {
        entries := entries + {store.docs[id].block.entry};
      }
    }
    assert gained - left == gained;
    added := Some(entries);
  }

  function GatherEvidence(store: Store, child: Snapshot, parent: Option<Snapshot>): (r: Result<ScopeEvidence, Fault>) {
    var childCanonical := CompositionAt(store, child, Canonical);
    var childProvenance := CompositionAt(store, child, Provenance);
    var parentCanonical := if parent.Some? then CompositionAt(store, parent.value, Canonical) else NotNamed;
    var parentProvenance := if parent.Some? then CompositionAt(store, parent.value, Provenance) else NotNamed;
    if Malformed in {childCanonical, childProvenance, parentCanonical, parentProvenance} then Err(MalformedComposition)
    else
      Ok(ScopeEvidence(child, parent, childCanonical, parentCanonical,
                       Added(store, child, parent, childProvenance, parentProvenance)))
  }

  // --- The rule ----------------------------------------------------------------

  function ModulesOf(snapshot: Option<Snapshot>): (r: map<MemoryType, ModuleRef>) {
    if snapshot.Some? then snapshot.value.modules else map[]
  }

  function TombstonesOf(modules: map<MemoryType, ModuleRef>, kind: MemoryType): (r: set<Id>) {
    if kind in modules then modules[kind].tombstones else {}
  }

  predicate RootsDiffer(before: map<MemoryType, ModuleRef>, after: map<MemoryType, ModuleRef>, kind: MemoryType) {
    && (kind in before || kind in after)
    && !(kind in before && kind in after && before[kind].root == after[kind].root)
  }

  /** What one module's change demands, apart from the canonical difference that needs compositions. */
  function ModuleScopes(before: map<MemoryType, ModuleRef>, after: map<MemoryType, ModuleRef>, kind: MemoryType)
    : (r: set<Scope>)
  {
    (if TombstonesOf(after, kind) - TombstonesOf(before, kind) != {} then {Redact} else {})
    + (if kind != Canonical && RootsDiffer(before, after, kind) then {Commit} else {})
    + (if kind == Canonical && kind !in before && kind in after && after[kind].blockCount > 0 then {Ingest} else {})
    + (if kind == Canonical && kind in before && kind !in after && before[kind].blockCount > 0
       then {DropCanonical} else {})
  }

  /** Whether the canonical module changed in place, so that its difference has to be read. */
  predicate CanonicalChanged(before: map<MemoryType, ModuleRef>, after: map<MemoryType, ModuleRef>) {
    Canonical in before && Canonical in after && before[Canonical].root != after[Canonical].root
  }

  function CanonicalScopes(before: set<Id>, after: set<Id>): (r: set<Scope>) {
    (if after - before != {} then {Ingest} else {}) + (if before - after != {} then {DropCanonical} else {})
  }

  predicate ProvenanceAdvanced(before: map<MemoryType, ModuleRef>, after: map<MemoryType, ModuleRef>) {
    && Provenance in after && after[Provenance].blockCount > 0
    && (Provenance in before ==> after[Provenance].root != before[Provenance].root)
  }

  predicate RecordsRedaction(entry: Entry) {
    entry.Removal? && entry.mechanism.IsRedaction()
  }

  predicate IsReadable(evidence: ScopeEvidence) {
    evidence.parentCanonical.Held? && evidence.childCanonical.Held?
  }

  /** Two readable canonical compositions of which one is not canonical at all. */
  predicate IsMixed(evidence: ScopeEvidence) {
    && CanonicalChanged(ModulesOf(evidence.parent), evidence.child.modules) && IsReadable(evidence)
    && evidence.parentCanonical.composition.memoryType != evidence.childCanonical.composition.memoryType
  }

  /** What one module demands, the canonical difference included where it could be read. */
  function KindScopes(evidence: ScopeEvidence, kind: MemoryType): (r: set<Scope>) {
    var before, after := ModulesOf(evidence.parent), evidence.child.modules;
    ModuleScopes(before, after, kind)
    + (if kind == Canonical && CanonicalChanged(before, after) && IsReadable(evidence)
       then CanonicalScopes(evidence.parentCanonical.composition.blocks, evidence.childCanonical.composition.blocks)
       else {})
  }

  function ScopesUpTo(evidence: ScopeEvidence, count: nat): (r: set<Scope>)
    requires count <= |ALL_MODULES|
  {
    if count == 0 then {} else ScopesUpTo(evidence, count - 1) + KindScopes(evidence, ALL_MODULES[count - 1])
  }

  function GovernScopes(evidence: ScopeEvidence): (r: set<Scope>) {
    var authority := if evidence.parent.Some? then evidence.parent.value.trustRoot else None;
    if evidence.child.trustRoot != authority then {Govern} else {}
  }

  function CanonicalQuestions(evidence: ScopeEvidence): (r: set<ScopeQuestion>) {
    if CanonicalChanged(ModulesOf(evidence.parent), evidence.child.modules) && !IsReadable(evidence)
    then {CanonicalUnreadable} else {}
  }

  /** The compatibility path: a redaction only a provenance record betrays. */
  predicate BetraysRedaction(evidence: ScopeEvidence) {
    && ProvenanceAdvanced(ModulesOf(evidence.parent), evidence.child.modules)
    && evidence.added.Some? && exists entry | entry in evidence.added.value :: RecordsRedaction(entry)
  }

  predicate HidesRedaction(evidence: ScopeEvidence) {
    ProvenanceAdvanced(ModulesOf(evidence.parent), evidence.child.modules) && evidence.added.None?
  }

  function Required(evidence: ScopeEvidence): (r: Result<RequiredScopes, Fault>) {
    if evidence.parent.None? && evidence.child.FirstParent().Some? then
      Ok(RequiredScopes({}, {ParentUnresolvable}))
    else if IsMixed(evidence) then Err(MixedModules)
    else
      Ok(RequiredScopes(
           GovernScopes(evidence) + ScopesUpTo(evidence, |ALL_MODULES|)
           + (if BetraysRedaction(evidence) then {Redact} else {}),
           CanonicalQuestions(evidence) + (if HidesRedaction(evidence) then {RedactionUndetermined} else {})))
  }

  /** The rule as it runs: one pass over the modules, collecting scopes and questions. */
  method ComputeRequired(evidence: ScopeEvidence) returns (r: Result<RequiredScopes, Fault>)
    ensures r == Required(evidence)
  {
    hide ModuleScopes, CanonicalScopes, CanonicalChanged, ProvenanceAdvanced;
    if evidence.parent.None? && evidence.child.FirstParent().Some? {
      return Ok(RequiredScopes({}, {ParentUnresolvable}));
    }
    var before, after := ModulesOf(evidence.parent), evidence.child.modules;
    var scopes := GovernScopes(evidence);
    var questions: set<ScopeQuestion> := {};
    for i := 0 to |ALL_MODULES|
      invariant i > 0 ==> !IsMixed(evidence)
      invariant scopes == GovernScopes(evidence) + ScopesUpTo(evidence, i)
      invariant questions == if i > 0 then CanonicalQuestions(evidence) else {}
    {
      var kind := ALL_MODULES[i];
      scopes := scopes + ModuleScopes(before, after, kind);
      if kind == Canonical && CanonicalChanged(before, after) {
        if !IsReadable(evidence) {
          questions := questions + {CanonicalUnreadable};
        } else if evidence.parentCanonical.composition.memoryType != evidence.childCanonical.composition.memoryType {
          return Err(MixedModules);
        } else {
          scopes := scopes + CanonicalScopes(evidence.parentCanonical.composition.blocks,
                                             evidence.childCanonical.composition.blocks);
        }
      }
    }
    if ProvenanceAdvanced(before, after) {
      if evidence.added.None? {
        questions := questions + {RedactionUndetermined};
      } else if exists entry | entry in evidence.added.value :: RecordsRedaction(entry) {
        scopes := scopes + {Redact};
      }
    }
    assert !IsMixed(evidence);
    assert scopes == Required(evidence).value.scopes;
    assert questions == Required(evidence).value.undetermined;
    r := Ok(RequiredScopes(scopes, questions));
  }

  lemma {:induction false} ScopeOfSomeModule(evidence: ScopeEvidence, count: nat, scope: Scope)
    requires count <= |ALL_MODULES|
    ensures scope in ScopesUpTo(evidence, count) <==>
            exists i | 0 <= i < count :: scope in KindScopes(evidence, ALL_MODULES[i])
  {
    hide KindScopes;
    if count > 0 {
      ScopeOfSomeModule(evidence, count - 1, scope);
    }
  }

  lemma EveryModuleIsPassed(evidence: ScopeEvidence, scope: Scope)
    ensures scope in ScopesUpTo(evidence, |ALL_MODULES|) <==> exists kind :: scope in KindScopes(evidence, kind)
  {
    hide KindScopes, ScopesUpTo;
    ScopeOfSomeModule(evidence, |ALL_MODULES|, scope);
    if kind :| scope in KindScopes(evidence, kind) {
      EveryModuleIsListed(kind);
    }
  }

  /** Blocks of the canonical module that one reading holds and another does not. */
  predicate Gains(less: CompositionReading, more: CompositionReading) {
    less.Held? && more.Held? && more.composition.blocks - less.composition.blocks != {}
  }

  predicate SourceGained(evidence: ScopeEvidence) {
    var before, after := ModulesOf(evidence.parent), evidence.child.modules;
    || (Canonical !in before && Canonical in after && after[Canonical].blockCount > 0)
    || (CanonicalChanged(before, after) && Gains(evidence.parentCanonical, evidence.childCanonical))
  }

  predicate SourceLost(evidence: ScopeEvidence) {
    var before, after := ModulesOf(evidence.parent), evidence.child.modules;
    || (Canonical in before && Canonical !in after && before[Canonical].blockCount > 0)
    || (CanonicalChanged(before, after) && Gains(evidence.childCanonical, evidence.parentCanonical))
  }

  lemma ScopesOfOneModule(evidence: ScopeEvidence, kind: MemoryType)
    ensures var scopes := KindScopes(evidence, kind);
            var before, after := ModulesOf(evidence.parent), evidence.child.modules;
            && Govern !in scopes && Propose !in scopes
            && (Commit in scopes <==> kind != Canonical && RootsDiffer(before, after, kind))
            && (Redact in scopes <==> TombstonesOf(after, kind) - TombstonesOf(before, kind) != {})
            && (Ingest in scopes <==> kind == Canonical && SourceGained(evidence))
            && (DropCanonical in scopes <==> kind == Canonical && SourceLost(evidence))
  {
  }

  /** What each scope is required for, when the parent could be resolved. */
  lemma EachScopeExactly(evidence: ScopeEvidence)
    requires Required(evidence).Ok? && (evidence.parent.Some? || evidence.child.FirstParent().None?)
    ensures var scopes := Required(evidence).value.scopes;
            var before, after := ModulesOf(evidence.parent), evidence.child.modules;
            && (Govern in scopes <==>
                  evidence.child.trustRoot != if evidence.parent.Some? then evidence.parent.value.trustRoot else None)
            && (Commit in scopes <==> exists kind :: kind != Canonical && RootsDiffer(before, after, kind))
            && (Redact in scopes <==>
                  (exists kind :: TombstonesOf(after, kind) - TombstonesOf(before, kind) != {})
                    || BetraysRedaction(evidence))
            && (Ingest in scopes <==> SourceGained(evidence))
            && (DropCanonical in scopes <==> SourceLost(evidence))
            && Propose !in scopes
  {
    hide ScopesUpTo, BetraysRedaction, HidesRedaction, RootsDiffer, TombstonesOf, KindScopes, SourceGained, SourceLost,
         IsMixed, CanonicalQuestions;
    forall kind {
      ScopesOfOneModule(evidence, kind);
    }
    ScopesOfOneModule(evidence, Canonical);
    EveryModuleIsPassed(evidence, Govern);
    EveryModuleIsPassed(evidence, Commit);
    EveryModuleIsPassed(evidence, Redact);
    EveryModuleIsPassed(evidence, Ingest);
    EveryModuleIsPassed(evidence, DropCanonical);
    EveryModuleIsPassed(evidence, Propose);
  }

  /** The requirement over a store, faults included. */
  function RequiredOver(store: Store, child: Snapshot, parent: Option<Snapshot>): (r: Result<RequiredScopes, Fault>) {
    var evidence :- GatherEvidence(store, child, parent);
    Required(evidence)
  }

  // --- What more evidence can change ---------------------------------------------------

  lemma ReadingGrows(small: Store, large: Store, snapshot: Snapshot, kind: MemoryType)
    requires Extends(small, large)
    ensures CompositionAt(small, snapshot, kind).Held? ==>
              CompositionAt(large, snapshot, kind) == CompositionAt(small, snapshot, kind)
    ensures CompositionAt(small, snapshot, kind).NotNamed? <==> CompositionAt(large, snapshot, kind).NotNamed?
  {
  }

  lemma AddedGrows(small: Store, large: Store, child: Snapshot, parent: Option<Snapshot>)
    requires Extends(small, large) && GatherEvidence(small, child, parent).Ok?
             && GatherEvidence(large, child, parent).Ok?
    requires GatherEvidence(small, child, parent).value.added.Some?
    ensures GatherEvidence(large, child, parent).value.added == GatherEvidence(small, child, parent).value.added
  {
    ReadingGrows(small, large, child, Provenance);
    if parent.Some? { ReadingGrows(small, large, parent.value, Provenance); }
    var childReading := CompositionAt(small, child, Provenance);
    var parentReading := if parent.Some? then CompositionAt(small, parent.value, Provenance) else NotNamed;
    if childReading.Held? {
      var carried := if parentReading.Held? then parentReading.composition.blocks else {};
      var gained := childReading.composition.blocks - carried;
      if forall id | id in gained :: IsBlockHeld(small, id) {
        assert forall id | id in gained :: IsBlockHeld(large, id);
        assert EntriesOf(large, gained) == EntriesOf(small, gained);
      }
    }
  }

  /** Two bodies of evidence for one change, the second read from a store that holds more. */
  ghost predicate Narrows(less: ScopeEvidence, more: ScopeEvidence) {
    && less.child == more.child && less.parent == more.parent
    && (less.childCanonical.Held? ==> more.childCanonical == less.childCanonical)
    && (less.parentCanonical.Held? ==> more.parentCanonical == less.parentCanonical)
    && (less.added.Some? ==> more.added == less.added)
  }

  lemma {:induction false} ScopesGrow(less: ScopeEvidence, more: ScopeEvidence, count: nat)
    requires Narrows(less, more) && count <= |ALL_MODULES|
    ensures ScopesUpTo(less, count) <= ScopesUpTo(more, count)
    ensures ScopesUpTo(more, count) <=
            ScopesUpTo(less, count) + if CanonicalQuestions(less) == {} then {} else {Ingest, DropCanonical}
  {
    hide ModuleScopes, CanonicalChanged;
    if count > 0 { ScopesGrow(less, more, count - 1); }
  }

  lemma RequirementNarrows(less: ScopeEvidence, more: ScopeEvidence)
    requires Narrows(less, more) && Required(less).Ok? && Required(more).Ok?
    ensures Required(less).value.scopes <= Required(more).value.scopes
    ensures Required(more).value.Possible() <= Required(less).value.Possible()
  {
    hide ModuleScopes, CanonicalChanged, ProvenanceAdvanced, RecordsRedaction, ScopesUpTo;
    ScopesGrow(less, more, |ALL_MODULES|);
  }

  /**
   With more evidence, what is certainly required only grows and what is possibly required only shrinks,
   for the same snapshot against the same parent document.
   */
  lemma EvidenceNarrowsTheRequirement(small: Store, large: Store, child: Snapshot, parent: Option<Snapshot>)
    requires Extends(small, large)
    requires RequiredOver(small, child, parent).Ok? && RequiredOver(large, child, parent).Ok?
    ensures RequiredOver(small, child, parent).value.scopes <= RequiredOver(large, child, parent).value.scopes
    ensures RequiredOver(large, child, parent).value.Possible() <= RequiredOver(small, child, parent).value.Possible()
  {
    hide CompositionAt, Added, Required;
    ReadingGrows(small, large, child, Canonical);
    if parent.Some? { ReadingGrows(small, large, parent.value, Canonical); }
    if GatherEvidence(small, child, parent).value.added.Some? { AddedGrows(small, large, child, parent); }
    RequirementNarrows(GatherEvidence(small, child, parent).value, GatherEvidence(large, child, parent).value);
  }

  /** The compositions a requirement reads, misfiled: the one way a requirement cannot be computed. */
  ghost predicate Misfiled(store: Store, child: Snapshot, parent: Option<Snapshot>) {
    || CompositionAt(store, child, Canonical) == Malformed || CompositionAt(store, child, Provenance) == Malformed
    || (parent.Some? &&
        (|| CompositionAt(store, parent.value, Canonical) == Malformed
         || CompositionAt(store, parent.value, Provenance) == Malformed
         || (&& CompositionAt(store, child, Canonical).Held? && CompositionAt(store, parent.value, Canonical).Held?
             && child.modules[Canonical].root != parent.value.modules[Canonical].root
             && CompositionAt(store, child, Canonical).composition.memoryType
                != CompositionAt(store, parent.value, Canonical).composition.memoryType)))
  }

  lemma RequirementFailsExactlyWhenMisfiled(store: Store, child: Snapshot, parent: Option<Snapshot>)
    ensures RequiredOver(store, child, parent).Err? <==> Misfiled(store, child, parent)
  {
  }
}
