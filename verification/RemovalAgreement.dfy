/** Writer and verifier agree on removals: what the write path produces, the removal check accepts. */
module RemovalAgreement {
  import opened Common
  import opened Documents
  import opened Hashing
  import opened Scopes
  import opened Removals
  import opened Paths
  import opened Writer
  import opened Cascade
  import opened Drops

  /** What one write leaves behind, whatever it was asked. */
  ghost predicate IsSuccessor(
    hash: Hash, meaning: Id -> Document, state: State, request: Request, next: State, refs: map<MemoryType, ModuleRef>)
  {
    && Holds(next.store.docs, meaning) && Grows(state.store.docs, next.store.docs)
    && next.store.signatures == state.store.signatures
    && next.started && LoadSnapshot(next.store, next.head.digest) == Some(next.head)
    && next.head.parents == (if state.started then [state.head.digest] else [])
    && next.head.trustRoot == state.head.trustRoot
    && next.head.modules == (if state.started then state.head.modules + refs else refs)
    && (forall kind :: kind in refs <==> request.Touches(kind))
    && ArePersisted(hash, next.store.docs, state.head, request, refs)
  }

  lemma AdvancedHolds(hash: Hash, meaning: Id -> Document, state: State, description: Description)
    requires IsFaithful(hash, meaning) && Holds(state.store.docs, meaning)
    ensures var next := Advanced(hash, state, description);
            && Holds(next.store.docs, meaning) && Grows(state.store.docs, next.store.docs)
            && LoadSnapshot(next.store, next.head.digest) == Some(next.head)
            && next == state.(store := next.store, head := SnapshotOf(hash, description), started := true)
            && next.store.signatures == state.store.signatures
  {
    var snapshot := SnapshotOf(hash, description);
    PutGrows(state.store.docs, snapshot.digest, SnapshotDoc(snapshot), meaning);
  }

  /** A write either publishes a successor or leaves the head where it was; documents are only ever added. */
  lemma WrittenSucceeds(hash: Hash, meaning: Id -> Document, state: State, request: Request, stamp: nat)
    requires IsFaithful(hash, meaning) && Holds(state.store.docs, meaning)
    ensures var (next, r) := Written(hash, state, request, stamp);
            if r.Ok? then r.value == next.head && exists refs :: IsSuccessor(hash, meaning, state, request, next, refs)
            else next == state.(store := next.store) && next.store.signatures == state.store.signatures
                 && Holds(next.store.docs, meaning) && Grows(state.store.docs, next.store.docs)
  {
    hide WriteKinds, IsFaithful, Advanced, ArePersisted, Request.Touches;
    var kinds := TouchedFrom(request, ALL_MODULES);
    var progress := WriteKinds(hash, state.store.docs, state.head, request, kinds, map[]);
    assert ArePersisted(hash, state.store.docs, state.head, request, map[]) by {
      NothingIsPersisted(hash, state.store.docs, state.head, request);
    }
    WriteKindsPersist(hash, meaning, state.store.docs, state.head, request, kinds, map[]);
    if progress.refs.Ok? {
      var refs := progress.refs.value;
      var stored := state.(store := state.store.(docs := progress.docs));
      var description := NextDescription(state, refs, stamp);
      AdvancedHolds(hash, meaning, stored, description);
      var next := Advanced(hash, stored, description);
      GrowthComposes(state.store.docs, progress.docs, next.store.docs);
      AllPersistedGrow(hash, progress.docs, next.store.docs, state.head, request, refs);
      forall kind
        ensures kind in refs <==> request.Touches(kind)
      {
        EveryModuleIsListed(kind);
      }
      assert IsSuccessor(hash, meaning, state, request, next, refs);
    }
  }

  lemma NothingIsPersisted(hash: Hash, docs: map<Id, Document>, head: Snapshot, request: Request)
    ensures ArePersisted(hash, docs, head, request, map[])
  {
  }

  lemma AllPersistedGrow(
    hash: Hash, before: map<Id, Document>, after: map<Id, Document>, head: Snapshot, request: Request,
    refs: map<MemoryType, ModuleRef>)
    requires Grows(before, after) && ArePersisted(hash, before, head, request, refs)
    ensures ArePersisted(hash, after, head, request, refs)
  {
    hide IsPersisted;
    forall kind | kind in refs
      ensures IsPersisted(hash, after, head, request, kind, refs[kind])
    {
      PersistedGrows(hash, before, after, head, request, kind, refs[kind]);
    }
  }

  // --- What a write loses ----------------------------------------------------------------------

  /** Blocks a module held under its own name before the write and was told to exclude. */
  predicate IsLost(docs: map<Id, Document>, head: Snapshot, request: Request, kind: MemoryType, block: Id) {
    && kind in head.modules && head.modules[kind].memoryType == kind && kind in request.without
    && OpenModule(docs, head, kind).Ok? && block in OpenModule(docs, head, kind).value.members
    && block in request.without[kind]
  }

  predicate IsLoss(docs: map<Id, Document>, before: map<MemoryType, ModuleRef>, after: map<MemoryType, ModuleRef>,
                   kind: MemoryType, block: Id)
  {
    kind in before && ChangeOf(docs, before, after, kind).Lost? && block in ChangeOf(docs, before, after, kind).blocks
  }

  lemma LossIsExclusion(
    hash: Hash, docs: map<Id, Document>, head: Snapshot, request: Request, refs: map<MemoryType, ModuleRef>,
    kind: MemoryType, block: Id)
    requires ArePersisted(hash, docs, head, request, refs) && forall k :: k in refs <==> request.Touches(k)
    ensures IsLoss(docs, head.modules, head.modules + refs, kind, block) <==> IsLost(docs, head, request, kind, block)
  {
    if kind in head.modules && kind in refs {
      assert IsPersisted(hash, docs, head, request, kind, refs[kind]);
      TouchedChange(hash, docs, head, request, refs[kind], kind, block, head.modules + refs);
    }
  }

  lemma TouchedChange(
    hash: Hash, docs: map<Id, Document>, head: Snapshot, request: Request, reference: ModuleRef, kind: MemoryType,
    block: Id, after: map<MemoryType, ModuleRef>)
    requires kind in head.modules && IsPersisted(hash, docs, head, request, kind, reference)
    requires kind in after && after[kind] == reference
    ensures IsLoss(docs, head.modules, after, kind, block) <==> IsLost(docs, head, request, kind, block)
  {
    hide Request.Items, IdsOf;
    var before := head.modules[kind];
    var held := OpenModule(docs, head, kind).value.members;
    var kept := MembersAfter(hash, docs, head, request, kind);
    assert before.root == Root(held) && reference.root == Root(kept);
    if before.memoryType == kind {
      assert ReadComposition(docs, before) == Some(Composition(kind, held));
      assert block in held && block in request.Excluded(kind) ==> kept != held;
    } else {
      assert ReadComposition(docs, before).None?;
      assert !IsLoss(docs, head.modules, after, kind, block);
    }
  }

  // --- What the ledger says afterwards ------------------------------------------------------------

  /** The provenance of the new version. */
  function LedgerAfter(hash: Hash, docs: map<Id, Document>, head: Snapshot, request: Request): (r: set<Id>) {
    if request.Touches(Provenance) && OpenModule(docs, head, Provenance).Ok?
    then MembersAfter(hash, docs, head, request, Provenance)
    else Ledger(docs, head.modules)
  }

  lemma LedgerIs(
    hash: Hash, docs: map<Id, Document>, head: Snapshot, request: Request, refs: map<MemoryType, ModuleRef>)
    requires ArePersisted(hash, docs, head, request, refs) && forall k :: k in refs <==> request.Touches(k)
    ensures Ledger(docs, head.modules + refs) == LedgerAfter(hash, docs, head, request)
  {
    if Provenance in refs {
      assert IsPersisted(hash, docs, head, request, Provenance, refs[Provenance]);
    }
  }

  /**
   A written version passes the removal check against its first parent, in the store it was written to and in
   any larger one, exactly when every block it was told to exclude, and that was there, is named by a removal
   record in the provenance it was left with.
   */
  lemma WriteIsAcceptedExactly(
    hash: Hash, meaning: Id -> Document, state: State, request: Request, stamp: nat, later: map<Id, Document>)
    requires IsFaithful(hash, meaning) && Holds(state.store.docs, meaning) && state.started
    requires Written(hash, state, request, stamp).1.Ok?
    requires Grows(Written(hash, state, request, stamp).0.store.docs, later)
    ensures var next := Written(hash, state, request, stamp).0.head;
            Checked(later, next, Some(state.head)).IsValid() <==>
            forall kind, block | IsLost(later, state.head, request, kind, block)
              :: IsRecordedIn(later, LedgerAfter(hash, later, state.head, request), kind, block)
  {
    hide Written, IsFaithful, Checked, LedgerAfter, IsLost, IsRecordedIn, Ledger, ChangeOf, Request.Touches,
         ArePersisted;
    WrittenSucceeds(hash, meaning, state, request, stamp);
    var next := Written(hash, state, request, stamp).0;
    var refs :| IsSuccessor(hash, meaning, state, request, next, refs);
    AllPersistedGrow(hash, next.store.docs, later, state.head, request, refs);
    AcceptedMeansRecorded(later, next.head, state.head);
    LedgerIs(hash, later, state.head, request, refs);
    forall kind, block
      ensures IsLoss(later, state.head.modules, next.head.modules, kind, block) <==>
              IsLost(later, state.head, request, kind, block)
    {
      LossIsExclusion(hash, later, state.head, request, refs, kind, block);
    }
    LossesAgree(later, state.head, next.head, request);
    assert forall kind, block :: IsRecorded(later, next.head.modules, kind, block) <==>
                                 IsRecordedIn(later, LedgerAfter(hash, later, state.head, request), kind, block);
  }

  lemma LossesAgree(docs: map<Id, Document>, head: Snapshot, next: Snapshot, request: Request)
    requires forall kind, block ::
               IsLoss(docs, head.modules, next.modules, kind, block) <==> IsLost(docs, head, request, kind, block)
    ensures (forall kind, block | kind in head.modules && ChangeOf(docs, head.modules, next.modules, kind).Lost?
                                  && block in ChangeOf(docs, head.modules, next.modules, kind).blocks
               :: IsRecorded(docs, next.modules, kind, block))
            <==> (forall kind, block | IsLost(docs, head, request, kind, block) ::
                  IsRecorded(docs, next.modules, kind, block))
  {
    hide ChangeOf, IsLost, IsRecorded;
    assert forall kind, block :: IsLoss(docs, head.modules, next.modules, kind, block) <==>
      (kind in head.modules && ChangeOf(docs, head.modules, next.modules, kind).Lost?
       && block in ChangeOf(docs, head.modules, next.modules, kind).blocks);
  }

  // --- Drops -----------------------------------------------------------------------------------------

  /** The record a drop writes for a module is not among the provenance it drops. */
  predicate RecordSurvives(hash: Hash, dropped: map<MemoryType, set<Id>>, detail: nat, kind: MemoryType)
    requires kind in dropped
  {
    Provenance in dropped ==> hash.block(RemovalBlock(dropped[kind], kind, detail)) !in dropped[Provenance]
  }

  /** An earlier record that the drop leaves in place names the block already. */
  predicate WasRecorded(
    docs: map<Id, Document>, head: Snapshot, dropped: map<MemoryType, set<Id>>, kind: MemoryType, block: Id)
  {
    && OpenModule(docs, head, Provenance).Ok?
    && IsRecordedIn(docs, OpenModule(docs, head, Provenance).value.members
                          - (if Provenance in dropped then dropped[Provenance] else {}), kind, block)
  }

  /** A record about provenance cannot contain its own address, so a drop never takes it along. */
  lemma ProvenanceRecordSurvives(
    hash: Hash, rank: Id -> nat, dropped: map<MemoryType, set<Id>>, detail: nat)
    requires IsGrounded(hash, rank) && Provenance in dropped
    ensures RecordSurvives(hash, dropped, detail, Provenance)
  {
    var record := RemovalBlock(dropped[Provenance], Provenance, detail);
    assert Mentions(record) == dropped[Provenance];
    assert hash.block(record) in Mentions(record) ==> rank(hash.block(record)) < rank(hash.block(record));
  }

  lemma DropProvenance(hash: Hash, dropped: map<MemoryType, set<Id>>, detail: nat, id: Id)
    ensures id in IdsOf(hash, DropWrite(dropped, detail).Items(Provenance)) <==>
            exists kind | kind in dropped :: id == hash.block(RemovalBlock(dropped[kind], kind, detail))
  {
    var request := DropWrite(dropped, detail);
    assert request.Items(Provenance) == request.provenance;
    RemovalBlocksAre(dropped, ALL_MODULES, detail);
    if kind :| kind in dropped && id == hash.block(RemovalBlock(dropped[kind], kind, detail)) {
      EveryModuleIsListed(kind);
      assert RemovalBlock(dropped[kind], kind, detail) in request.provenance;
    }
  }

  lemma {:induction false} RemovalBlocksAre(dropped: map<MemoryType, set<Id>>, kinds: seq<MemoryType>, detail: nat)
    ensures forall block | block in RemovalBlocks(dropped, kinds, detail) ::
              exists kind | kind in dropped :: block == RemovalBlock(dropped[kind], kind, detail)
  {
    if kinds != [] {
      RemovalBlocksAre(dropped, kinds[1..], detail);
    }
  }

  /** The provenance a drop leaves: what was there and what it wrote, less what it dropped. */
  lemma DropLedger(
    hash: Hash, docs: map<Id, Document>, head: Snapshot, dropped: map<MemoryType, set<Id>>, detail: nat,
    refs: map<MemoryType, ModuleRef>)
    requires var request := DropWrite(dropped, detail);
             ArePersisted(hash, docs, head, request, refs) && forall k :: k in refs <==> request.Touches(k)
    requires dropped != map[]
    ensures OpenModule(docs, head, Provenance).Ok?
    ensures LedgerAfter(hash, docs, head, DropWrite(dropped, detail)) ==
            OpenModule(docs, head, Provenance).value.members + IdsOf(hash, DropWrite(dropped, detail).Items(Provenance))
            - (if Provenance in dropped then dropped[Provenance] else {})
    ensures forall id | id in IdsOf(hash, DropWrite(dropped, detail).Items(Provenance)) :: id in docs
  {
    var request := DropWrite(dropped, detail);
    var kind :| kind in dropped;
    EveryModuleIsListed(kind);
    assert RemovalBlock(dropped[kind], kind, detail) in request.provenance;
    assert request.Touches(Provenance);
    assert IsPersisted(hash, docs, head, request, Provenance, refs[Provenance]);
  }

  lemma RecordNames(
    hash: Hash, meaning: Id -> Document, docs: map<Id, Document>, blocks: set<Id>, kind: MemoryType, detail: nat)
    requires IsFaithful(hash, meaning) && Holds(docs, meaning)
    requires hash.block(RemovalBlock(blocks, kind, detail)) in docs
    ensures forall other, block :: RecordsRemovalOf(docs, hash.block(RemovalBlock(blocks, kind, detail)), other, block)
                                   <==> other == kind && block in blocks
  {
  }

  /** What is on record after a drop, for a block it was told to exclude. */
  lemma DropRecords(
    hash: Hash, meaning: Id -> Document, docs: map<Id, Document>, head: Snapshot, dropped: map<MemoryType, set<Id>>,
    detail: nat, refs: map<MemoryType, ModuleRef>, kind: MemoryType, block: Id)
    requires IsFaithful(hash, meaning) && Holds(docs, meaning)
    requires var request := DropWrite(dropped, detail);
             ArePersisted(hash, docs, head, request, refs) && forall k :: k in refs <==> request.Touches(k)
    requires kind in dropped && block in dropped[kind]
    ensures IsRecordedIn(docs, LedgerAfter(hash, docs, head, DropWrite(dropped, detail)), kind, block) <==>
            RecordSurvives(hash, dropped, detail, kind) || WasRecorded(docs, head, dropped, kind, block)
  {
    hide LedgerAfter, OpenModule, ArePersisted, DropWrite, IsFaithful, Holds, RecordsRemovalOf, IdsOf, Request.Touches;
    DropLedger(hash, docs, head, dropped, detail, refs);
    var ledger := LedgerAfter(hash, docs, head, DropWrite(dropped, detail));
    var own := hash.block(RemovalBlock(dropped[kind], kind, detail));
    DropProvenance(hash, dropped, detail, own);
    RecordNames(hash, meaning, docs, dropped[kind], kind, detail);
    if RecordSurvives(hash, dropped, detail, kind) {
      assert own in ledger && RecordsRemovalOf(docs, own, kind, block);
    }
    if record :| record in ledger && RecordsRemovalOf(docs, record, kind, block) {
      if record in IdsOf(hash, DropWrite(dropped, detail).Items(Provenance)) {
        DropProvenance(hash, dropped, detail, record);
        var other :| other in dropped && record == hash.block(RemovalBlock(dropped[other], other, detail));
        RecordNames(hash, meaning, docs, dropped[other], other, detail);
      }
    }
  }

  /** Every block a drop takes out is named by the record it writes for that module, or was on record before. */
  ghost predicate DropIsAccounted(
    hash: Hash, docs: map<Id, Document>, head: Snapshot, dropped: map<MemoryType, set<Id>>, detail: nat)
  {
    forall kind, block | IsLost(docs, head, DropWrite(dropped, detail), kind, block) ::
      RecordSurvives(hash, dropped, detail, kind) || WasRecorded(docs, head, dropped, kind, block)
  }

  lemma DropExcludes(dropped: map<MemoryType, set<Id>>, detail: nat)
    ensures DropWrite(dropped, detail).without == dropped && DropWrite(dropped, detail).tombstones == map[]
  {
  }

  /** A drop passes the removal check exactly when it does not drop the very records that account for it. */
  lemma DropIsAcceptedExactly(
    hash: Hash, meaning: Id -> Document, state: State, dropped: map<MemoryType, set<Id>>, detail: nat, stamp: nat,
    later: map<Id, Document>)
    requires IsFaithful(hash, meaning) && Holds(state.store.docs, meaning) && state.started
    requires Written(hash, state, DropWrite(dropped, detail), stamp).1.Ok?
    requires Grows(Written(hash, state, DropWrite(dropped, detail), stamp).0.store.docs, later) && Holds(later, meaning)
    ensures Checked(later, Written(hash, state, DropWrite(dropped, detail), stamp).0.head, Some(state.head)).IsValid()
            <==> DropIsAccounted(hash, later, state.head, dropped, detail)
  {
    hide Written, Checked, LedgerAfter, DropWrite, RecordSurvives, WasRecorded, ArePersisted, IsRecordedIn,
         Request.Touches;
    var request := DropWrite(dropped, detail);
    WrittenSucceeds(hash, meaning, state, request, stamp);
    var next := Written(hash, state, request, stamp).0;
    var refs :| IsSuccessor(hash, meaning, state, request, next, refs);
    AllPersistedGrow(hash, next.store.docs, later, state.head, request, refs);
    WriteIsAcceptedExactly(hash, meaning, state, request, stamp, later);
    DropExcludes(dropped, detail);
    forall kind, block | IsLost(later, state.head, request, kind, block)
      ensures IsRecordedIn(later, LedgerAfter(hash, later, state.head, request), kind, block) <==>
              RecordSurvives(hash, dropped, detail, kind) || WasRecorded(later, state.head, dropped, kind, block)
    {
      DropRecords(hash, meaning, later, state.head, dropped, detail, refs, kind, block);
    }
  }

  /** Dropping provenance by itself, or leaving it alone, is always accounted for. */
  lemma PlainDropsAreAccounted(
    hash: Hash, rank: Id -> nat, docs: map<Id, Document>, head: Snapshot, dropped: map<MemoryType, set<Id>>,
    detail: nat)
    requires IsGrounded(hash, rank) && (Provenance in dropped ==> dropped.Keys == {Provenance})
    ensures DropIsAccounted(hash, docs, head, dropped, detail)
  {
    hide IsGrounded, OpenModule, RecordSurvives;
    DropExcludes(dropped, detail);
    if Provenance in dropped {
      ProvenanceRecordSurvives(hash, rank, dropped, detail);
    } else {
      forall kind | kind in dropped
        ensures RecordSurvives(hash, dropped, detail, kind)
      {
        NothingDropsIt(hash, dropped, detail, kind);
      }
    }
  }

  lemma NothingDropsIt(hash: Hash, dropped: map<MemoryType, set<Id>>, detail: nat, kind: MemoryType)
    requires kind in dropped && Provenance !in dropped
    ensures RecordSurvives(hash, dropped, detail, kind)
  {
  }

  // --- A drop that takes its own record along ----------------------------------------------------------

  /** A write over readable modules that spares the append-only one and marks nothing goes through. */
  lemma {:induction false} ReadableModulesAreWritten(
    hash: Hash, meaning: Id -> Document, docs: map<Id, Document>, head: Snapshot, request: Request,
    kinds: seq<MemoryType>, refs: map<MemoryType, ModuleRef>)
    requires IsFaithful(hash, meaning) && Holds(docs, meaning)
    requires Episodic !in request.without && request.tombstones == map[]
    requires forall kind :: OpenModule(docs, head, kind).Ok?
    ensures WriteKinds(hash, docs, head, request, kinds, refs).refs.Ok?
    decreases |kinds|
  {
    hide IsFaithful, Holds, Grows, OpenModule, Persist, PutBlocks;
    if kinds != [] {
      OneModuleIsWritten(hash, meaning, docs, head, request, kinds[0]);
      var (next, written) := WriteKind(hash, docs, head, request, kinds[0]);
      WriteKindPersists(hash, meaning, docs, head, request, kinds[0]);
      forall kind
        ensures OpenModule(next, head, kind).Ok?
      {
        OpenGrows(docs, next, head, kind);
      }
      ReadableModulesAreWritten(hash, meaning, next, head, request, kinds[1..], refs[kinds[0] := written.value]);
    }
  }

  lemma OneModuleIsWritten(
    hash: Hash, meaning: Id -> Document, docs: map<Id, Document>, head: Snapshot, request: Request, kind: MemoryType)
    requires IsFaithful(hash, meaning) && Holds(docs, meaning)
    requires Episodic !in request.without && request.tombstones == map[] && OpenModule(docs, head, kind).Ok?
    ensures WriteKind(hash, docs, head, request, kind).1.Ok?
  {
    hide IsFaithful, Holds, Grows, OpenModule, Persist, PutBlocks, Request.Items;
    PutBlocksHolds(hash, docs, request.Items(kind), meaning);
    OpenGrows(docs, PutBlocks(hash, docs, request.Items(kind)), head, kind);
    OpenedKind(docs, head, kind);
  }

  /** The one semantic block of the brain below. */
  function Relearned(hash: Hash): (r: Id) {
    hash.block(PlainBlock(Semantic, {}, {}))
  }

  function RelapseRecord(hash: Hash, detail: nat): (r: Id) {
    hash.block(RemovalBlock({Relearned(hash)}, Semantic, detail))
  }

  /** A derivation record that gives the removal record as derived from the block. */
  function RelapseCitation(hash: Hash, detail: nat): (r: Id) {
    hash.block(ProvenanceV1(Derivation(RelapseRecord(hash, detail), {Relearned(hash)})))
  }

  function RelapseModule(hash: Hash, kind: MemoryType, members: set<Id>): (r: ModuleRef) {
    ModuleRef(kind, Root(members), hash.composition(Composition(kind, members)), |members|, {}, None)
  }

  /**
   A brain that holds a semantic block, the removal record of an equal drop, and a record that gives the removal
   record as derived from the block. No writer makes the last one, but it is readable, and a joined history may
   bring it.
   */
  function Relapsed(hash: Hash, detail: nat): (r: State) {
    var block, record, citation := Relearned(hash), RelapseRecord(hash, detail), RelapseCitation(hash, detail);
    var modules := map[Semantic := RelapseModule(hash, Semantic, {block}),
                       Provenance := RelapseModule(hash, Provenance, {record, citation})];
    var docs := map[
      block := BlockDoc(PlainBlock(Semantic, {}, {})),
      record := BlockDoc(RemovalBlock({block}, Semantic, detail)),
      citation := BlockDoc(ProvenanceV1(Derivation(record, {block}))),
      hash.composition(Composition(Semantic, {block})) := CompositionDoc(Composition(Semantic, {block})),
      hash.composition(Composition(Provenance, {record, citation})) :=
        CompositionDoc(Composition(Provenance, {record, citation}))];
    State(Store(docs, map[]), SnapshotOf(hash, Description([], modules, None, 0)), true, false)
  }

  lemma RelapsedDocs(hash: Hash, meaning: Id -> Document, detail: nat)
    requires IsFaithful(hash, meaning)
    ensures var docs := Relapsed(hash, detail).store.docs;
            var block, record, citation := Relearned(hash), RelapseRecord(hash, detail), RelapseCitation(hash, detail);
            && Holds(docs, meaning)
            && block in docs && docs[block] == BlockDoc(PlainBlock(Semantic, {}, {}))
            && record in docs && docs[record] == BlockDoc(RemovalBlock({block}, Semantic, detail))
            && citation in docs && docs[citation] == BlockDoc(ProvenanceV1(Derivation(record, {block})))
            && block != record && block != citation && record != citation
  {
    var block, record, citation := Relearned(hash), RelapseRecord(hash, detail), RelapseCitation(hash, detail);
    var semantic, provenance := Composition(Semantic, {block}), Composition(Provenance, {record, citation});
    assert meaning(hash.composition(semantic)) == CompositionDoc(semantic);
    assert meaning(hash.composition(provenance)) == CompositionDoc(provenance);
    assert meaning(block) == BlockDoc(PlainBlock(Semantic, {}, {}));
    assert meaning(record) == BlockDoc(RemovalBlock({block}, Semantic, detail));
    assert meaning(citation) == BlockDoc(ProvenanceV1(Derivation(record, {block})));
  }

  lemma RelapsedModules(hash: Hash, meaning: Id -> Document, detail: nat)
    requires IsFaithful(hash, meaning)
    ensures var state := Relapsed(hash, detail);
            && state.head.modules.Keys == {Semantic, Provenance}
            && state.head.modules[Semantic].memoryType == Semantic
            && OpenModule(state.store.docs, state.head, Semantic) == Ok(Module(Semantic, {Relearned(hash)}, {}))
            && OpenModule(state.store.docs, state.head, Provenance) ==
               Ok(Module(Provenance, {RelapseRecord(hash, detail), RelapseCitation(hash, detail)}, {}))
            && forall kind | kind !in {Semantic, Provenance} ::
                 OpenModule(state.store.docs, state.head, kind) == Ok(Module(kind, {}, {}))
  {
    hide Relearned, RelapseRecord, RelapseCitation;
    var state := Relapsed(hash, detail);
    var block, record, citation := Relearned(hash), RelapseRecord(hash, detail), RelapseCitation(hash, detail);
    var semantic, provenance := Composition(Semantic, {block}), Composition(Provenance, {record, citation});
    assert hash.composition(semantic) in state.store.docs && hash.composition(provenance) in state.store.docs;
    assert meaning(hash.composition(semantic)) == CompositionDoc(semantic);
    assert meaning(hash.composition(provenance)) == CompositionDoc(provenance);
  }

  lemma RelapseIsLegible(hash: Hash, meaning: Id -> Document, detail: nat)
    requires IsFaithful(hash, meaning)
    ensures CanPlan(Relapsed(hash, detail)) && AllReadable(Relapsed(hash, detail))
  {
    hide IsFaithful, Relapsed, OpenModule, Relearned, RelapseRecord, RelapseCitation, Holds;
    RelapsedDocs(hash, meaning, detail);
    RelapsedModules(hash, meaning, detail);
  }

  /** What there is to follow: one derivation, and no reference. */
  lemma RelapseEdges(hash: Hash, meaning: Id -> Document, detail: nat)
    requires IsFaithful(hash, meaning)
    ensures var state := Relapsed(hash, detail);
            && Evidence(state.store.docs, state.head) == {Edge(Relearned(hash), RelapseRecord(hash, detail))}
            && Links(state.store.docs, state.head) == {}
  {
    hide IsFaithful, Relapsed, OpenModule, Relearned, RelapseRecord, RelapseCitation, Holds;
    RelapsedDocs(hash, meaning, detail);
    RelapsedModules(hash, meaning, detail);
    var state := Relapsed(hash, detail);
    var edge := Edge(Relearned(hash), RelapseRecord(hash, detail));
    assert RelapseCitation(hash, detail) in MembersOf(state.store.docs, state.head, Provenance);
    assert IsDerivation(state.store.docs, RelapseCitation(hash, detail));
    assert edge in Evidence(state.store.docs, state.head);
  }

  lemma RelapseHome(hash: Hash, meaning: Id -> Document, detail: nat)
    requires IsFaithful(hash, meaning)
    ensures Home(Relapsed(hash, detail).store.docs, Relapsed(hash, detail).head, RelapseRecord(hash, detail)) ==
            Some(Provenance)
  {
    hide IsFaithful, Relapsed, OpenModule, Relearned, RelapseRecord, RelapseCitation, Holds;
    RelapsedDocs(hash, meaning, detail);
    RelapsedModules(hash, meaning, detail);
    var state := Relapsed(hash, detail);
    assert MembersOf(state.store.docs, state.head, Semantic) == {Relearned(hash)};
    EveryModuleIsListed(Provenance);
  }

  lemma OneDerivation(parent: Id, child: Id)
    requires parent != child
    ensures Derived({Edge(parent, child)}, parent) == {child}
  {
    hide Reaches;
    UnderOn({Edge(parent, child)}, {parent}, Edge(parent, child));
  }

  /** The cascade, as the brain works it out: the removal record goes with the block. */
  lemma RelapseCascade(hash: Hash, meaning: Id -> Document, detail: nat)
    requires IsFaithful(hash, meaning)
    ensures CascadeOf(Relapsed(hash, detail).store.docs, Relapsed(hash, detail).head, {Relearned(hash)}) ==
            map[Provenance := {RelapseRecord(hash, detail)}]
  {
    hide IsFaithful, Relapsed, Relearned, RelapseRecord, RelapseCitation, Holds, Derived, Home, Under, OpenModule;
    var docs, head := Relapsed(hash, detail).store.docs, Relapsed(hash, detail).head;
    var block, record := Relearned(hash), RelapseRecord(hash, detail);
    RelapsedDocs(hash, meaning, detail);
    RelapseEdges(hash, meaning, detail);
    RelapseHome(hash, meaning, detail);
    OneDerivation(block, record);
    NothingFollows(Seeds(docs, head, block), block);
    forall kind
      ensures Together(docs, head, {block}, kind) == if kind == Provenance then {record} else {}
    {
      assert Dependents(docs, head, block, kind) == if kind == Provenance then {record} else {};
      assert Together(docs, head, {block}, kind) == Dependents(docs, head, block, kind) - {block};
    }
  }

  lemma NothingFollows(seeds: set<Id>, origin: Id)
    ensures Following({}, seeds, origin) == {}
  {
  }

  function RelapseDrop(hash: Hash, detail: nat): (r: map<MemoryType, set<Id>>) {
    map[Semantic := {Relearned(hash)}, Provenance := {RelapseRecord(hash, detail)}]
  }

  const RELAPSE_POLICY := RetentionPolicy({Semantic, Provenance}, false, None, None)

  /** The drop is authorized and written as one version. */
  lemma RelapseIsWritten(hash: Hash, meaning: Id -> Document, detail: nat, stamp: nat)
    requires IsFaithful(hash, meaning)
    ensures Dropped(hash, Relapsed(hash, detail), RELAPSE_POLICY, {Relearned(hash)}, Semantic, detail, stamp)
            == DropOf(Written(hash, Relapsed(hash, detail), DropWrite(RelapseDrop(hash, detail), detail), stamp))
  {
    hide IsFaithful, Relapsed, OpenModule, Written, DropWrite, Holds, SizeOf, Relearned, RelapseRecord, CanPlan,
         AllReadable, CascadeOf, Union;
    RelapsedModules(hash, meaning, detail);
    RelapseIsLegible(hash, meaning, detail);
    RelapseCascade(hash, meaning, detail);
    TwoModules({Relearned(hash)}, {RelapseRecord(hash, detail)});
  }

  lemma TwoModules(semantic: set<Id>, provenance: set<Id>)
    ensures Union(map[Semantic := semantic], map[Provenance := provenance]) ==
            map[Semantic := semantic, Provenance := provenance]
  {
    var union := Union(map[Semantic := semantic], map[Provenance := provenance]);
    assert union.Keys == {Semantic, Provenance};
    assert union[Semantic] == semantic && union[Provenance] == provenance;
  }

  lemma RelapseGoesThrough(hash: Hash, meaning: Id -> Document, detail: nat, stamp: nat)
    requires IsFaithful(hash, meaning)
    ensures Written(hash, Relapsed(hash, detail), DropWrite(RelapseDrop(hash, detail), detail), stamp).1.Ok?
  {
    hide IsFaithful, Relapsed, OpenModule, WriteKinds, DropWrite, Holds, Advanced, Relearned, RelapseRecord,
         RelapseCitation;
    var state := Relapsed(hash, detail);
    var request := DropWrite(RelapseDrop(hash, detail), detail);
    RelapsedIsIdle(hash, detail);
    RelapsedDocs(hash, meaning, detail);
    RelapsedModules(hash, meaning, detail);
    DropExcludes(RelapseDrop(hash, detail), detail);
    ReadableModulesAreWritten(
      hash, meaning, state.store.docs, state.head, request, TouchedFrom(request, ALL_MODULES), map[]);
  }

  lemma RelapsedIsIdle(hash: Hash, detail: nat)
    ensures Relapsed(hash, detail).started && !Relapsed(hash, detail).reconciling
  {
  }

  lemma RelapseIsUnaccounted(hash: Hash, meaning: Id -> Document, detail: nat, later: map<Id, Document>)
    requires IsFaithful(hash, meaning) && Grows(Relapsed(hash, detail).store.docs, later)
    ensures !DropIsAccounted(hash, later, Relapsed(hash, detail).head, RelapseDrop(hash, detail), detail)
  {
    hide IsFaithful, Relapsed, OpenModule, DropWrite, Holds, Relearned;
    var state, dropped := Relapsed(hash, detail), RelapseDrop(hash, detail);
    RelapsedDocs(hash, meaning, detail);
    RelapsedModules(hash, meaning, detail);
    OpenGrows(state.store.docs, later, state.head, Semantic);
    OpenGrows(state.store.docs, later, state.head, Provenance);
    DropExcludes(dropped, detail);
    assert IsLost(later, state.head, DropWrite(dropped, detail), Semantic, Relearned(hash));
    assert !RecordSurvives(hash, dropped, detail, Semantic);
    assert !WasRecorded(later, state.head, dropped, Semantic, Relearned(hash));
  }

  /**
   The drop that fails its own check. The record it writes is there already, and its own cascade reaches that
   record: the block goes and nothing is left that says so.
   */
  lemma DropCanTakeItsRecordAlong(hash: Hash, meaning: Id -> Document, detail: nat, stamp: nat)
    requires IsFaithful(hash, meaning)
    ensures var state := Relapsed(hash, detail);
            var (next, r) := Dropped(hash, state, RELAPSE_POLICY, {Relearned(hash)}, Semantic, detail, stamp);
            && r == Ok(Published(next.head))
            && !Checked(next.store.docs, next.head, Some(state.head)).IsValid()
  {
    hide IsFaithful, Relapsed, OpenModule, Written, DropWrite, Checked, Holds, Grows, RelapseDrop, Dropped,
         DropIsAccounted;
    var state := Relapsed(hash, detail);
    var request := DropWrite(RelapseDrop(hash, detail), detail);
    RelapsedIsIdle(hash, detail);
    RelapsedDocs(hash, meaning, detail);
    RelapseIsWritten(hash, meaning, detail, stamp);
    RelapseGoesThrough(hash, meaning, detail, stamp);
    WrittenSucceeds(hash, meaning, state, request, stamp);
    var next := Written(hash, state, request, stamp).0;
    NothingGrows(next.store.docs);
    DropIsAcceptedExactly(hash, meaning, state, RelapseDrop(hash, detail), detail, stamp, next.store.docs);
    RelapseIsUnaccounted(hash, meaning, detail, next.store.docs);
  }

  // --- When that can happen ------------------------------------------------------------------------------

  /** What these exclusions take from provenance, they take by a cascade. */
  ghost predicate ReachesRecordsByCascade(state: State, dropped: map<MemoryType, set<Id>>) {
    forall id | id in In(dropped, Provenance) ::
      exists origins :: id in In(CascadeOf(state.store.docs, state.head, origins), Provenance)
  }

  lemma DropsReachRecordsByCascade(state: State, blocks: set<Id>, kind: MemoryType)
    requires kind != Provenance
    ensures ReachesRecordsByCascade(state, Taken(state, blocks, kind))
  {
    hide CascadeOf;
    assert In(Taken(state, blocks, kind), Provenance) ==
           In(CascadeOf(state.store.docs, state.head, blocks), Provenance);
  }

  lemma {:induction false} ProducerDropsReachRecordsByCascade(
    state: State, origins: map<MemoryType, set<Id>>, kinds: seq<MemoryType>)
    requires Provenance !in origins
    ensures ReachesRecordsByCascade(state, CascadeFrom(state, origins, kinds))
  {
    hide CascadeOf;
    if kinds != [] {
      ProducerDropsReachRecordsByCascade(state, origins, kinds[..|kinds| - 1]);
    }
  }

  /**
   A drop away from provenance that does not account for itself repeats a removal record that is there already, and
   some readable record gives that one as derived.
   */
  lemma FailedDropsRepeatARecord(
    hash: Hash, docs: map<Id, Document>, state: State, dropped: map<MemoryType, set<Id>>, detail: nat)
    requires ReachesRecordsByCascade(state, dropped) && !DropIsAccounted(hash, docs, state.head, dropped, detail)
    ensures exists reached | reached in dropped ::
              var record := hash.block(RemovalBlock(dropped[reached], reached, detail));
              && record in MembersOf(state.store.docs, state.head, Provenance)
              && exists other | other in MembersOf(state.store.docs, state.head, Provenance) ::
                   IsDerivation(state.store.docs, other) && state.store.docs[other].block.entry.block == record
  {
    hide CascadeOf, OpenModule, WasRecorded, MembersOf;
    DropExcludes(dropped, detail);
    var reached, block :| IsLost(docs, state.head, DropWrite(dropped, detail), reached, block)
                          && !RecordSurvives(hash, dropped, detail, reached);
    var record := hash.block(RemovalBlock(dropped[reached], reached, detail));
    assert record in In(dropped, Provenance);
    var origins :| record in In(CascadeOf(state.store.docs, state.head, origins), Provenance);
    TakenRecordsAreDerived(state.store.docs, state.head, origins, record);
  }

  /** Where no record is given as derived, a drop away from provenance leaves provenance alone. */
  lemma DropsSpareRecords(state: State, blocks: set<Id>, kind: MemoryType)
    requires DerivesNoRecord(state.store.docs, state.head) && kind != Provenance
    ensures Provenance !in Taken(state, blocks, kind)
  {
    hide CascadeOf, DerivesNoRecord;
    CascadesSpareRecordsExactly(state.store.docs, state.head);
  }

  lemma {:induction false} ProducerDropsSpareRecords(
    state: State, origins: map<MemoryType, set<Id>>, kinds: seq<MemoryType>)
    requires DerivesNoRecord(state.store.docs, state.head) && Provenance !in origins
    ensures Provenance !in CascadeFrom(state, origins, kinds)
  {
    hide CascadeOf, DerivesNoRecord;
    CascadesSpareRecordsExactly(state.store.docs, state.head);
    if kinds != [] {
      ProducerDropsSpareRecords(state, origins, kinds[..|kinds| - 1]);
    }
  }
}
