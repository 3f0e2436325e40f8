/** What a write publishes, module by module, and exactly when it publishes anything. */
module Versions {
  import opened Common
  import opened Documents
  import opened Hashing
  import opened Removals
  import opened Writer
  import opened RemovalAgreement

  // --- What is asked for --------------------------------------------------------------------------

  /** A block that a request adds to a module. */
  predicate IsAdded(hash: Hash, request: Request, kind: MemoryType, id: Id) {
    || (kind in request.blocks && exists block | block in request.blocks[kind] :: id == hash.block(block))
    || (kind == Provenance && exists block | block in request.provenance :: id == hash.block(block))
  }

  predicate IsExcluded(request: Request, kind: MemoryType, id: Id) {
    kind in request.without && id in request.without[kind]
  }

  predicate IsMarkedGone(request: Request, kind: MemoryType, id: Id) {
    kind in request.tombstones && id in request.tombstones[kind]
  }

  /** A module the request says anything about. */
  predicate IsTouched(request: Request, kind: MemoryType) {
    || kind in request.blocks || kind in request.without || kind in request.tombstones
    || (kind == Provenance && request.provenance != [])
  }

  lemma AddedExactly(hash: Hash, request: Request, kind: MemoryType, id: Id)
    ensures id in IdsOf(hash, request.Items(kind)) <==> IsAdded(hash, request, kind, id)
  {
    var own := if kind in request.blocks then request.blocks[kind] else [];
    var records := if kind == Provenance then request.provenance else [];
    assert request.Items(kind) == own + records;
    assert forall block :: block in own + records <==> block in own || block in records;
  }

  // --- What a module holds afterwards ----------------------------------------------------------------

  /** A module's next version: what was there or is added and is not excluded, and of that what is marked gone. */
  ghost predicate IsNext(hash: Hash, request: Request, before: Module, after: Module) {
    && after.memoryType == before.memoryType
    && (forall id :: id in after.members <==>
          (id in before.members || IsAdded(hash, request, before.memoryType, id))
          && !IsExcluded(request, before.memoryType, id))
    && (forall id :: id in after.tombstones <==>
          id in after.members && (id in before.tombstones || IsMarkedGone(request, before.memoryType, id)))
  }

  /** A reference that tells what a module holds: its root, how much that is, and the index held for it, if any. */
  ghost predicate Tells(hash: Hash, docs: map<Id, Document>, reference: ModuleRef, module_: Module) {
    && reference.memoryType == module_.memoryType && reference.root == Root(module_.members)
    && reference.blockCount == |module_.members| && reference.tombstones == module_.tombstones
    && match hash.engine(module_.memoryType, module_.members)
       case None => reference.index == None
       case Some(payload) =>
         && reference.index.Some? && reference.index.value in docs
         && docs[reference.index.value] == OtherDoc(payload)
  }

  /** A request a module can follow: nothing leaves the append-only one, and only members are marked gone. */
  ghost predicate CanFollow(hash: Hash, request: Request, before: Module) {
    && (before.memoryType == Episodic ==> Episodic !in request.without)
    && forall id | IsMarkedGone(request, before.memoryType, id) ::
         (id in before.members || IsAdded(hash, request, before.memoryType, id))
         && !IsExcluded(request, before.memoryType, id)
  }

  lemma DerivedExactly(hash: Hash, request: Request, before: Module)
    requires before.tombstones <= before.members
    ensures var derived := Derive(before, IdsOf(hash, request.Items(before.memoryType)), request);
            && (derived.Ok? <==> CanFollow(hash, request, before))
            && (derived.Ok? ==> IsNext(hash, request, before, derived.value))
  {
    hide IsAdded;
    var kind := before.memoryType;
    var added := IdsOf(hash, request.Items(kind));
    forall id {
      AddedExactly(hash, request, kind, id);
    }
  }

  lemma OpenedIsConsistent(docs: map<Id, Document>, head: Snapshot, kind: MemoryType)
    requires OpenModule(docs, head, kind).Ok?
    ensures var opened_ := OpenModule(docs, head, kind).value;
            opened_.memoryType == kind && opened_.tombstones <= opened_.members
  {
  }

  // --- Opening what was written -------------------------------------------------------------------------

  /** Documents were added, none of them a composition of this module. */
  ghost predicate AddsNoComposition(before: map<Id, Document>, after: map<Id, Document>, kind: MemoryType) {
    && Grows(before, after)
    && forall id | id in after && id !in before ::
       !(after[id].CompositionDoc? && after[id].composition.memoryType == kind)
  }

  lemma OpensTheSame(before: map<Id, Document>, after: map<Id, Document>, head: Snapshot, kind: MemoryType)
    requires AddsNoComposition(before, after, kind)
    ensures OpenModule(after, head, kind) == OpenModule(before, head, kind)
  {
  }

  lemma AdditionsCompose(a: map<Id, Document>, b: map<Id, Document>, c: map<Id, Document>, kind: MemoryType)
    requires AddsNoComposition(a, b, kind) && AddsNoComposition(b, c, kind)
    ensures AddsNoComposition(a, c, kind)
  {
  }

  lemma {:induction false} BlocksAddNoComposition(
    hash: Hash, meaning: Id -> Document, docs: map<Id, Document>, blocks: seq<Block>, kind: MemoryType)
    requires IsFaithful(hash, meaning) && Holds(docs, meaning)
    ensures AddsNoComposition(docs, PutBlocks(hash, docs, blocks), kind)
    decreases |blocks|
  {
    if blocks != [] {
      var put := docs[hash.block(blocks[0]) := BlockDoc(blocks[0])];
      PutGrows(docs, hash.block(blocks[0]), BlockDoc(blocks[0]), meaning);
      BlocksAddNoComposition(hash, meaning, put, blocks[1..], kind);
    }
  }

  lemma PersistAddsNoOther(
    hash: Hash, meaning: Id -> Document, docs: map<Id, Document>, module_: Module, kind: MemoryType)
    requires IsFaithful(hash, meaning) && Holds(docs, meaning) && module_.memoryType != kind
    ensures AddsNoComposition(docs, Persist(hash, docs, module_), kind)
  {
    hide IsFaithful, Holds, ReadComposition;
    PersistGrows(hash, meaning, docs, module_);
  }

  // --- One module, then all of them -----------------------------------------------------------------------

  /** What came of one touched module. */
  ghost predicate IsWrittenAs(
    hash: Hash, original: map<Id, Document>, docs: map<Id, Document>, head: Snapshot, request: Request,
    kind: MemoryType,
    reference: ModuleRef)
  {
    && OpenModule(original, head, kind).Ok?
    && (forall block | block in request.Items(kind) :: hash.block(block) in docs)
    && exists next: Module, under: map<Id, Document> ::
         && IsNext(hash, request, OpenModule(original, head, kind).value, next)
         && next.tombstones <= next.members
         && reference == ReferenceTo(hash, next)
         && IsPersistedIn(hash, under, next, docs)
  }

  ghost predicate IsPersistedIn(hash: Hash, under: map<Id, Document>, next: Module, docs: map<Id, Document>) {
    Grows(Persist(hash, under, next), docs)
  }

  lemma WriteKindExactly(
    hash: Hash, meaning: Id -> Document, original: map<Id, Document>, docs: map<Id, Document>, head: Snapshot,
    request: Request, kind: MemoryType)
    requires IsFaithful(hash, meaning) && Holds(docs, meaning) && AddsNoComposition(original, docs, kind)
    ensures var (next, written) := WriteKind(hash, docs, head, request, kind);
            && Holds(next, meaning) && Grows(docs, next)
            && (written.Ok? <==> OpenModule(original, head, kind).Ok?
                                 && CanFollow(hash, request, OpenModule(original, head, kind).value))
            && (written.Ok? ==> IsWrittenAs(hash, original, next, head, request, kind, written.value))
            && forall other | other != kind :: AddsNoComposition(docs, next, other)
  {
    hide IsFaithful, Holds, OpenModule, Derive, IsNext, CanFollow, Persist, ReferenceTo, PutBlocks, Request.Items;
    var items := request.Items(kind);
    var stored := PutBlocks(hash, docs, items);
    WriteKindPersists(hash, meaning, docs, head, request, kind);
    PutBlocksHolds(hash, docs, items, meaning);
    BlocksAddNoComposition(hash, meaning, docs, items, kind);
    AdditionsCompose(original, docs, stored, kind);
    OpensTheSame(original, stored, head, kind);
    var (next, written) := WriteKind(hash, docs, head, request, kind);
    forall other | other != kind
      ensures AddsNoComposition(docs, stored, other)
    {
      BlocksAddNoComposition(hash, meaning, docs, items, other);
    }
    if OpenModule(stored, head, kind).Ok? {
      var installed := OpenModule(stored, head, kind).value;
      OpenedIsConsistent(stored, head, kind);
      DerivedExactly(hash, request, installed);
      if CanFollow(hash, request, installed) {
        var derived := Derive(installed, IdsOf(hash, items), request).value;
        TombstonesInside(hash, request, installed, derived);
        NothingGrows(next);
        assert next == Persist(hash, stored, derived) && IsPersistedIn(hash, stored, derived, next);
        forall other | other != kind
          ensures AddsNoComposition(docs, next, other)
        {
          KindOfNext(hash, request, installed, derived);
          PersistAddsNoOther(hash, meaning, stored, derived, other);
          AdditionsCompose(docs, stored, next, other);
        }
      }
    }
  }

  lemma TombstonesInside(hash: Hash, request: Request, before: Module, after: Module)
    requires IsNext(hash, request, before, after)
    ensures after.tombstones <= after.members
  {
  }

  lemma KindOfNext(hash: Hash, request: Request, before: Module, after: Module)
    requires IsNext(hash, request, before, after)
    ensures after.memoryType == before.memoryType
  {
  }

  lemma WrittenAsGrows(
    hash: Hash, original: map<Id, Document>, before: map<Id, Document>, after: map<Id, Document>, head: Snapshot,
    request: Request, kind: MemoryType, reference: ModuleRef)
    requires IsWrittenAs(hash, original, before, head, request, kind, reference) && Grows(before, after)
    ensures IsWrittenAs(hash, original, after, head, request, kind, reference)
  {
    hide OpenModule, IsNext, Persist, ReferenceTo, Request.Items;
    var next: Module, under: map<Id, Document> :|
      && IsNext(hash, request, OpenModule(original, head, kind).value, next)
      && next.tombstones <= next.members && reference == ReferenceTo(hash, next)
      && IsPersistedIn(hash, under, next, before);
    GrowthComposes(Persist(hash, under, next), before, after);
    assert IsPersistedIn(hash, under, next, after);
  }

  predicate AreDistinct(kinds: seq<MemoryType>) {
    forall i, j | 0 <= i < j < |kinds| :: kinds[i] != kinds[j]
  }

  /** The loop over the touched modules goes through exactly when each of them can follow the request. */
  lemma {:induction false} WriteKindsExactly(
    hash: Hash, meaning: Id -> Document, original: map<Id, Document>, docs: map<Id, Document>, head: Snapshot,
    request: Request, kinds: seq<MemoryType>, refs: map<MemoryType, ModuleRef>)
    requires IsFaithful(hash, meaning) && Holds(docs, meaning) && AreDistinct(kinds) && Grows(original, docs)
    requires forall kind | kind in kinds :: AddsNoComposition(original, docs, kind)
    requires forall kind | kind in refs :: IsWrittenAs(hash, original, docs, head, request, kind, refs[kind])
    ensures var r := WriteKinds(hash, docs, head, request, kinds, refs);
            && Holds(r.docs, meaning) && Grows(docs, r.docs)
            && (r.refs.Ok? <==> forall kind | kind in kinds ::
                                  OpenModule(original, head, kind).Ok?
                                  && CanFollow(hash, request, OpenModule(original, head, kind).value))
            && (r.refs.Ok? ==>
                  && r.refs.value.Keys == refs.Keys + (set kind | kind in kinds)
                  && forall kind | kind in r.refs.value ::
                       IsWrittenAs(hash, original, r.docs, head, request, kind, r.refs.value[kind]))
    decreases |kinds|
  {
    hide IsFaithful, Holds, OpenModule, CanFollow, WriteKind, IsWrittenAs, AddsNoComposition;
    NothingGrows(docs);
    if kinds != [] {
      var (next, written) := WriteKind(hash, docs, head, request, kinds[0]);
      WriteKindExactly(hash, meaning, original, docs, head, request, kinds[0]);
      GrowthComposes(original, docs, next);
      assert forall kind :: kind in kinds <==> kind == kinds[0] || kind in kinds[1..];
      if written.Ok? {
        forall kind | kind in kinds[1..]
          ensures AddsNoComposition(original, next, kind)
        {
          AdditionsCompose(original, docs, next, kind);
        }
        forall kind | kind in refs
          ensures IsWrittenAs(hash, original, next, head, request, kind, refs[kind])
        {
          WrittenAsGrows(hash, original, docs, next, head, request, kind, refs[kind]);
        }
        WriteKindsExactly(hash, meaning, original, next, head, request, kinds[1..], refs[kinds[0] := written.value]);
        GrowthComposes(docs, next, WriteKinds(hash, next, head, request, kinds[1..],
                                              refs[kinds[0] := written.value]).docs);
      }
    }
  }

  lemma {:induction false} TouchedAreDistinct(request: Request, kinds: seq<MemoryType>)
    requires AreDistinct(kinds)
    ensures AreDistinct(TouchedFrom(request, kinds))
  {
    if kinds != [] {
      TouchedAreDistinct(request, kinds[1..]);
      assert forall kind | kind in TouchedFrom(request, kinds[1..]) :: kind in kinds[1..];
    }
  }

  lemma NothingAdded(docs: map<Id, Document>, kind: MemoryType)
    ensures AddsNoComposition(docs, docs, kind)
  {
  }

  /** A write publishes exactly when no reconciliation is open and every module it touches can follow it. */
  lemma WriteGoesThroughExactly(hash: Hash, meaning: Id -> Document, state: State, request: Request, stamp: nat)
    requires IsFaithful(hash, meaning) && Holds(state.store.docs, meaning)
    ensures Written(hash, state, request, stamp).1.Ok? <==>
            && !state.reconciling
            && forall kind | IsTouched(request, kind) ::
                 OpenModule(state.store.docs, state.head, kind).Ok?
                 && CanFollow(hash, request, OpenModule(state.store.docs, state.head, kind).value)
  {
    hide IsFaithful, Holds, OpenModule, CanFollow, WriteKinds, Advanced, IsWrittenAs, AddsNoComposition;
    TouchedModules(hash, meaning, state, request);
  }

  lemma TouchedModules(hash: Hash, meaning: Id -> Document, state: State, request: Request)
    requires IsFaithful(hash, meaning) && Holds(state.store.docs, meaning)
    ensures var kinds := TouchedFrom(request, ALL_MODULES);
            var r := WriteKinds(hash, state.store.docs, state.head, request, kinds, map[]);
            && (forall kind :: kind in kinds <==> IsTouched(request, kind))
            && Holds(r.docs, meaning) && Grows(state.store.docs, r.docs)
            && (r.refs.Ok? <==> forall kind | kind in kinds ::
                                  OpenModule(state.store.docs, state.head, kind).Ok?
                                  && CanFollow(hash, request, OpenModule(state.store.docs, state.head, kind).value))
            && (r.refs.Ok? ==>
                  && (forall kind :: kind in r.refs.value <==> IsTouched(request, kind))
                  && forall kind | kind in r.refs.value ::
                       IsWrittenAs(hash, state.store.docs, r.docs, state.head, request, kind, r.refs.value[kind]))
  {
    hide IsFaithful, Holds, OpenModule, CanFollow, WriteKinds, IsWrittenAs, AddsNoComposition;
    forall kind
      ensures AddsNoComposition(state.store.docs, state.store.docs, kind) && kind in ALL_MODULES
    {
      NothingAdded(state.store.docs, kind);
      EveryModuleIsListed(kind);
    }
    NothingGrows(state.store.docs);
    assert AreDistinct(ALL_MODULES);
    TouchedAreDistinct(request, ALL_MODULES);
    WriteKindsExactly(hash, meaning, state.store.docs, state.store.docs, state.head, request,
                      TouchedFrom(request, ALL_MODULES), map[]);
  }

  /**
   What a published write leaves: a version that continues the head, or begins a history, under the same authority;
   every touched module as the request says, every other one exactly as it was; and all the blocks it added held.
   */
  lemma WriteIsExact(hash: Hash, meaning: Id -> Document, state: State, request: Request, stamp: nat)
    requires IsFaithful(hash, meaning) && Holds(state.store.docs, meaning)
    requires Written(hash, state, request, stamp).1.Ok?
    ensures var (next, written) := Written(hash, state, request, stamp);
            && written.value == next.head && next.started && !next.reconciling
            && next.head.parents == (if state.started then [state.head.digest] else [])
            && next.head.trustRoot == state.head.trustRoot
            && next.store.signatures == state.store.signatures
            && Grows(state.store.docs, next.store.docs) && Holds(next.store.docs, meaning)
            && LoadSnapshot(next.store, next.head.digest) == Some(next.head)
            && (forall kind :: kind in next.head.modules <==>
                               IsTouched(request, kind) || (state.started && kind in state.head.modules))
            && (forall kind | state.started && kind in state.head.modules && !IsTouched(request, kind) ::
                  next.head.modules[kind] == state.head.modules[kind])
            && (forall kind | IsTouched(request, kind) ::
                  && OpenModule(state.store.docs, state.head, kind).Ok?
                  && OpenModule(next.store.docs, next.head, kind).Ok?
                  && IsNext(hash, request, OpenModule(state.store.docs, state.head, kind).value,
                            OpenModule(next.store.docs, next.head, kind).value)
                  && Tells(hash, next.store.docs, next.head.modules[kind],
                           OpenModule(next.store.docs, next.head, kind).value)
                  && forall block | block in request.Items(kind) ::
                       hash.block(block) in next.store.docs && next.store.docs[hash.block(block)] == BlockDoc(block))
  {
    hide IsFaithful, Holds, OpenModule, CanFollow, WriteKinds, Advanced, IsWrittenAs, IsNext, Tells, Request.Items;
    TouchedModules(hash, meaning, state, request);
    var progress := WriteKinds(hash, state.store.docs, state.head, request, TouchedFrom(request, ALL_MODULES), map[]);
    var stored := state.(store := state.store.(docs := progress.docs));
    var description := NextDescription(state, progress.refs.value, stamp);
    AdvancedHolds(hash, meaning, stored, description);
    var next := Advanced(hash, stored, description);
    GrowthComposes(state.store.docs, progress.docs, next.store.docs);
    forall kind | IsTouched(request, kind)
      ensures OpenModule(state.store.docs, state.head, kind).Ok? && OpenModule(next.store.docs, next.head, kind).Ok?
      ensures IsNext(hash, request, OpenModule(state.store.docs, state.head, kind).value,
                     OpenModule(next.store.docs, next.head, kind).value)
      ensures Tells(hash, next.store.docs, next.head.modules[kind],
                    OpenModule(next.store.docs, next.head, kind).value)
      ensures forall block | block in request.Items(kind) ::
                hash.block(block) in next.store.docs && next.store.docs[hash.block(block)] == BlockDoc(block)
    {
      WrittenAsGrows(hash, state.store.docs, progress.docs, next.store.docs, state.head, request, kind,
                     progress.refs.value[kind]);
      WrittenOpens(hash, meaning, state.store.docs, next.store.docs, state.head, next.head, request, kind);
    }
  }

  lemma WrittenOpens(
    hash: Hash, meaning: Id -> Document, original: map<Id, Document>, docs: map<Id, Document>, head: Snapshot,
    next: Snapshot, request: Request, kind: MemoryType)
    requires IsFaithful(hash, meaning) && Holds(docs, meaning) && kind in next.modules
    requires IsWrittenAs(hash, original, docs, head, request, kind, next.modules[kind])
    ensures OpenModule(original, head, kind).Ok? && OpenModule(docs, next, kind).Ok?
    ensures IsNext(hash, request, OpenModule(original, head, kind).value, OpenModule(docs, next, kind).value)
    ensures Tells(hash, docs, next.modules[kind], OpenModule(docs, next, kind).value)
    ensures forall block | block in request.Items(kind) ::
              hash.block(block) in docs && docs[hash.block(block)] == BlockDoc(block)
  {
    hide IsNext, Tells, Request.Items;
    OpenedIsConsistent(original, head, kind);
    var module_: Module, under: map<Id, Document> :|
      && IsNext(hash, request, OpenModule(original, head, kind).value, module_)
      && module_.tombstones <= module_.members && next.modules[kind] == ReferenceTo(hash, module_)
      && IsPersistedIn(hash, under, module_, docs);
    KindOfNext(hash, request, OpenModule(original, head, kind).value, module_);
    CompositionIsThere(hash, under, module_, docs);
    ReferenceTells(hash, meaning, under, module_, docs);
  }

  lemma ReferenceTells(
    hash: Hash, meaning: Id -> Document, under: map<Id, Document>, module_: Module, docs: map<Id, Document>)
    requires IsFaithful(hash, meaning) && Holds(docs, meaning) && IsPersistedIn(hash, under, module_, docs)
    ensures Tells(hash, docs, ReferenceTo(hash, module_), module_)
  {
    var engine := hash.engine(module_.memoryType, module_.members);
    if engine.Some? {
      assert hash.payload(engine.value) in Persist(hash, under, module_);
    }
  }

  lemma CompositionIsThere(hash: Hash, under: map<Id, Document>, module_: Module, docs: map<Id, Document>)
    requires IsPersistedIn(hash, under, module_, docs)
    ensures var composition := Composition(module_.memoryType, module_.members);
            hash.composition(composition) in docs && docs[hash.composition(composition)] == CompositionDoc(composition)
  {
    var composition := Composition(module_.memoryType, module_.members);
    assert hash.composition(composition) in Persist(hash, under, module_);
  }
}
