/** The write path of a brain: writing, dropping, rotating the trust root, keeping signature records. */
module Writer {
  import opened Common
  import opened Documents
  import opened Hashing
  import opened Scopes
  import opened Removals

  /**
   What a handle works on. A handle over no brain yet has an empty head it never publishes; one in the middle of
   a reconciliation refuses to write.
   */
  datatype State = State(store: Store, head: Snapshot, started: bool, reconciling: bool)

  datatype WriteError =
    | ModuleUnreadable
    | AppendOnly
    | TombstonesOutside
    | NotMembers
    | PolicyForbids
    | BlockMisplaced
    | ReconciliationOpen

  // --- Modules, as they are derived ------------------------------------------------------------

  datatype Module = Module(memoryType: MemoryType, members: set<Id>, tombstones: set<Id>) {
    function WithBlocks(ids: set<Id>): (r: Module) {
      this.(members := members + ids)
    }

    function WithoutBlocks(ids: set<Id>): (r: Result<Module, WriteError>) {
      if memoryType == Episodic then Err(AppendOnly)
      else Ok(this.(members := members - ids, tombstones := tombstones * (members - ids)))
    }

    function WithTombstones(ids: set<Id>): (r: Result<Module, WriteError>) {
      if tombstones + ids <= members then Ok(this.(tombstones := tombstones + ids)) else Err(TombstonesOutside)
    }
  }

  /** The installed module, read and checked against its root, or an empty one. */
  function OpenModule(docs: map<Id, Document>, head: Snapshot, kind: MemoryType): (r: Result<Module, WriteError>) {
    if kind !in head.modules then Ok(Module(kind, {}, {}))
    else
      var reference := head.modules[kind];
      if reference.composition in docs && docs[reference.composition].CompositionDoc?
         && Root(docs[reference.composition].composition.blocks) == reference.root
         && docs[reference.composition].composition.memoryType == kind
         && reference.tombstones <= docs[reference.composition].composition.blocks
      then Ok(Module(kind, docs[reference.composition].composition.blocks, reference.tombstones))
      else Err(ModuleUnreadable)
  }

  function ReferenceTo(hash: Hash, module_: Module): (r: ModuleRef) {
    ModuleRef(module_.memoryType, Root(module_.members),
              hash.composition(Composition(module_.memoryType, module_.members)),
              |module_.members|, module_.tombstones,
            match hash.engine(module_.memoryType, module_.members)
            case None => None
            case Some(payload) => Some(hash.payload(payload)))
  }

  /** The documents that a module's next version adds: the index payload it names, if any, and its composition. */
  function Persist(hash: Hash, docs: map<Id, Document>, module_: Module): (r: map<Id, Document>) {
    var composition := Composition(module_.memoryType, module_.members);
    var indexed := match hash.engine(module_.memoryType, module_.members)
      case None => docs
      case Some(payload) => docs[hash.payload(payload) := OtherDoc(payload)];
    indexed[hash.composition(composition) := CompositionDoc(composition)]
  }

  // --- One version -------------------------------------------------------------------------------

  datatype Request = Request(
    blocks: map<MemoryType, seq<Block>>,
    provenance: seq<Block>,
    without: map<MemoryType, set<Id>>,
    tombstones: map<MemoryType, set<Id>>)
  {
    function Items(kind: MemoryType): (r: seq<Block>) {
      (if kind in blocks then blocks[kind] else []) + (if kind == Provenance then provenance else [])
    }

    predicate Touches(kind: MemoryType) {
      kind in blocks || kind in without || kind in tombstones || (kind == Provenance && provenance != [])
    }

    function Excluded(kind: MemoryType): (r: set<Id>) {
      if kind in without then without[kind] else {}
    }
  }

  function Derive(module_: Module, added: set<Id>, request: Request): (r: Result<Module, WriteError>) {
    var grown := module_.WithBlocks(added);
    var kept :- if grown.memoryType in request.without then grown.WithoutBlocks(request.without[grown.memoryType])
                else Ok(grown);
    if grown.memoryType in request.tombstones then kept.WithTombstones(request.tombstones[grown.memoryType])
      else Ok(kept)
  }

  function TouchedFrom(request: Request, kinds: seq<MemoryType>): (r: seq<MemoryType>)
    ensures forall kind :: kind in r <==> kind in kinds && request.Touches(kind)
  {
    if kinds == [] then []
    else (if request.Touches(kinds[0]) then [kinds[0]] else []) + TouchedFrom(request, kinds[1..])
  }

  datatype Progress = Progress(docs: map<Id, Document>, refs: Result<map<MemoryType, ModuleRef>, WriteError>)

  /** One touched module: its blocks stored, its next version derived and persisted. */
  function WriteKind(hash: Hash, docs: map<Id, Document>, head: Snapshot, request: Request, kind: MemoryType)
    : (r: (map<Id, Document>, Result<ModuleRef, WriteError>))
  {
    var items := request.Items(kind);
    var stored := PutBlocks(hash, docs, items);
    var installed := OpenModule(stored, head, kind);
    if installed.Err? then (stored, Err(installed.error))
    else
      var derived := Derive(installed.value, IdsOf(hash, items), request);
      if derived.Err? then (stored, Err(derived.error))
      else (Persist(hash, stored, derived.value), Ok(ReferenceTo(hash, derived.value)))
  }

  /** The touched modules in turn. A refusal stops the loop; what was stored before it stays stored. */
  function WriteKinds(
    hash: Hash, docs: map<Id, Document>, head: Snapshot, request: Request, kinds: seq<MemoryType>,
    refs: map<MemoryType, ModuleRef>): (r: Progress)
    decreases |kinds|
  {
    if kinds == [] then Progress(docs, Ok(refs))
    else
      var (next, written) := WriteKind(hash, docs, head, request, kinds[0]);
      if written.Err? then Progress(next, Err(written.error))
      else WriteKinds(hash, next, head, request, kinds[1..], refs[kinds[0] := written.value])
  }

  /** The document first, then the pointer. */
  function Advanced(hash: Hash, state: State, description: Description): (r: State) {
    var snapshot := SnapshotOf(hash, description);
    state.(store := state.store.(docs := state.store.docs[snapshot.digest := SnapshotDoc(snapshot)]),
           head := snapshot, started := true)
  }

  /** A first version has no parent; every other one continues the head, untouched modules and all. */
  function NextDescription(state: State, refs: map<MemoryType, ModuleRef>, stamp: nat): (r: Description) {
    if state.started then Description([state.head.digest], state.head.modules + refs, state.head.trustRoot, stamp)
    else Description([], refs, state.head.trustRoot, stamp)
  }

  function Written(hash: Hash, state: State, request: Request, stamp: nat): (r: (State, Result<Snapshot, WriteError>)) {
    if state.reconciling then (state, Err(ReconciliationOpen))
    else
      var progress := WriteKinds(hash, state.store.docs, state.head, request, TouchedFrom(request, ALL_MODULES), map[]);
      var stored := state.(store := state.store.(docs := progress.docs));
      if progress.refs.Err? then (stored, Err(progress.refs.error))
      else
        var next := Advanced(hash, stored, NextDescription(state, progress.refs.value, stamp));
        (next, Ok(next.head))
  }

  // --- What one version does to the store -----------------------------------------------------------

  /** What a touched module holds afterwards. */
  function MembersAfter(hash: Hash, docs: map<Id, Document>, head: Snapshot, request: Request, kind: MemoryType)
    : (r: set<Id>)
    requires OpenModule(docs, head, kind).Ok?
  {
    OpenModule(docs, head, kind).value.members + IdsOf(hash, request.Items(kind)) - request.Excluded(kind)
  }

  /** A persisted version: its document is held, and says what was derived. */
  ghost predicate IsPersisted(
    hash: Hash, docs: map<Id, Document>, head: Snapshot, request: Request, kind: MemoryType, reference: ModuleRef)
  {
    && OpenModule(docs, head, kind).Ok?
    && reference.memoryType == kind
    && ReadComposition(docs, reference) == Some(Composition(kind, MembersAfter(hash, docs, head, request, kind)))
    && (forall block | block in request.Items(kind) :: hash.block(block) in docs)
  }

  lemma OpenGrows(before: map<Id, Document>, after: map<Id, Document>, head: Snapshot, kind: MemoryType)
    requires Grows(before, after) && OpenModule(before, head, kind).Ok?
    ensures OpenModule(after, head, kind) == OpenModule(before, head, kind)
  {
  }

  lemma PersistedGrows(
    hash: Hash, before: map<Id, Document>, after: map<Id, Document>, head: Snapshot, request: Request,
    kind: MemoryType, reference: ModuleRef)
    requires Grows(before, after) && IsPersisted(hash, before, head, request, kind, reference)
    ensures IsPersisted(hash, after, head, request, kind, reference)
  {
    OpenGrows(before, after, head, kind);
  }

  lemma DerivedMembers(module_: Module, added: set<Id>, request: Request)
    requires Derive(module_, added, request).Ok?
    ensures Derive(module_, added, request).value.members ==
            module_.members + added - request.Excluded(module_.memoryType)
    ensures Derive(module_, added, request).value.memoryType == module_.memoryType
  {
  }

  lemma PersistGrows(hash: Hash, meaning: Id -> Document, docs: map<Id, Document>, module_: Module)
    requires IsFaithful(hash, meaning) && Holds(docs, meaning)
    ensures Holds(Persist(hash, docs, module_), meaning) && Grows(docs, Persist(hash, docs, module_))
    ensures ReadComposition(Persist(hash, docs, module_), ReferenceTo(hash, module_)) ==
            Some(Composition(module_.memoryType, module_.members))
  {
    var composition := Composition(module_.memoryType, module_.members);
    var engine := hash.engine(module_.memoryType, module_.members);
    var indexed := if engine.None? then docs else docs[hash.payload(engine.value) := OtherDoc(engine.value)];
    if engine.Some? {
      PutGrows(docs, hash.payload(engine.value), OtherDoc(engine.value), meaning);
    }
    PutGrows(indexed, hash.composition(composition), CompositionDoc(composition), meaning);
    GrowthComposes(docs, indexed, Persist(hash, docs, module_));
  }

  lemma PersistingPersists(
    hash: Hash, meaning: Id -> Document, stored: map<Id, Document>, head: Snapshot, request: Request,
    kind: MemoryType, derived: Module)
    requires IsFaithful(hash, meaning) && Holds(stored, meaning) && OpenModule(stored, head, kind).Ok?
    requires derived.memoryType == kind && derived.members == MembersAfter(hash, stored, head, request, kind)
    requires forall block | block in request.Items(kind) :: hash.block(block) in stored
    ensures var after := Persist(hash, stored, derived);
            && Holds(after, meaning) && Grows(stored, after)
            && IsPersisted(hash, after, head, request, kind, ReferenceTo(hash, derived))
  {
    hide OpenModule, IsFaithful, Persist, ReadComposition;
    PersistGrows(hash, meaning, stored, derived);
    OpenGrows(stored, Persist(hash, stored, derived), head, kind);
  }

  lemma OpenedKind(docs: map<Id, Document>, head: Snapshot, kind: MemoryType)
    requires OpenModule(docs, head, kind).Ok?
    ensures OpenModule(docs, head, kind).value.memoryType == kind
  {
  }

  lemma WriteKindPersists(
    hash: Hash, meaning: Id -> Document, docs: map<Id, Document>, head: Snapshot, request: Request, kind: MemoryType)
    requires IsFaithful(hash, meaning) && Holds(docs, meaning)
    ensures var r := WriteKind(hash, docs, head, request, kind);
            && Holds(r.0, meaning) && Grows(docs, r.0)
            && (r.1.Ok? ==> IsPersisted(hash, r.0, head, request, kind, r.1.value))
  {
    hide Derive, PutBlocks, IsFaithful, IsPersisted, ReferenceTo, OpenModule, Request.Items, IdsOf, Holds;
    var items := request.Items(kind);
    var stored := PutBlocks(hash, docs, items);
    PutBlocksHolds(hash, docs, items, meaning);
    var installed := OpenModule(stored, head, kind);
    if installed.Ok? {
      var derived := Derive(installed.value, IdsOf(hash, items), request);
      if derived.Ok? {
        OpenedKind(stored, head, kind);
        DerivedMembers(installed.value, IdsOf(hash, items), request);
        PersistingPersists(hash, meaning, stored, head, request, kind, derived.value);
      }
    }
  }

  ghost predicate ArePersisted(
    hash: Hash, docs: map<Id, Document>, head: Snapshot, request: Request, refs: map<MemoryType, ModuleRef>)
  {
    forall kind | kind in refs :: IsPersisted(hash, docs, head, request, kind, refs[kind])
  }

  lemma {:induction false} WriteKindsPersist(
    hash: Hash, meaning: Id -> Document, docs: map<Id, Document>, head: Snapshot, request: Request,
    kinds: seq<MemoryType>, refs: map<MemoryType, ModuleRef>)
    requires IsFaithful(hash, meaning) && Holds(docs, meaning) && ArePersisted(hash, docs, head, request, refs)
    ensures var r := WriteKinds(hash, docs, head, request, kinds, refs);
            && Holds(r.docs, meaning) && Grows(docs, r.docs)
            && (r.refs.Ok? ==> ArePersisted(hash, r.docs, head, request, r.refs.value)
                               && r.refs.value.Keys == refs.Keys + set kind | kind in kinds)
    decreases |kinds|
  {
    hide WriteKind, IsPersisted;
    if kinds != [] {
      var (next, written) := WriteKind(hash, docs, head, request, kinds[0]);
      WriteKindPersists(hash, meaning, docs, head, request, kinds[0]);
      if written.Ok? {
        forall kind | kind in refs
          ensures IsPersisted(hash, next, head, request, kind, refs[kind])
        {
          PersistedGrows(hash, docs, next, head, request, kind, refs[kind]);
        }
        WriteKindsPersist(hash, meaning, next, head, request, kinds[1..], refs[kinds[0] := written.value]);
        assert forall kind :: kind in kinds <==> kind == kinds[0] || kind in kinds[1..];
      }
    }
  }
}
