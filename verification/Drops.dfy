/** Dropping: blocks excluded with whatever follows them, and a record of it all, in one version. */
module Drops {
  import opened Common
  import opened Documents
  import opened Hashing
  import opened Writer
  import opened Cascade

  datatype RetentionPolicy = RetentionPolicy(
    droppable: set<MemoryType>,
    canonicalDropAllowed: bool,
    reviewThreshold: Option<nat>,
    mechanisms: Option<set<Mechanism>>)
  {
    predicate PermitsDrop(kind: MemoryType) {
      && kind != Episodic
      && (mechanisms.None? || Drop in mechanisms.value)
      && kind in droppable
      && (kind == Canonical ==> canonicalDropAllowed)
    }

    predicate RequiresReview(size: nat) {
      reviewThreshold.Some? && size > reviewThreshold.value
    }
  }

  function RemovalBlocks(dropped: map<MemoryType, set<Id>>, kinds: seq<MemoryType>, detail: nat): (r: seq<Block>)
    ensures forall kind | kind in kinds && kind in dropped :: RemovalBlock(dropped[kind], kind, detail) in r
  {
    if kinds == [] then []
    else
      (if kinds[0] in dropped then [RemovalBlock(dropped[kinds[0]], kinds[0], detail)] else [])
      + RemovalBlocks(dropped, kinds[1..], detail)
  }

  /** The one version a drop writes: the exclusions, and a record of each. */
  function DropWrite(dropped: map<MemoryType, set<Id>>, detail: nat): (r: Request) {
    Request(map[], RemovalBlocks(dropped, ALL_MODULES, detail), dropped, map[])
  }

  function Union(a: map<MemoryType, set<Id>>, b: map<MemoryType, set<Id>>): (r: map<MemoryType, set<Id>>) {
    map kind | kind in a.Keys + b.Keys :: In(a, kind) + In(b, kind)
  }

  function SizeOf(cascade: map<MemoryType, set<Id>>, kinds: seq<MemoryType>): (r: nat) {
    if kinds == [] then 0 else |In(cascade, kinds[0])| + SizeOf(cascade, kinds[1..])
  }

  predicate AllReadable(state: State) {
    forall kind | kind in state.head.modules :: OpenModule(state.store.docs, state.head, kind).Ok?
  }

  /**
   What a drop comes to: a version, or the head as it was because there was nothing to do or somebody must look
   first.
   */
  datatype DropResult =
    | Published(snapshot: Snapshot)
    | NothingToDrop(snapshot: Snapshot)
    | HeldForReview(snapshot: Snapshot)

  function DropOf(written: (State, Result<Snapshot, WriteError>)): (r: (State, Result<DropResult, WriteError>)) {
    (written.0, if written.1.Err? then Err(written.1.error) else Ok(Published(written.1.value)))
  }

  /** The modules a cascade is read from can be read block by block. */
  predicate CanPlan(state: State) {
    forall kind | kind in {Semantic, Procedural, Provenance} :: IsLegible(state.store.docs, state.head, kind)
  }

  /** The exclusions of a drop: the blocks named and all that follows them. */
  ghost function Taken(state: State, blocks: set<Id>, kind: MemoryType): (r: map<MemoryType, set<Id>>) {
    Union(map[kind := blocks], CascadeOf(state.store.docs, state.head, blocks))
  }

  ghost function Dropped(
    hash: Hash, state: State, policy: RetentionPolicy, blocks: set<Id>, kind: MemoryType, detail: nat, stamp: nat)
    : (r: (State, Result<DropResult, WriteError>))
  {
    if !policy.PermitsDrop(kind) then (state, Err(PolicyForbids))
    else if kind !in state.head.modules || OpenModule(state.store.docs, state.head, kind).Err? then
      (state, Err(ModuleUnreadable))
    else if !(blocks <= OpenModule(state.store.docs, state.head, kind).value.members) then (state, Err(NotMembers))
    else if !AllReadable(state) then (state, Err(ModuleUnreadable))
    else if !CanPlan(state) then (state, Err(BlockMisplaced))
    else if policy.RequiresReview(SizeOf(CascadeOf(state.store.docs, state.head, blocks), ALL_MODULES)) then
      (state, Ok(HeldForReview(state.head)))
    else
      var dropped := Taken(state, blocks, kind);
      if exists reached | reached in dropped :: !policy.PermitsDrop(reached) then (state, Err(PolicyForbids))
      else DropOf(Written(hash, state, DropWrite(dropped, detail), stamp))
  }

  /** What a producer made and the named modules still hold. */
  function Origins(state: State, made: set<Id>, kinds: set<MemoryType>): (r: map<MemoryType, set<Id>>)
    requires AllReadable(state)
  {
    map kind | kind in kinds * state.head.modules.Keys
               && made * OpenModule(state.store.docs, state.head, kind).value.members != {}
      :: made * OpenModule(state.store.docs, state.head, kind).value.members
  }

  /** The cascades of the modules that something is dropped from, put together. */
  ghost function CascadeFrom(state: State, origins: map<MemoryType, set<Id>>, kinds: seq<MemoryType>)
    : (r: map<MemoryType, set<Id>>)
  {
    if kinds == [] then origins
    else
      var last := |kinds| - 1;
      var earlier := CascadeFrom(state, origins, kinds[..last]);
      if kinds[last] !in origins then earlier
      else Union(earlier, CascadeOf(state.store.docs, state.head, origins[kinds[last]]))
  }

  ghost function SizeFrom(state: State, origins: map<MemoryType, set<Id>>, kinds: seq<MemoryType>): (r: nat) {
    if kinds == [] then 0
    else
      var last := |kinds| - 1;
      SizeFrom(state, origins, kinds[..last])
      + if kinds[last] !in origins then 0
        else SizeOf(CascadeOf(state.store.docs, state.head, origins[kinds[last]]), ALL_MODULES)
  }

  ghost function DroppedByProducer(
    hash: Hash, state: State, policy: RetentionPolicy, made: set<Id>, kinds: set<MemoryType>, detail: nat, stamp: nat)
    : (r: (State, Result<DropResult, WriteError>))
  {
    if !AllReadable(state) then (state, Err(ModuleUnreadable))
    else if !IsLegible(state.store.docs, state.head, Provenance) then (state, Err(BlockMisplaced))
    else
      var origins := Origins(state, made, kinds);
      if origins == map[] then (state, Ok(NothingToDrop(state.head)))
      else if exists kind | kind in origins :: !policy.PermitsDrop(kind) then (state, Err(PolicyForbids))
      else if !CanPlan(state) then (state, Err(BlockMisplaced))
      else if policy.RequiresReview(SizeFrom(state, origins, ALL_MODULES)) then (state, Ok(HeldForReview(state.head)))
      else
        var dropped := CascadeFrom(state, origins, ALL_MODULES);
        if exists kind | kind in dropped :: !policy.PermitsDrop(kind) then (state, Err(PolicyForbids))
        else DropOf(Written(hash, state, DropWrite(dropped, detail), stamp))
  }
}
