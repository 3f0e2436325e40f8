/** When a drop may be written, and what a written one leaves: in the terms of the policy and of the modules. */
module DropRules {
  import opened Common
  import opened Documents
  import opened Hashing
  import opened Paths
  import opened Removals
  import opened Writer
  import opened Cascade
  import opened Drops
  import opened RemovalAgreement
  import opened Versions

  // --- What a policy lets go -----------------------------------------------------------------------

  /** Never an episode; by dropping at all; out of this module; and canonical evidence only by express leave. */
  predicate MayLose(policy: RetentionPolicy, kind: MemoryType) {
    && kind in policy.droppable
    && kind != Episodic
    && (policy.mechanisms == None || (policy.mechanisms.Some? && Drop in policy.mechanisms.value))
    && (kind == Canonical ==> policy.canonicalDropAllowed)
  }

  /** How many blocks some exclusions come to, over all modules. */
  function Total(m: map<MemoryType, set<Id>>): (r: nat) {
    |In(m, Canonical)| + |In(m, Episodic)| + |In(m, Semantic)| + |In(m, Procedural)| + |In(m, Provenance)|
  }

  predicate IsWithin(policy: RetentionPolicy, size: nat) {
    policy.reviewThreshold == None || (policy.reviewThreshold.Some? && size <= policy.reviewThreshold.value)
  }

  lemma PermitsExactly(policy: RetentionPolicy, kind: MemoryType)
    ensures policy.PermitsDrop(kind) <==> MayLose(policy, kind)
  {
  }

  lemma ReviewsExactly(policy: RetentionPolicy, m: map<MemoryType, set<Id>>)
    ensures SizeOf(m, ALL_MODULES) == Total(m)
    ensures policy.RequiresReview(Total(m)) <==> !IsWithin(policy, Total(m))
  {
    assert ALL_MODULES[1..] == [Episodic, Semantic, Procedural, Provenance];
    assert ALL_MODULES[1..][1..] == [Semantic, Procedural, Provenance];
    assert SizeOf(m, [Provenance]) == |In(m, Provenance)| + SizeOf(m, []);
    assert SizeOf(m, [Procedural, Provenance]) == |In(m, Procedural)| + SizeOf(m, [Provenance]);
    assert SizeOf(m, [Semantic, Procedural, Provenance]) == |In(m, Semantic)| + SizeOf(m, [Procedural, Provenance]);
  }

  // --- What a written drop does to the modules ------------------------------------------------------------

  lemma NothingIsUnreadable(state: State, kind: MemoryType)
    requires AllReadable(state)
    ensures OpenModule(state.store.docs, state.head, kind).Ok?
  {
  }

  lemma DropWriteIs(dropped: map<MemoryType, set<Id>>, detail: nat)
    ensures var request := DropWrite(dropped, detail);
            && request.blocks == map[] && request.without == dropped && request.tombstones == map[]
            && forall block :: block in request.provenance <==>
                               exists kind | kind in dropped :: block == RemovalBlock(dropped[kind], kind, detail)
  {
    RemovalBlocksAre(dropped, ALL_MODULES, detail);
    forall kind | kind in dropped
      ensures RemovalBlock(dropped[kind], kind, detail) in DropWrite(dropped, detail).provenance
    {
      EveryModuleIsListed(kind);
    }
  }

  /** A drop that is asked for is written, if no reconciliation is open and it takes no episode. */
  lemma DropIsWrittenExactly(
    hash: Hash, meaning: Id -> Document, state: State, dropped: map<MemoryType, set<Id>>, detail: nat, stamp: nat)
    requires IsFaithful(hash, meaning) && Holds(state.store.docs, meaning) && AllReadable(state)
    ensures Written(hash, state, DropWrite(dropped, detail), stamp).1.Ok? <==>
            !state.reconciling && Episodic !in dropped
  {
    hide IsFaithful, Holds, Written, DropWrite, OpenModule, AllReadable;
    var request := DropWrite(dropped, detail);
    DropWriteIs(dropped, detail);
    WriteGoesThroughExactly(hash, meaning, state, request, stamp);
    forall kind
      ensures OpenModule(state.store.docs, state.head, kind).Ok?
      ensures OpenModule(state.store.docs, state.head, kind).value.memoryType == kind
    {
      NothingIsUnreadable(state, kind);
      OpenedIsConsistent(state.store.docs, state.head, kind);
    }
    assert IsTouched(request, Episodic) <==> Episodic in dropped;
  }

  /** Exactly what was to go is gone, and all that is new is the records of it. */
  lemma DropIsExact(
    hash: Hash, meaning: Id -> Document, state: State, dropped: map<MemoryType, set<Id>>, detail: nat, stamp: nat,
    kind: MemoryType, id: Id)
    requires IsFaithful(hash, meaning) && Holds(state.store.docs, meaning) && AllReadable(state) && state.started
    requires Written(hash, state, DropWrite(dropped, detail), stamp).1.Ok?
    ensures var next := Written(hash, state, DropWrite(dropped, detail), stamp).0;
            id in MembersOf(next.store.docs, next.head, kind) <==>
            && id !in In(dropped, kind)
            && (|| id in MembersOf(state.store.docs, state.head, kind)
                || (kind == Provenance && exists reached | reached in dropped ::
                                            id == hash.block(RemovalBlock(dropped[reached], reached, detail))))
  {
    hide IsFaithful, Holds, Written, DropWrite, OpenModule, AllReadable, Request.Items;
    var request := DropWrite(dropped, detail);
    DropWriteIs(dropped, detail);
    WriteIsExact(hash, meaning, state, request, stamp);
    var next := Written(hash, state, request, stamp).0;
    NothingIsUnreadable(state, kind);
    OpenedIsConsistent(state.store.docs, state.head, kind);
    forall reached | reached in dropped
      ensures RemovalBlock(dropped[reached], reached, detail) in request.provenance
    {
    }
    if !IsTouched(request, kind) {
      UntouchedOpens(state, next, kind);
    }
  }

  lemma UntouchedOpens(state: State, next: State, kind: MemoryType)
    requires Grows(state.store.docs, next.store.docs) && OpenModule(state.store.docs, state.head, kind).Ok?
    requires kind in next.head.modules <==> kind in state.head.modules
    requires kind in state.head.modules ==> next.head.modules[kind] == state.head.modules[kind]
    ensures OpenModule(next.store.docs, next.head, kind) == OpenModule(state.store.docs, state.head, kind)
  {
  }

  // --- When a drop publishes --------------------------------------------------------------------------------

  /** The cascade of some exclusions, counted and read off the modules. */
  ghost predicate CanBePlanned(state: State) {
    && (forall kind | kind in state.head.modules :: OpenModule(state.store.docs, state.head, kind).Ok?)
    && IsLegible(state.store.docs, state.head, Semantic)
    && IsLegible(state.store.docs, state.head, Procedural)
    && IsLegible(state.store.docs, state.head, Provenance)
  }

  /**
   A drop publishes exactly when the blocks are members of an installed module, everything can be read, no
   reconciliation is open, the policy lets go of every module that would lose something, and no more follows than
   may go unreviewed.
   */
  lemma DropPublishesExactly(
    hash: Hash, meaning: Id -> Document, state: State, policy: RetentionPolicy, blocks: set<Id>, kind: MemoryType,
    detail: nat, stamp: nat)
    requires IsFaithful(hash, meaning) && Holds(state.store.docs, meaning)
    ensures var (next, r) := Dropped(hash, state, policy, blocks, kind, detail, stamp);
            var cascade := CascadeOf(state.store.docs, state.head, blocks);
            && (r.Ok? && r.value.Published? <==>
                && !state.reconciling && CanBePlanned(state)
                && kind in state.head.modules && blocks <= MembersOf(state.store.docs, state.head, kind)
                && MayLose(policy, kind) && (forall reached | reached in cascade :: MayLose(policy, reached))
                && IsWithin(policy, Total(cascade)))
            && (r.Ok? && r.value.HeldForReview? <==>
                && CanBePlanned(state)
                && kind in state.head.modules && blocks <= MembersOf(state.store.docs, state.head, kind)
                && MayLose(policy, kind) && !IsWithin(policy, Total(cascade)))
            && (r.Ok? ==> !r.value.NothingToDrop?)
            && (r.Ok? && r.value.HeldForReview? ==> next == state && r.value.snapshot == state.head)
  {
    hide IsFaithful, Holds, Written, DropWrite, OpenModule, CascadeOf, SizeOf, Total, MayLose, IsWithin, Taken,
         RetentionPolicy.PermitsDrop, RetentionPolicy.RequiresReview, CanBePlanned, AllReadable, CanPlan;
    var cascade := CascadeOf(state.store.docs, state.head, blocks);
    forall reached
      ensures policy.PermitsDrop(reached) <==> MayLose(policy, reached)
    {
      PermitsExactly(policy, reached);
    }
    ReviewsExactly(policy, cascade);
    PlansExactly(state, kind);
    TakenKeys(state, blocks, kind);
    if AllReadable(state) {
      DropIsWrittenExactly(hash, meaning, state, Taken(state, blocks, kind), detail, stamp);
      EpisodesStay(policy);
    }
  }

  lemma PlansExactly(state: State, kind: MemoryType)
    ensures CanBePlanned(state) <==> AllReadable(state) && CanPlan(state)
    ensures AllReadable(state) ==> OpenModule(state.store.docs, state.head, kind).Ok?
  {
    hide IsLegible;
  }

  lemma TakenKeys(state: State, blocks: set<Id>, kind: MemoryType)
    ensures Taken(state, blocks, kind).Keys == {kind} + CascadeOf(state.store.docs, state.head, blocks).Keys
  {
    hide CascadeOf;
  }

  lemma EpisodesStay(policy: RetentionPolicy)
    ensures !MayLose(policy, Episodic)
  {
  }

  ghost predicate Publishes(
    hash: Hash, state: State, policy: RetentionPolicy, blocks: set<Id>, kind: MemoryType, detail: nat, stamp: nat,
    next: State)
  {
    var dropped := Dropped(hash, state, policy, blocks, kind, detail, stamp);
    dropped.0 == next && dropped.1.Ok? && dropped.1.value.Published?
  }

  /** What a policy forbids does not happen: a module lost a block only if the policy lets go of that module. */
  lemma PublishedDropsArePermitted(
    hash: Hash, meaning: Id -> Document, state: State, policy: RetentionPolicy, blocks: set<Id>, kind: MemoryType,
    detail: nat, stamp: nat, next: State, lost: MemoryType)
    requires IsFaithful(hash, meaning) && Holds(state.store.docs, meaning) && state.started
    requires Publishes(hash, state, policy, blocks, kind, detail, stamp, next) && LostFrom(state, next, lost) != {}
    ensures lost in policy.droppable && lost != Episodic
    ensures policy.mechanisms.Some? ==> Drop in policy.mechanisms.value
    ensures lost == Canonical ==> policy.canonicalDropAllowed
  {
    hide IsFaithful, Holds, CascadeOf, Dropped, LostFrom, MembersOf, CanBePlanned, Total, IsWithin;
    DropPublishesExactly(hash, meaning, state, policy, blocks, kind, detail, stamp);
    LossHasACause(hash, meaning, state, policy, blocks, kind, detail, stamp, next, lost);
    assert MayLose(policy, lost);
  }

  /** And no more goes than the blocks named, which all do, and as many others as may go unreviewed. */
  lemma PublishedDropsAreReviewed(
    hash: Hash, meaning: Id -> Document, state: State, policy: RetentionPolicy, blocks: set<Id>, kind: MemoryType,
    detail: nat, stamp: nat, next: State)
    requires IsFaithful(hash, meaning) && Holds(state.store.docs, meaning) && state.started
    requires Publishes(hash, state, policy, blocks, kind, detail, stamp, next)
    ensures blocks <= LostFrom(state, next, kind)
    ensures policy.reviewThreshold.Some? ==>
              |LostFrom(state, next, Canonical) - blocks| + |LostFrom(state, next, Episodic) - blocks|
              + |LostFrom(state, next, Semantic) - blocks| + |LostFrom(state, next, Procedural) - blocks|
              + |LostFrom(state, next, Provenance) - blocks| <= policy.reviewThreshold.value
  {
    hide IsFaithful, Holds, CascadeOf, Dropped, LostFrom, MembersOf, CanBePlanned, Total, MayLose, In;
    DropPublishesExactly(hash, meaning, state, policy, blocks, kind, detail, stamp);
    var cascade := CascadeOf(state.store.docs, state.head, blocks);
    forall lost
      ensures |LostFrom(state, next, lost) - blocks| <= |In(cascade, lost)|
    {
      LossHasACause(hash, meaning, state, policy, blocks, kind, detail, stamp, next, lost);
    }
    LossHasACause(hash, meaning, state, policy, blocks, kind, detail, stamp, next, kind);
    LossesAdd(state, next, blocks, cascade);
  }

  lemma LossesAdd(state: State, next: State, blocks: set<Id>, cascade: map<MemoryType, set<Id>>)
    requires forall lost :: |LostFrom(state, next, lost) - blocks| <= |In(cascade, lost)|
    ensures |LostFrom(state, next, Canonical) - blocks| + |LostFrom(state, next, Episodic) - blocks|
            + |LostFrom(state, next, Semantic) - blocks| + |LostFrom(state, next, Procedural) - blocks|
            + |LostFrom(state, next, Provenance) - blocks| <= Total(cascade)
  {
    hide LostFrom, In;
  }

  lemma LossHasACause(
    hash: Hash, meaning: Id -> Document, state: State, policy: RetentionPolicy, blocks: set<Id>, kind: MemoryType,
    detail: nat, stamp: nat, next: State, lost: MemoryType)
    requires IsFaithful(hash, meaning) && Holds(state.store.docs, meaning) && state.started
    requires Publishes(hash, state, policy, blocks, kind, detail, stamp, next)
    ensures var cascade := CascadeOf(state.store.docs, state.head, blocks);
            && (LostFrom(state, next, lost) != {} ==> lost == kind || lost in cascade)
            && |LostFrom(state, next, lost) - blocks| <= |In(cascade, lost)|
            && LostFrom(state, next, lost) ==
               MembersOf(state.store.docs, state.head, lost) * ((if lost == kind then blocks else {})
                                                                + In(cascade, lost))
            && (lost == kind && blocks <= MembersOf(state.store.docs, state.head, kind) ==>
                  blocks <= LostFrom(state, next, lost))
  {
    hide IsFaithful, Holds, Written, DropWrite, CascadeOf, Dropped, LostFrom, MembersOf, Taken, AllReadable;
    PublishedIsWritten(hash, state, policy, blocks, kind, detail, stamp);
    LostExactly(hash, meaning, state, Taken(state, blocks, kind), detail, stamp, lost);
    TakenIn(state, blocks, kind, lost);
    SubsetSize(LostFrom(state, next, lost) - blocks, In(CascadeOf(state.store.docs, state.head, blocks), lost));
  }

  /** What a module held before and does not hold after. */
  ghost function LostFrom(state: State, next: State, kind: MemoryType): (r: set<Id>) {
    MembersOf(state.store.docs, state.head, kind) - MembersOf(next.store.docs, next.head, kind)
  }

  lemma LostExactly(
    hash: Hash, meaning: Id -> Document, state: State, dropped: map<MemoryType, set<Id>>, detail: nat, stamp: nat,
    kind: MemoryType)
    requires IsFaithful(hash, meaning) && Holds(state.store.docs, meaning) && AllReadable(state) && state.started
    requires Written(hash, state, DropWrite(dropped, detail), stamp).1.Ok?
    ensures var next := Written(hash, state, DropWrite(dropped, detail), stamp).0;
            LostFrom(state, next, kind) == MembersOf(state.store.docs, state.head, kind) * In(dropped, kind)
  {
    hide IsFaithful, Holds, Written, DropWrite, MembersOf, AllReadable;
    forall id {
      DropIsExact(hash, meaning, state, dropped, detail, stamp, kind, id);
    }
  }

  lemma PublishedIsWritten(
    hash: Hash, state: State, policy: RetentionPolicy, blocks: set<Id>, kind: MemoryType, detail: nat, stamp: nat)
    requires var r := Dropped(hash, state, policy, blocks, kind, detail, stamp).1;
             r.Ok? && r.value.Published?
    ensures var written := Written(hash, state, DropWrite(Taken(state, blocks, kind), detail), stamp);
            && AllReadable(state)
            && written.1.Ok?
            && Dropped(hash, state, policy, blocks, kind, detail, stamp) == (written.0, Ok(Published(written.1.value)))
  {
    hide Written, DropWrite, OpenModule, CascadeOf, IsLegible, SizeOf, Taken;
  }

  lemma TakenIn(state: State, blocks: set<Id>, kind: MemoryType, other: MemoryType)
    ensures In(Taken(state, blocks, kind), other) ==
            (if other == kind then blocks else {}) + In(CascadeOf(state.store.docs, state.head, blocks), other)
  {
    hide CascadeOf;
  }

  // --- Nothing is left hanging ------------------------------------------------------------------------------

  /** No block is left, in a module it is at home in, that points at a block which went. */
  lemma NothingLeftPointsAtWhatWent(
    hash: Hash, meaning: Id -> Document, state: State, policy: RetentionPolicy, blocks: set<Id>, kind: MemoryType,
    detail: nat, stamp: nat, next: State, target: Id, lost: MemoryType, id: Id)
    requires IsFaithful(hash, meaning) && Holds(state.store.docs, meaning) && state.started
    requires Publishes(hash, state, policy, blocks, kind, detail, stamp, next) && target in LostFrom(state, next, lost)
    requires Points(state.store.docs, state.head, target, id)
    requires Home(state.store.docs, state.head, id) == Some(state.store.docs[id].block.memoryType)
    requires id !in blocks || kind == state.store.docs[id].block.memoryType
    ensures id !in MembersOf(next.store.docs, next.head, state.store.docs[id].block.memoryType)
  {
    hide IsFaithful, Holds, CascadeOf, Dropped, MembersOf, Home, Publishes, In;
    var home := state.store.docs[id].block.memoryType;
    LossHasACause(hash, meaning, state, policy, blocks, kind, detail, stamp, next, lost);
    LossHasACause(hash, meaning, state, policy, blocks, kind, detail, stamp, next, home);
    HomeIsThere(state, id);
    if id !in blocks {
      PointingBlocksFollow(state.store.docs, state.head, blocks, target, id);
    }
  }

  lemma HomeIsThere(state: State, id: Id)
    ensures Home(state.store.docs, state.head, id).Some? ==>
              id in MembersOf(state.store.docs, state.head, Home(state.store.docs, state.head, id).value)
  {
    hide MembersOf;
  }

  /** No block is left, in the first module that held it, that was derived from a block which was named. */
  lemma NothingLeftIsDerivedFromWhatWent(
    hash: Hash, meaning: Id -> Document, state: State, policy: RetentionPolicy, blocks: set<Id>, kind: MemoryType,
    detail: nat, stamp: nat, next: State, chain: seq<Id>, home: MemoryType)
    requires IsFaithful(hash, meaning) && Holds(state.store.docs, meaning) && state.started
    requires Publishes(hash, state, policy, blocks, kind, detail, stamp, next)
    requires IsDerivationChain(state.store.docs, state.head, chain) && chain[0] in blocks
    requires Home(state.store.docs, state.head, chain[|chain| - 1]) == Some(home)
    requires chain[|chain| - 1] !in blocks || kind == home
    ensures chain[|chain| - 1] !in MembersOf(next.store.docs, next.head, home)
  {
    hide IsFaithful, Holds, CascadeOf, Dropped, MembersOf, Home, Publishes, In, Cites;
    var id := chain[|chain| - 1];
    LossHasACause(hash, meaning, state, policy, blocks, kind, detail, stamp, next, home);
    HomeIsThere(state, id);
    if id !in blocks {
      DerivedBlocksFollow(state.store.docs, state.head, blocks, chain, home);
    }
  }

  /** And whatever else went hung on a block that was named. */
  lemma WhateverWentHungOnWhatWasNamed(
    hash: Hash, meaning: Id -> Document, state: State, policy: RetentionPolicy, blocks: set<Id>, kind: MemoryType,
    detail: nat, stamp: nat, next: State, lost: MemoryType, id: Id)
    requires IsFaithful(hash, meaning) && Holds(state.store.docs, meaning) && state.started
    requires Publishes(hash, state, policy, blocks, kind, detail, stamp, next)
    requires id in LostFrom(state, next, lost) && !(lost == kind && id in blocks)
    ensures exists trail ::
              IsTrail(state.store.docs, state.head, trail) && trail[0] in blocks && trail[|trail| - 1] == id
  {
    hide IsFaithful, Holds, CascadeOf, Dropped, MembersOf, Publishes, In, IsTrail;
    LossHasACause(hash, meaning, state, policy, blocks, kind, detail, stamp, next, lost);
    NothingElseFollows(state.store.docs, state.head, blocks, lost, id);
  }

  // --- Drops by producer ---------------------------------------------------------------------------------

  /** A block of a named, installed module that the producer made. */
  predicate IsFound(state: State, made: set<Id>, kinds: set<MemoryType>, kind: MemoryType, id: Id) {
    && kind in kinds && kind in state.head.modules
    && id in made && id in MembersOf(state.store.docs, state.head, kind)
  }

  lemma OriginsExactly(state: State, made: set<Id>, kinds: set<MemoryType>, kind: MemoryType)
    requires AllReadable(state)
    ensures forall id :: id in In(Origins(state, made, kinds), kind) <==> IsFound(state, made, kinds, kind, id)
    ensures kind in Origins(state, made, kinds) <==> exists id :: IsFound(state, made, kinds, kind, id)
  {
    hide OpenModule;
    var found := made * MembersOf(state.store.docs, state.head, kind);
    if kind in kinds && kind in state.head.modules && found != {} {
      var id :| id in found;
      assert IsFound(state, made, kinds, kind, id);
    }
  }

  /** A module that loses something to the cascade of one of the origins. */
  ghost predicate IsReached(state: State, origins: map<MemoryType, set<Id>>, kinds: seq<MemoryType>, kind: MemoryType) {
    exists origin | origin in kinds :: origin in origins
      && kind in CascadeOf(state.store.docs, state.head, origins[origin])
  }

  ghost predicate Follows(
    state: State, origins: map<MemoryType, set<Id>>, kinds: seq<MemoryType>, kind: MemoryType, id: Id)
  {
    exists origin | origin in kinds ::
      origin in origins && id in In(CascadeOf(state.store.docs, state.head, origins[origin]), kind)
  }

  /** The cascades put together: the origins, and what follows any of them. */
  lemma {:induction false} CascadeFromExactly(
    state: State, origins: map<MemoryType, set<Id>>, kinds: seq<MemoryType>, kind: MemoryType)
    ensures kind in CascadeFrom(state, origins, kinds) <==> kind in origins || IsReached(state, origins, kinds, kind)
    ensures forall id :: id in In(CascadeFrom(state, origins, kinds), kind) <==>
                         id in In(origins, kind) || Follows(state, origins, kinds, kind, id)
  {
    hide CascadeOf;
    if kinds != [] {
      var last := |kinds| - 1;
      CascadeFromExactly(state, origins, kinds[..last], kind);
      assert forall other :: other in kinds <==> other == kinds[last] || other in kinds[..last];
    }
  }

  /** How much follows, over all the modules something is dropped from. */
  ghost function Follower(state: State, origins: map<MemoryType, set<Id>>, kind: MemoryType): (r: nat) {
    if kind in origins then Total(CascadeOf(state.store.docs, state.head, origins[kind])) else 0
  }

  lemma SizeFromStep(state: State, origins: map<MemoryType, set<Id>>, kinds: seq<MemoryType>, kind: MemoryType)
    ensures SizeFrom(state, origins, kinds + [kind]) == SizeFrom(state, origins, kinds) + Follower(state, origins, kind)
  {
    hide CascadeOf, SizeOf, Total;
    assert (kinds + [kind])[..|kinds|] == kinds;
    if kind in origins {
      ReviewsExactly(RetentionPolicy({}, false, None, None), CascadeOf(state.store.docs, state.head, origins[kind]));
    }
  }

  lemma SizeFromExactly(state: State, origins: map<MemoryType, set<Id>>)
    ensures SizeFrom(state, origins, ALL_MODULES) ==
            Follower(state, origins, Canonical) + Follower(state, origins, Episodic)
              + Follower(state, origins, Semantic)
            + Follower(state, origins, Procedural) + Follower(state, origins, Provenance)
  {
    hide Follower, SizeFrom;
    assert SizeFrom(state, origins, []) == 0 by { NothingToCount(state, origins); }
    SizeFromStep(state, origins, [], Canonical);
    SizeFromStep(state, origins, [Canonical], Episodic);
    SizeFromStep(state, origins, [Canonical, Episodic], Semantic);
    SizeFromStep(state, origins, [Canonical, Episodic, Semantic], Procedural);
    SizeFromStep(state, origins, [Canonical, Episodic, Semantic, Procedural], Provenance);
    assert [] + [Canonical] == [Canonical] && [Canonical] + [Episodic] == [Canonical, Episodic];
    assert [Canonical, Episodic] + [Semantic] == [Canonical, Episodic, Semantic];
    assert [Canonical, Episodic, Semantic] + [Procedural] == [Canonical, Episodic, Semantic, Procedural];
    assert [Canonical, Episodic, Semantic, Procedural] + [Provenance] == ALL_MODULES;
  }

  lemma NothingToCount(state: State, origins: map<MemoryType, set<Id>>)
    ensures SizeFrom(state, origins, []) == 0
  {
  }

  /**
   A drop by producer has nothing to do exactly when nothing the producer made is found; it publishes exactly when
   something is, no reconciliation is open, everything can be read, the policy lets go of every module something is
   found in or something follows in, and no more follows than may go unreviewed.
   */
  lemma ProducerDropPublishesExactly(
    hash: Hash, meaning: Id -> Document, state: State, policy: RetentionPolicy, made: set<Id>, kinds: set<MemoryType>,
    detail: nat, stamp: nat)
    requires IsFaithful(hash, meaning) && Holds(state.store.docs, meaning)
    requires AllReadable(state) && IsLegible(state.store.docs, state.head, Provenance)
    ensures var (next, r) := DroppedByProducer(hash, state, policy, made, kinds, detail, stamp);
            var origins := Origins(state, made, kinds);
            && (r.Ok? && r.value.NothingToDrop? <==> forall kind, id :: !IsFound(state, made, kinds, kind, id))
            && (r.Ok? && r.value.Published? <==>
                && !state.reconciling && CanBePlanned(state)
                && (exists kind, id :: IsFound(state, made, kinds, kind, id))
                && (forall kind, id | IsFound(state, made, kinds, kind, id) :: MayLose(policy, kind))
                && (forall kind | IsReached(state, origins, ALL_MODULES, kind) :: MayLose(policy, kind))
                && IsWithin(policy, SizeFrom(state, origins, ALL_MODULES)))
            && (r.Ok? && !r.value.Published? ==> next == state && r.value.snapshot == state.head)
  {
    hide IsFaithful, Holds, Written, DropWrite, OpenModule, SizeFrom, CascadeFrom, MayLose, IsWithin, Origins, IsFound,
         IsReached, RetentionPolicy.PermitsDrop, RetentionPolicy.RequiresReview, CanBePlanned, AllReadable, CanPlan;
    var origins := Origins(state, made, kinds);
    forall kind
      ensures policy.PermitsDrop(kind) <==> MayLose(policy, kind)
      ensures kind in origins <==> exists id :: IsFound(state, made, kinds, kind, id)
      ensures kind in CascadeFrom(state, origins, ALL_MODULES) <==>
              kind in origins || IsReached(state, origins, ALL_MODULES, kind)
    {
      PermitsExactly(policy, kind);
      OriginsExactly(state, made, kinds, kind);
      CascadeFromExactly(state, origins, ALL_MODULES, kind);
    }
    WithinExactly(policy, SizeFrom(state, origins, ALL_MODULES));
    PlansExactly(state, Provenance);
    NothingIsEmpty(origins);
    var dropped := CascadeFrom(state, origins, ALL_MODULES);
    DropIsWrittenExactly(hash, meaning, state, dropped, detail, stamp);
    EpisodesStay(policy);
    forall kind, id | IsFound(state, made, kinds, kind, id)
      ensures kind in origins
    {
      assert policy.PermitsDrop(kind) <==> MayLose(policy, kind);
    }
    if kind :| kind in origins {
      assert policy.PermitsDrop(kind) <==> MayLose(policy, kind);
      assert exists id :: IsFound(state, made, kinds, kind, id);
    }
    assert (forall kind | kind in origins :: policy.PermitsDrop(kind)) <==>
           forall kind, id | IsFound(state, made, kinds, kind, id) :: MayLose(policy, kind);
    assert (forall kind | kind in dropped :: policy.PermitsDrop(kind)) <==>
           (forall kind | kind in origins :: policy.PermitsDrop(kind))
           && forall kind | IsReached(state, origins, ALL_MODULES, kind) :: MayLose(policy, kind);
    if DroppedByProducer(hash, state, policy, made, kinds, detail, stamp).1.Ok? {
      assert Episodic in dropped ==> exists kind | kind in dropped :: !policy.PermitsDrop(kind);
    }
  }

  lemma WithinExactly(policy: RetentionPolicy, size: nat)
    ensures policy.RequiresReview(size) <==> !IsWithin(policy, size)
  {
  }

  lemma NothingIsEmpty(origins: map<MemoryType, set<Id>>)
    ensures origins == map[] <==> forall kind :: kind !in origins
  {
  }

  ghost predicate PublishesByProducer(
    hash: Hash, state: State, policy: RetentionPolicy, made: set<Id>, kinds: set<MemoryType>, detail: nat, stamp: nat,
    next: State)
  {
    var dropped := DroppedByProducer(hash, state, policy, made, kinds, detail, stamp);
    dropped.0 == next && dropped.1.Ok? && dropped.1.value.Published?
  }

  lemma PublishedByProducerIsWritten(
    hash: Hash, state: State, policy: RetentionPolicy, made: set<Id>, kinds: set<MemoryType>, detail: nat, stamp: nat,
    next: State)
    requires PublishesByProducer(hash, state, policy, made, kinds, detail, stamp, next)
    ensures AllReadable(state) && IsLegible(state.store.docs, state.head, Provenance)
    ensures var dropped := CascadeFrom(state, Origins(state, made, kinds), ALL_MODULES);
            var written := Written(hash, state, DropWrite(dropped, detail), stamp);
            written.1.Ok? && next == written.0
  {
    hide Written, DropWrite, OpenModule, SizeFrom, CascadeFrom, Origins;
  }

  /** What a producer's drop takes out of a module: what was found there, and what follows anything found. */
  lemma ProducerLossHasACause(
    hash: Hash, meaning: Id -> Document, state: State, policy: RetentionPolicy, made: set<Id>, kinds: set<MemoryType>,
    detail: nat, stamp: nat, next: State, kind: MemoryType)
    requires IsFaithful(hash, meaning) && Holds(state.store.docs, meaning) && state.started
    requires PublishesByProducer(hash, state, policy, made, kinds, detail, stamp, next)
    ensures AllReadable(state)
    ensures forall id :: id in LostFrom(state, next, kind) <==>
                         id in MembersOf(state.store.docs, state.head, kind)
                         && (IsFound(state, made, kinds, kind, id)
                             || Follows(state, Origins(state, made, kinds), ALL_MODULES, kind, id))
  {
    hide IsFaithful, Holds, Written, DropWrite, CascadeFrom, DroppedByProducer, LostFrom, MembersOf, Origins, Follows,
         AllReadable, IsFound, IsLegible;
    PublishedByProducerIsWritten(hash, state, policy, made, kinds, detail, stamp, next);
    var origins := Origins(state, made, kinds);
    LostExactly(hash, meaning, state, CascadeFrom(state, origins, ALL_MODULES), detail, stamp, kind);
    CascadeFromExactly(state, origins, ALL_MODULES, kind);
    OriginsExactly(state, made, kinds, kind);
  }

  /** All that was found goes, and no module loses anything the policy does not let go of. */
  lemma ProducerDropsArePermitted(
    hash: Hash, meaning: Id -> Document, state: State, policy: RetentionPolicy, made: set<Id>, kinds: set<MemoryType>,
    detail: nat, stamp: nat, next: State, lost: MemoryType)
    requires IsFaithful(hash, meaning) && Holds(state.store.docs, meaning) && state.started
    requires PublishesByProducer(hash, state, policy, made, kinds, detail, stamp, next)
    ensures forall id | IsFound(state, made, kinds, lost, id) :: id in LostFrom(state, next, lost)
    ensures LostFrom(state, next, lost) != {} ==>
              && lost in policy.droppable && lost != Episodic
              && (policy.mechanisms.Some? ==> Drop in policy.mechanisms.value)
              && (lost == Canonical ==> policy.canonicalDropAllowed)
  {
    hide IsFaithful, Holds, CascadeFrom, DroppedByProducer, LostFrom, MembersOf, Origins, AllReadable, CascadeOf,
         CanBePlanned, IsWithin, IsLegible;
    PublishedByProducerIsWritten(hash, state, policy, made, kinds, detail, stamp, next);
    ProducerLossHasACause(hash, meaning, state, policy, made, kinds, detail, stamp, next, lost);
    ProducerDropPublishesExactly(hash, meaning, state, policy, made, kinds, detail, stamp);
    if id :| id in LostFrom(state, next, lost) {
      assert MayLose(policy, lost);
    }
  }

  /** What goes besides what the producer made is no more than may go unreviewed. */
  lemma ProducerDropsAreReviewed(
    hash: Hash, meaning: Id -> Document, state: State, policy: RetentionPolicy, made: set<Id>, kinds: set<MemoryType>,
    detail: nat, stamp: nat, next: State)
    requires IsFaithful(hash, meaning) && Holds(state.store.docs, meaning) && state.started
    requires PublishesByProducer(hash, state, policy, made, kinds, detail, stamp, next)
    ensures policy.reviewThreshold.Some? ==>
              |LostFrom(state, next, Canonical) - made| + |LostFrom(state, next, Episodic) - made|
              + |LostFrom(state, next, Semantic) - made| + |LostFrom(state, next, Procedural) - made|
              + |LostFrom(state, next, Provenance) - made| <= policy.reviewThreshold.value
  {
    hide IsFaithful, Holds, DroppedByProducer, LostFrom, MembersOf, Origins, AllReadable, CanBePlanned, MayLose,
         SizeFrom, IsLegible, IsReached, IsFound, Follows, FollowersIn;
    PublishedByProducerIsWritten(hash, state, policy, made, kinds, detail, stamp, next);
    ProducerDropPublishesExactly(hash, meaning, state, policy, made, kinds, detail, stamp);
    var origins := Origins(state, made, kinds);
    forall kind
      ensures |LostFrom(state, next, kind) - made| <= FollowersIn(state, origins, kind)
    {
      ProducerLossHasACause(hash, meaning, state, policy, made, kinds, detail, stamp, next, kind);
      FoundAreMade(state, made, kinds, kind);
      FollowersAreFew(state, origins, kind, LostFrom(state, next, kind) - made);
    }
    SizeFromExactly(state, origins);
    CountedEitherWay(state, origins);
  }

  lemma FoundAreMade(state: State, made: set<Id>, kinds: set<MemoryType>, kind: MemoryType)
    ensures forall id | IsFound(state, made, kinds, kind, id) :: id in made
  {
  }

  /** What follows in one module, counted by what it follows from. */
  ghost function FollowersIn(state: State, origins: map<MemoryType, set<Id>>, kind: MemoryType): (r: nat) {
    |FollowersFrom(state, origins, Canonical, kind)| + |FollowersFrom(state, origins, Episodic, kind)|
    + |FollowersFrom(state, origins, Semantic, kind)| + |FollowersFrom(state, origins, Procedural, kind)|
    + |FollowersFrom(state, origins, Provenance, kind)|
  }

  ghost function FollowersFrom(state: State, origins: map<MemoryType, set<Id>>, origin: MemoryType, kind: MemoryType)
    : (r: set<Id>)
  {
    if origin in origins then In(CascadeOf(state.store.docs, state.head, origins[origin]), kind) else {}
  }

  lemma FollowersAreFew(state: State, origins: map<MemoryType, set<Id>>, kind: MemoryType, ids: set<Id>)
    requires forall id | id in ids :: Follows(state, origins, ALL_MODULES, kind, id)
    ensures |ids| <= FollowersIn(state, origins, kind)
  {
    hide CascadeOf;
    var a, b := FollowersFrom(state, origins, Canonical, kind), FollowersFrom(state, origins, Episodic, kind);
    var c, d := FollowersFrom(state, origins, Semantic, kind), FollowersFrom(state, origins, Procedural, kind);
    var e := FollowersFrom(state, origins, Provenance, kind);
    forall id | id in ids
      ensures id in a + b + c + d + e
    {
      var origin :| origin in ALL_MODULES
                    && origin in origins && id in In(CascadeOf(state.store.docs, state.head, origins[origin]), kind);
      assert id in FollowersFrom(state, origins, origin, kind);
    }
    FiveSetsHold(a, b, c, d, e, ids);
  }

  lemma FiveSetsHold(a: set<Id>, b: set<Id>, c: set<Id>, d: set<Id>, e: set<Id>, ids: set<Id>)
    requires ids <= a + b + c + d + e
    ensures |ids| <= |a| + |b| + |c| + |d| + |e|
  {
    SubsetSize(ids, a + b + c + d + e);
  }

  /** Counted by where they are or by what they follow, they come to the same. */
  lemma CountedEitherWay(state: State, origins: map<MemoryType, set<Id>>)
    ensures FollowersIn(state, origins, Canonical) + FollowersIn(state, origins, Episodic)
            + FollowersIn(state, origins, Semantic) + FollowersIn(state, origins, Procedural)
            + FollowersIn(state, origins, Provenance) ==
            Follower(state, origins, Canonical) + Follower(state, origins, Episodic)
              + Follower(state, origins, Semantic)
            + Follower(state, origins, Procedural) + Follower(state, origins, Provenance)
  {
    hide CascadeOf, In;
    FollowerIs(state, origins, Canonical);
    FollowerIs(state, origins, Episodic);
    FollowerIs(state, origins, Semantic);
    FollowerIs(state, origins, Procedural);
    FollowerIs(state, origins, Provenance);
  }

  lemma FollowerIs(state: State, origins: map<MemoryType, set<Id>>, origin: MemoryType)
    ensures Follower(state, origins, origin) ==
            |FollowersFrom(state, origins, origin, Canonical)| + |FollowersFrom(state, origins, origin, Episodic)|
            + |FollowersFrom(state, origins, origin, Semantic)| + |FollowersFrom(state, origins, origin, Procedural)|
            + |FollowersFrom(state, origins, origin, Provenance)|
  {
    hide CascadeOf, In;
  }
}
