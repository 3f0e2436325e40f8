/** Equation 1: joining two histories module by module, against the version they parted from. */
module Merging {
  import opened Common
  import opened Documents

  /** What one version holds, module by module; a module that is not named, or did not travel, has no entry. */
  type Sides = map<MemoryType, set<Id>>

  /** One module joined: its membership, what either side removed, and whether it was only adopted. */
  datatype Merged = Merged(members: set<Id>, removed: set<Id>, incoming: set<Id>, adopted: bool)

  datatype MergeFault = AppendOnlyViolated

  function Side(sides: Sides, kind: MemoryType): (r: Option<set<Id>>) {
    if kind in sides then Some(sides[kind]) else None
  }

  /** Lacking a module removes nothing; lacking a block of a module that both sides have does. */
  function MergeModule(kind: MemoryType, base: Option<set<Id>>, ours: Option<set<Id>>, theirs: Option<set<Id>>)
    : (r: Result<Option<Merged>, MergeFault>)
  {
    if ours.None? && theirs.None? then Ok(None)
    else if ours.None? then Ok(Some(Merged(theirs.value, {}, theirs.value, true)))
    else if theirs.None? then Ok(Some(Merged(ours.value, {}, {}, false)))
    else
      var ancestor := if base.Some? then base.value else {};
      var excluded := (ancestor - ours.value) + (ancestor - theirs.value);
      var members := ancestor + ours.value + theirs.value - excluded;
      if kind == Episodic && excluded != {} then Err(AppendOnlyViolated)
      else Ok(Some(Merged(members, excluded, members - ours.value, false)))
  }

  function MergeKinds(base: Sides, ours: Sides, theirs: Sides, kinds: seq<MemoryType>)
    : (r: Result<map<MemoryType, Merged>, MergeFault>)
  {
    if kinds == [] then Ok(map[])
    else
      var last := |kinds| - 1;
      var earlier :- MergeKinds(base, ours, theirs, kinds[..last]);
      var merged :- MergeModule(kinds[last], Side(base, kinds[last]), Side(ours, kinds[last]),
                                Side(theirs, kinds[last]));
      Ok(if merged.None? then earlier else earlier[kinds[last] := merged.value])
  }

  function MergeAll(base: Sides, ours: Sides, theirs: Sides): (r: Result<map<MemoryType, Merged>, MergeFault>) {
    MergeKinds(base, ours, theirs, ALL_MODULES)
  }

  lemma OneMoreKind(base: Sides, ours: Sides, theirs: Sides, kinds: seq<MemoryType>, i: nat)
    requires i < |kinds| && MergeKinds(base, ours, theirs, kinds[..i]).Ok?
    ensures var earlier := MergeKinds(base, ours, theirs, kinds[..i]).value;
            var merged := MergeModule(kinds[i], Side(base, kinds[i]), Side(ours, kinds[i]), Side(theirs, kinds[i]));
            MergeKinds(base, ours, theirs, kinds[..i + 1]) ==
            if merged.Err? then Err(merged.error)
            else Ok(if merged.value.None? then earlier else earlier[kinds[i] := merged.value.value])
  {
    hide MergeModule;
    assert kinds[..i + 1][..i] == kinds[..i];
  }

  method ReconciledModules(base: Sides, ours: Sides, theirs: Sides)
    returns (r: Result<map<MemoryType, Merged>, MergeFault>)
    ensures r == MergeAll(base, ours, theirs)
  {
    hide MergeModule, MergeKinds, Side;
    var results: map<MemoryType, Merged> := map[];
    NoKinds(base, ours, theirs);
    assert ALL_MODULES[..0] == [];
    for i := 0 to |ALL_MODULES|
      invariant MergeKinds(base, ours, theirs, ALL_MODULES[..i]) == Ok(results)
    {
      var kind := ALL_MODULES[i];
      OneMoreKind(base, ours, theirs, ALL_MODULES, i);
      var merged := MergeModule(kind, Side(base, kind), Side(ours, kind), Side(theirs, kind));
      if merged.Err? {
        FaultStays(base, ours, theirs, ALL_MODULES, i + 1, merged.error);
        return Err(merged.error);
      }
      if merged.value.Some? {
        results := results[kind := merged.value.value];
      }
    }
    assert ALL_MODULES[..|ALL_MODULES|] == ALL_MODULES;
    r := Ok(results);
  }

  lemma NoKinds(base: Sides, ours: Sides, theirs: Sides)
    ensures MergeKinds(base, ours, theirs, []) == Ok(map[])
  {
  }

  lemma {:induction false} FaultStays(base: Sides, ours: Sides, theirs: Sides, kinds: seq<MemoryType>, i: nat,
                                         fault: MergeFault)
    requires i <= |kinds| && MergeKinds(base, ours, theirs, kinds[..i]) == Err(fault)
    ensures MergeKinds(base, ours, theirs, kinds) == Err(fault)
    decreases |kinds|
  {
    if i < |kinds| {
      assert kinds[..|kinds| - 1][..i] == kinds[..i];
      FaultStays(base, ours, theirs, kinds[..|kinds| - 1], i, fault);
    } else {
      assert kinds[..i] == kinds;
    }
  }

  // --- What joining means -------------------------------------------------------------------------

  /** Three-way: a block is in the result when both sides hold it, or one side added it. */
  lemma MergeIsThreeWay(kind: MemoryType, base: Option<set<Id>>, ours: set<Id>, theirs: set<Id>, block: Id)
    requires MergeModule(kind, base, Some(ours), Some(theirs)).Ok?
    ensures var ancestor := if base.Some? then base.value else {};
            block in MergeModule(kind, base, Some(ours), Some(theirs)).value.value.members <==>
            || (block in ours && block in theirs)
            || (block !in ancestor && (block in ours || block in theirs))
  {
  }

  /**
   What is taken over from a side alone, and what a join says besides its membership: a block was removed when the
   ancestor had it and one side, holding the module, does not; it comes in when it is in the result and was not
   here; and a module is adopted exactly when only the other side holds it.
   */
  lemma JoinedExactly(kind: MemoryType, base: Option<set<Id>>, ours: Option<set<Id>>, theirs: Option<set<Id>>)
    requires MergeModule(kind, base, ours, theirs).Ok?
    ensures var joined := MergeModule(kind, base, ours, theirs).value;
            && (joined.None? <==> ours.None? && theirs.None?)
            && (joined.Some? ==>
                  && (ours.None? ==> joined.value.members == theirs.value)
                  && (theirs.None? ==> joined.value.members == ours.value)
                  && (joined.value.adopted <==> ours.None?)
                  && forall block ::
                       && (block in joined.value.removed <==>
                           && ours.Some? && theirs.Some? && base.Some? && block in base.value
                           && (block !in ours.value || block !in theirs.value))
                       && (block in joined.value.incoming <==>
                           && block in joined.value.members && (ours.Some? ==> block !in ours.value)))
  {
  }

  /** Which side is called ours decides nothing about the membership. */
  lemma MergeIsSymmetric(kind: MemoryType, base: Option<set<Id>>, ours: Option<set<Id>>, theirs: Option<set<Id>>)
    ensures var one, two := MergeModule(kind, base, ours, theirs), MergeModule(kind, base, theirs, ours);
            && (one.Ok? <==> two.Ok?)
            && (one.Ok? ==> (one.value.Some? <==> two.value.Some?)
                            && (one.value.Some? ==> one.value.value.members == two.value.value.members
                                                    && one.value.value.removed == two.value.value.removed))
  {
  }

  /** A side that changed nothing leaves the other one as it is. */
  lemma UnchangedSideYields(kind: MemoryType, base: set<Id>, other: set<Id>)
    requires MergeModule(kind, Some(base), Some(base), Some(other)).Ok?
    ensures MergeModule(kind, Some(base), Some(base), Some(other)).value.value.members == other
  {
  }

  /** Episodic memory is the one place a join can fail, and does exactly when either side dropped from it. */
  predicate DropsEpisodes(base: Sides, ours: Sides, theirs: Sides) {
    && Episodic in base && Episodic in ours && Episodic in theirs
    && !(base[Episodic] <= ours[Episodic] && base[Episodic] <= theirs[Episodic])
  }

  predicate Fails(base: Sides, ours: Sides, theirs: Sides, kind: MemoryType) {
    MergeModule(kind, Side(base, kind), Side(ours, kind), Side(theirs, kind)).Err?
  }

  predicate Distinct(kinds: seq<MemoryType>) {
    forall i, j | 0 <= i < j < |kinds| :: kinds[i] != kinds[j]
  }

  lemma {:induction false} MergeKindsIs(base: Sides, ours: Sides, theirs: Sides, kinds: seq<MemoryType>)
    requires Distinct(kinds)
    ensures MergeKinds(base, ours, theirs, kinds).Err? <==>
            exists kind | kind in kinds :: Fails(base, ours, theirs, kind)
    ensures MergeKinds(base, ours, theirs, kinds).Ok? ==>
              forall kind :: (kind in MergeKinds(base, ours, theirs, kinds).value <==>
                              kind in kinds && (kind in ours || kind in theirs))
    ensures MergeKinds(base, ours, theirs, kinds).Ok? ==>
              forall kind | kind in MergeKinds(base, ours, theirs, kinds).value ::
                MergeModule(kind, Side(base, kind), Side(ours, kind), Side(theirs, kind)) ==
                Ok(Some(MergeKinds(base, ours, theirs, kinds).value[kind]))
  {
    hide MergeModule;
    if kinds != [] {
      var last := |kinds| - 1;
      MergeKindsIs(base, ours, theirs, kinds[..last]);
      assert forall kind :: kind in kinds <==> kind == kinds[last] || kind in kinds[..last];
      PresenceOf(base, ours, theirs, kinds[last]);
      assert kinds[last] in kinds && kinds[last] !in kinds[..last];
      assert Fails(base, ours, theirs, kinds[last]) ==> MergeKinds(base, ours, theirs, kinds).Err?;
    }
  }

  lemma PresenceOf(base: Sides, ours: Sides, theirs: Sides, kind: MemoryType)
    ensures var merged := MergeModule(kind, Side(base, kind), Side(ours, kind), Side(theirs, kind));
            merged.Ok? ==> (merged.value.Some? <==> kind in ours || kind in theirs)
  {
  }

  lemma NothingIsExcluded(base: set<Id>, ours: set<Id>, theirs: set<Id>)
    ensures (base - ours) + (base - theirs) == {} <==> base <= ours && base <= theirs
  {
    var excluded := (base - ours) + (base - theirs);
    if excluded == {} {
      forall block | block in base
        ensures block in ours && block in theirs
      {
        assert block !in excluded;
      }
    } else {
      var block :| block in excluded;
    }
  }

  lemma OnlyEpisodesFail(base: Sides, ours: Sides, theirs: Sides, kind: MemoryType)
    ensures Fails(base, ours, theirs, kind) <==> kind == Episodic && DropsEpisodes(base, ours, theirs)
  {
    if kind == Episodic && kind in base && kind in ours && kind in theirs {
      NothingIsExcluded(base[kind], ours[kind], theirs[kind]);
    }
  }

  /** The joined modules: one for each that either side holds, unless an episode was dropped. */
  lemma MergeAllIs(base: Sides, ours: Sides, theirs: Sides)
    ensures MergeAll(base, ours, theirs).Err? <==> DropsEpisodes(base, ours, theirs)
    ensures MergeAll(base, ours, theirs).Ok? ==>
              MergeAll(base, ours, theirs).value.Keys == ours.Keys + theirs.Keys
              && forall kind | kind in ours.Keys + theirs.Keys ::
                   MergeModule(kind, Side(base, kind), Side(ours, kind), Side(theirs, kind)) ==
                   Ok(Some(MergeAll(base, ours, theirs).value[kind]))
  {
    hide MergeModule, Fails, DropsEpisodes, MergeKinds;
    MergeKindsIs(base, ours, theirs, ALL_MODULES);
    EveryModuleIsListed(Episodic);
    forall kind
      ensures kind in ALL_MODULES
      ensures Fails(base, ours, theirs, kind) <==> kind == Episodic && DropsEpisodes(base, ours, theirs)
    {
      EveryModuleIsListed(kind);
      OnlyEpisodesFail(base, ours, theirs, kind);
    }
  }
}
