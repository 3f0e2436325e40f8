/** The removal check: what a version lacks of its first parent has to be accounted for by a record it carries. */
module Removals {
  import opened Common
  import opened Documents

  /** A composition read for a reference: held, of the right module, and reproducing the root. */
  function ReadComposition(docs: map<Id, Document>, reference: ModuleRef): (r: Option<Composition>) {
    if reference.composition in docs && docs[reference.composition].CompositionDoc?
       && docs[reference.composition].composition.memoryType == reference.memoryType
       && Root(docs[reference.composition].composition.blocks) == reference.root
    then Some(docs[reference.composition].composition)
    else None
  }

  /** What became of one module between a snapshot and its first parent. */
  datatype Change = Unchanged | ParentGap | ChildGap | Lost(blocks: set<Id>)

  function ChangeOf(docs: map<Id, Document>, before: map<MemoryType, ModuleRef>, after: map<MemoryType, ModuleRef>,
                    kind: MemoryType): (r: Change)
  {
    if kind !in before then Unchanged
    else if kind in after && before[kind].root == after[kind].root then Unchanged
    else
      match ReadComposition(docs, before[kind])
      case None => ParentGap
      case Some(held) =>
        if kind !in after then Lost(held.blocks)
        else
          match ReadComposition(docs, after[kind])
          case None => ChildGap
          case Some(kept) => Lost(held.blocks - kept.blocks)
  }

  predicate RecordsRemovalOf(docs: map<Id, Document>, record: Id, kind: MemoryType, block: Id) {
    && record in docs && docs[record].BlockDoc? && docs[record].block.ProvenanceV1?
    && docs[record].block.entry.Removal?
    && docs[record].block.entry.memoryType == kind && block in docs[record].block.entry.blocks
  }

  /** The provenance blocks of a version; none when its composition is out of reach. */
  function Ledger(docs: map<Id, Document>, modules: map<MemoryType, ModuleRef>): (r: set<Id>) {
    if Provenance !in modules then {}
    else
      match ReadComposition(docs, modules[Provenance])
      case None => {}
      case Some(composition) => composition.blocks
  }

  /** Whether some readable version-1 removal record of the snapshot's own provenance names the block. */
  predicate IsRecorded(docs: map<Id, Document>, modules: map<MemoryType, ModuleRef>, kind: MemoryType, block: Id) {
    IsRecordedIn(docs, Ledger(docs, modules), kind, block)
  }

  predicate IsRecordedIn(docs: map<Id, Document>, records: set<Id>, kind: MemoryType, block: Id) {
    exists record | record in records :: RecordsRemovalOf(docs, record, kind, block)
  }

  /** Losses without a record, and modules whose losses could not be worked out. */
  datatype RemovalIntegrity = RemovalIntegrity(
    missing: map<MemoryType, set<Id>>, gaps: set<MemoryType>, parentMissing: bool)
  {
    predicate IsValid() {
      missing == map[]
    }

    predicate IsComplete() {
      gaps == {} && !parentMissing
    }
  }

  /** The snapshot document the difference is taken against, when it can be had. */
  function ResolvedParent(docs: map<Id, Document>, child: Snapshot, parent: Option<Snapshot>): (r: Option<Snapshot>)
    requires child.FirstParent().Some?
  {
    var first := child.FirstParent().value;
    var resolved :=
      if parent.Some? then parent
      else if first in docs && docs[first].SnapshotDoc? then Some(docs[first].snapshot) else None;
    if resolved.Some? && resolved.value.digest == first then resolved else None
  }

  function Unrecorded(docs: map<Id, Document>, child: Snapshot, parent: Snapshot, kind: MemoryType): (r: set<Id>) {
    match ChangeOf(docs, parent.modules, child.modules, kind)
    case Lost(blocks) => set block | block in blocks && !IsRecorded(docs, child.modules, kind, block)
    case _ => {}
  }

  lemma OneMoreRecord(docs: map<Id, Document>, records: set<Id>, record: Id)
    ensures forall kind, block :: IsRecordedIn(docs, records + {record}, kind, block) <==>
              IsRecordedIn(docs, records, kind, block) || RecordsRemovalOf(docs, record, kind, block)
  {
    hide RecordsRemovalOf;
    forall kind, block | RecordsRemovalOf(docs, record, kind, block)
      ensures IsRecordedIn(docs, records + {record}, kind, block)
    {
      assert record in records + {record};
    }
    forall kind, block | IsRecordedIn(docs, records, kind, block)
      ensures IsRecordedIn(docs, records + {record}, kind, block)
    {
      var known :| known in records && RecordsRemovalOf(docs, known, kind, block);
      assert known in records + {record};
    }
  }

  /** Every removal the snapshot's own provenance records, gathered record by record. */
  method ReachableRemovals(docs: map<Id, Document>, modules: map<MemoryType, ModuleRef>)
    returns (recorded: map<MemoryType, set<Id>>)
    ensures forall kind, block :: block in In(recorded, kind) <==> IsRecorded(docs, modules, kind, block)
  {
    recorded := map[];
    var ledger := Ledger(docs, modules);
    var left := ledger;
    while left != {}
      invariant left <= ledger
      invariant forall kind, block :: block in In(recorded, kind) <==> IsRecordedIn(docs, ledger - left, kind, block)
      decreases left
    {
      var record :| record in left;
      ghost var done := ledger - left;
      left := left - {record};
      assert ledger - left == done + {record};
      OneMoreRecord(docs, done, record);
      if record in docs && docs[record].BlockDoc? && docs[record].block.ProvenanceV1?
         && docs[record].block.entry.Removal? {
        var entry := docs[record].block.entry;
        recorded := recorded[entry.memoryType := In(recorded, entry.memoryType) + entry.blocks];
      }
    }
    assert ledger - left == ledger;
  }

  predicate HasLosses(docs: map<Id, Document>, before: map<MemoryType, ModuleRef>, after: map<MemoryType, ModuleRef>,
                      kind: MemoryType)
  {
    ChangeOf(docs, before, after, kind).Lost? && ChangeOf(docs, before, after, kind).blocks != {}
  }

  predicate HasGap(docs: map<Id, Document>, before: map<MemoryType, ModuleRef>, after: map<MemoryType, ModuleRef>,
                   kind: MemoryType)
  {
    ChangeOf(docs, before, after, kind).ParentGap? || ChangeOf(docs, before, after, kind).ChildGap?
  }

  /** The losses of some modules, one entry per module that lost anything. */
  function Losses(docs: map<Id, Document>, before: map<MemoryType, ModuleRef>, after: map<MemoryType, ModuleRef>,
                  kinds: set<MemoryType>): (r: map<MemoryType, set<Id>>)
  {
    map kind | kind in kinds && HasLosses(docs, before, after, kind) :: ChangeOf(docs, before, after, kind).blocks
  }

  function Gaps(docs: map<Id, Document>, before: map<MemoryType, ModuleRef>, after: map<MemoryType, ModuleRef>,
                kinds: set<MemoryType>): (r: set<MemoryType>)
  {
    set kind | kind in kinds && HasGap(docs, before, after, kind)
  }

  lemma NothingCollected(docs: map<Id, Document>, before: map<MemoryType, ModuleRef>, after: map<MemoryType, ModuleRef>)
    ensures Losses(docs, before, after, {}) == map[] && Gaps(docs, before, after, {}) == {}
  {
  }

  lemma OneMoreModule(docs: map<Id, Document>, before: map<MemoryType, ModuleRef>, after: map<MemoryType, ModuleRef>,
                      kinds: set<MemoryType>, kind: MemoryType)
    requires kind !in kinds
    ensures Losses(docs, before, after, kinds + {kind}) ==
            var known := Losses(docs, before, after, kinds);
            if HasLosses(docs, before, after, kind) then known[kind := ChangeOf(docs, before, after, kind).blocks]
              else known
    ensures Gaps(docs, before, after, kinds + {kind}) ==
            Gaps(docs, before, after, kinds) + if HasGap(docs, before, after, kind) then {kind} else {}
  {
    hide ChangeOf;
  }

  /** The first half of the check: losses and gaps, collected module by module. */
  method CollectChanges(docs: map<Id, Document>, before: map<MemoryType, ModuleRef>, after: map<MemoryType, ModuleRef>)
    returns (removed: map<MemoryType, set<Id>>, gaps: set<MemoryType>)
    ensures removed == Losses(docs, before, after, before.Keys + after.Keys)
    ensures gaps == Gaps(docs, before, after, before.Keys + after.Keys)
  {
    hide ChangeOf, Losses, Gaps;
    removed, gaps := map[], {};
    NothingCollected(docs, before, after);
    var selected := before.Keys + after.Keys;
    var left := selected;
    assert selected - left == {};
    while left != {}
      invariant left <= selected
      invariant removed == Losses(docs, before, after, selected - left)
      invariant gaps == Gaps(docs, before, after, selected - left)
      decreases left
    {
      var kind :| kind in left;
      ghost var done := selected - left;
      left := left - {kind};
      assert selected - left == done + {kind};
      OneMoreModule(docs, before, after, done, kind);
      match ChangeOf(docs, before, after, kind) {
        case Unchanged =>
        case ParentGap => gaps := gaps + {kind};
        case ChildGap => gaps := gaps + {kind};
        case Lost(absent) =>
          if absent != {} {
            removed := removed[kind := absent];
          }
      }
    }
    assert selected - left == selected;
  }

  /** The check as it runs: what was lost, held against what the ledger records. */
  method CheckRemovalInvariant(docs: map<Id, Document>, child: Snapshot, parent: Option<Snapshot>)
    returns (r: RemovalIntegrity)
    ensures r == Checked(docs, child, parent)
  {
    hide ChangeOf, IsRecorded, In, ResolvedParent, HasLosses, HasGap;
    if child.FirstParent().None? {
      return RemovalIntegrity(map[], {}, false);
    }
    var resolved := ResolvedParent(docs, child, parent);
    if resolved.None? {
      return RemovalIntegrity(map[], {}, true);
    }
    var before, after := resolved.value.modules, child.modules;
    var removed, gaps := CollectChanges(docs, before, after);
    var recorded := ReachableRemovals(docs, after);
    var missing := map kind | kind in removed && removed[kind] - In(recorded, kind) != {}
                            :: removed[kind] - In(recorded, kind);
    MissingIs(docs, child, resolved.value, removed, recorded, missing);
    r := RemovalIntegrity(missing, gaps, false);
  }

  lemma MissingIs(docs: map<Id, Document>, child: Snapshot, parent: Snapshot, removed: map<MemoryType, set<Id>>,
                  recorded: map<MemoryType, set<Id>>, missing: map<MemoryType, set<Id>>)
    requires removed == Losses(docs, parent.modules, child.modules, parent.modules.Keys + child.modules.Keys)
    requires forall kind, block :: block in In(recorded, kind) <==> IsRecorded(docs, child.modules, kind, block)
    requires missing == map kind | kind in removed && removed[kind] - In(recorded, kind) != {}
                                 :: removed[kind] - In(recorded, kind)
    ensures missing == map kind | kind in parent.modules.Keys && Unrecorded(docs, child, parent, kind) != {}
                                :: Unrecorded(docs, child, parent, kind)
    ensures Gaps(docs, parent.modules, child.modules, parent.modules.Keys + child.modules.Keys)
         == set kind | kind in parent.modules.Keys && HasGap(docs, parent.modules, child.modules, kind)
  {
    hide IsRecorded, In, ChangeOf;
    forall kind
      ensures kind !in parent.modules ==> ChangeOf(docs, parent.modules, child.modules, kind) == Unchanged
      ensures kind in removed ==> kind in parent.modules
                                  && removed[kind] - In(recorded, kind) == Unrecorded(docs, child, parent, kind)
      ensures kind in parent.modules && kind !in removed ==> Unrecorded(docs, child, parent, kind) == {}
    {
      OnlyNamedModulesChange(docs, parent.modules, child.modules, kind);
    }
  }

  lemma OnlyNamedModulesChange(
    docs: map<Id, Document>, before: map<MemoryType, ModuleRef>, after: map<MemoryType, ModuleRef>, kind: MemoryType)
    ensures kind !in before ==> ChangeOf(docs, before, after, kind) == Unchanged
  {
  }

  /** The result of the check, stated module by module. */
  function Checked(docs: map<Id, Document>, child: Snapshot, parent: Option<Snapshot>): (r: RemovalIntegrity) {
    if child.FirstParent().None? then RemovalIntegrity(map[], {}, false)
    else
      match ResolvedParent(docs, child, parent)
      case None => RemovalIntegrity(map[], {}, true)
      case Some(resolved) =>
        RemovalIntegrity(
          map kind | kind in resolved.modules.Keys && Unrecorded(docs, child, resolved, kind) != {}
                   :: Unrecorded(docs, child, resolved, kind),
          set kind | kind in resolved.modules.Keys && HasGap(docs, resolved.modules, child.modules, kind),
          false)
  }

  /** A snapshot is accepted exactly when every block its first parent held and it does not is on record. */
  lemma AcceptedMeansRecorded(docs: map<Id, Document>, child: Snapshot, parent: Snapshot)
    requires child.FirstParent() == Some(parent.digest)
    ensures Checked(docs, child, Some(parent)).IsValid() <==>
            forall kind, block | kind in parent.modules && ChangeOf(docs, parent.modules, child.modules, kind).Lost?
                                 && block in ChangeOf(docs, parent.modules, child.modules, kind).blocks
              :: IsRecorded(docs, child.modules, kind, block)
  {
    hide IsRecorded, ChangeOf;
    var checked := Checked(docs, child, Some(parent));
    if checked.IsValid() {
      forall kind, block | kind in parent.modules && ChangeOf(docs, parent.modules, child.modules, kind).Lost?
                           && block in ChangeOf(docs, parent.modules, child.modules, kind).blocks
        ensures IsRecorded(docs, child.modules, kind, block)
      {
        assert kind !in checked.missing;
        assert block !in Unrecorded(docs, child, parent, kind);
      }
    } else {
      var kind :| kind in checked.missing;
      var block :| block in Unrecorded(docs, child, parent, kind);
      assert !IsRecorded(docs, child.modules, kind, block);
    }
  }
}
