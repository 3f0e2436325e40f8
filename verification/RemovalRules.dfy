/** What the removal check reports, told by the documents of the two versions. */
module RemovalRules {
  import opened Common
  import opened Documents
  import opened Removals

  type Modules = map<MemoryType, ModuleRef>

  /** The blocks of a module, read from a composition of the right module that reproduces the root. */
  predicate Reads(docs: map<Id, Document>, modules: Modules, kind: MemoryType, blocks: set<Id>) {
    && kind in modules && modules[kind].composition in docs && docs[modules[kind].composition].CompositionDoc?
    && docs[modules[kind].composition].composition == Composition(modules[kind].memoryType, blocks)
    && modules[kind].root == Root(blocks)
  }

  ghost predicate IsRead(docs: map<Id, Document>, modules: Modules, kind: MemoryType) {
    exists blocks :: Reads(docs, modules, kind, blocks)
  }

  ghost predicate HoldsBlock(docs: map<Id, Document>, modules: Modules, kind: MemoryType, block: Id) {
    exists blocks :: Reads(docs, modules, kind, blocks) && block in blocks
  }

  /** A module that was there, and is gone or has another root. */
  predicate MayLose(before: Modules, after: Modules, kind: MemoryType) {
    kind in before && (kind in after ==> after[kind].root != before[kind].root)
  }

  /** Both versions of a module can be read, so far as there are two. */
  ghost predicate IsComparable(docs: map<Id, Document>, before: Modules, after: Modules, kind: MemoryType) {
    IsRead(docs, before, kind) && (kind in after ==> IsRead(docs, after, kind))
  }

  /** A readable first-version record, in the provenance of the version itself, of that block leaving that module. */
  ghost predicate IsOnRecord(docs: map<Id, Document>, modules: Modules, kind: MemoryType, block: Id) {
    exists record, blocks, mechanism, detail ::
      && HoldsBlock(docs, modules, Provenance, record) && record in docs
      && docs[record] == BlockDoc(ProvenanceV1(Removal(blocks, mechanism, kind, detail))) && block in blocks
  }

  /** A block that was there, is not any more, and whose leaving no record tells. */
  ghost predicate IsMissing(docs: map<Id, Document>, before: Modules, after: Modules, kind: MemoryType, block: Id) {
    && MayLose(before, after, kind) && IsComparable(docs, before, after, kind)
    && HoldsBlock(docs, before, kind, block) && !HoldsBlock(docs, after, kind, block)
    && !IsOnRecord(docs, after, kind, block)
  }

  /** The document the difference is taken against: the one given or else the one held, if it is the first parent's. */
  predicate IsAgainst(docs: map<Id, Document>, child: Snapshot, parent: Option<Snapshot>, other: Snapshot) {
    && child.parents != [] && other.digest == child.parents[0]
    && if parent.Some? then parent.value == other
       else child.parents[0] in docs && docs[child.parents[0]] == SnapshotDoc(other)
  }

  lemma ReadingExactly(docs: map<Id, Document>, modules: Modules, kind: MemoryType)
    requires kind in modules
    ensures var reading := ReadComposition(docs, modules[kind]);
            && (reading.Some? <==> IsRead(docs, modules, kind))
            && (forall block :: HoldsBlock(docs, modules, kind, block) <==>
                                reading.Some? && block in reading.value.blocks)
  {
    var reading := ReadComposition(docs, modules[kind]);
    if reading.Some? {
      assert Reads(docs, modules, kind, reading.value.blocks);
    }
  }

  lemma ChangeExactly(docs: map<Id, Document>, before: Modules, after: Modules, kind: MemoryType)
    ensures var change := ChangeOf(docs, before, after, kind);
            && (change.ParentGap? || change.ChildGap? <==>
                MayLose(before, after, kind) && !IsComparable(docs, before, after, kind))
            && (change.Lost? <==> MayLose(before, after, kind) && IsComparable(docs, before, after, kind))
            && (change.Lost? ==> forall block :: block in change.blocks <==>
                                   HoldsBlock(docs, before, kind, block) && !HoldsBlock(docs, after, kind, block))
  {
    hide ReadComposition, IsRead, HoldsBlock;
    if kind in before {
      ReadingExactly(docs, before, kind);
    }
    if kind in after {
      ReadingExactly(docs, after, kind);
    } else {
      NothingIsHeld(docs, after, kind);
    }
  }

  lemma NothingIsHeld(docs: map<Id, Document>, modules: Modules, kind: MemoryType)
    requires kind !in modules
    ensures forall block :: !HoldsBlock(docs, modules, kind, block)
  {
  }

  lemma RecordExactly(docs: map<Id, Document>, modules: Modules, kind: MemoryType, block: Id)
    ensures IsRecorded(docs, modules, kind, block) <==> IsOnRecord(docs, modules, kind, block)
  {
    hide ReadComposition, IsRead, HoldsBlock;
    if Provenance in modules {
      ReadingExactly(docs, modules, Provenance);
    } else {
      NothingIsHeld(docs, modules, Provenance);
    }
    if record :| record in Ledger(docs, modules) && RecordsRemovalOf(docs, record, kind, block) {
      var entry := docs[record].block.entry;
      assert docs[record] == BlockDoc(ProvenanceV1(Removal(entry.blocks, entry.mechanism, kind, entry.detail)));
    }
    if record, blocks, mechanism, detail :|
      && HoldsBlock(docs, modules, Provenance, record) && record in docs
      && docs[record] == BlockDoc(ProvenanceV1(Removal(blocks, mechanism, kind, detail))) && block in blocks
    {
      assert record in Ledger(docs, modules) && RecordsRemovalOf(docs, record, kind, block);
    }
  }

  lemma AgainstExactly(docs: map<Id, Document>, child: Snapshot, parent: Option<Snapshot>)
    requires child.parents != []
    ensures var resolved := ResolvedParent(docs, child, parent);
            forall other :: IsAgainst(docs, child, parent, other) <==> resolved == Some(other)
  {
  }

  lemma UnrecordedExactly(docs: map<Id, Document>, child: Snapshot, parent: Snapshot, kind: MemoryType, block: Id)
    ensures block in Unrecorded(docs, child, parent, kind) <==>
            IsMissing(docs, parent.modules, child.modules, kind, block)
  {
    hide ChangeOf, MayLose, IsComparable, HoldsBlock, IsRecorded, IsOnRecord;
    ChangeExactly(docs, parent.modules, child.modules, kind);
    RecordExactly(docs, child.modules, kind, block);
  }

  /**
   The check names exactly the blocks that are missing, by module; exactly the modules that may have lost something
   and cannot be compared; and the parent when it is named and cannot be had. A founding snapshot has nothing to
   answer for.
   */
  lemma CheckedExactly(docs: map<Id, Document>, child: Snapshot, parent: Option<Snapshot>)
    ensures var r := Checked(docs, child, parent);
            && (r.parentMissing <==> child.parents != [] && forall other :: !IsAgainst(docs, child, parent, other))
            && (child.parents == [] || r.parentMissing ==> r.missing == map[] && r.gaps == {})
            && forall other | IsAgainst(docs, child, parent, other) ::
                 && (forall kind, block :: block in In(r.missing, kind) <==>
                                           IsMissing(docs, other.modules, child.modules, kind, block))
                 && (forall kind :: kind in r.gaps <==>
                       MayLose(other.modules, child.modules, kind)
                         && !IsComparable(docs, other.modules, child.modules, kind))
                 && (r.IsValid() <==> forall kind, block :: !IsMissing(docs, other.modules, child.modules, kind, block))
  {
    hide IsAgainst, ResolvedParent, Unrecorded, IsMissing, HasGap, MayLose, IsComparable;
    if child.parents != [] {
      AgainstExactly(docs, child, parent);
      var resolved := ResolvedParent(docs, child, parent);
      if resolved.Some? {
        ReportExactly(docs, child, parent, resolved.value);
      }
    } else {
      NothingToCompare(docs, child, parent);
    }
  }

  lemma NothingToCompare(docs: map<Id, Document>, child: Snapshot, parent: Option<Snapshot>)
    requires child.parents == []
    ensures forall other :: !IsAgainst(docs, child, parent, other)
  {
  }

  lemma ReportExactly(docs: map<Id, Document>, child: Snapshot, parent: Option<Snapshot>, other: Snapshot)
    requires child.parents != [] && ResolvedParent(docs, child, parent) == Some(other)
    ensures var r := Checked(docs, child, parent);
            && (forall kind, block :: block in In(r.missing, kind) <==>
                                      IsMissing(docs, other.modules, child.modules, kind, block))
            && (forall kind :: kind in r.gaps <==>
                  MayLose(other.modules, child.modules, kind)
                    && !IsComparable(docs, other.modules, child.modules, kind))
            && (r.IsValid() <==> forall kind, block :: !IsMissing(docs, other.modules, child.modules, kind, block))
  {
    hide ResolvedParent, Unrecorded, IsMissing, ChangeOf, MayLose, IsComparable;
    var r := Checked(docs, child, parent);
    forall kind, block
      ensures block in In(r.missing, kind) <==> IsMissing(docs, other.modules, child.modules, kind, block)
    {
      UnrecordedExactly(docs, child, other, kind, block);
      OnlyNamedCanMiss(docs, other.modules, child.modules, kind, block);
    }
    forall kind
      ensures kind in r.gaps <==>
              MayLose(other.modules, child.modules, kind) && !IsComparable(docs, other.modules, child.modules, kind)
    {
      ChangeExactly(docs, other.modules, child.modules, kind);
      OnlyNamedCanLose(other.modules, child.modules, kind);
    }
    if kind :| kind in r.missing {
      var block :| block in r.missing[kind];
      assert block in In(r.missing, kind);
    }
  }

  lemma OnlyNamedCanLose(before: Modules, after: Modules, kind: MemoryType)
    ensures MayLose(before, after, kind) ==> kind in before
  {
  }

  lemma OnlyNamedCanMiss(docs: map<Id, Document>, before: Modules, after: Modules, kind: MemoryType, block: Id)
    ensures IsMissing(docs, before, after, kind, block) ==> kind in before
  {
  }
}
