/** Which snapshots stay within reach, and what keeping one of them takes. */
module Retention {
  import opened Common
  import opened Documents

  predicate NoRepeats(ids: seq<Id>) {
    forall i, j | 0 <= i < j < |ids| :: ids[i] != ids[j]
  }

  // --- The retained list ---------------------------------------------------------------------

  /** Candidates in order, each once, leaving out pinned ones other than the new head. */
  function Unpinned(candidates: seq<Id>, pinned: set<Id>, digest: Id, taken: set<Id>): (r: seq<Id>)
    decreases |candidates|
  {
    if candidates == [] then []
    else if candidates[0] in taken || (candidates[0] in pinned && candidates[0] != digest)
    then Unpinned(candidates[1..], pinned, digest, taken)
    else [candidates[0]] + Unpinned(candidates[1..], pinned, digest, taken + {candidates[0]})
  }

  function Take(ids: seq<Id>, count: nat): (r: seq<Id>) {
    if |ids| <= count then ids else ids[..count]
  }

  /** Each head once, in order, unless it was taken already. */
  function Remaining(heads: seq<Id>, taken: set<Id>): (r: seq<Id>)
    decreases |heads|
  {
    if heads == [] then []
    else if heads[0] in taken then Remaining(heads[1..], taken)
    else [heads[0]] + Remaining(heads[1..], taken + {heads[0]})
  }

  /** Recent snapshots within the bound, then every branch head outside it. */
  function Retained(digest: Id, retain: seq<Id>, previous: seq<Id>, heads: seq<Id>, roots: nat): (r: seq<Id>) {
    var bounded := Take(Unpinned([digest] + retain + previous, Members(heads), digest, {}), roots);
    bounded + Remaining(heads, Members(bounded))
  }

  lemma {:induction false} UnpinnedIs(candidates: seq<Id>, pinned: set<Id>, digest: Id, taken: set<Id>)
    ensures var r := Unpinned(candidates, pinned, digest, taken);
            && NoRepeats(r)
            && (forall id :: id in r <==> id in candidates && id !in taken && (id in pinned ==> id == digest))
    decreases |candidates|
  {
    if candidates != [] {
      var skip := candidates[0] in taken || (candidates[0] in pinned && candidates[0] != digest);
      var rest := candidates[1..];
      UnpinnedIs(rest, pinned, digest, if skip then taken else taken + {candidates[0]});
      assert forall id :: id in candidates <==> id == candidates[0] || id in rest;
      if !skip {
        Prepended(candidates[0], Unpinned(rest, pinned, digest, taken + {candidates[0]}));
      }
    }
  }

  lemma Prepended(id: Id, rest: seq<Id>)
    requires NoRepeats(rest) && id !in rest
    ensures NoRepeats([id] + rest)
  {
  }

  lemma {:induction false} RemainingIs(heads: seq<Id>, taken: set<Id>)
    ensures var r := Remaining(heads, taken);
            NoRepeats(r) && forall id :: id in r <==> id in heads && id !in taken
    decreases |heads|
  {
    if heads != [] {
      var rest := heads[1..];
      var skip := heads[0] in taken;
      RemainingIs(rest, if skip then taken else taken + {heads[0]});
      assert forall id :: id in heads <==> id == heads[0] || id in rest;
      if !skip {
        Prepended(heads[0], Remaining(rest, taken + {heads[0]}));
      }
    }
  }

  lemma TakenStaysDistinct(ids: seq<Id>, count: nat)
    requires NoRepeats(ids)
    ensures NoRepeats(Take(ids, count)) && |Take(ids, count)| <= count
    ensures forall id | id in Take(ids, count) :: id in ids
  {
  }

  lemma Appended(a: seq<Id>, b: seq<Id>)
    requires NoRepeats(a) && NoRepeats(b) && forall id | id in b :: id !in a
    ensures NoRepeats(a + b)
  {
    forall i, j | 0 <= i < j < |a + b|
      ensures (a + b)[i] != (a + b)[j]
    {
      if i < |a| <= j {
        assert (a + b)[j] in b && (a + b)[i] in a;
      }
    }
  }

  lemma {:induction false} DistinctSize(ids: seq<Id>)
    ensures |Members(ids)| <= |ids|
  {
    if ids != [] {
      DistinctSize(ids[1..]);
      assert Members(ids) == {ids[0]} + Members(ids[1..]);
    }
  }

  /**
   What every write of the head leaves retained: no repeats, the new head first, every branch head, and at most
   the bound of anything else.
   */
  ghost predicate IsRetention(retained: seq<Id>, digest: Id, heads: set<Id>, roots: nat) {
    && NoRepeats(retained) && |retained| > 0 && retained[0] == digest
    && heads <= Members(retained)
    && |Members(retained) - heads| <= roots
  }

  lemma RetainedIsRetention(digest: Id, retain: seq<Id>, previous: seq<Id>, heads: seq<Id>, roots: nat)
    requires roots >= 1
    ensures IsRetention(Retained(digest, retain, previous, heads, roots), digest, Members(heads), roots)
  {
    hide NoRepeats, Remaining;
    var candidates := [digest] + retain + previous;
    var unpinned := Unpinned(candidates, Members(heads), digest, {});
    var bounded := Take(unpinned, roots);
    UnpinnedIs(candidates, Members(heads), digest, {});
    TakenStaysDistinct(unpinned, roots);
    RemainingIs(heads, Members(bounded));
    Appended(bounded, Remaining(heads, Members(bounded)));
    assert candidates[0] == digest && unpinned[0] == digest;
    var retained := Retained(digest, retain, previous, heads, roots);
    assert retained[0] == bounded[0];
    assert Members(retained) - Members(heads) <= Members(bounded);
    SubsetSize(Members(retained) - Members(heads), Members(bounded));
    DistinctSize(bounded);
  }

  /**
   Recent history is cut off by the bound only: something was left out because as many others as the bound allows
   were kept, besides the branch heads.
   */
  lemma OnlyTheBoundForgets(digest: Id, retain: seq<Id>, previous: seq<Id>, heads: seq<Id>, roots: nat, id: Id)
    requires roots >= 1 && id in [digest] + retain + previous && id !in Retained(digest, retain, previous, heads, roots)
    ensures |Members(Retained(digest, retain, previous, heads, roots)) - (Members(heads) - {digest})| == roots
  {
    hide NoRepeats, Remaining;
    var candidates := [digest] + retain + previous;
    var unpinned := Unpinned(candidates, Members(heads), digest, {});
    var bounded := Take(unpinned, roots);
    UnpinnedIs(candidates, Members(heads), digest, {});
    RemainingIs(heads, Members(bounded));
    assert candidates[0] == digest && unpinned[0] == digest;
    assert |bounded| == roots && bounded[0] == digest;
    assert forall kept | kept in bounded :: kept in unpinned;
    TakenStaysDistinct(unpinned, roots);
    DistinctCount(bounded);
    assert Members(Retained(digest, retain, previous, heads, roots)) - (Members(heads) - {digest}) == Members(bounded);
  }

  lemma {:induction false} DistinctCount(ids: seq<Id>)
    requires NoRepeats(ids)
    ensures |Members(ids)| == |ids|
  {
    if ids != [] {
      DistinctCount(ids[1..]);
      assert Members(ids) == {ids[0]} + Members(ids[1..]);
      assert ids[0] !in ids[1..];
    }
  }

  /** Candidates come in order: what is made of the first of them is a beginning of what is made of all. */
  lemma {:induction false} UnpinnedInOrder(first: seq<Id>, rest: seq<Id>, pinned: set<Id>, digest: Id, taken: set<Id>)
    ensures Unpinned(first, pinned, digest, taken) <= Unpinned(first + rest, pinned, digest, taken)
    decreases |first|
  {
    if first != [] {
      var skip := first[0] in taken || (first[0] in pinned && first[0] != digest);
      assert (first + rest)[1..] == first[1..] + rest;
      UnpinnedInOrder(first[1..], rest, pinned, digest, if skip then taken else taken + {first[0]});
    }
  }

  /** And the oldest go first: whatever is kept beside the branch heads comes before anything that was left out. */
  lemma OldestGoFirst(digest: Id, retain: seq<Id>, previous: seq<Id>, heads: seq<Id>, roots: nat, i: nat, id: Id)
    requires i < |[digest] + retain + previous|
    requires ([digest] + retain + previous)[i] !in Retained(digest, retain, previous, heads, roots)
    requires id in Retained(digest, retain, previous, heads, roots) && id !in heads
    ensures id in ([digest] + retain + previous)[..i]
  {
    hide NoRepeats, Remaining, Unpinned;
    var candidates := [digest] + retain + previous;
    var unpinned := Unpinned(candidates, Members(heads), digest, {});
    var first := candidates[..i + 1];
    var before := Unpinned(first, Members(heads), digest, {});
    assert candidates == first + candidates[i + 1..];
    assert first == candidates[..i] + [candidates[i]];
    UnpinnedInOrder(first, candidates[i + 1..], Members(heads), digest, {});
    UnpinnedIs(first, Members(heads), digest, {});
    RemainingIs(heads, Members(Take(unpinned, roots)));
    assert candidates[i] in first && candidates[i] in before;
    var bounded := Take(unpinned, roots);
    assert candidates[i] !in bounded && id in bounded;
    var k :| 0 <= k < |before| && before[k] == candidates[i];
    assert unpinned[k] == candidates[i];
    assert |bounded| <= k;
    var at :| 0 <= at < |bounded| && bounded[at] == id;
    assert before[at] == id && id in first && id != candidates[i];
  }

  // --- What keeping a snapshot takes -------------------------------------------------------------

  function ContentOf(docs: map<Id, Document>, block: Id): (r: set<Id>) {
    if block in docs && docs[block].BlockDoc? && docs[block].block.PlainBlock? then docs[block].block.content else {}
  }

  /** A module reference's document, its index, its blocks, and what the blocks name. */
  function NamedBy(docs: map<Id, Document>, reference: ModuleRef): (r: set<Id>) {
    {reference.composition} + (if reference.index.Some? then {reference.index.value} else {})
    + if reference.composition in docs && docs[reference.composition].CompositionDoc?
      then var blocks := docs[reference.composition].composition.blocks;
           blocks + set block, content | block in blocks && content in ContentOf(docs, block) :: content
      else {}
  }

  /** Everything one snapshot needs, and its parents' documents. */
  function Needs(docs: map<Id, Document>, snapshot: Snapshot): (r: set<Id>) {
    {snapshot.digest} + Members(snapshot.parents)
    + set kind, id | kind in snapshot.modules && id in NamedBy(docs, snapshot.modules[kind]) :: id
  }

  predicate BlockIsReadable(docs: map<Id, Document>, block: Id) {
    block in docs ==> docs[block].BlockDoc?
  }

  predicate ReferenceIsReadable(docs: map<Id, Document>, reference: ModuleRef) {
    reference.composition in docs ==>
      && docs[reference.composition].CompositionDoc?
      && forall block | block in docs[reference.composition].composition.blocks :: BlockIsReadable(docs, block)
  }

  /** Nothing that is there fails to decode, which is what would stop a sweep. */
  predicate IsReadable(docs: map<Id, Document>, snapshot: Snapshot) {
    forall kind | kind in snapshot.modules :: ReferenceIsReadable(docs, snapshot.modules[kind])
  }

  /** The snapshots a set of addresses resolves to. */
  function Resolved(docs: map<Id, Document>, ids: set<Id>): (r: set<Snapshot>) {
    set id | id in ids && id in docs && docs[id].SnapshotDoc? :: docs[id].snapshot
  }

  function Mark(docs: map<Id, Document>, snapshots: set<Snapshot>): (r: set<Id>) {
    set snapshot, id | snapshot in snapshots && id in Needs(docs, snapshot) :: id
  }

  /** The blob every signature manifest shares. */
  const EMPTY_CONFIG: Id := 0

  /** The records that cover a kept snapshot, which no snapshot names. */
  function SignaturesFor(signatures: map<Id, seq<Id>>, kept: set<Id>): (r: set<Id>) {
    var named := set snapshot, id | snapshot in signatures && snapshot in kept && id in signatures[snapshot] :: id;
    if named == {} then {} else named + {EMPTY_CONFIG}
  }

  /** Everything a prune keeps, given the roots and what tags need. */
  function Kept(docs: map<Id, Document>, signatures: map<Id, seq<Id>>, roots: set<Id>, tagged: set<Id>): (r: set<Id>) {
    var marked := Mark(docs, Resolved(docs, roots)) + tagged;
    marked + SignaturesFor(signatures, marked)
  }

  function Swept(docs: map<Id, Document>, kept: set<Id>): (r: map<Id, Document>) {
    map id | id in docs && id in kept :: docs[id]
  }

  /** What a root needs, and its signature records, are kept. */
  lemma RootsAreKept(
    docs: map<Id, Document>, signatures: map<Id, seq<Id>>, roots: set<Id>, tagged: set<Id>, snapshot: Snapshot)
    requires snapshot.digest in roots && LoadSnapshot(Store(docs, signatures), snapshot.digest) == Some(snapshot)
    ensures Needs(docs, snapshot) <= Kept(docs, signatures, roots, tagged)
    ensures Members(NamedIn(signatures, snapshot.digest)) <= Kept(docs, signatures, roots, tagged)
  {
    hide Needs;
    assert snapshot in Resolved(docs, roots);
    var marked := Mark(docs, Resolved(docs, roots)) + tagged;
    assert Needs(docs, snapshot) <= marked;
    assert snapshot.digest in marked by { NeedsItself(docs, snapshot); }
  }

  lemma NeedsItself(docs: map<Id, Document>, snapshot: Snapshot)
    ensures snapshot.digest in Needs(docs, snapshot)
  {
  }

  /** A sweep that keeps what a snapshot needs leaves it needing exactly the same. */
  lemma NeedsSurvive(docs: map<Id, Document>, kept: set<Id>, snapshot: Snapshot)
    requires Needs(docs, snapshot) <= kept
    ensures Needs(Swept(docs, kept), snapshot) == Needs(docs, snapshot)
  {
    hide NamedBy;
    forall kind | kind in snapshot.modules
      ensures NamedBy(Swept(docs, kept), snapshot.modules[kind]) == NamedBy(docs, snapshot.modules[kind])
    {
      assert NamedBy(docs, snapshot.modules[kind]) <= Needs(docs, snapshot);
      NamesSurvive(docs, kept, snapshot.modules[kind]);
    }
  }

  lemma NamesSurvive(docs: map<Id, Document>, kept: set<Id>, reference: ModuleRef)
    requires NamedBy(docs, reference) <= kept
    ensures NamedBy(Swept(docs, kept), reference) == NamedBy(docs, reference)
  {
    var after := Swept(docs, kept);
    if reference.composition in docs && docs[reference.composition].CompositionDoc? {
      var blocks := docs[reference.composition].composition.blocks;
      forall block | block in blocks
        ensures ContentOf(after, block) == ContentOf(docs, block)
      {
        assert block in kept;
      }
    }
  }

  // --- The same, said address by address ----------------------------------------------------------------

  /**
   What a snapshot is made of: its own document and those of its parents, and for each module its composition, its
   index, every block the composition lists and all content that such a block names.
   */
  predicate IsPartOf(docs: map<Id, Document>, snapshot: Snapshot, id: Id) {
    || id == snapshot.digest
    || id in snapshot.parents
    || exists kind | kind in snapshot.modules :: IsPartOfModule(docs, snapshot.modules[kind], id)
  }

  predicate IsPartOfModule(docs: map<Id, Document>, reference: ModuleRef, id: Id) {
    || id == reference.composition
    || reference.index == Some(id)
    || (&& reference.composition in docs && docs[reference.composition].CompositionDoc?
        && exists block | block in docs[reference.composition].composition.blocks ::
             || id == block
             || (block in docs && docs[block].BlockDoc? && docs[block].block.PlainBlock?
                 && id in docs[block].block.content))
  }

  lemma ModulePartsExactly(docs: map<Id, Document>, reference: ModuleRef, id: Id)
    ensures id in NamedBy(docs, reference) <==> IsPartOfModule(docs, reference, id)
  {
    if reference.composition in docs && docs[reference.composition].CompositionDoc? {
      var blocks := docs[reference.composition].composition.blocks;
      var named := set block, content | block in blocks && content in ContentOf(docs, block) :: content;
      forall block | block in blocks && id in ContentOf(docs, block)
        ensures id in named
      {
      }
      if id in named {
        var block :| block in blocks && id in ContentOf(docs, block);
      }
    }
  }

  lemma NeedsAreItsParts(docs: map<Id, Document>, snapshot: Snapshot, id: Id)
    ensures id in Needs(docs, snapshot) <==> IsPartOf(docs, snapshot, id)
  {
    hide NamedBy, IsPartOfModule;
    forall kind | kind in snapshot.modules {
      ModulePartsExactly(docs, snapshot.modules[kind], id);
    }
  }

  /** Part of a root that can be read, or needed by a tag. */
  predicate IsMarked(docs: map<Id, Document>, roots: set<Id>, tagged: set<Id>, id: Id) {
    || id in tagged
    || exists root | root in roots :: root in docs && docs[root].SnapshotDoc? && IsPartOf(docs, docs[root].snapshot, id)
  }

  /** Marked itself, a record over something marked, or the blob that all records share where there is one to keep. */
  predicate IsKept(docs: map<Id, Document>, signatures: map<Id, seq<Id>>, roots: set<Id>, tagged: set<Id>, id: Id) {
    || IsMarked(docs, roots, tagged, id)
    || exists snapshot | snapshot in signatures ::
         IsMarked(docs, roots, tagged, snapshot)
         && (id in signatures[snapshot] || (id == EMPTY_CONFIG && signatures[snapshot] != []))
  }

  lemma MarkedExactly(docs: map<Id, Document>, roots: set<Id>, tagged: set<Id>, id: Id)
    ensures id in Mark(docs, Resolved(docs, roots)) + tagged <==> IsMarked(docs, roots, tagged, id)
  {
    hide Needs, IsPartOf;
    var snapshots := Resolved(docs, roots);
    forall root | root in roots && root in docs && docs[root].SnapshotDoc?
      ensures docs[root].snapshot in snapshots
      ensures id in Needs(docs, docs[root].snapshot) <==> IsPartOf(docs, docs[root].snapshot, id)
      ensures id in Needs(docs, docs[root].snapshot) ==> id in Mark(docs, snapshots)
    {
      NeedsAreItsParts(docs, docs[root].snapshot, id);
    }
    if id in Mark(docs, snapshots) {
      var snapshot :| snapshot in snapshots && id in Needs(docs, snapshot);
      var root :| root in roots && root in docs && docs[root].SnapshotDoc? && docs[root].snapshot == snapshot;
    }
  }

  /** What a prune keeps is exactly what is kept in that sense. */
  lemma KeptExactly(docs: map<Id, Document>, signatures: map<Id, seq<Id>>, roots: set<Id>, tagged: set<Id>, id: Id)
    ensures id in Kept(docs, signatures, roots, tagged) <==> IsKept(docs, signatures, roots, tagged, id)
  {
    hide Mark, Resolved, IsMarked;
    var marked := Mark(docs, Resolved(docs, roots)) + tagged;
    forall other
      ensures other in marked <==> IsMarked(docs, roots, tagged, other)
    {
      MarkedExactly(docs, roots, tagged, other);
    }
    CoveringExactly(signatures, marked, id);
  }

  lemma CoveringExactly(signatures: map<Id, seq<Id>>, kept: set<Id>, id: Id)
    ensures id in SignaturesFor(signatures, kept) <==>
            exists snapshot | snapshot in signatures ::
              snapshot in kept && (id in signatures[snapshot] || (id == EMPTY_CONFIG && signatures[snapshot] != []))
  {
    var named := set snapshot, other | snapshot in signatures && snapshot in kept
      && other in signatures[snapshot] :: other;
    forall snapshot, other | snapshot in signatures && snapshot in kept && other in signatures[snapshot]
      ensures other in named
    {
    }
    forall snapshot | snapshot in signatures && snapshot in kept && signatures[snapshot] != []
      ensures named != {}
    {
      assert signatures[snapshot][0] in named;
    }
  }

  predicate Stays(before: map<Id, Document>, after: map<Id, Document>, id: Id) {
    id in before ==> id in after && after[id] == before[id]
  }
}
