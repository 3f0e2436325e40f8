/** Three-valued reachability through every parent, which is what gives a compromise its reach. */
module Descent {
  import opened Common
  import opened Documents
  import opened Chain
  import opened Paths

  datatype Relation = Reached | Cleared | Undecided

  // --- What reachability means -----------------------------------------------------

  /** The document behind a digest: the start is held by the caller, everything else is read. */
  function Opened(store: Store, start: Snapshot, id: Id): (r: Option<Snapshot>) {
    if id == start.digest then Some(start) else LoadSnapshot(store, id)
  }

  /** An edge from every document that can be opened to each parent it names. */
  ghost function AncestryOf(store: Store, start: Snapshot): (r: set<Edge<Id>>) {
    set from, to | from in store.docs.Keys + {start.digest} && Opened(store, start, from).Some?
                   && to in Opened(store, start, from).value.parents :: Edge(from, to)
  }

  ghost predicate IsAncestor(store: Store, start: Snapshot, id: Id) {
    Reaches(AncestryOf(store, start), start.digest, id)
  }

  /** Every document of the ancestry can be read. */
  ghost predicate AncestryIsReadable(store: Store, start: Snapshot) {
    forall id | IsAncestor(store, start, id) :: Opened(store, start, id).Some?
  }

  /** The answer the evidence supports. */
  ghost function Relates(store: Store, start: Snapshot, target: Id): (r: Relation) {
    if IsAncestor(store, start, target) then Reached
    else if AncestryIsReadable(store, start) then Cleared
    else Undecided
  }

  /** A line of ancestors: the start as it is given, any other one as it is held, each naming the next as a parent. */
  predicate IsLine(store: Store, start: Snapshot, line: seq<Id>) {
    && line != [] && line[0] == start.digest
    && forall i | 0 <= i < |line| - 1 ::
         if line[i] == start.digest then line[i + 1] in start.parents
         else
           && line[i] in store.docs && store.docs[line[i]].SnapshotDoc?
           && line[i + 1] in store.docs[line[i]].snapshot.parents
  }

  predicate EndsAt(line: seq<Id>, id: Id) {
    line != [] && line[|line| - 1] == id
  }

  lemma AncestorExactly(store: Store, start: Snapshot, id: Id)
    ensures IsAncestor(store, start, id) <==> exists line :: IsLine(store, start, line) && EndsAt(line, id)
  {
    var edges := AncestryOf(store, start);
    if path :| Leads(edges, path, start.digest, id) {
      forall i | 0 <= i < |path| - 1
        ensures Opened(store, start, path[i]).Some? && path[i + 1] in Opened(store, start, path[i]).value.parents
      {
        assert Edge(path[i], path[i + 1]) in edges;
      }
      assert IsLine(store, start, path);
    }
    if line :| IsLine(store, start, line) && EndsAt(line, id) {
      forall i | 0 <= i < |line| - 1
        ensures Edge(line[i], line[i + 1]) in edges
      {
      }
      assert Leads(edges, line, start.digest, id);
    }
  }

  /** The three answers, by the lines of ancestors there are. */
  lemma RelatesExactly(store: Store, start: Snapshot, target: Id)
    ensures Relates(store, start, target) == Reached <==>
            exists line :: IsLine(store, start, line) && EndsAt(line, target)
    ensures Relates(store, start, target) == Cleared <==>
            forall line, id | IsLine(store, start, line) && EndsAt(line, id) ::
              id != target && (id == start.digest || (id in store.docs && store.docs[id].SnapshotDoc?))
  {
    hide IsAncestor, IsLine, EndsAt;
    forall id: Id
      ensures IsAncestor(store, start, id) <==> exists line :: IsLine(store, start, line) && EndsAt(line, id)
    {
      AncestorExactly(store, start, id);
    }
    if Relates(store, start, target) == Cleared {
      forall line, id | IsLine(store, start, line) && EndsAt(line, id)
        ensures id != target && Opened(store, start, id).Some?
      {
        assert IsAncestor(store, start, id);
      }
    } else if Relates(store, start, target) == Undecided {
      var id :| IsAncestor(store, start, id) && Opened(store, start, id).None?;
      assert exists line :: IsLine(store, start, line) && EndsAt(line, id);
    }
  }

  // --- Ancestry, one step at a time ---------------------------------------------------

  lemma ParentsAreSteps(store: Store, start: Snapshot, from: Id, to: Id)
    ensures Edge(from, to) in AncestryOf(store, start) <==>
            Opened(store, start, from).Some? && to in Opened(store, start, from).value.parents
  {
  }

  // --- The worklist --------------------------------------------------------------------

  /** Everything met is an ancestor, the target is not among it, and only pending documents are unexplored. */
  ghost predicate Explored(store: Store, start: Snapshot, target: Id, seen: set<Id>, pending: seq<Snapshot>) {
    && start.digest in seen && target !in seen
    && (forall id | id in seen :: IsAncestor(store, start, id))
    && (forall document | document in pending :: IsHeldAs(store, start, document, seen))
    && (forall id | id in seen :: IsPending(store, start, pending, id) || IsDone(store, start, seen, id))
  }

  ghost predicate IsHeldAs(store: Store, start: Snapshot, document: Snapshot, seen: set<Id>) {
    document.digest in seen && Opened(store, start, document.digest) == Some(document)
  }

  ghost predicate IsPending(store: Store, start: Snapshot, pending: seq<Snapshot>, id: Id) {
    Opened(store, start, id).Some? && Opened(store, start, id).value in pending
  }

  ghost predicate IsDone(store: Store, start: Snapshot, seen: set<Id>, id: Id) {
    Opened(store, start, id).Some? ==> forall to | to in Opened(store, start, id).value.parents :: to in seen
  }

  /** Whether anything met so far could not be read. */
  ghost predicate HasGap(store: Store, start: Snapshot, seen: set<Id>) {
    exists id | id in seen :: Opened(store, start, id).None?
  }

  /** An ancestry of more snapshots than a walk will read. */
  ghost predicate ExceedsWalk(store: Store, start: Snapshot) {
    exists met: set<Id> :: |met| > MAX_WALK && forall id | id in met :: IsAncestor(store, start, id)
  }

  /**
   The worklist. It stops at the target, and otherwise opens every document it can find; one that cannot be
   opened leaves the question undecided. More than MAX_WALK snapshots are too many to ask.
   */
  method DescendsFrom(store: Store, snapshot: Snapshot, target: Id) returns (r: Result<Relation, ChainError>)
    requires WellAddressed(store)
    ensures r.Ok? ==> r.value == Relates(store, snapshot, target)
    ensures r.Err? ==> ExceedsWalk(store, snapshot)
  {
    hide Relates, IsAncestor, Explored, IsHeldAs, HasGap, Opened;
    Begin(store, snapshot, target);
    if snapshot.digest == target {
      return Ok(Reached);
    }
    var seen := {snapshot.digest};
    var frontier := [snapshot];
    var undecided := false;
    while frontier != []
      invariant Explored(store, snapshot, target, seen, frontier)
      invariant undecided <==> HasGap(store, snapshot, seen)
      decreases store.docs.Keys - seen, |frontier|
    {
      var current := frontier[|frontier| - 1];
      Pop(store, snapshot, target, seen, frontier);
      ghost var before, depth := seen, |frontier|;
      frontier := frontier[..|frontier| - 1];
      for k := 0 to |current.parents|
        invariant IsHeldAs(store, snapshot, current, seen)
        invariant Explored(store, snapshot, target, seen, frontier + [current])
        invariant forall j | 0 <= j < k :: current.parents[j] in seen
        invariant undecided <==> HasGap(store, snapshot, seen)
        invariant before <= seen
        invariant |frontier| == depth - 1 || store.docs.Keys - seen < store.docs.Keys - before
      {
        var parent := current.parents[k];
        ParentIsAncestor(store, snapshot, target, seen, frontier, current, parent);
        if parent == target {
          ReachedIs(store, snapshot, target);
          return Ok(Reached);
        }
        if parent !in seen {
          var document := LoadSnapshot(store, parent);
          ghost var met, earlier := seen, frontier;
          seen := seen + {parent};
          if |seen| > MAX_WALK {
            SeenAreAncestors(store, snapshot, target, met, earlier + [current]);
            return Err(TooLong);
          }
          if document.None? {
            undecided := true;
          } else {
            frontier := frontier + [document.value];
            assert parent in store.docs.Keys - met && parent !in store.docs.Keys - seen;
          }
          MeetOne(store, snapshot, target, met, earlier, current, parent, document);
        }
      }
      Finish(store, snapshot, target, seen, frontier, current);
    }
    Conclude(store, snapshot, target, seen);
    r := Ok(if undecided then Undecided else Cleared);
  }

  lemma Begin(store: Store, start: Snapshot, target: Id)
    ensures start.digest == target ==> Relates(store, start, target) == Reached
    ensures start.digest != target ==> Explored(store, start, target, {start.digest}, [start])
    ensures !HasGap(store, start, {start.digest})
  {
    hide Reaches;
    ReachesItself(AncestryOf(store, start), start.digest);
  }

  lemma Pop(store: Store, start: Snapshot, target: Id, seen: set<Id>, frontier: seq<Snapshot>)
    requires frontier != [] && Explored(store, start, target, seen, frontier)
    ensures var current := frontier[|frontier| - 1];
            && IsHeldAs(store, start, current, seen)
            && Explored(store, start, target, seen, frontier[..|frontier| - 1] + [current])
  {
    hide IsAncestor, IsHeldAs, IsPending, IsDone;
    assert frontier[|frontier| - 1] in frontier;
    assert frontier[..|frontier| - 1] + [frontier[|frontier| - 1]] == frontier;
  }

  lemma ParentIsAncestor(
    store: Store, start: Snapshot, target: Id, seen: set<Id>, frontier: seq<Snapshot>, current: Snapshot, parent: Id)
    requires Explored(store, start, target, seen, frontier + [current]) && IsHeldAs(store, start, current, seen)
    requires parent in current.parents
    ensures IsAncestor(store, start, parent)
  {
    hide Reaches;
    ParentsAreSteps(store, start, current.digest, parent);
    ReachesOn(AncestryOf(store, start), start.digest, current.digest, parent);
  }

  lemma SeenAreAncestors(store: Store, start: Snapshot, target: Id, seen: set<Id>, pending: seq<Snapshot>)
    requires Explored(store, start, target, seen, pending)
    ensures forall id | id in seen :: IsAncestor(store, start, id)
  {
  }

  lemma ReachedIs(store: Store, start: Snapshot, target: Id)
    requires IsAncestor(store, start, target)
    ensures Relates(store, start, target) == Reached
  {
  }

  /** Meeting a new parent keeps the bookkeeping, whether or not its document can be read. */
  lemma MeetOne(
    store: Store, start: Snapshot, target: Id, met: set<Id>, earlier: seq<Snapshot>, current: Snapshot,
    parent: Id, document: Option<Snapshot>)
    requires WellAddressed(store) && document == LoadSnapshot(store, parent)
    requires parent !in met && parent != target && IsAncestor(store, start, parent)
    requires Explored(store, start, target, met, earlier + [current])
    requires IsHeldAs(store, start, current, met)
    ensures var frontier := if document.Some? then earlier + [document.value] else earlier;
            Explored(store, start, target, met + {parent}, frontier + [current])
    ensures HasGap(store, start, met + {parent}) <==> HasGap(store, start, met) || document.None?
    ensures IsHeldAs(store, start, current, met + {parent})
  {
    hide IsAncestor;
    var seen := met + {parent};
    var frontier := if document.Some? then earlier + [document.value] else earlier;
    assert Opened(store, start, parent) == document;
    forall known | known in frontier + [current]
      ensures IsHeldAs(store, start, known, seen)
    {
      if known in earlier + [current] { assert IsHeldAs(store, start, known, met); }
    }
    forall id | id in seen
      ensures IsPending(store, start, frontier + [current], id) || IsDone(store, start, seen, id)
    {
      if id in met { assert IsPending(store, start, earlier + [current], id) || IsDone(store, start, met, id); }
    }
    if HasGap(store, start, met) {
      var id :| id in met && Opened(store, start, id).None?;
      assert id in seen;
    }
    assert document.None? ==> parent in seen && Opened(store, start, parent).None?;
  }

  /** A document whose parents have all been met is done. */
  lemma Finish(
    store: Store, start: Snapshot, target: Id, seen: set<Id>, frontier: seq<Snapshot>, current: Snapshot)
    requires Explored(store, start, target, seen, frontier + [current])
    requires IsHeldAs(store, start, current, seen)
    requires forall j | 0 <= j < |current.parents| :: current.parents[j] in seen
    ensures Explored(store, start, target, seen, frontier)
  {
    hide IsAncestor;
    forall document | document in frontier
      ensures IsHeldAs(store, start, document, seen)
    {
      assert document in frontier + [current];
    }
    forall id | id in seen
      ensures IsPending(store, start, frontier, id) || IsDone(store, start, seen, id)
    {
      assert IsPending(store, start, frontier + [current], id) || IsDone(store, start, seen, id);
    }
  }

  /** With nothing pending, what was met is the whole ancestry. */
  lemma Conclude(store: Store, start: Snapshot, target: Id, seen: set<Id>)
    requires Explored(store, start, target, seen, [])
    ensures Relates(store, start, target) == if HasGap(store, start, seen) then Undecided else Cleared
  {
    hide Reaches;
    var edges := AncestryOf(store, start);
    forall edge | edge in edges && edge.parent in seen
      ensures edge.child in seen
    {
      assert edge == Edge(edge.parent, edge.child);
      ParentsAreSteps(store, start, edge.parent, edge.child);
      assert IsPending(store, start, [], edge.parent) || IsDone(store, start, seen, edge.parent);
    }
    forall id | IsAncestor(store, start, id)
      ensures id in seen
    {
      ClosedSetsHoldDescendants(edges, seen, start.digest, id);
    }
  }

  // --- What more evidence can change -----------------------------------------------------

  lemma OpenedGrows(small: Store, large: Store, start: Snapshot, id: Id)
    requires Extends(small, large) && Opened(small, start, id).Some?
    ensures Opened(large, start, id) == Opened(small, start, id)
  {
  }

  lemma AncestryGrows(small: Store, large: Store, start: Snapshot, id: Id)
    requires Extends(small, large) && IsAncestor(small, start, id)
    ensures IsAncestor(large, start, id)
  {
    hide Reaches;
    var fewer, more := AncestryOf(small, start), AncestryOf(large, start);
    forall edge | edge in fewer
      ensures edge in more
    {
      assert edge == Edge(edge.parent, edge.child);
      ParentsAreSteps(small, start, edge.parent, edge.child);
      OpenedGrows(small, large, start, edge.parent);
      ParentsAreSteps(large, start, edge.parent, edge.child);
    }
    MoreEdgesReachMore(fewer, more, start.digest, id);
  }

  /** A fully readable ancestry has no further ancestors to reveal. */
  lemma {:induction false} ReadableAncestryIsFinal(small: Store, large: Store, start: Snapshot, path: seq<Id>, n: nat)
    requires Extends(small, large) && AncestryIsReadable(small, start)
    requires IsPath(AncestryOf(large, start), path) && path[0] == start.digest && n < |path|
    ensures IsAncestor(small, start, path[n])
  {
    hide Reaches;
    var edges := AncestryOf(small, start);
    if n == 0 {
      ReachesItself(edges, start.digest);
    } else {
      ReadableAncestryIsFinal(small, large, start, path, n - 1);
      assert Edge(path[n - 1], path[n - 1 + 1]) in AncestryOf(large, start);
      ParentsAreSteps(large, start, path[n - 1], path[n]);
      OpenedGrows(small, large, start, path[n - 1]);
      ParentsAreSteps(small, start, path[n - 1], path[n]);
      ReachesOn(edges, start.digest, path[n - 1], path[n]);
    }
  }

  lemma LargeAncestorIsSmall(small: Store, large: Store, start: Snapshot, id: Id)
    requires Extends(small, large) && AncestryIsReadable(small, start) && IsAncestor(large, start, id)
    ensures IsAncestor(small, start, id)
  {
    var path :| Leads(AncestryOf(large, start), path, start.digest, id);
    ReadableAncestryIsFinal(small, large, start, path, |path| - 1);
  }

  /** More evidence never turns a decided answer: reached stays reached, and cleared stays cleared. */
  lemma DecidedAnswersAreStable(small: Store, large: Store, start: Snapshot, target: Id)
    requires Extends(small, large) && Relates(small, start, target) != Undecided
    ensures Relates(large, start, target) == Relates(small, start, target)
  {
    hide IsAncestor;
    if IsAncestor(small, start, target) {
      AncestryGrows(small, large, start, target);
    } else {
      forall id | IsAncestor(large, start, id)
        ensures IsAncestor(small, start, id) && Opened(large, start, id).Some?
      {
        LargeAncestorIsSmall(small, large, start, id);
        OpenedGrows(small, large, start, id);
      }
    }
  }
}
