/** Where a snapshot stands: its role, the authority over it, and the first parents behind it. */
module Chain {
  import opened Common
  import opened Documents

  const MAX_WALK: nat := 100_000

  datatype Role = Genesis | Ordinary | Revision

  datatype Position = Position(
    snapshot: Snapshot,
    parent: Option<Snapshot>,
    role: Role,
    inForce: Option<TrustRoot>,
    truncated: bool)

  datatype ChainError = Cycle | TooLong

  /** A position is read off one step back: the key list over a snapshot is the one its first parent carried. */
  function Locate(store: Store, snapshot: Snapshot): (p: Position)
    ensures p.snapshot == snapshot
  {
    match snapshot.FirstParent()
    case None => Position(snapshot, None, Genesis, snapshot.trustRoot, false)
    case Some(first) =>
      match LoadSnapshot(store, first)
      case None => Position(snapshot, None, Ordinary, None, true)
      case Some(parent) =>
        var role := if parent.trustRoot == snapshot.trustRoot then Ordinary else Revision;
        Position(snapshot, Some(parent), role, parent.trustRoot, false)
  }

  // --- The first-parent walk ------------------------------------------------------

  /** The walk from a snapshot, given the digests already met. */
  function WalkFrom(store: Store, snapshot: Snapshot, seen: set<Id>): (r: Result<seq<Position>, ChainError>)
    requires |seen| <= MAX_WALK
    ensures r.Ok? ==> |r.value| > 0 && r.value[0] == Locate(store, snapshot)
    decreases MAX_WALK - |seen|
  {
    if snapshot.digest in seen then Err(Cycle)
    else if |seen| + 1 > MAX_WALK then Err(TooLong)
    else
      var position := Locate(store, snapshot);
      match position.parent
      case None => Ok([position])
      case Some(parent) =>
        var rest :- WalkFrom(store, parent, seen + {snapshot.digest});
        Ok([position] + rest)
  }

  function Prepend(positions: seq<Position>, rest: Result<seq<Position>, ChainError>)
    : (r: Result<seq<Position>, ChainError>)
  {
    if rest.Err? then rest else Ok(positions + rest.value)
  }

  lemma PrependStep(positions: seq<Position>, position: Position, rest: Result<seq<Position>, ChainError>)
    ensures Prepend(positions, Prepend([position], rest)) == Prepend(positions + [position], rest)
  {
    if rest.Ok? {
      assert positions + ([position] + rest.value) == positions + [position] + rest.value;
    }
  }

  /** The loop: one position at a time, each from the parent of the last, until no parent can be read. */
  method WalkFirstParents(store: Store, snapshot: Snapshot) returns (r: Result<seq<Position>, ChainError>)
    ensures r == WalkFrom(store, snapshot, {})
  {
    var positions: seq<Position> := [];
    var seen: set<Id> := {};
    var current := snapshot;
    ghost var whole := WalkFrom(store, snapshot, {});
    assert whole.Ok? ==> [] + whole.value == whole.value;
    while true
      invariant |seen| <= MAX_WALK
      invariant WalkFrom(store, snapshot, {}) == Prepend(positions, WalkFrom(store, current, seen))
      decreases MAX_WALK + 1 - |seen|
    {
      var position := Locate(store, current);
      if current.digest in seen {
        return Err(Cycle);
      }
      ghost var rest := WalkFrom(store, current, seen);
      seen := seen + {current.digest};
      if |seen| > MAX_WALK {
        return Err(TooLong);
      }
      if position.parent.None? {
        return Ok(positions + [position]);
      }
      assert rest == Prepend([position], WalkFrom(store, position.parent.value, seen));
      PrependStep(positions, position, WalkFrom(store, position.parent.value, seen));
      positions := positions + [position];
      current := position.parent.value;
    }
  }

  /** What a completed walk is: each position is the located parent of the one before, and nothing repeats. */
  ghost predicate IsWalk(store: Store, walk: seq<Position>) {
    && |walk| > 0
    && (forall i | 0 <= i < |walk| :: walk[i] == Locate(store, walk[i].snapshot))
    && (forall i | 0 <= i < |walk| - 1 :: walk[i].parent == Some(walk[i + 1].snapshot))
    && walk[|walk| - 1].parent == None
  }

  lemma {:induction false} CompletedWalk(store: Store, snapshot: Snapshot, seen: set<Id>)
    requires |seen| <= MAX_WALK && WalkFrom(store, snapshot, seen).Ok?
    ensures var walk := WalkFrom(store, snapshot, seen).value;
            && IsWalk(store, walk)
            && (forall i | 0 <= i < |walk| :: walk[i].snapshot.digest !in seen)
            && (forall i, j | 0 <= i < j < |walk| :: walk[i].snapshot.digest != walk[j].snapshot.digest)
            && |seen| + |walk| <= MAX_WALK
    decreases MAX_WALK - |seen|
  {
    hide Locate;
    var position := Locate(store, snapshot);
    if position.parent.Some? {
      CompletedWalk(store, position.parent.value, seen + {snapshot.digest});
      var rest := WalkFrom(store, position.parent.value, seen + {snapshot.digest}).value;
      var walk := WalkFrom(store, snapshot, seen).value;
      assert walk == [position] + rest;
      assert forall i | 0 < i < |walk| :: walk[i] == rest[i - 1];
    }
  }

  lemma {:induction false} WalkIsFound(store: Store, walk: seq<Position>, seen: set<Id>)
    requires IsWalk(store, walk) && |seen| + |walk| <= MAX_WALK
    requires forall i | 0 <= i < |walk| :: walk[i].snapshot.digest !in seen
    requires forall i, j | 0 <= i < j < |walk| :: walk[i].snapshot.digest != walk[j].snapshot.digest
    ensures WalkFrom(store, walk[0].snapshot, seen) == Ok(walk)
    decreases |walk|
  {
    hide Locate;
    if |walk| > 1 {
      var rest := walk[1..];
      assert forall i | 0 <= i < |rest| :: rest[i] == walk[i + 1];
      WalkIsFound(store, rest, seen + {walk[0].snapshot.digest});
      assert [walk[0]] + rest == walk;
    } else {
      assert walk == [walk[0]];
    }
  }

  /** The walk from a snapshot completes exactly when there is one that repeats no digest and is within the cap. */
  lemma WalkCompletesExactly(store: Store, snapshot: Snapshot)
    ensures WalkFrom(store, snapshot, {}).Ok? <==>
            exists walk: seq<Position> ::
              && IsWalk(store, walk) && walk[0].snapshot == snapshot && |walk| <= MAX_WALK
              && forall i, j | 0 <= i < j < |walk| :: walk[i].snapshot.digest != walk[j].snapshot.digest
  {
    hide Locate, WalkFrom;
    if WalkFrom(store, snapshot, {}).Ok? {
      CompletedWalk(store, snapshot, {});
      assert IsWalk(store, WalkFrom(store, snapshot, {}).value);
    }
    if walk: seq<Position> :|
      && IsWalk(store, walk) && walk[0].snapshot == snapshot && |walk| <= MAX_WALK
      && forall i, j | 0 <= i < j < |walk| :: walk[i].snapshot.digest != walk[j].snapshot.digest
    {
      WalkIsFound(store, walk, {});
    }
  }

  /** A complete chain ends at a genesis; any other walk ends where a parent is named and not held. */
  lemma WalkEndsAtGenesisOrGap(store: Store, walk: seq<Position>)
    requires IsWalk(store, walk)
    ensures var last := walk[|walk| - 1];
            if last.truncated then last.snapshot.parents != [] && LoadSnapshot(store, last.snapshot.parents[0]).None?
            else last.role == Genesis && last.snapshot.parents == []
    ensures forall i | 0 <= i < |walk| - 1 :: !walk[i].truncated && walk[i].role != Genesis
  {
    forall i | 0 <= i < |walk| - 1
      ensures !walk[i].truncated && walk[i].role != Genesis
    {
      assert walk[i].parent == Some(walk[i + 1].snapshot);
    }
  }

  /** The genesis a walk resolves to, or nothing when the chain truncates first. */
  function GenesisOf(walk: seq<Position>): (r: Option<Id>)
    requires |walk| > 0
  {
    var last := walk[|walk| - 1];
    if last.role == Genesis then Some(last.snapshot.digest) else None
  }

  /** The distinct trust roots on a walk, nearest first, after those already known. */
  function ObservedIn(walk: seq<Position>, known: set<TrustRoot>): (r: seq<TrustRoot>) {
    if walk == [] then []
    else
      match walk[0].snapshot.trustRoot
      case None => ObservedIn(walk[1..], known)
      case Some(root) =>
        if root in known then ObservedIn(walk[1..], known)
        else [root] + ObservedIn(walk[1..], known + {root})
  }

  method ObservedRevisions(walk: seq<Position>) returns (revisions: seq<TrustRoot>)
    ensures revisions == ObservedIn(walk, {})
  {
    revisions := [];
    var known: set<TrustRoot> := {};
    for i := 0 to |walk|
      invariant ObservedIn(walk, {}) == revisions + ObservedIn(walk[i..], known)
    {
      assert walk[i..][1..] == walk[i + 1..];
      var authority := walk[i].snapshot.trustRoot;
      if authority.Some? && authority.value !in known {
        known := known + {authority.value};
        revisions := revisions + [authority.value];
      }
    }
  }

  /** Each root comes once, and a root that is only met farther back comes after all that are met before it. */
  lemma {:induction false} NearestComeFirst(walk: seq<Position>, farther: seq<Position>, known: set<TrustRoot>)
    ensures ObservedIn(walk, known) <= ObservedIn(walk + farther, known)
    ensures forall i, j | 0 <= i < j < |ObservedIn(walk, known)| ::
              ObservedIn(walk, known)[i] != ObservedIn(walk, known)[j]
    ensures forall i | 0 <= i < |ObservedIn(walk, known)| :: ObservedIn(walk, known)[i] !in known
  {
    if walk != [] {
      assert (walk + farther)[1..] == walk[1..] + farther;
      var found := walk[0].snapshot.trustRoot;
      if found.None? || found.value in known {
        NearestComeFirst(walk[1..], farther, known);
      } else {
        NearestComeFirst(walk[1..], farther, known + {found.value});
      }
    }
  }

  /** Nothing on the walk is missed, and nothing else is observed. */
  lemma {:induction false} ObservedExactly(walk: seq<Position>, known: set<TrustRoot>, root: TrustRoot)
    requires root !in known
    ensures root in ObservedIn(walk, known) <==>
            exists i | 0 <= i < |walk| :: walk[i].snapshot.trustRoot == Some(root)
  {
    if walk != [] {
      var rest := walk[1..];
      var found := walk[0].snapshot.trustRoot;
      if found != Some(root) {
        ObservedExactly(rest, if found.Some? then known + {found.value} else known, root);
        assert found.Some? && found.value in known ==> known + {found.value} == known;
        assert forall i | 0 <= i < |rest| :: rest[i] == walk[i + 1];
      }
    }
  }

  /** A walk that completes completes the same way with fewer digests already met. */
  lemma {:induction false} FewerSeen(store: Store, snapshot: Snapshot, fewer: set<Id>, seen: set<Id>)
    requires fewer <= seen && |seen| <= MAX_WALK && WalkFrom(store, snapshot, seen).Ok?
    ensures |fewer| <= MAX_WALK && WalkFrom(store, snapshot, fewer) == WalkFrom(store, snapshot, seen)
    decreases MAX_WALK - |seen|
  {
    hide Locate;
    SubsetSize(fewer, seen);
    var position := Locate(store, snapshot);
    if position.parent.Some? {
      FewerSeen(store, position.parent.value, fewer + {snapshot.digest}, seen + {snapshot.digest});
    }
  }

  /** The walk from a snapshot is its position, then the walk from its parent. */
  lemma WalkBehindTheParent(store: Store, snapshot: Snapshot)
    requires WalkFrom(store, snapshot, {}).Ok? && Locate(store, snapshot).parent.Some?
    ensures var parent := Locate(store, snapshot).parent.value;
            && WalkFrom(store, parent, {}).Ok?
            && WalkFrom(store, snapshot, {}).value == [Locate(store, snapshot)] + WalkFrom(store, parent, {}).value
  {
    hide Locate;
    FewerSeen(store, Locate(store, snapshot).parent.value, {}, {snapshot.digest});
  }
}
