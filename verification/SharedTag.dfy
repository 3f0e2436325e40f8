/** Many clients publishing to one tag that has no conditional write. */
module SharedTag {
  import opened Common
  import opened Documents
  import opened Hashing
  import opened Histories
  import Paths

  /** A write to the tag, by whom and of which snapshot. */
  datatype Entry = Entry(author: nat, snapshot: Id)

  /** Where a push is. `seen` counts the writes its check had been served; 0 is a tag not published yet. */
  datatype Phase = Ready | Checked(seen: nat) | Published(seen: nat, position: nat)

  datatype Client = Client(head: Id, docs: map<Id, Document>, phase: Phase)

  /** Every document there is, every client with what it holds, and the writes to the tag in order. */
  datatype World = World(all: map<Id, Document>, clients: map<nat, Client>, log: seq<Entry>)

  datatype Outcome = Confirmed | Lost | Again

  datatype Event =
    | Work(client: nat)
    | Check(client: nat, seen: nat)
    | Put(client: nat)
    | Reread(client: nat, seen: nat, outcome: Outcome)

  /** What a read that is served the first `seen` writes finds. */
  function Served(log: seq<Entry>, seen: nat): (r: Option<Id>)
    requires seen <= |log|
  {
    if seen == 0 then None else Some(log[seen - 1].snapshot)
  }

  // --- The two guards as they run -----------------------------------------------------------------

  /** An unforced push goes on when nothing is published, or when what is published is in this brain's history. */
  method IsFastForward(docs: map<Id, Document>, head: Id, served: Option<Id>) returns (allowed: bool)
    ensures allowed <==> served.None? || Contains(docs, head, served.value)
  {
    if served.None? {
      return true;
    }
    var contained := ReachableFrom(docs, head);
    allowed := served.value in contained;
  }

  const CONFIRM_ATTEMPTS := 3

  datatype Confirmation = Confirmation(outcome: Outcome, tries: nat)

  /** A read that settles a publish, one way or the other. */
  ghost predicate Settles(docs: map<Id, Document>, published: Id, served: Option<Id>) {
    served.Some? && (served.value == published || !Contains(docs, published, served.value))
  }

  /** The tag re-read until an answer settles it: the publish, or something this brain does not contain. */
  method ConfirmPublish(docs: map<Id, Document>, published: Id, answers: seq<Option<Id>>) returns (r: Confirmation)
    requires |answers| >= CONFIRM_ATTEMPTS
    ensures r.tries <= CONFIRM_ATTEMPTS && forall i | 0 <= i < r.tries :: !Settles(docs, published, answers[i])
    ensures r.outcome == Again <==> r.tries == CONFIRM_ATTEMPTS
    ensures r.outcome == Confirmed ==> answers[r.tries] == Some(published)
    ensures r.outcome == Lost ==>
              answers[r.tries].Some? && answers[r.tries].value != published
                && !Contains(docs, published, answers[r.tries].value)
  {
    hide Contains;
    for attempt := 0 to CONFIRM_ATTEMPTS
      invariant forall i | 0 <= i < attempt :: !Settles(docs, published, answers[i])
    {
      var served := answers[attempt];
      if served.Some? {
        if served.value == published {
          return Confirmation(Confirmed, attempt);
        }
        var contained := ReachableFrom(docs, published);
        if served.value !in contained {
          return Confirmation(Lost, attempt);
        }
      }
    }
    r := Confirmation(Again, CONFIRM_ATTEMPTS);
  }

  // --- The protocol --------------------------------------------------------------------------------

  ghost predicate OnlyMoves(before: World, client: nat, after: World) {
    client in after.clients && after.clients == before.clients[client := after.clients[client]]
  }

  /** What one read tells the client that published. */
  ghost predicate Tells(client: Client, served: Option<Id>, outcome: Outcome) {
    match outcome
    case Confirmed => served == Some(client.head)
    case Lost => served.Some? && served.value != client.head && !Contains(client.docs, client.head, served.value)
    case Again => !Settles(client.docs, client.head, served)
  }

  /** Any local work between pushes; and a push as its check, its write, and the reads that confirm it. */
  ghost predicate Next(before: World, event: Event, after: World) {
    match event
    case Work(c) =>
      && OnlyMoves(before, c, after) && after.log == before.log && Grows(before.all, after.all)
      && (c in before.clients ==> before.clients[c].phase == Ready)
      && after.clients[c].phase == Ready && Grows(after.clients[c].docs, after.all)
    case Check(c, seen) =>
      && c in before.clients && before.clients[c].phase == Ready && seen <= |before.log|
      && (Served(before.log, seen).None?
          || Contains(before.clients[c].docs, before.clients[c].head, Served(before.log, seen).value))
      && after == before.(clients := before.clients[c := before.clients[c].(phase := Checked(seen))])
    case Put(c) =>
      && c in before.clients && before.clients[c].phase.Checked?
      && var client := before.clients[c];
         after == before.(clients := before.clients[c := client.(phase := Published(client.phase.seen, |before.log|))],
                          log := before.log + [Entry(c, client.head)])
    case Reread(c, seen, outcome) =>
      && c in before.clients && before.clients[c].phase.Published?
      && before.clients[c].phase.seen <= seen <= |before.log|
      && Tells(before.clients[c], Served(before.log, seen), outcome)
      && after == before.(clients := before.clients[c := before.clients[c].(
                            phase := if outcome == Again then before.clients[c].phase else Ready)])
  }

  /** What a push under way has established. */
  ghost predicate IsUnderWay(world: World, c: nat)
    requires c in world.clients
  {
    var client := world.clients[c];
    match client.phase
    case Ready => true
    case Checked(seen) => seen <= |world.log| && HasChecked(client, world.log, seen)
    case Published(seen, position) =>
      && seen <= position < |world.log| && HasChecked(client, world.log, seen)
      && world.log[position] == Entry(c, client.head)
      && forall k | position < k < |world.log| :: world.log[k].author != c
  }

  ghost predicate HasChecked(client: Client, log: seq<Entry>, seen: nat)
    requires seen <= |log|
  {
    Served(log, seen).Some? ==> Contains(client.docs, client.head, Served(log, seen).value)
  }

  ghost predicate IsCoherent(world: World) {
    forall c | c in world.clients :: Grows(world.clients[c].docs, world.all) && IsUnderWay(world, c)
  }

  lemma PutStaysUnderWay(world: World, c: nat, entry: Entry)
    requires c in world.clients && IsUnderWay(world, c) && entry.author != c
    ensures IsUnderWay(world.(log := world.log + [entry]), c)
  {
    hide Contains;
    var longer := world.log + [entry];
    forall k | 0 <= k < |world.log|
      ensures longer[k] == world.log[k]
    {
    }
  }

  lemma StepStaysCoherent(before: World, event: Event, after: World)
    requires IsCoherent(before) && Next(before, event, after)
    ensures IsCoherent(after) && Grows(before.all, after.all)
  {
    hide Contains, Grows;
    assert Grows(before.all, before.all) by { SameGrows(before.all); }
    forall c | c in after.clients
      ensures Grows(after.clients[c].docs, after.all) && IsUnderWay(after, c)
    {
      if c in before.clients && c != event.client {
        assert after.clients[c] == before.clients[c];
        GrowthComposes(before.clients[c].docs, before.all, after.all);
        if event.Put? {
          PutStaysUnderWay(before, c, after.log[|before.log|]);
        }
      }
    }
  }

  lemma SameGrows(docs: map<Id, Document>)
    ensures Grows(docs, docs)
  {
  }

  // --- A lost publish ----------------------------------------------------------------------------------

  /** A write the check had not seen, other than the publish itself. */
  ghost predicate Intervened(world: World, c: nat, k: nat)
    requires c in world.clients && world.clients[c].phase.Published?
  {
    world.clients[c].phase.seen <= k < |world.log| && k != world.clients[c].phase.position
  }

  /**
   A publish is reported lost only when there is a write its check had not seen: another client's, or an earlier
   one of its own that the check was too stale to be served.
   */
  lemma LostMeansUnseenWrite(before: World, c: nat, seen: nat, after: World)
    requires IsCoherent(before) && Next(before, Reread(c, seen, Lost), after)
    ensures exists k: nat :: Intervened(before, c, k)
                        && (before.log[k].author != c || k < before.clients[c].phase.position)
  {
    hide Contains;
    var client := before.clients[c];
    assert IsUnderWay(before, c);
    var k := seen - 1;
    assert Served(before.log, seen) == Some(before.log[k].snapshot);
    assert seen != client.phase.seen;
    assert Intervened(before, c, k);
  }

  /** The check was served every write this client had made. */
  predicate SeesItsOwn(before: World, event: Event) {
    event.Check? ==> forall k | 0 <= k < |before.log| && before.log[k].author == event.client :: k < event.seen
  }

  /** No push under way has a write of its own, before its publish, that its check had not seen. */
  ghost predicate OwnAreSeen(world: World) {
    forall c | c in world.clients :: OwnIsSeen(world, c)
  }

  ghost predicate OwnIsSeen(world: World, c: nat)
    requires c in world.clients
  {
    match world.clients[c].phase
    case Ready => true
    case Checked(seen) => forall k | seen <= k < |world.log| :: world.log[k].author != c
    case Published(seen, position) =>
      forall k | seen <= k < position && k < |world.log| :: world.log[k].author != c
  }

  lemma StepSeesItsOwn(before: World, event: Event, after: World)
    requires IsCoherent(before) && OwnAreSeen(before) && Next(before, event, after) && SeesItsOwn(before, event)
    ensures OwnAreSeen(after)
  {
    hide Contains, Grows, HasChecked;
    forall c | c in after.clients
      ensures OwnIsSeen(after, c)
    {
      if c in before.clients && c != event.client {
        assert after.clients[c] == before.clients[c];
        assert OwnIsSeen(before, c) && IsUnderWay(before, c);
        if event.Put? {
          assert after.log == before.log + [Entry(event.client, before.clients[event.client].head)];
        }
      } else if c in before.clients {
        assert OwnIsSeen(before, c);
      }
    }
  }

  ghost predicate IsRun(worlds: seq<World>, events: seq<Event>) {
    && |worlds| == |events| + 1
    && forall i | 0 <= i < |events| :: Next(worlds[i], events[i], worlds[i + 1])
  }

  /** A run begins with nobody in the middle of a push. */
  ghost predicate IsStart(world: World) {
    forall c | c in world.clients :: Grows(world.clients[c].docs, world.all) && world.clients[c].phase == Ready
  }

  lemma {:induction false} RunStaysCoherent(worlds: seq<World>, events: seq<Event>, i: nat)
    requires IsRun(worlds, events) && IsStart(worlds[0]) && i < |worlds|
    ensures IsCoherent(worlds[i])
    ensures (forall j | 0 <= j < |events| :: SeesItsOwn(worlds[j], events[j])) ==> OwnAreSeen(worlds[i])
  {
    hide Next, IsCoherent, OwnAreSeen, SeesItsOwn;
    if i == 0 {
      StartIsCoherent(worlds[0]);
    } else {
      RunStaysCoherent(worlds, events, i - 1);
      assert Next(worlds[i - 1], events[i - 1], worlds[i - 1 + 1]);
      StepStaysCoherent(worlds[i - 1], events[i - 1], worlds[i]);
      if forall j | 0 <= j < |events| :: SeesItsOwn(worlds[j], events[j]) {
        StepSeesItsOwn(worlds[i - 1], events[i - 1], worlds[i]);
      }
    }
  }

  lemma StartIsCoherent(world: World)
    requires IsStart(world)
    ensures IsCoherent(world) && OwnAreSeen(world)
  {
  }

  /**
   Under any interleaving whose confirming reads are no staler than the check, and whose checks see the client's
   own earlier writes, a publish is reported lost only if another client wrote in between.
   */
  lemma LostMeansAnotherClient(worlds: seq<World>, events: seq<Event>, i: nat, c: nat, seen: nat)
    requires IsRun(worlds, events) && IsStart(worlds[0]) && i < |events| && events[i] == Reread(c, seen, Lost)
    requires forall j | 0 <= j < |events| :: SeesItsOwn(worlds[j], events[j])
    ensures c in worlds[i].clients && worlds[i].clients[c].phase.Published?
    ensures exists k: nat :: Intervened(worlds[i], c, k) && worlds[i].log[k].author != c
  {
    hide IsCoherent, SeesItsOwn, Contains;
    RunStaysCoherent(worlds, events, i);
    assert Next(worlds[i], events[i], worlds[i + 1]);
    LostMeansUnseenWrite(worlds[i], c, seen, worlds[i + 1]);
    assert OwnIsSeen(worlds[i], c);
  }

  // --- The tag's history -----------------------------------------------------------------------------------

  /** No write fell between a push's check and its write: the check had been served all of them. */
  predicate IsSerialized(before: World, event: Event) {
    (event.Put? && event.client in before.clients && before.clients[event.client].phase.Checked?)
    ==> before.clients[event.client].phase.seen == |before.log|
  }

  /** Each write contains the one it replaced. */
  ghost predicate NothingReplaced(world: World) {
    forall k | 0 < k < |world.log| :: Contains(world.all, world.log[k].snapshot, world.log[k - 1].snapshot)
  }

  lemma StepReplacesNothing(before: World, event: Event, after: World)
    requires IsCoherent(before) && Next(before, event, after) && IsSerialized(before, event) && NothingReplaced(before)
    ensures NothingReplaced(after)
  {
    hide Contains, Grows;
    StepStaysCoherent(before, event, after);
    forall k | 0 < k < |after.log|
      ensures Contains(after.all, after.log[k].snapshot, after.log[k - 1].snapshot)
    {
      if k < |before.log| {
        StillContains(before.all, after.all, before.log[k].snapshot, before.log[k - 1].snapshot);
      } else {
        var client := before.clients[event.client];
        assert IsUnderWay(before, event.client);
        assert Served(before.log, k) == Some(before.log[k - 1].snapshot);
        StillContains(client.docs, after.all, client.head, before.log[k - 1].snapshot);
      }
    }
  }

  lemma StillContains(before: map<Id, Document>, after: map<Id, Document>, from: Id, id: Id)
    requires Grows(before, after) && Contains(before, from, id)
    ensures Contains(after, from, id)
  {
    HistoryGrows(before, after, from, id);
  }

  lemma {:induction false} LaterContainsEarlier(world: World, k: nat, l: nat, id: Id)
    requires NothingReplaced(world) && k <= l < |world.log| && Contains(world.all, world.log[k].snapshot, id)
    ensures Contains(world.all, world.log[l].snapshot, id)
    decreases l
  {
    hide Contains;
    if k < l {
      LaterContainsEarlier(world, k, l - 1, id);
      ContainsIsTransitive(world.all, world.log[l].snapshot, world.log[l - 1].snapshot, id);
    }
  }

  /**
   Over any run of clients that work and push unforced, with no write between a push's check and its write, all
   that was ever reachable from the tag is reachable from it still.
   */
  lemma {:induction false} TagHistoryOnlyGrows(worlds: seq<World>, events: seq<Event>, i: nat)
    requires IsRun(worlds, events) && IsStart(worlds[0]) && worlds[0].log == [] && i < |worlds|
    requires forall j | 0 <= j < |events| :: IsSerialized(worlds[j], events[j])
    ensures NothingReplaced(worlds[i])
    ensures forall k, l, id | 0 <= k <= l < |worlds[i].log| && Contains(worlds[i].all, worlds[i].log[k].snapshot, id)
              :: Contains(worlds[i].all, worlds[i].log[l].snapshot, id)
  {
    hide Next, IsCoherent, IsSerialized, NothingReplaced, Contains;
    if i == 0 {
      assert NothingReplaced(worlds[0]) by { EmptyTag(worlds[0]); }
    } else {
      TagHistoryOnlyGrows(worlds, events, i - 1);
      RunStaysCoherent(worlds, events, i - 1);
      assert Next(worlds[i - 1], events[i - 1], worlds[i - 1 + 1]);
      StepReplacesNothing(worlds[i - 1], events[i - 1], worlds[i]);
    }
    forall k, l, id | 0 <= k <= l < |worlds[i].log| && Contains(worlds[i].all, worlds[i].log[k].snapshot, id)
      ensures Contains(worlds[i].all, worlds[i].log[l].snapshot, id)
    {
      LaterContainsEarlier(worlds[i], k, l, id);
    }
  }

  lemma EmptyTag(world: World)
    requires world.log == []
    ensures NothingReplaced(world)
  {
  }

  /** Two checks before two writes are enough to lose one: a tag write cannot be made conditional. */
  lemma UnserializedPushesLose()
    ensures exists worlds: seq<World>, events: seq<Event> ::
              IsRun(worlds, events) && IsStart(worlds[0]) && worlds[0].log == []
              && var last := worlds[|worlds| - 1];
                 |last.log| == 2 && !Contains(last.all, last.log[1].snapshot, last.log[0].snapshot)
  {
    var one, two := Snapshot(1, [], map[], None), Snapshot(2, [], map[], None);
    var all := map[1 := SnapshotDoc(one), 2 := SnapshotDoc(two)];
    var a, b := Client(1, all, Ready), Client(2, all, Ready);
    var w0 := World(all, map[0 := a, 1 := b], []);
    var w1 := w0.(clients := w0.clients[0 := a.(phase := Checked(0))]);
    var w2 := w1.(clients := w1.clients[1 := b.(phase := Checked(0))]);
    var w3 := w2.(clients := w2.clients[0 := a.(phase := Published(0, 0))], log := [Entry(0, 1)]);
    var w4 := w3.(clients := w3.clients[1 := b.(phase := Published(0, 1))], log := [Entry(0, 1), Entry(1, 2)]);
    var worlds, events := [w0, w1, w2, w3, w4], [Check(0, 0), Check(1, 0), Put(0), Put(1)];
    assert [] + [Entry(0, 1)] == [Entry(0, 1)] && [Entry(0, 1)] + [Entry(1, 2)] == [Entry(0, 1), Entry(1, 2)];
    assert Next(w0, events[0], w1) && Next(w1, events[1], w2);
    assert Next(w2, events[2], w3) && Next(w3, events[3], w4);
    assert IsRun(worlds, events);
    if Contains(all, 2, 1) {
      Paths.ClosedSetsHoldDescendants(Lineage(all), {2}, 2, 1);
    }
    assert !Contains(worlds[4].all, worlds[4].log[1].snapshot, worlds[4].log[0].snapshot);
  }
}
