/** The two pointers a brain has, one write at a time, and the branches they amount to. */
module BranchPointers {
  import opened Common
  import opened Documents
  import opened Retention
  import Branches

  /** A remote place, and what it served when this brain last took from it. */
  datatype Origin = Origin(place: nat, snapshot: Id)

  datatype Head = Head(snapshot: Id, retained: seq<Id>, origin: Option<Origin>)

  datatype BranchRef = BranchRef(snapshot: Id, origin: Option<Origin>)

  datatype RefTable = RefTable(current: string, switching: Option<string>, branches: map<string, BranchRef>)

  /** What is on disk: the head pointer and the ref table, written at different moments. */
  datatype Disk = Disk(head: Option<Head>, refs: Option<RefTable>)

  function HeadsIn(refs: Option<RefTable>): (r: set<Id>) {
    if refs.None? then {} else set name | name in refs.value.branches :: refs.value.branches[name].snapshot
  }

  /** A checkout that was interrupted, finished when the head already moved and abandoned when it did not. */
  function Repaired(table: RefTable, head: Option<Head>): (r: RefTable) {
    if table.switching.None? then table
    else
      var target := table.switching.value;
      if target in table.branches && head.Some? && head.value.snapshot == table.branches[target].snapshot
      then table.(current := target, switching := None)
      else table.(switching := None)
  }

  /** The table a brain without one implicitly has. */
  function ImplicitTable(head: Head): (r: RefTable) {
    RefTable(Branches.DEFAULT_BRANCH, None, map[Branches.DEFAULT_BRANCH := BranchRef(head.snapshot, None)])
  }

  /** The refs a reader works with; before the first snapshot there are none. */
  function TableOf(disk: Disk): (r: Option<RefTable>) {
    if disk.refs.Some? then Some(Repaired(disk.refs.value, disk.head))
    else if disk.head.Some? then Some(ImplicitTable(disk.head.value))
    else None
  }

  /** Only the head knows where the current branch is, so its entry is overwritten from there. */
  function Recorded(table: RefTable, head: Option<Head>): (r: RefTable) {
    if head.None? then table
    else table.(branches := table.branches[table.current := BranchRef(head.value.snapshot, head.value.origin)])
  }

  // --- What the pointers amount to --------------------------------------------------------------

  /** Each branch with its head, and which one is current. */
  datatype View = View(current: string, heads: map<string, Id>)

  /** What the brain's branches are, once a reader has repaired what it found. */
  function ViewOf(disk: Disk): (r: View)
    requires disk.head.Some?
  {
    var table := Recorded(TableOf(disk).value, disk.head);
    View(table.current, map name | name in table.branches :: table.branches[name].snapshot)
  }

  // --- One pointer write each ------------------------------------------------------------------------

  /** `heads` lists what the refs name, in whatever order they are stored. */
  ghost predicate Lists(heads: seq<Id>, refs: Option<RefTable>) {
    Members(heads) == HeadsIn(refs)
  }

  ghost predicate IsHeadWrite(
    disk: Disk, after: Disk, digest: Id, origin: Option<Origin>, retain: seq<Id>, roots: nat)
  {
    && after.refs == disk.refs && after.head.Some?
    && after.head.value.snapshot == digest && after.head.value.origin == origin
    && exists heads :: Lists(heads, disk.refs)
         && after.head.value.retained ==
            Retained(digest, retain, if disk.head.Some? then disk.head.value.retained else [], heads, roots)
  }

  function RefsWritten(disk: Disk, table: RefTable): (r: Disk) {
    disk.(refs := Some(table))
  }

  /** Where a branch starts: another branch, a snapshot that is held, or the current one. */
  datatype Start = AtHead | AtBranch(name: string) | AtSnapshot(id: Id)

  /** The state of an operation between its pointer writes; a crash forgets it. */
  datatype Task =
    | Idle
    | Announced(table: RefTable, target: string)
    | Moved(table: RefTable, target: string)
    | Unpinned

  datatype System = System(disk: Disk, task: Task)

  datatype Label =
    | Crash
    | Repair
    | Commit(digest: Id, origin: Option<Origin>, retain: seq<Id>)
    | Create(name: string, start: Id)
    | Delete(name: string)
    | RewriteHead
    | Announce(target: string)
    | MoveHead
    | Settle

  predicate IsQuiet(disk: Disk) {
    disk.head.Some? && (disk.refs.Some? ==> disk.refs.value.switching.None?)
  }

  /** One step: a pointer write, or a crash that loses the operation under way. */
  ghost predicate Next(before: System, step: Label, after: System, roots: nat) {
    match step
    case Crash => after == before.(task := Idle)
    case Repair =>
      && before.task == Idle && before.disk.refs.Some? && before.disk.refs.value.switching.Some?
      && after == System(RefsWritten(before.disk, Repaired(before.disk.refs.value, before.disk.head)), Idle)
    case Commit(digest, origin, retain) =>
      && before.task == Idle && after.task == Idle && IsQuiet(before.disk)
      && IsHeadWrite(before.disk, after.disk, digest, origin, retain, roots)
    case Create(name, start) =>
      && before.task == Idle && IsQuiet(before.disk)
      && var table := Recorded(TableOf(before.disk).value, before.disk.head);
         && name !in table.branches
         && after == System(RefsWritten(before.disk,
                                        table.(branches := table.branches[name := BranchRef(start, None)])),
                            Unpinned)
    case Delete(name) =>
      && before.task == Idle && IsQuiet(before.disk)
      && var table := Recorded(TableOf(before.disk).value, before.disk.head);
         && name in table.branches && name != table.current
         && after == System(RefsWritten(before.disk, table.(branches := table.branches - {name})), Unpinned)
    case RewriteHead =>
      && before.task == Unpinned && after.task == Idle && before.disk.head.Some?
      && IsHeadWrite(before.disk, after.disk, before.disk.head.value.snapshot, before.disk.head.value.origin, [], roots)
    case Announce(target) =>
      && before.task == Idle && IsQuiet(before.disk)
      && var table := Recorded(TableOf(before.disk).value, before.disk.head);
         && target in table.branches && target != table.current
         && after == System(RefsWritten(before.disk, table.(switching := Some(target))), Announced(table, target))
    case MoveHead =>
      && before.task.Announced? && before.task.target in before.task.table.branches
      && after.task == Moved(before.task.table, before.task.target)
      && var ref := before.task.table.branches[before.task.target];
         IsHeadWrite(before.disk, after.disk, ref.snapshot, ref.origin, [], roots)
    case Settle =>
      && before.task.Moved?
      && after == System(RefsWritten(before.disk, before.task.table.(current := before.task.target, switching := None)),
                         Idle)
  }

  // --- What every step keeps ---------------------------------------------------------------------------

  /** The retained set covers the head pointer, and an operation under way matches what is on disk. */
  ghost predicate IsConsistent(system: System) {
    && system.disk.head.Some? && system.disk.head.value.snapshot in system.disk.head.value.retained
    && (system.task.Announced? ==> IsAnnounced(system.disk, system.task.table, system.task.target))
    && (system.task.Moved? ==> IsMoved(system.disk, system.task.table, system.task.target))
    && (system.task == Unpinned ==> IsQuiet(system.disk) && system.disk.refs.Some?
                                    && system.disk.refs.value.current in system.disk.refs.value.branches)
  }

  predicate IsAnnounced(disk: Disk, table: RefTable, target: string) {
    && disk.head.Some? && disk.refs == Some(table.(switching := Some(target)))
    && target in table.branches && table.current in table.branches && target != table.current
    && table.branches[table.current].snapshot == disk.head.value.snapshot
  }

  predicate IsMoved(disk: Disk, table: RefTable, target: string) {
    && disk.head.Some? && disk.refs == Some(table.(switching := Some(target)))
    && target in table.branches && table.current in table.branches && target != table.current
    && table.branches[target].snapshot == disk.head.value.snapshot
  }

  /** What a step does to the branches, seen through repair. */
  ghost predicate Refines(before: View, step: Label, after: View) {
    match step
    case Commit(digest, _, _) => after == before.(heads := before.heads[before.current := digest])
    case Create(name, start) => name !in before.heads && after == before.(heads := before.heads[name := start])
    case Delete(name) => name != before.current && after == before.(heads := before.heads - {name})
    case Announce(target) =>
      target in before.heads && after.heads == before.heads
        && (after.current == before.current || after.current == target)
    case MoveHead => after.heads == before.heads && after.current in before.heads
    case _ => after == before
  }

  lemma HeadWriteRetains(
    disk: Disk, after: Disk, digest: Id, origin: Option<Origin>, retain: seq<Id>, roots: nat)
    requires IsHeadWrite(disk, after, digest, origin, retain, roots) && roots >= 1
    ensures IsRetention(after.head.value.retained, digest, HeadsIn(disk.refs), roots)
    ensures digest in after.head.value.retained
  {
    hide IsRetention;
    var heads :| Lists(heads, disk.refs)
      && after.head.value.retained ==
         Retained(digest, retain, if disk.head.Some? then disk.head.value.retained else [], heads, roots);
    RetainedIsRetention(digest, retain, if disk.head.Some? then disk.head.value.retained else [], heads, roots);
    assert IsRetention(after.head.value.retained, digest, HeadsIn(disk.refs), roots);
    RetentionStartsWithHead(after.head.value.retained, digest, HeadsIn(disk.refs), roots);
  }

  lemma RetentionStartsWithHead(retained: seq<Id>, digest: Id, heads: set<Id>, roots: nat)
    requires IsRetention(retained, digest, heads, roots)
    ensures digest in retained
  {
    assert retained[0] == digest;
  }

  /** Repairing what is on disk changes nothing a reader sees. */
  lemma RepairIsInvisible(disk: Disk)
    requires disk.head.Some? && disk.refs.Some?
    ensures ViewOf(RefsWritten(disk, Repaired(disk.refs.value, disk.head))) == ViewOf(disk)
  {
  }

  lemma AnnouncedView(disk: Disk, table: RefTable, target: string)
    requires IsAnnounced(disk, table, target)
    ensures ViewOf(disk).heads == map name | name in table.branches :: table.branches[name].snapshot
    ensures ViewOf(disk).current ==
            if disk.head.value.snapshot == table.branches[target].snapshot then target else table.current
  {
    var heads := map name | name in table.branches :: table.branches[name].snapshot;
    assert ViewOf(disk).heads == heads;
  }

  lemma MovedView(disk: Disk, table: RefTable, target: string)
    requires IsMoved(disk, table, target)
    ensures ViewOf(disk) == View(target, map name | name in table.branches :: table.branches[name].snapshot)
  {
    var heads := map name | name in table.branches :: table.branches[name].snapshot;
    assert ViewOf(disk).heads == heads;
  }

  lemma QuietView(disk: Disk)
    requires IsQuiet(disk)
    ensures var table := Recorded(TableOf(disk).value, disk.head);
            && ViewOf(disk) == View(table.current, map name | name in table.branches :: table.branches[name].snapshot)
            && table.switching.None? && table.current in table.branches
            && table.branches[table.current].snapshot == disk.head.value.snapshot
  {
  }

  lemma CommitRefines(disk: Disk, after: Disk, digest: Id, origin: Option<Origin>, retain: seq<Id>, roots: nat)
    requires IsQuiet(disk) && IsHeadWrite(disk, after, digest, origin, retain, roots)
    ensures ViewOf(after) == View(ViewOf(disk).current, ViewOf(disk).heads[ViewOf(disk).current := digest])
  {
    var one, two := ViewOf(disk), ViewOf(after);
    assert one.current == two.current;
    assert two.heads == one.heads[one.current := digest];
  }

  lemma CreateRefines(before: System, name: string, start: Id, after: System, roots: nat)
    requires IsConsistent(before) && Next(before, Create(name, start), after, roots)
    ensures IsConsistent(after) && Refines(ViewOf(before.disk), Create(name, start), ViewOf(after.disk))
  {
    QuietView(before.disk);
    var one, two := ViewOf(before.disk), ViewOf(after.disk);
    assert two.heads == one.heads[name := start];
  }

  lemma DeleteRefines(before: System, name: string, after: System, roots: nat)
    requires IsConsistent(before) && Next(before, Delete(name), after, roots)
    ensures IsConsistent(after) && Refines(ViewOf(before.disk), Delete(name), ViewOf(after.disk))
  {
    QuietView(before.disk);
    var one, two := ViewOf(before.disk), ViewOf(after.disk);
    assert two.heads == one.heads - {name};
  }

  lemma RewriteRefines(before: System, after: System, roots: nat)
    requires IsConsistent(before) && Next(before, RewriteHead, after, roots) && roots >= 1
    ensures IsConsistent(after) && ViewOf(after.disk) == ViewOf(before.disk)
  {
    var head := before.disk.head.value;
    HeadWriteRetains(before.disk, after.disk, head.snapshot, head.origin, [], roots);
    CommitRefines(before.disk, after.disk, head.snapshot, head.origin, [], roots);
    QuietView(before.disk);
    var one := ViewOf(before.disk);
    assert one.heads[one.current := head.snapshot] == one.heads;
  }

  lemma AnnounceRefines(before: System, target: string, after: System, roots: nat)
    requires IsConsistent(before) && Next(before, Announce(target), after, roots)
    ensures IsConsistent(after) && Refines(ViewOf(before.disk), Announce(target), ViewOf(after.disk))
  {
    QuietView(before.disk);
    var table := Recorded(TableOf(before.disk).value, before.disk.head);
    AnnouncedView(after.disk, table, target);
  }

  lemma MoveRefines(before: System, after: System, roots: nat)
    requires IsConsistent(before) && Next(before, MoveHead, after, roots) && roots >= 1
    ensures IsConsistent(after) && Refines(ViewOf(before.disk), MoveHead, ViewOf(after.disk))
    ensures ViewOf(after.disk).current == before.task.target
  {
    hide IsHeadWrite;
    var table, target := before.task.table, before.task.target;
    var ref := table.branches[target];
    HeadWriteRetains(before.disk, after.disk, ref.snapshot, ref.origin, [], roots);
    HeadWriteIs(before.disk, after.disk, ref.snapshot, ref.origin, [], roots);
    AnnouncedView(before.disk, table, target);
    MovedView(after.disk, table, target);
  }

  lemma HeadWriteIs(disk: Disk, after: Disk, digest: Id, origin: Option<Origin>, retain: seq<Id>, roots: nat)
    requires IsHeadWrite(disk, after, digest, origin, retain, roots)
    ensures after.refs == disk.refs && after.head.Some? && after.head.value.snapshot == digest
    ensures after.head.value.origin == origin
  {
  }

  lemma SettleRefines(before: System, after: System, roots: nat)
    requires IsConsistent(before) && Next(before, Settle, after, roots)
    ensures IsConsistent(after) && ViewOf(after.disk) == ViewOf(before.disk)
  {
    var table, target := before.task.table, before.task.target;
    MovedView(before.disk, table, target);
    QuietView(after.disk);
    assert ViewOf(after.disk).heads == map name | name in table.branches :: table.branches[name].snapshot;
  }

  /** Every pointer write, and every crash, keeps the system consistent and does to the branches what it should. */
  lemma StepRefines(before: System, step: Label, after: System, roots: nat)
    requires IsConsistent(before) && Next(before, step, after, roots) && roots >= 1
    ensures IsConsistent(after) && Refines(ViewOf(before.disk), step, ViewOf(after.disk))
  {
    hide ViewOf, IsHeadWrite, IsAnnounced, IsMoved, IsQuiet;
    match step
    case Crash =>
    case Repair => RepairIsInvisible(before.disk);
    case Commit(digest, origin, retain) =>
      CommitRefines(before.disk, after.disk, digest, origin, retain, roots);
      HeadWriteRetains(before.disk, after.disk, digest, origin, retain, roots);
      HeadWriteIs(before.disk, after.disk, digest, origin, retain, roots);
    case Create(name, start) => CreateRefines(before, name, start, after, roots);
    case Delete(name) => DeleteRefines(before, name, after, roots);
    case RewriteHead => RewriteRefines(before, after, roots);
    case Announce(target) => AnnounceRefines(before, target, after, roots);
    case MoveHead => MoveRefines(before, after, roots);
    case Settle => SettleRefines(before, after, roots);
  }
}
