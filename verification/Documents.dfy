/**
 The documents a store holds, and the store itself.

 Hashing is ideal: a document's identity stands for the document. A snapshot therefore carries its digest
 as a field, a Merkle root stands for the set of blocks it commits to, and key lists, fingerprints and
 canonical bytes are compared as the values they are made from.
 */
module Documents {
  import opened Common

  /** A content address: of a snapshot, a composition, a block, named content or a signature record. */
  type Id = nat

  datatype MemoryType = Canonical | Episodic | Semantic | Procedural | Provenance

  const ALL_MODULES: seq<MemoryType> := [Canonical, Episodic, Semantic, Procedural, Provenance]

  lemma EveryModuleIsListed(kind: MemoryType)
    ensures kind in ALL_MODULES
  {
    var i := match kind
      case Canonical => 0 case Episodic => 1 case Semantic => 2 case Procedural => 3 case Provenance => 4;
    assert ALL_MODULES[i] == kind;
  }

  /** The root of a set of blocks, or bytes that are nobody's root. */
  datatype Root = Root(members: set<Id>) | Forged(tag: nat)

  datatype ModuleRef = ModuleRef(
    memoryType: MemoryType,
    root: Root,
    composition: Id,
    blockCount: nat,
    tombstones: set<Id>,
    index: Option<Id>)

  datatype Composition = Composition(memoryType: MemoryType, blocks: set<Id>)

  // --- Authority ---------------------------------------------------------------

  datatype Scope = Ingest | Commit | DropCanonical | Redact | Govern | Propose

  /** A public key blob. */
  type Key = nat

  /** An entry of a key list, as written. The subject is the actor a key is said to belong to. */
  datatype TrustedKey = TrustedKey(
    key: Key,
    subject: Option<nat>,
    scopes: seq<Scope>,
    since: nat,
    retiredFrom: Option<nat>,
    compromisedFrom: Option<Id>)
  {
    function Granted(): (r: set<Scope>) {
      set scope | scope in scopes
    }
  }

  datatype TrustRoot = TrustRoot(revision: nat, governQuorum: nat, keys: seq<TrustedKey>)

  // --- Snapshots ---------------------------------------------------------------

  datatype Snapshot = Snapshot(
    digest: Id,
    parents: seq<Id>,
    modules: map<MemoryType, ModuleRef>,
    trustRoot: Option<TrustRoot>)
  {
    function FirstParent(): (r: Option<Id>) {
      if parents == [] then None else Some(parents[0])
    }
  }

  // --- Blocks and records --------------------------------------------------------

  datatype Mechanism = Drop | Supersede | Demote | Tombstone | CryptoShred | LineageRewrite {
    predicate IsRedaction() {
      Tombstone? || CryptoShred? || LineageRewrite?
    }
  }

  datatype Entry =
    | Removal(blocks: set<Id>, mechanism: Mechanism, memoryType: MemoryType, detail: nat)
    | Supersession(block: Id, supersedes: Id)
    | Derivation(block: Id, sources: set<Id>)
    | OtherEntry

  /**
   Provenance comes in two schema versions. Every other block matters only by the content it names and by the
   blocks it points at, which are the targets of a relation or what a step uses.
   */
  datatype Block =
    | ProvenanceV1(entry: Entry)
    | ProvenanceV2(entry: Entry)
    | PlainBlock(memoryType: MemoryType, content: set<Id>, links: set<Id>)
  {
    function Kind(): (r: MemoryType) {
      if PlainBlock? then memoryType else Provenance
    }
  }

  /** A removal record never upgrades: version 1 whoever took part. */
  function RemovalBlock(blocks: set<Id>, kind: MemoryType, detail: nat): (r: Block) {
    ProvenanceV1(Removal(blocks, Drop, kind, detail))
  }

  /** Blocks by module, where a module without an entry has none. */
  function In(m: map<MemoryType, set<Id>>, kind: MemoryType): (r: set<Id>) {
    if kind in m then m[kind] else {}
  }

  /** The addresses a block's own text contains. */
  function Mentions(block: Block): (r: set<Id>) {
    match block
    case PlainBlock(_, content, links) => content + links
    case _ =>
      match block.entry
      case Removal(blocks, _, _, _) => blocks
      case Supersession(winner, loser) => {winner, loser}
      case Derivation(block, sources) => {block} + sources
      case OtherEntry => {}
  }

  datatype Namespace = SnapshotNamespace | OtherNamespace(tag: nat)

  /** A decoded signature container: the key inside it, and the raw bytes. */
  datatype ParsedSignature = ParsedSignature(publicKey: Key, raw: nat)

  /** `key` stands for the fingerprint on the record; the container inside may not decode. */
  datatype SignatureRecord = SignatureRecord(
    snapshot: Id,
    namespace: Namespace,
    key: Key,
    parsed: Option<ParsedSignature>)

  // --- The store -----------------------------------------------------------------

  datatype Document =
    | SnapshotDoc(snapshot: Snapshot)
    | CompositionDoc(composition: Composition)
    | BlockDoc(block: Block)
    | RecordDoc(record: SignatureRecord)
    | OtherDoc(tag: nat)

  /** The resolvable documents, and the pointer that names signature records by the snapshot they cover. */
  datatype Store = Store(docs: map<Id, Document>, signatures: map<Id, seq<Id>>)

  /** Reading verifies the hash, so what is read under an address is the document of that address. */
  ghost predicate WellAddressed(store: Store) {
    forall id | id in store.docs && store.docs[id].SnapshotDoc? :: store.docs[id].snapshot.digest == id
  }

  /** Documents were only added. */
  ghost predicate Grows(before: map<Id, Document>, after: map<Id, Document>) {
    forall id | id in before :: id in after && after[id] == before[id]
  }

  /** The larger store holds everything the smaller one does. */
  ghost predicate Extends(small: Store, large: Store) {
    Grows(small.docs, large.docs)
  }

  /** What is filed under an address, if it is there and is a snapshot. */
  function LoadSnapshot(store: Store, id: Id): (r: Option<Snapshot>) {
    if id in store.docs && store.docs[id].SnapshotDoc? then Some(store.docs[id].snapshot) else None
  }

  /** The records named for a snapshot, as far as they resolve, in the order the signature index lists them. */
  function RecordsIn(docs: map<Id, Document>, named: seq<Id>): (r: seq<SignatureRecord>) {
    if named == [] then []
    else
      (if named[0] in docs && docs[named[0]].RecordDoc? then [docs[named[0]].record] else [])
      + RecordsIn(docs, named[1..])
  }

  /** The records a snapshot has in an index. */
  function NamedIn(signatures: map<Id, seq<Id>>, snapshot: Id): (r: seq<Id>) {
    if snapshot in signatures then signatures[snapshot] else []
  }

  /** More records are named, and none that was named is lost. */
  ghost predicate NamesMore(before: map<Id, seq<Id>>, after: map<Id, seq<Id>>) {
    forall snapshot, id | id in NamedIn(before, snapshot) :: id in NamedIn(after, snapshot)
  }

  function ForSnapshot(store: Store, id: Id): (r: seq<SignatureRecord>) {
    RecordsIn(store.docs, NamedIn(store.signatures, id))
  }

  /** Which records those are: exactly the resolvable ones the signature index names. */
  lemma {:induction false} RecordsAreTheNamedOnes(docs: map<Id, Document>, named: seq<Id>, record: SignatureRecord)
    ensures record in RecordsIn(docs, named) <==> exists id | id in named :: id in docs && docs[id] == RecordDoc(record)
  {
    if named != [] {
      RecordsAreTheNamedOnes(docs, named[1..], record);
      assert forall id :: id in named <==> id == named[0] || id in named[1..];
    }
  }
}
