/** Content addressing without collisions, and stores filled through it. */
module Hashing {
  import opened Common
  import opened Documents

  /** A snapshot document before it has an address. The stamp is all the rest it says, such as its time. */
  datatype Description = Description(
    parents: seq<Id>,
    modules: map<MemoryType, ModuleRef>,
    trustRoot: Option<TrustRoot>,
    stamp: nat)

  /**
   Where each kind of document is filed. `engine` is what this client's own index engine builds over a module
   that carries a travelling index: a payload to be filed too, or nothing.
   */
  datatype Hash = Hash(
    snapshot: Description -> Id,
    composition: Composition -> Id,
    block: Block -> Id,
    record: SignatureRecord -> Id,
    payload: nat -> Id,
    engine: (MemoryType, set<Id>) -> Option<nat>)

  function SnapshotOf(hash: Hash, description: Description): (s: Snapshot) {
    Snapshot(hash.snapshot(description), description.parents, description.modules, description.trustRoot)
  }

  /** Hashing does not collide: every address it gives out has one meaning. */
  ghost predicate IsFaithful(hash: Hash, meaning: Id -> Document) {
    && (forall d :: meaning(hash.snapshot(d)) == SnapshotDoc(SnapshotOf(hash, d)))
    && (forall c :: meaning(hash.composition(c)) == CompositionDoc(c))
    && (forall b :: meaning(hash.block(b)) == BlockDoc(b))
    && (forall r :: meaning(hash.record(r)) == RecordDoc(r))
    && (forall n :: meaning(hash.payload(n)) == OtherDoc(n))
    && (forall id :: meaning(id).SnapshotDoc? ==> meaning(id).snapshot.digest == id)
  }

  /** Hashing does not run in circles: a block can only mention addresses that could be known before its own. */
  ghost predicate IsGrounded(hash: Hash, rank: Id -> nat) {
    forall block, id | id in Mentions(block) :: rank(id) < rank(hash.block(block))
  }

  /** What is read under an address is what the address means. */
  ghost predicate Holds(docs: map<Id, Document>, meaning: Id -> Document) {
    forall id | id in docs :: docs[id] == meaning(id)
  }

  lemma PutGrows(docs: map<Id, Document>, id: Id, document: Document, meaning: Id -> Document)
    requires Holds(docs, meaning) && meaning(id) == document
    ensures Holds(docs[id := document], meaning) && Grows(docs, docs[id := document])
  {
  }

  lemma NothingGrows(docs: map<Id, Document>)
    ensures Grows(docs, docs)
  {
  }

  lemma GrowthComposes(a: map<Id, Document>, b: map<Id, Document>, c: map<Id, Document>)
    requires Grows(a, b) && Grows(b, c)
    ensures Grows(a, c)
  {
  }

  function PutBlocks(hash: Hash, docs: map<Id, Document>, blocks: seq<Block>): (r: map<Id, Document>)
    decreases |blocks|
  {
    if blocks == [] then docs else PutBlocks(hash, docs[hash.block(blocks[0]) := BlockDoc(blocks[0])], blocks[1..])
  }

  function IdsOf(hash: Hash, blocks: seq<Block>): (r: set<Id>) {
    set block | block in blocks :: hash.block(block)
  }

  lemma {:induction false} PutBlocksHolds(
    hash: Hash, docs: map<Id, Document>, blocks: seq<Block>, meaning: Id -> Document)
    requires IsFaithful(hash, meaning) && Holds(docs, meaning)
    ensures Holds(PutBlocks(hash, docs, blocks), meaning) && Grows(docs, PutBlocks(hash, docs, blocks))
    ensures forall block | block in blocks :: hash.block(block) in PutBlocks(hash, docs, blocks)
    decreases |blocks|
  {
    if blocks != [] {
      var put := docs[hash.block(blocks[0]) := BlockDoc(blocks[0])];
      PutGrows(docs, hash.block(blocks[0]), BlockDoc(blocks[0]), meaning);
      PutBlocksHolds(hash, put, blocks[1..], meaning);
      assert forall block | block in blocks :: block == blocks[0] || block in blocks[1..];
    }
  }
}
