# A verified model of the Boltzmann brain

Boltzmann keeps a brain as content-addressed documents under a few mutable pointers: snapshots name the
modules of a version, compositions name their blocks, signature records cover snapshots, and a trust root
inside the snapshot says whose signatures count. This project models four parts of it in Dafny and proves
what they promise.

**Authenticity** (`Documents`, `Chain`, `Descent`, `TrustRoots`, `Scopes`, `ScopeRules`, `Verdicts`, `Quorum`,
`Removals`, `RemovalRules`, `Authenticator`, `Findings`, `Custody`, and the writers in `Hashing`, `Writer`,
`Versions`, `Cascade`, `Drops`, `DropRules`, `Rotation`, `RotationRules`, `Handle`, `RemovalAgreement`,
`GovernanceAgreement`, `WriterRuns`). A verifier walks a history that may be truncated or hostile. An authorized
report means an unbroken chain of grants back to a genesis; hiding evidence never makes a signature better; and
over whole runs the heads a brain publishes pass its own verifier's checks, with the exceptions stated exactly.

**The pointers of a brain** (`Histories`, `Retention`, `BranchPointers`, `BranchRuns`, `BranchBrain`,
`Merging`, `Replay`, `Conclusion`, `Strategies`, `Bookkeeping`, `ReconciliationAgreement`, `SharedTag`). Head and
refs are written at different moments, so every operation is a sequence of single pointer writes and a crash is
stopping between two of them. What a reader sees after repair is a refinement of the intended operation, over
whole runs; pruning never reclaims what a retained snapshot or a branch head needs. Reconciliation replays another
history and carries its bookkeeping along, so that what it writes passes the same removal check. Many clients share
one tag that has no conditional write.

**The catalog** (`CatalogGraph`, `CatalogState`, `CatalogValidation`, `CatalogVerdicts`, `CatalogSoundness`,
`CatalogReload`, `CatalogBatch`, `CatalogView`). Dictionaries and a memo kept up to date in place, rules applied one
declaration after another, and a rebuild from stored blocks that has to agree.

**Codecs and arithmetic** (`Branches`, `Wire`, `Keys`, `Mpints`, `SshSig`, `Utf8`, `Armor`, `Point`,
`PointExact`, `PointDoubling`). Parsers and printers that undo each other, and Edwards25519 points.

`Common` and `Paths` hold the small datatypes and the reachability that the others share.

## How to read it

Code that changes state is a class or a method with loops, proved against a function of its inputs or of the
old state; the properties are lemmas about those functions and about runs of them. `Handle.Brain`,
`BranchBrain.Brain` and `Replay.Reconciler` are the one program class seen through the fields each group of
operations touches: store and head, the two pointers, and the head a reconciliation moves.

Each rule is stated twice, once as the function a method is proved against and once by what it decides: modules
named for rules (`ScopeRules`, `RemovalRules`, `DropRules`, `RotationRules`), `Versions`, `Findings` and
`CatalogVerdicts`, and lemmas ending in `Exactly`, say in terms of documents, keys and fields when each answer is given.

Hypotheses are parameters, never axioms:

- Hashing does not collide. Documents carry their address, a root stands for its set of blocks, and where
  writers allocate addresses `Hashing.IsFaithful` says each address has one meaning. `Hashing.IsGrounded`
  adds that a block only names addresses that could be known before its own.
- Whether a signature verifies is an arbitrary function. Agreement on governance assumes the primitive is
  installed (`GovernanceAgreement.Runs`).
- `Point.Fermat` is Fermat's little theorem for 2^255 - 19, `PointExact.PrimeField` adds that a product
  vanishes only with a factor and that 2 is no square, and `PointDoubling.ConstantIsNoSquare` is the fact
  section 5.1 of RFC 8032 states about the curve constant. None is proved here.
- What a gate refuses, what a reconciliation's cascade takes along, what a producer made, which strings are actor
  identifiers and what an index engine builds are arbitrary inputs.
- `ReconciliationAgreement.IsSoundPlan` and `KeepsItsBooks` say what a reconciliation starts from: the head's
  modules are read here or carried, neither side dropped provenance, what is kept out was never ours and is no
  removal record, and each version of the other history accounts for what it removed.
- `PointDoubling` needs no associativity of the addition law and proves none.

## Promises the code does not keep as stated

Each is kept as the code has it, with the exact condition proved.

- The last version a strategy joins is not always the other head: where the head cannot be reopened here and an
  earlier version can, that one stands in for it, while a merge still records the head as a parent
  (`Strategies.HeadIsJoinedExactly`, shown by `Strategies.OlderVersionStandsIn`), although
  `src/boltzmann/reconcile/strategies.py` says the last is always the head.
- Strategies do not always end alike: a rebase keeps a module that an intermediate version held and neither
  head names (`Strategies.RebaseEqualsSquashExactly`, shown by `Strategies.DroppedModuleTellsThemApart`), although
  `src/boltzmann/reconcile/strategies.py` says every strategy ends at the same composition.
- A reconciliation that stops early because it would change nothing can forget a decision: it withholds what
  the gate turned away even where somebody admitted it since (`Conclusion.StoppingEarlyIsRightExactly`, shown by
  `Conclusion.AdmittedBlockIsForgotten`).
- A batch of catalog declarations differs from the same declarations one at a time when an accepted block is
  hidden or revives a dangling edge (`CatalogBatch.BatchEqualsSinglesExactly`, shown by
  `CatalogBatch.RevivedEdgeTellsThemApart`).
- A placement under a class whose scheme is no longer declared raises a missing-key error instead of a
  verdict (`CatalogSoundness.LookupFailsExactly`, shown by `CatalogSoundness.DroppedSchemeFailsTheLookup`).
- Required scopes raise instead of failing closed when a composition document is of the wrong kind
  (`Scopes.RequirementFailsExactlyWhenMisfiled`), so more evidence can turn a verdict into no verdict (shown by
  `Verdicts.MisfiledCompositionSilencesTheVerdict`).
- A planned rotation is not rechecked: a plan that alters modules, or does not raise the revision, is committed
  and then faulted by the verifier (`GovernanceAgreement.RotationIsFaultlessExactly`, shown by
  `GovernanceAgreement.GraftedPlanIsFaulted`). Only a trust root with a quorum of zero, which construction
  refuses (`TrustRoots.Validate`), could commit one without a record for the verifier to judge.
- A drop whose cascade reaches provenance from another module can take along the record that accounts for it,
  and its version then fails the removal check (`RemovalAgreement.DropIsAcceptedExactly`, shown by
  `RemovalAgreement.DropCanTakeItsRecordAlong`). Two things have to come together
  (`WriterRuns.UnaccountedDropsRepeatARecord`): provenance already holds the very record the drop writes, from an
  equal drop in the same second (`src/boltzmann/identity/time.py:38`) or from another history; and a derivation
  record there gives that record as derived. No writer makes such a derivation record, but a reconciliation asks
  of incoming provenance only that it can be read and leaves no precedence open. A brain can check beforehand
  that it holds none, and then no drop from another module can fail (`Cascade.CascadesSpareRecordsExactly`,
  `WriterRuns.SparingDropsArePlain`, `WriterRuns.RunIsAccepted`).
- A name whose tag equals a configured default tag does not come back (`Branches.NameComesBack`, shown by
  `Branches.HiddenBehindTheDefaultTag`).

## Model

| member | source | states |
|---|---|---|
| `Chain.WalkFirstParents` | src/boltzmann/authenticity/chain.py:146-180 | The walk back from a snapshot is the recursive first-parent walk, with the cycle and length refusals where it gives up |
| `Chain.CompletedWalk` | src/boltzmann/authenticity/chain.py:146-180 | A walk that completes is a chain of located parents in which no digest repeats, of at most the walk cap |
| `Chain.WalkCompletesExactly` | src/boltzmann/authenticity/chain.py:146-180 | The walk completes if and only if there is a chain of held first parents from the snapshot to its end that repeats no digest and is within the cap |
| `Chain.WalkEndsAtGenesisOrGap` | src/boltzmann/authenticity/chain.py:100-202 | A completed walk ends at a genesis with no parents, or exactly where a named first parent is not held |
| `Chain.ObservedRevisions` | src/boltzmann/authenticity/chain.py:205-226 | The loop collects the distinct trust roots of a walk, nearest first |
| `Chain.NearestComeFirst` | src/boltzmann/authenticity/chain.py:205-226 | Each observed root comes once, and one met only farther back comes after all met before it |
| `Chain.ObservedExactly` | src/boltzmann/authenticity/chain.py:205-226 | A trust root is observed if and only if some position of the walk carries it |
| `Descent.DescendsFrom` | src/boltzmann/authenticity/chain.py:229-278 | Below the cap the worklist answers reached, cleared or undecided exactly: a path of readable documents exists; the whole ancestry is readable and lacks the target; neither. It gives up only on an ancestry larger than the cap, on shared and cyclic inputs too |
| `Descent.RelatesExactly` | src/boltzmann/authenticity/chain.py:229-278 | Reached, cleared and undecided, told by the lines of held documents that name one another as parents |
| `Descent.DecidedAnswersAreStable` | src/boltzmann/authenticity/chain.py:229-278 | Reached and cleared never change when the store grows |
| `TrustRoots.Validate` | src/boltzmann/authenticity/trust_root.py:80-194 | A written key list becomes a trust root if and only if its version and namespace are the protocol's, each entry is coherent, repeats no scope and names an actor if anyone, no key is listed twice, positions lie within the revision and somebody governs; what is built is that list |
| `TrustRoots.RepetitionShows` | src/boltzmann/authenticity/trust_root.py:98-100 | Comparing a list's length with that of its set finds a repeated scope if and only if there is one |
| `TrustRoots.LookupIsUnambiguous` | src/boltzmann/authenticity/trust_root.py:215-231 | In an accepted root the lookup of a listed key finds its one entry |
| `TrustRoots.FirstEntryExactly` | src/boltzmann/authenticity/trust_root.py:215-231 | The lookup answers with the first entry that lists the key, and with nothing if and only if none does |
| `TrustRoots.SinceIsJudgedExactly` | src/boltzmann/authenticity/trust_root.py:296-314 | A claim is refuted exactly by an observed list from its revision on that does not name the key, and confirmed exactly when none does so and the list of that very revision was observed |
| `TrustRoots.RefutationIsFinal` | src/boltzmann/authenticity/trust_root.py:296-314 | A refuted admission claim stays refuted whatever else is observed |
| `Scopes.CollectAdded` | src/boltzmann/authenticity/diff.py:264-289 | The loop yields the version-1 entries of the added provenance blocks, or nothing as soon as one cannot be read |
| `Scopes.ComputeRequired` | src/boltzmann/authenticity/diff.py:126-210 | The pass over the modules computes the required scopes and the open questions of the rule |
| `Scopes.EachScopeExactly` | src/boltzmann/authenticity/diff.py:126-210 | Each scope is required if and only if its cause is in the difference: authority changed, a derived root moved, a redaction appears, a source was gained, a source was lost |
| `ScopeRules.RequirementExactly` | src/boltzmann/authenticity/diff.py:126-289 | Told by the documents of the two snapshots: each scope is required, and each question open, exactly for its cause; a parent that is named and cannot be had leaves everything open instead |
| `ScopeRules.RequirementFailsExactly` | src/boltzmann/authenticity/diff.py:213-261 | No requirement is reached if and only if something else is held where a composition is expected, or two canonical versions are not of one module |
| `Scopes.PossibleExactly` | src/boltzmann/authenticity/diff.py:84-123 | What a requirement may come to is what is certain, all but proposing over an unreadable parent, ingesting and dropping over unreadable evidence, and redacting where that stays open |
| `Scopes.EvidenceNarrowsTheRequirement` | src/boltzmann/authenticity/diff.py:84-244 | More evidence only adds to the scopes certainly required and only removes from those possibly required |
| `Scopes.RequirementFailsExactlyWhenMisfiled` | src/boltzmann/authenticity/diff.py:126-261 | The computation escapes with an exception if and only if a composition is filed under the wrong kind of document or module |
| `Verdicts.Judge` | src/boltzmann/authenticity/authenticator.py:686-862 | One record is judged as the rules say, or the ancestry exceeds the cap |
| `Verdicts.AcceptedExactly` | src/boltzmann/authenticity/authenticator.py:686-862 | Valid and valid-as-proposal hold if and only if the signature is by a listed, unretired, uncompromised key whose scopes cover all that is possibly required, or may propose all of it |
| `Verdicts.VerifiedExactly` | src/boltzmann/authenticity/authenticator.py:763-878 | Each verdict on a verified signature has its condition: unlisted, retired, compromised from where the newest key list marks it or else the one in force, undecided, and the four answers of the scopes |
| `Verdicts.UnlistedExactly` | src/boltzmann/authenticity/authenticator.py:763-800 | A verified signature whose key no list in force names is unauthorized on a head and attributable on an offer, and no other signature is either |
| `Verdicts.UnverifiedExactly` | src/boltzmann/authenticity/authenticator.py:686-762 | So has each verdict on a signature that did not verify: namespace, container, two identities, key type, missing primitive |
| `Verdicts.MarkExactly` | src/boltzmann/authenticity/authenticator.py:864-878 | A marker in the newest key list withdraws a key, and only without one does the marker of the list in force |
| `Verdicts.WithholdingNeverUpgrades` | src/boltzmann/authenticity/authenticator.py:686-862 | A signature accepted over a smaller store is accepted the same way over any larger one, unless the larger one shows evidence so misfiled that no verdict is reached at all |
| `Verdicts.MisfiledCompositionSilencesTheVerdict` | src/boltzmann/authenticity/diff.py:84-261 | A concrete pair of stores: a founder's signature is accepted over the smaller one, and over the larger one, which files something else where the composition should be, no verdict is reached |
| `Verdicts.WithdrawalIsFinal` | src/boltzmann/authenticity/authenticator.py:686-878 | A signature withdrawn as compromised stays withdrawn as the store grows |
| `Quorum.QuorumCount` | src/boltzmann/authenticity/authenticator.py:881-926 | The loop counts distinct active governors of the previous key list with a verified, uncompromised signature, and zero when the primitive is missing |
| `Quorum.QuorumHasWitnesses` | src/boltzmann/authenticity/authenticator.py:881-926 | A met quorum has that many distinct keys behind it, each an active governor with a verified signature over the snapshot |
| `Quorum.QuorumIsMetExactly` | src/boltzmann/authenticity/authenticator.py:881-926 | A quorum is met if and only if that many distinct keys, each listed with the scope to govern, unretired and clear of any compromise, have a verified record over the snapshot, and no record lacks the primitive |
| `Quorum.CountNeverDrops` | src/boltzmann/authenticity/authenticator.py:881-926 | With the primitive present, more records and more documents never lower a count |
| `Removals.ReachableRemovals` | src/boltzmann/authenticity/removals.py:135-153 | A block is collected under a module if and only if a readable version-1 removal record of the snapshot names it there |
| `Removals.CollectChanges` | src/boltzmann/authenticity/removals.py:80-99 | The loop yields each module that lost blocks with what it lost, and each module that could not be compared |
| `Removals.CheckRemovalInvariant` | src/boltzmann/authenticity/removals.py:57-115 | The check as it runs computes the stated result |
| `Removals.AcceptedMeansRecorded` | src/boltzmann/authenticity/removals.py:57-153 | A snapshot is accepted if and only if every block its first parent held and it does not is named by a removal record it carries |
| `RemovalRules.CheckedExactly` | src/boltzmann/authenticity/removals.py:57-153 | Told by the documents of the two versions: exactly the blocks lost without a record are named, exactly the modules that may have lost something and cannot be compared are listed, and a parent is missing exactly when neither the one given nor the one held is the first parent |
| `Authenticator.JudgePin` | src/boltzmann/authenticity/authenticator.py:1144-1198 | The judgment of the pin is the specified one, and the walk it rests on completed; only an incomplete walk leaves it unanswered |
| `Authenticator.JudgeAncestry` | src/boltzmann/authenticity/authenticator.py:928-991 | Every transition behind the parent is judged nearest first, the first failure ending the judgment |
| `Authenticator.JudgeGovernance` | src/boltzmann/authenticity/authenticator.py:993-1098 | The revision and genesis rules, with the quorum columns |
| `Authenticator.JudgeAll` | src/boltzmann/authenticity/authenticator.py:642-665 | All records are judged; withdrawn verdicts are set apart and accepted keys gathered by kind |
| `Authenticator.AboutExactly` | src/boltzmann/authenticity/authenticator.py:549-553 | Of the records given or held exactly those over this snapshot are judged |
| `Authenticator.Authenticate` | src/boltzmann/authenticity/authenticator.py:508-684 | The report is the assembled one, which `Findings` characterises without the parts it is assembled from; every walk it rests on completes, and no report is reached only for misfiled evidence or a history too deep to walk |
| `Findings.FindingsExactly` | src/boltzmann/authenticity/authenticator.py:508-684 | A report contains a finding if and only if that finding is due, kind by kind and with its severity: another brain than the pinned one, a pinned root not on the chain, a gap, an ungranted change, a belied claim, changed content, a regressed revision, an unrecorded loss, too few signatures and the rest |
| `Findings.StatesExactly` | src/boltzmann/authenticity/authenticator.py:298-325 | Each state of a report has its condition: authorized means signed, nothing blocking due, and as many distinct keys judged valid as the policy asks |
| `Findings.AuthorizedHonoursThePin` | src/boltzmann/authenticity/authenticator.py:1144-1198 | Under a pin an authorized snapshot has the pinned trust root on its chain, and a chain that reaches its genesis reaches the one the pin names |
| `Findings.ColumnsExactly` | src/boltzmann/authenticity/authenticator.py:993-1098 | The report says it is pinned exactly when the pin is of this brain and on the chain, and its quorum columns are those of the key list that has to agree |
| `Custody.CleanAncestryIsGranted` | src/boltzmann/authenticity/authenticator.py:928-991 | A walk without a blocking finding has every change of authority granted, and any gap in it anchored by a pin |
| `Custody.AuthorizedMeansCustody` | src/boltzmann/authenticity/authenticator.py:298-325 | An unpinned authorized report: the chain ends at a genesis carrying a trust root, authority is in force at every position, and each revision, the head included, was signed by a quorum of distinct, active governors of the revision before it |
| `Custody.AcceptedIsEarned` | src/boltzmann/authenticity/authenticator.py:686-862 | Every accepted verdict that stands has a held record of that key behind it that earned it |
| `Custody.AuthorizedIsEarned` | src/boltzmann/authenticity/authenticator.py:298-325 | An authorized report rests on as many distinct keys as the policy asks, each with a record that earned it, and of a head on fully valid ones unless proposals are allowed |
| `Custody.AuthorizedUnderAPin` | src/boltzmann/authenticity/authenticator.py:1144-1198 | A pinned authorized report: the pinned trust root is on the chain that was read, and every change of authority on it was granted |
| `Handle.Brain.Write` | src/boltzmann/brain.py:2625-2702 | One write leaves exactly the specified state: a refusal while a reconciliation is open, else documents and index payloads first, then one new head over all touched modules, or a failure that leaves the head where it was |
| `Versions.WriteGoesThroughExactly` | src/boltzmann/brain.py:2625-2702 | A write publishes if and only if no reconciliation is open and every module it touches can be read, loses nothing if it is append-only, and is told only of its members that they are gone |
| `Versions.WriteIsExact` | src/boltzmann/brain.py:2625-2702 | The published version continues the head under the same authority; each touched module has what was there or was added and not excluded, and its tombstones are those asked for and the older ones of what remains; every other module is as it was, and all blocks added are held |
| `Handle.Brain.Drop` | src/boltzmann/brain.py:2849-2937 | A drop leaves the specified state and answer; what that specification lets go through, and what then goes, is stated by `DropRules` in the fields of the policy |
| `Handle.Brain.DropByProducer` | src/boltzmann/brain.py:2939-3036 | A drop by producer leaves the specified state and answer, likewise characterised by `DropRules` |
| `DropRules.DropPublishesExactly` | src/boltzmann/brain.py:2849-2937 | A drop publishes if and only if the blocks are members of an installed module, everything can be read, no reconciliation is open, the policy lets go of every module that would lose something, and no more follows than may go unreviewed |
| `DropRules.PublishedDropsArePermitted` | src/boltzmann/retention/policy.py:66-106 | A module that holds less after a published drop is one the policy lists, is not the episodic one, dropping is among its mechanisms, and for canonical evidence the express leave was given |
| `DropRules.PublishedDropsAreReviewed` | src/boltzmann/retention/policy.py:108-118 | Every block named goes, and those that go besides, over all modules, are no more than may go unreviewed |
| `DropRules.DropIsExact` | src/boltzmann/brain.py:2901-2931 | A drop that is written takes out of each module exactly what it was to take, and adds nothing but the records of it |
| `DropRules.NothingLeftPointsAtWhatWent` | src/boltzmann/retention/cascade.py:90-166 | After a published drop no readable block is left in the module it is at home in that points at a block that went |
| `DropRules.NothingLeftIsDerivedFromWhatWent` | src/boltzmann/retention/cascade.py:90-166 | And none is left, in the first module that held it, that readable records derive from a named block, however indirectly |
| `DropRules.WhateverWentHungOnWhatWasNamed` | src/boltzmann/retention/cascade.py:90-166 | Whatever went besides is joined to a named block by a trail of derivations and references |
| `DropRules.ProducerDropPublishesExactly` | src/boltzmann/brain.py:2939-3036 | A drop by producer publishes, finds nothing, or is held for review, each exactly under its condition |
| `DropRules.ProducerDropsArePermitted` | src/boltzmann/retention/policy.py:66-106 | All that was found goes, and no module loses anything that the policy does not let go of |
| `DropRules.ProducerDropsAreReviewed` | src/boltzmann/retention/policy.py:108-118 | What goes besides what the producer made is no more than may go unreviewed |
| `Handle.Brain.PlanAll` | src/boltzmann/brain.py:2989-2997 | The cascades of all the modules something is dropped from are put together, and their sizes added up |
| `Cascade.ClosureOf` | src/boltzmann/module/ledger.py:147-170 | The level-by-level walk finds exactly the blocks that readable derivation records lead to from a block, and not the block itself |
| `Cascade.FollowingOf` | src/boltzmann/retention/cascade.py:131-143 | The level-by-level walk over references finds exactly what leads to what is going already and is neither that nor the block dropped |
| `Cascade.PlanOne` | src/boltzmann/retention/cascade.py:90-166 | The dependents of a block, by module: what was derived from it, under the first module that holds it, and what refers to any of it |
| `Cascade.PlanMany` | src/boltzmann/retention/cascade.py:168-216 | The dependents of several blocks are those of each, less the blocks that go anyway, with no module listed for nothing |
| `Cascade.DerivedBlocksFollow` | src/boltzmann/module/ledger.py:86-170 | Along any chain of readable derivation records, the last block is in the cascade of the first, under the first module that holds it |
| `Cascade.PointingBlocksFollow` | src/boltzmann/retention/cascade.py:131-166 | A readable block that points at one that goes is in the cascade too |
| `Cascade.NothingElseFollows` | src/boltzmann/retention/cascade.py:64-166 | Nothing is in a cascade that no trail of derivations and references joins to a block that was named |
| `Cascade.CascadesSpareRecordsExactly` | src/boltzmann/retention/cascade.py:90-166 | No cascade at all reaches provenance if and only if no readable derivation record gives a block that only provenance holds as derived from another one |
| `Handle.Brain.Keep` | src/boltzmann/authenticity/record.py:172-205 | A signature record is kept blob first, name second; once only, in address order, at most 512 to a snapshot |
| `Handle.Brain.Rotate` | src/boltzmann/brain.py:1689-1800 | A rotation prepares, counts the quorum, keeps the records and only then moves the head; any refusal before that changes nothing |
| `RotationRules.RotationGoesThroughExactly` | src/boltzmann/brain.py:1689-1800 | Over a governed head that is held, a rotation goes through if and only if no reconciliation is open, the proposal follows the head, every record brought covers it, as many distinct keys that may govern as the head asks for have signed among what was brought, and what is new fits under the cap; the proposed document is then the head |
| `RotationRules.CollectedExactly` | src/boltzmann/brain.py:1756-1769 | What is collected has the same records as what was brought, each address once |
| `RotationRules.AllKeptExactly` | src/boltzmann/authenticity/record.py:172-205 | Records are all kept if and only if nothing among them is new or there is room for all that is, and then exactly their addresses are added |
| `Handle.StoreBlocks` | src/boltzmann/brain.py:2672-2675 | The blocks of a module are stored one by one, and their addresses collected |
| `Rotation.ArrivalOrderIsForgotten` | src/boltzmann/authenticity/record.py:130-205 | Two records kept in either order leave the same pointer |
| `Rotation.KeepingIsIdempotent` | src/boltzmann/authenticity/record.py:172-205 | Keeping a record twice changes nothing the second time |
| `RemovalAgreement.WrittenSucceeds` | src/boltzmann/brain.py:2625-2702 | A write either publishes a successor of the head with the derived members persisted, or leaves the head; documents are only added |
| `RemovalAgreement.WriteIsAcceptedExactly` | src/boltzmann/brain.py:2672-2702 | A written version passes the removal check, then and in any larger store, if and only if each block it was told to exclude, and that was there, is on record in the provenance it was left with |
| `RemovalAgreement.DropIsAcceptedExactly` | src/boltzmann/brain.py:2901-2931 | A drop passes the removal check, then and in any larger store, if and only if each block it takes out is named by a record it writes and does not itself drop, or by an older one it leaves in place |
| `RemovalAgreement.PlainDropsAreAccounted` | src/boltzmann/brain.py:2901-2931 | Where a block can only name addresses known before its own, a drop that leaves provenance alone, or takes from provenance alone, always meets that condition |
| `RemovalAgreement.DropCanTakeItsRecordAlong` | src/boltzmann/brain.py:2871-2937 | A concrete brain in which a drop, by the cascade it works out itself, is authorized and written and its version then fails the removal check |
| `GovernanceAgreement.GenesisIsGoverned` | src/boltzmann/brain.py:598-680 | A founding snapshot that carries a trust root begins a governed history |
| `GovernanceAgreement.RotationIsCounted` | src/boltzmann/brain.py:1771-1791 | The quorum a rotation was gated on is met by the records found later over what it committed |
| `GovernanceAgreement.RotationSettlesExactly` | src/boltzmann/brain.py:1689-1800 | A rotation that goes through leaves a settled head, and a governed brain, if and only if what it committed copies the modules and raises the revision, or changes no key list |
| `GovernanceAgreement.RotationIsFaultlessExactly` | src/boltzmann/brain.py:1689-1800 | The verifier's report on the head a rotation leaves carries no governance fault if and only if what it committed was so, or no record is held for it; the second takes a quorum of zero |
| `GovernanceAgreement.GraftedPlanIsFaulted` | src/boltzmann/brain.py:1740-1800 | A concrete planned revision that also installs a module: the quorum agrees, the head moves, and the report on it carries a fault |
| `GovernanceAgreement.FreshRevisionsAreUnaltered` | src/boltzmann/brain.py:1572-1606 | What a rotation builds or plans is such a revision, and planning then rotating commits the same one |
| `GovernanceAgreement.GovernedHeadsAreFaultless` | src/boltzmann/authenticity/authenticator.py:881-1098 | The report on the head of such a brain carries no quorum failure, changed content or regressed revision, at the head or behind it |
| `WriterRuns.RunIsAcceptedExactly` | src/boltzmann/brain.py:1689-3036 | Over any run of writes, drops, drops by producer, rotations and records kept, a published version passes the removal check against the head it was published over, in the store the run ends with, if and only if its act recorded what it took out |
| `WriterRuns.RunIsAccepted` | src/boltzmann/brain.py:1689-3036 | So it passes whenever its act excluded nothing, dropped without reaching provenance from another module, or rotated over the modules it found |
| `WriterRuns.SparingDropsArePlain` | src/boltzmann/brain.py:2871-3036 | Where no readable derivation record gives a record of provenance as derived, every drop that names no provenance is such an act |
| `WriterRuns.UnaccountedDropsRepeatARecord` | src/boltzmann/brain.py:2871-3036 | A drop that names no provenance and does not account for what it takes writes a removal record that provenance held before it and that a readable derivation record gives as derived |
| `WriterRuns.RunStaysGoverned` | src/boltzmann/brain.py:1689-3036 | Any such run whose rotations commit unaltered plans leaves a history held and settled down to its genesis |
| `WriterRuns.RunsAreFaultless` | src/boltzmann/authenticity/authenticator.py:881-1098 | Writer and verifier agree over whole runs: from a governed brain no such run makes a report on the head carry a governance fault |
| `Histories.ReachableFrom` | src/boltzmann/brain.py:841-853 | The worklist collects exactly the snapshots that some path of held parents leads to |
| `Histories.ContainsExactly` | src/boltzmann/brain.py:841-853 | A history contains what some line of held snapshots, each naming the next as any of its parents, leads to |
| `Retention.RetainedIsRetention` | src/boltzmann/brain.py:749-766 | The retained list has no repeats, starts with the new head, contains every branch head and at most the bound of anything else |
| `Retention.OnlyTheBoundForgets` | src/boltzmann/brain.py:757-765 | A recent snapshot is left out only when as many others as the bound allows are kept besides the branch heads |
| `Retention.OldestGoFirst` | src/boltzmann/brain.py:757-765 | Whatever is kept beside the branch heads is more recent than anything left out |
| `Retention.RootsAreKept` | src/boltzmann/retention/reachability.py:29-88 | Everything a root needs, and the records that cover it, is marked; `NeedsAreItsParts` says what that is |
| `Retention.NeedsSurvive` | src/boltzmann/retention/reachability.py:29-142 | A sweep that keeps what a snapshot needs leaves it needing exactly the same |
| `Retention.KeptExactly` | src/boltzmann/retention/reachability.py:29-142 | What a prune keeps, said of documents: a tag's, a root, a parent of one, a composition or index it names, a block of such a composition, the content of such a block, and the records over any of these with the blob they share |
| `Retention.ModulePartsExactly` | src/boltzmann/retention/reachability.py:63-88 | What a module reference needs is its composition and index documents, the blocks that composition lists and the content those blocks name |
| `BranchPointers.StepRefines` | src/boltzmann/brain.py:749-1052 | Each single pointer write, repair and crash does to the branches a reader sees what its operation is for, or nothing |
| `BranchPointers.RepairIsInvisible` | src/boltzmann/brain.py:772-791 | Repairing a table that was found mid-checkout changes nothing a reader sees |
| `BranchPointers.HeadWriteRetains` | src/boltzmann/brain.py:749-768 | Every write of the head leaves the retained set as it should be |
| `BranchRuns.CheckoutIsCrashSafe` | src/boltzmann/brain.py:984-1014 | Stopped after any of its three pointer writes and then repaired, a checkout leaves every branch with the head it had and the old or the new branch current |
| `BranchRuns.CheckoutCarriesOrigins` | src/boltzmann/brain.py:984-1014 | A checkout records the snapshot and origin of the branch it leaves, takes both from the one it goes to, and leaves every other branch as it was |
| `BranchRuns.ThereAndBack` | src/boltzmann/brain.py:984-1014 | Going to a branch and back leaves the same branch current, at the snapshot and with the origin the head had |
| `BranchRuns.UnrepairedCommitIsFaithfulExactly` | src/boltzmann/brain.py:772-791 | A commit over an unrepaired checkout lands on the current branch if and only if it does not change which way the repair goes |
| `BranchRuns.RunRefines` | src/boltzmann/brain.py:749-1052 | Over any run of pointer writes and crashes, every step refines its operation |
| `BranchRuns.EveryHeadWriteRetains` | src/boltzmann/brain.py:749-768 | In every run each head write satisfies the retention rule for the refs of that moment, and other steps leave the head alone |
| `BranchRuns.RunStaysSafe` | src/boltzmann/brain.py:926-1052 | In every state of every run, crashes and prunes included, each branch has a head that can be read |
| `BranchRuns.RunKeepsRoots` | src/boltzmann/brain.py:3117-3162 | For as long as a snapshot stays retained or stays a branch head, no document, composition, block, named content or signature record it had is reclaimed |
| `BranchRuns.RunKeepsContents` | src/boltzmann/retention/reachability.py:29-142 | Said of documents: while a snapshot stays retained or a branch head, its own document and its parents', its compositions and indices, the blocks they list and the content those name stay exactly as they are |
| `BranchRuns.RootKeepsItsOwn` | src/boltzmann/authenticity/record.py:227-255 | One prune keeps, for every root, what it needs and the records covering it |
| `BranchRuns.FirstHeadIsConsistent` | src/boltzmann/brain.py:749-768 | The first write of a head, on a disk without pointers, starts a consistent system in which the default branch has that head |
| `BranchRuns.FirstHeadIsSafe` | src/boltzmann/brain.py:749-768 | With its document held, the world this starts is one from which every run stays safe |
| `BranchBrain.Bound` | src/boltzmann/brain.py:757-765 | The retained list as the loop builds it |
| `BranchBrain.Brain.WriteHead` | src/boltzmann/brain.py:749-768 | The new head comes with a bounded list of recent roots, and no branch is missing from that list |
| `BranchBrain.Brain.ReadRefs` | src/boltzmann/brain.py:772-791 | An interrupted checkout is finished when the head already names its target and abandoned otherwise |
| `BranchBrain.Brain.CreateBranch` | src/boltzmann/brain.py:926-982 | A branch is created if and only if the name is legal and free and its start is held; it is retained at once and no other branch changes |
| `BranchBrain.Brain.Checkout` | src/boltzmann/brain.py:984-1014 | A checkout succeeds if and only if no reconciliation is open and the branch exists, and changes only which one is current |
| `BranchBrain.Brain.DeleteBranch` | src/boltzmann/brain.py:1037-1074 | A branch is deleted if and only if it exists, is not current and, unless forced, is contained in another branch or in what it was published as |
| `BranchBrain.DeletionLosesNothing` | src/boltzmann/brain.py:1053-1069 | All history of a branch deleted unforced is still reachable from another name |
| `BranchBrain.Brain.Join` | src/boltzmann/brain.py:1076-1128 | No join goes ahead over an open reconciliation; without one it is up to date, a fast-forward or diverged exactly by containment, moves only the current branch, to the other head and with the origin it was given, and hands a divergence on only with a strategy to record it by |
| `BranchBrain.ForwardingKeepsHistory` | src/boltzmann/brain.py:1113-1121 | A fast-forward drops nothing from the branch |
| `BranchBrain.Brain.Prune` | src/boltzmann/brain.py:3117-3162 | A prune deletes exactly what is neither a tag's, nor part of a root, nor a record over what stays, and deletes nothing when something present cannot be read; the parts of a root are told one by one, down to blocks and the content they name |
| `CatalogState.CatalogState.AddBlock` | src/boltzmann/catalog_state.py:28-56 | Adding a block keeps both hierarchy dictionaries, the projection and every memo right, the early returns that skip the clearing included |
| `CatalogState.CatalogState.PruneDangling` | src/boltzmann/catalog_state.py:58-75 | Exactly what hangs between declared classes stays |
| `CatalogState.CatalogState.Reachable` | src/boltzmann/catalog_state.py:77-86 | The worklist answers whether a class lies at or below another |
| `CatalogState.CatalogState.SourcesFor` | src/boltzmann/catalog_state.py:96-109 | Memo or walk, the answer is the sources of the descendant closure computed from scratch |
| `CatalogValidation.Problems` | src/boltzmann/catalog_models.py:72-237 | Each of the four rules, over the dictionaries, gives the problem the catalog calls for |
| `CatalogValidation.LoadState` | src/boltzmann/catalog_state.py:112-130 | Loading adds the blocks in order and prunes |
| `CatalogValidation.ValidateDeclarations` | src/boltzmann/catalog_validation.py:52-89 | A batch is judged sequentially, each declaration seeing those accepted before it |
| `CatalogSoundness.NewEdgeIsAcyclic` | src/boltzmann/catalog_models.py:161-177 | An edge joins an acyclic hierarchy without a cycle if and only if its child does not already lead to its parent |
| `CatalogSoundness.RulesAreExact` | src/boltzmann/catalog_models.py:72-237 | Over a sound catalog no lookup fails, and a declaration is accepted if and only if it is new, its source canonical, and the catalog stays sound |
| `CatalogVerdicts.ProblemsExactly` | src/boltzmann/catalog_models.py:60-237 | A declaration is turned down for the one cause there is, with its code and exactly the blocks that stand against it, and for none otherwise |
| `CatalogVerdicts.VerdictExactly` | src/boltzmann/catalog_validation.py:52-89 | It is contradicted for a scheme declared the other way or an exclusive placement, rejected for any other cause, and validated for none |
| `CatalogVerdicts.AcceptedIsSaid` | src/boltzmann/catalog_state.py:28-56 | An accepted declaration leaves the catalog saying what it declares, and changes nothing else |
| `CatalogVerdicts.BatchExactly` | src/boltzmann/catalog_validation.py:52-89 | A batch gives each declaration the verdict it has over the catalog as it stood before it, and reports the blocks and placements of exactly those validated, in order |
| `CatalogSoundness.ValidationKeepsSoundness` | src/boltzmann/catalog_validation.py:52-89 | Every request leaves a sound catalog sound: acyclic, within one scheme, exclusive, without a failed lookup |
| `CatalogSoundness.CatalogsFromNothingAreSound` | src/boltzmann/catalog_validation.py:52-89 | A catalog built from nothing by any requests is sound, and none of them hits a failed lookup |
| `CatalogSoundness.LookupFailsExactly` | src/boltzmann/catalog_models.py:199-219 | The one lookup that can fail does so if and only if a placement names a class whose scheme is not declared |
| `CatalogSoundness.DroppedSchemeFailsTheLookup` | src/boltzmann/catalog_models.py:199-219 | A concrete catalog with a class and no scheme, where a placement fails on the lookup |
| `CatalogReload.OrderIsIrrelevantExactly` | src/boltzmann/catalog_state.py:112-130 | Every reordering of a list of blocks loads the same catalog if and only if no two blocks of the list compete for a scheme or for a slot of a declared class |
| `CatalogBatch.BatchIsValidation` | src/boltzmann/catalog_validation.py:52-89 | The steps compared are those the batch reports: same verdicts, same final catalog |
| `CatalogBatch.ReloadAgreesExactly` | src/boltzmann/catalog_state.py:28-130 | After one accepted declaration the reloaded catalog is the one in memory if and only if the block is not hidden and revives no dangling edge |
| `CatalogBatch.BatchEqualsSinglesExactly` | src/boltzmann/catalog_validation.py:52-89 | A batch agrees with its declarations one by one, reloading in between, if and only if every accepted block is clean in that sense |
| `CatalogBatch.SoundModulesAreClean` | src/boltzmann/catalog_validation.py:52-89 | Without dangling edges and hidden redeclarations every batch equals its singles |
| `CatalogBatch.RevivedEdgeTellsThemApart` | src/boltzmann/catalog_state.py:58-75 | A concrete module where a redeclared class brings back an old edge on reload and not in memory |
| `CatalogView.Browse` | src/boltzmann/catalog.py:65-72 | Browsing yields a node for each selected class and the sources below every one of them, all placed sources for none, and an error for an undeclared class |
| `CatalogView.NodeFor` | src/boltzmann/catalog.py:74-89 | A node shows the class's scheme and label, exactly its neighbours in the hierarchy, what is placed in it directly and what lies below it |
| `CatalogView.ResolvedExactly` | src/boltzmann/catalog.py:132-136 | A path resolves if and only if each segment is the label of a declared class in the scheme of its place, and to those classes in order |
| `CatalogView.ResolveParts` | src/boltzmann/catalog.py:132-136 | A path resolves to the classes its segments name, one scheme each |
| `CatalogView.IterDir` | src/boltzmann/catalog.py:111-124 | A label is listed if and only if browsing the extended path finds something; at full length the sources are listed |
| `Merging.ReconciledModules` | src/boltzmann/reconcile/merge.py:163-185 | The loop joins every module either side holds |
| `Merging.MergeIsThreeWay` | src/boltzmann/reconcile/merge.py:72-160 | Equation 1: a block is in the result if and only if both sides hold it, or one side added it |
| `Merging.JoinedExactly` | src/boltzmann/reconcile/merge.py:72-160 | Nothing held by neither side is joined; a module of one side alone is taken as it is; and what a join says was removed, came in, or was adopted is so exactly |
| `Merging.MergeIsSymmetric` | src/boltzmann/reconcile/merge.py:72-160 | Which side is called ours decides nothing about the membership |
| `Merging.UnchangedSideYields` | src/boltzmann/reconcile/merge.py:72-160 | A side that changed nothing leaves the other one as it is |
| `Merging.MergeAllIs` | src/boltzmann/reconcile/merge.py:72-185 | Exactly the modules either side names are joined, and joining fails if and only if an episode was dropped |
| `Replay.Reconciler.Conclude` | src/boltzmann/brain.py:3655-3747 | Nothing is open any more and, unless there is taken to be nothing to do, the specified versions are published one after another up to the first fault or the first block that is not held; none has a second parent unless it is a merge with lineage to record, and such a merge, if it goes through, publishes exactly one version and that has it |
| `Replay.Reconciler.WriteAll` | src/boltzmann/brain.py:3685-3733 | The loop, which carries authored records, recorded cascades and open questions along, writes what the recursive replay says |
| `Replay.OnlyMergesRecordLineage` | src/boltzmann/reconcile/strategies.py:100-114 | A rebase, a squash, and any strategy without history to record publish no second parent; a merge that goes through publishes exactly one version, with it |
| `Replay.Reconciler.WriteReconciliation` | src/boltzmann/brain.py:4252-4292 | Records are stored first, and the head moves if and only if every named block is held |
| `Conclusion.EverythingLands` | src/boltzmann/brain.py:4257-4266 | When the blocks of both sides are held, the check for absent blocks stops no version |
| `Conclusion.StoppingEarlyIsRightExactly` | src/boltzmann/brain.py:3749-3765 | Writing nothing is what writing would have come to if and only if no decision admitted a block the gate had turned away and provenance holds every record there is to write |
| `Conclusion.AdmittedBlockIsForgotten` | src/boltzmann/brain.py:3749-3765 | A concrete plan with the other head at the ancestor, and a module whose own composition is missing here, where an admitted block makes the difference and nothing is written |
| `Strategies.MergeEqualsSquashExactly` | src/boltzmann/brain.py:3679-3733 | Merge and squash fail alike, and end with the same membership in every module but provenance if and only if no history is recorded or the version joined, or this brain, names every module of the head |
| `Strategies.HeadIsJoinedExactly` | src/boltzmann/reconcile/strategies.py:74-97 | A strategy joins the other head last if and only if that head can be reopened, or nothing of its history can |
| `Strategies.OlderVersionStandsIn` | src/boltzmann/reconcile/strategies.py:74-97 | A concrete head of which one module did not arrive: the merge records it as a parent and joins the version before it |
| `Strategies.RebaseEqualsSquashExactly` | src/boltzmann/brain.py:3679-3747 | A rebase goes through and ends as a squash does if and only if the squash goes through, no replayed version dropped an episode, and none held a module that neither head names |
| `Strategies.DroppedModuleTellsThemApart` | src/boltzmann/reconcile/strategies.py:74-97 | A concrete chain whose earlier version held a module the head dropped: the rebase keeps it, the squash never had it |
| `Bookkeeping.ReplayStaysOnRecord` | src/boltzmann/brain.py:3685-3733 | In every version each block cascaded so far is named, under its module, by a removal record of that version, and no authored record drops out |
| `Bookkeeping.PrecedenceSettlesOnce` | src/boltzmann/brain.py:3719-3731 | Each precedence record lands exactly once, in the first version in which both the block that stays and the one it replaces are members of some module, or in the last |
| `Bookkeeping.ProvenanceIsJoined` | src/boltzmann/brain.py:4252-4285 | Provenance ends as Equation 1 has it, less refused and cascaded, plus only records this reconciliation authored |
| `Bookkeeping.ReconciliationKeepsItsBooks` | src/boltzmann/brain.py:3679-3747 | All of it, for one reconciliation from its start, under any strategy |
| `ReconciliationAgreement.ReplayIsOnRecord` | src/boltzmann/brain.py:3694-3733 | If each version of the other history accounts for what it removed, every block a replayed version lets go of is named, under its module, by a removal record in that version's provenance |
| `ReconciliationAgreement.ReconciliationIsAccepted` | src/boltzmann/authenticity/removals.py:57-153 | So every version a reconciliation writes, by any strategy, passes the removal check against the version before it |
| `SharedTag.IsFastForward` | src/boltzmann/brain.py:5541-5572 | An unforced push goes on if and only if nothing is published or what is published is in this history |
| `SharedTag.ConfirmPublish` | src/boltzmann/brain.py:5574-5612 | The tag is re-read up to three times; the first answer that is the publish, or is not contained, settles it |
| `SharedTag.LostMeansUnseenWrite` | src/boltzmann/brain.py:5574-5604 | A publish is reported lost only when there is a write its check had not seen, another client's or an earlier one of its own |
| `SharedTag.LostMeansAnotherClient` | src/boltzmann/brain.py:5459-5604 | When checks see the client's own writes, a publish is reported lost only if another client wrote in between |
| `SharedTag.TagHistoryOnlyGrows` | src/boltzmann/brain.py:5419-5572 | With no write between a push's check and its write, everything ever reachable from the tag stays reachable |
| `SharedTag.UnserializedPushesLose` | src/boltzmann/brain.py:5574-5581 | A concrete run: two checks before two writes lose one of them |
| `Branches.NameIsWellSegmented` | src/boltzmann/branches.py:27-57 | The recogniser accepts exactly the non-empty segments joined by slashes |
| `Branches.ValidNamesExactly` | src/boltzmann/branches.py:27-57 | A name is valid if and only if it is so segmented and, behind the prefix, short enough for a tag of 128 characters |
| `Branches.BranchTagsAreLegal` | src/boltzmann/branches.py:60-78 | Every branch tag produced is a legal OCI tag of at most 128 characters |
| `Branches.NameComesBack` | src/boltzmann/branches.py:60-104 | A valid name comes back from its tag if and only if it is the default branch or its tag does not collide with the default tag |
| `Branches.HiddenBehindTheDefaultTag` | src/boltzmann/branches.py:60-104 | A concrete default tag that hides a branch |
| `Branches.TagComesBack` | src/boltzmann/branches.py:81-104 | A tag that names a branch is the tag of that branch |
| `Branches.TagsAreDistinct` | src/boltzmann/branches.py:60-78 | Two branches share a tag only where the default tag is involved |
| `Wire.WireReader.Fixed` | src/boltzmann/authenticity/wire.py:92-111 | A fixed read consumes exactly its bytes, or fails and consumes nothing |
| `Wire.WireReader.Uint32` | src/boltzmann/authenticity/wire.py:113-123 | A big-endian integer is read from four bytes |
| `Wire.WireReader.String` | src/boltzmann/authenticity/wire.py:125-144 | A framed string of at most the cap is read and the rest left |
| `Wire.WireReader.Finish` | src/boltzmann/authenticity/wire.py:146-154 | The reader finishes if and only if nothing is left |
| `Wire.BigEndianIsInjective` | src/boltzmann/authenticity/wire.py:30-45 | Four bytes are the encoding of the number they decode to |
| `Wire.StringRoundTrip` | src/boltzmann/authenticity/wire.py:48-58 | A framed string within the cap reads back, whatever follows it |
| `Wire.StringReadIsFramed` | src/boltzmann/authenticity/wire.py:125-144 | What was read was framed that way |
| `Wire.FramedStringsAreUnambiguous` | src/boltzmann/authenticity/wire.py:48-58 | Equal framings carry equal strings and equal rests |
| `Keys.Construct` | src/boltzmann/authenticity/keys.py:99-122 | A key is constructed if and only if its blob is well formed for its type |
| `Keys.WellFormedExactly` | src/boltzmann/authenticity/keys.py:99-122 | A key is well formed if and only if its blob is some framed strings, its type first, and 32 bytes second for an Ed25519 key |
| `Keys.FromBlob` | src/boltzmann/authenticity/keys.py:126-146 | A blob decodes to the key it is, if it is one |
| `Keys.AsciiRoundTrip` | src/boltzmann/authenticity/keys.py:99-146 | Decoding ASCII bytes and encoding them again gives the bytes, and encoding a name and decoding it gives the name if and only if it is ASCII |
| `Keys.KeyRoundTrip` | src/boltzmann/authenticity/keys.py:99-146 | A key decodes from its own blob if and only if it is well formed and its type is ASCII |
| `Keys.ParseSignature` | src/boltzmann/authenticity/keys.py:305-326 | A framed signature splits into algorithm and raw bytes with nothing behind them |
| `Keys.SignatureRoundTrip` | src/boltzmann/authenticity/keys.py:288-326 | Splitting yields a signature if and only if framing it yields the blob |
| `Mpints.MpintIsCanonical` | src/boltzmann/authenticity/keys.py:64-76 | A byte string is accepted as a positive mpint if and only if it is the one encoding of its number |
| `Mpints.BitsMeasure` | src/boltzmann/authenticity/keys.py:251-253 | The bit length exceeds k if and only if the number is at least the k-th power of two |
| `Mpints.ReadRsaNumbers` | src/boltzmann/authenticity/keys.py:243-247 | The exponent and modulus of an RSA blob are read when both are canonical and nothing follows |
| `Mpints.RsaNumbersExactly` | src/boltzmann/authenticity/keys.py:243-247 | Two numbers are read off a blob if and only if it is a name and the one encoding of each, framed, with nothing behind |
| `Mpints.RequireSecurityFloor` | src/boltzmann/authenticity/keys.py:228-253 | DSA is refused, RSA needs an odd exponent of at least 3 and a modulus of 3072 bits, other types pass |
| `Mpints.FloorExactly` | src/boltzmann/authenticity/keys.py:228-253 | An RSA blob clears the floor, or is too weak, exactly by its numbers: an odd exponent of at least 3, and a modulus of at least or less than the least number of 3072 bits |
| `SshSig.Decode` | src/boltzmann/authenticity/sshsig.py:140-191 | The reader-based decoder accepts what the grammar accepts, and yields it |
| `SshSig.BlobRoundTrip` | src/boltzmann/authenticity/sshsig.py:122-191 | A blob decodes to a signature if and only if the signature is acceptable and encodes to that blob |
| `SshSig.TrailingBytesAreRefused` | src/boltzmann/authenticity/sshsig.py:140-191 | An accepted blob with anything behind it is refused |
| `SshSig.SignedDataExactly` | src/boltzmann/authenticity/sshsig.py:297-325 | Data can be signed if and only if the namespace is not empty, the algorithm is one of two and all parts can be framed; it is the preamble and the framed namespace, empty string, algorithm and message hash |
| `Utf8.Utf8Exactly` | src/boltzmann/authenticity/sshsig.py:165-175 | A namespace is accepted as text if and only if its bytes are what some characters encode to |
| `SshSig.SignedDataIsUnambiguous` | src/boltzmann/authenticity/sshsig.py:297-325 | Equal signed data force equal namespace, algorithm and message hash |
| `Armor.Base64RoundTrip` | src/boltzmann/authenticity/sshsig.py:226-273 | Decoding undoes encoding, padding included |
| `Armor.DecodedExactly` | src/boltzmann/authenticity/sshsig.py:262-273 | A text decodes if and only if it is symbols and at most two characters of padding behind them, in groups of four, and to three bytes for each group less the padding |
| `Armor.CondensedExactly` | src/boltzmann/authenticity/sshsig.py:262-273 | White space is taken out wherever it stands, and nothing else is |
| `Armor.DearmoredExactly` | src/boltzmann/authenticity/sshsig.py:243-273 | What comes out of an armor is what stands between its beginning and the first end, condensed and decoded |
| `Armor.ArmorRoundTrip` | src/boltzmann/authenticity/sshsig.py:226-273 | Armor comes off again for every positive wrap within the size cap |
| `Point.DecodePoint` | src/boltzmann/authenticity/backend.py:31-54 | Decompression as it runs, step by step |
| `Point.DecompressionIsSound` | src/boltzmann/authenticity/backend.py:31-54 | An accepted encoding gives a reduced point on the curve that encodes back to the same bytes |
| `Point.DecompressionIsInjective` | src/boltzmann/authenticity/backend.py:31-54 | Two accepted encodings of one point are the same bytes |
| `PointExact.DecompressionIsComplete` | src/boltzmann/authenticity/backend.py:31-54 | Every point of the curve is accepted from its encoding |
| `PointExact.DecompressionIsExact` | src/boltzmann/authenticity/backend.py:31-54 | A byte string decompresses to a point if and only if the point is on the curve and the string is its encoding |
| `PointDoubling.HasSmallOrder` | src/boltzmann/authenticity/backend.py:68-72 | The small-order test asks whether eight times the point, summed by the addition law of the curve, is the identity |
| `PointDoubling.DoublingIsAddition` | src/boltzmann/authenticity/backend.py:57-65 | Doubling is adding a point to itself by the addition law |
| `PointDoubling.ThreeDoublingsAreEightTimes` | src/boltzmann/authenticity/backend.py:68-72 | Doubling three times gives eight times the point |
| `PointDoubling.IdentityIsNeutral` | src/boltzmann/authenticity/backend.py:68-72 | The point the test compares with is the neutral element of the addition law |
| `PointDoubling.DoublingStaysOnTheCurve` | src/boltzmann/authenticity/backend.py:57-65 | Doubling a point of the curve gives one, wherever its denominators do not vanish |
| `PointDoubling.DoublingHasNoExceptions` | src/boltzmann/authenticity/backend.py:57-65 | On the curve the denominators of doubling never vanish |
| `PointDoubling.MultiplesStayOnTheCurve` | src/boltzmann/authenticity/backend.py:57-72 | Every multiple the small-order test passes through is a point of the curve |

## Left out

- SHA-256, SHA-512 and the Ed25519 verification equation: uninterpreted.
- Registry transports, the ssh-agent socket, files, locks, logging, sleeps and JSON schemas: plumbing.
- The refusal to publish fewer modules than are published.
- Texts, field names and details of problems, findings and errors: their kinds and the blocks they name are modelled.
- Time stamps and every other field no rule reads: one number per document stands for them.
- How an index is built: the payload a travelling index comes to is an input, and its document is stored and named.
- Crash safety inside pull, whose two-step switch compares the head with a snapshot that moves underneath it.
- Origins of branches across an interrupted checkout: two origins can swap when both heads are equal, so only heads are claimed there, and origins of checkouts that finish.
- Gate verdicts, the cascade of a reconciliation, common-ancestor search and the recording of decisions: inputs of the replay.
- Tombstones and travelling indices of reconciled modules, and the snapshots a merge retains besides its own.
- The grammar of actor identifiers: whether a subject is one is an input of `TrustRoots.Validate`.
- Redaction, supersession and demotion as operations: they reach the model as writes that exclude nothing.
- Percent-decoding and splitting of catalog paths, and the sorted order of listings.
- Report-level monotonicity: removal gaps and pinned truncation are deliberately not blocking, so only the verdict on a record is monotone.
- Revision order and unchanged content behind the head: the verifier asks for them at the head only.
- Parsing of authorized-key lines and fingerprints: more than one spelling is accepted.
- Authenticator.Authenticate: the report has no comparison of claimed actors with the subjects of signing keys, and does not carry the separate result of verifying content; neither can block it.
- BranchBrain.Brain.Join: a divergence is handed on with its strategy; what the reconciliation then writes is `Replay.Reconciler.Conclude`, over that module's own state.
- Replay.Reconciler.Conclude: a published version is the roots of its modules and whether it has a second parent, not a snapshot document with an address.
- Replay.Reconciler.WriteReconciliation: tombstones and index payloads of the reconciled modules are not written.
- Handle.Brain.DropByProducer: which blocks a producer made is an input, not read off the records that name producers.
- ReconciliationAgreement.ReconciliationIsAccepted: a head that names a module whose composition is missing here and held by the other side is left out, since its losses cannot be read.
- Histories.ReachableFrom: a resolvable document that is no snapshot counts as one without parents, where the program would raise.
- Scopes.CollectAdded: the order in which unreadable blocks are met is not fixed.
- SharedTag.TagHistoryOnlyGrows: forced pushes are not part of the runs.
