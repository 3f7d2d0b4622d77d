# Snapshot engine, provenance verifier and read model: verified models

Reeg keeps the environment of an agent as checkpoints. A Rust engine captures a working directory into a
content-addressed store, packs it into one bundle and restores it anywhere. A Move package pins each checkpoint on chain
and chains every change of a machine into one 32-byte provenance head. A TypeScript verifier rebuilds that history from
chain events alone and checks it, live or from a portable evidence file. An indexer folds the same events into a display
model. This project models those parts in Dafny and proves what they promise together.

Main results:

- **A bundle gives back what was packed** (`Unpacking.PackAndUnpack`, `Unpacking.PackThenUnpack`): names, bytes, permission
  bits and link targets of both trees, at any depth, with the same manifest. Whatever else two bundles carry, the same
  manifest means the same trees (`Unpacking.SameManifestSameTrees`), and packing is deterministic.
- **Concurrent puts are safe exactly when no two writers share a digest that is not stored yet**
  (`CasSteps.SafeExactly`), over every interleaving, with stops at any step.
- **What a restore writes, on any disk** (`Restore.RestoreTree`): system calls follow the links they meet. It stays inside
  its destination, whatever the objects say, if no link lies on the way there or inside (`Confinement.RestoreConfined`),
  and does not if a path inside leads a write out (`Confinement.WayOut`). An unpack into two new or empty destinations
  stays inside exactly when neither lies on the other (`UnpackConfinement.ConfinedExactly`).
- **Drift is exact** (`Drift.CheckDrift`, `Drift.DiffComplete`): it lists exactly the paths at which two trees part, in
  order, each with the right tag, and the one thing it cannot name is the mode of a directory. A printed line stands for
  one difference (`DriftLines.LinesExact`).
- **One head binds a whole history** (`Provenance.HeadsMeet`, `Verifier.OneHeadOneHistory`), up to the boundary inside
  each entry between manifest hash and payload hash, which no head binds (`Provenance.BoundaryNotBound`), and unless an
  id or a parent head that is not 32 bytes long makes an origin read as an entry (`Verifier.TailAccepted`).
- **A report means what it says** (`Verifier.VerifyMachine`): every check by name, its condition said of the input alone,
  and the verdict exactly their conjunction. The bytes behind it are fixed one by one (`Provenance.ComputeEntryHash`).
- **Only owners act** (`Ownership.OwnersOnly`), and access is what the events say (`Ownership.GrantsFollowEvents`).
- **Every machine of every run verifies** (`ChainVerifies.EveryMachineVerifies`): any calls by anyone, any split into
  pages, forks of forks, parents that go on. **No other history does** (`ChainVerifies.LyingEventsCaught`), with that
  one exception.
- **Anchored evidence is true** (`Anchoring.AnchoredIsTrue`). If it verifies, that holds with the same exception for a
  node that is honest about nothing but one object (`Anchoring.AnchoredLiesCaught`).
- **The read model converges exactly when no two events contradict each other** (`ReadModels.ConvergesExactly`), and a
  chain's events never do (`IndexedChain.IndexShowsTheChain`).

## How it is modelled

- **Hashes.** BLAKE3 and BLAKE2b are a parameter: any function from bytes to 32 bytes. Since no such function is
  injective, conclusions read "this holds, or two different byte strings among those hashed here have the same digest"
  (`Bytes.Collides`). The set named is always the finite set of preimages that the operation really hashed, and the
  proofs find the colliding pair in it.
- **The file system** is a value (`FileTree.Tree`) inside an object that operations change step by step
  (`Disks.Disk`). A path is looked up as the system does it (`Disks.Look`): links are followed wherever they lead, `..` and
  absolute targets included, and the owner permission bits are checked on the way. The store is an object with a mutable
  map of files (`Cas.CasStore`); a ghost field says which objects they are. Where puts interleave, names and open files
  are apart (`CasSteps.Files`), since a writer keeps the file it opened whatever happens to the name.
- **Contracts in plain terms.** Beside the functions that the proofs use, each main operation is described by relations
  that use none of them: texts written out (`Formats`), fields read one by one (`Reading`), trees by paths (`TreePaths`,
  `ByPath`), heads as a chain of hashed layouts (`Provenance`), order as a walk (`Linkage`), events and owners
  (`Ownership`), records (`Displayed`).
- **Recursion on untrusted digests** (restore, compare) takes the depth of stack it has; running out is an error. For a
  captured tree some depth always suffices (`SnapshotTheorems.SomeDepthFits`).
- **The chain** is a step machine of the functions that create, fork, checkpoint, share and retire a machine
  (`Chain.Step`); a call that aborts leaves no trace. **The node** that readers ask is a value with its answers, and
  need not be honest.
- **Objects updated in place** are classes: the store, the disk, the list of checks, the read model and its records.
  Loops are loops, proved against functions whose own properties are then proved.
- Library sorts are modelled by what they return, a stable sort by the comparison the source passes.

## Where the code and its comments differ

- `engine/crates/snapshot/src/cas.rs:36-37` says that two writers of the same bytes cannot corrupt each other. They share
  one temporary name. Any number of writers are safe in every run exactly when those that share a digest put what is
  stored already (`CasSteps.SafeExactly`); from every other start there is a run in which a reader finds an empty object
  and a writer fails (`CasSteps.SharedTemporary`).
- `packages/verify/src/manifest.ts:45-46` takes for granted that no environment key looks like an integer. The two
  encoders agree exactly when no key is `__proto__` and byte order already puts every integer-like key where a
  JavaScript object lists it (`VerifierManifest.EncodersAgree`, `VerifierManifest.EncodersDisagree`).
- `engine/crates/snapshot/src/tree.rs:32-34` says a report that is not clean names the paths that differ. A directory
  whose own mode is all that changed is not clean and names nothing (`Drift.ModeOnlyDrift`).
- `engine/crates/snapshot/src/bundle.rs:64-69` takes any two destinations, and `packages/cli/src/commands/session.ts:268`
  makes them one when the working directory is named `memory`. Where one lies on the other, the first restore can leave a
  link that the second follows out (`UnpackConfinement.ConfinedExactly`).
- `move/sources/access.move:57-58` says that the owner is always present with full rights. The owner is always present;
  a grant that names the owner replaces the rights like any other (`Ownership.OwnerRights`, `Ownership.OwnerDemoted`).
- `apps/indexer/src/read-model.ts:35-39` claims tolerance of order. That holds exactly when no event contradicts another
  (`ReadModels.ConvergesExactly`).

## Model

| member | source | states |
|---|---|---|
| Bytes.ConcatBytes | packages/verify/src/hash.ts:45-54 | filling a sized buffer part by part gives the parts joined in order |
| Bytes.BytesEqual | packages/verify/src/hash.ts:33-43 | true exactly for equal byte strings |
| Bytes.LittleEndianInjective | packages/verify/src/provenance.ts:57-64 | the fixed-width little-endian encodings of numbers in range determine the numbers |
| Bytes.LittleEndianNumber | packages/verify/src/provenance.ts:57-64 | the bytes of a number stand for it, least significant byte first |
| Bytes.HexRoundTrip | engine/crates/snapshot/src/hash.rs:19-30 | decoding the hex text of any bytes gives them back, two digits a byte |
| Bytes.HexWritten | engine/crates/snapshot/src/hash.rs:19-30 | hex text is lower case, the high half of each byte first |
| Bytes.HexRead | packages/verify/src/hash.ts:21-23 | exactly what reads as hex, in either case, and what it reads as |
| Bytes.HexTextRoundTrip | packages/verify/src/hash.ts:17-23 | `fromHex` undoes `toHex` with and without the `0x` in front |
| Bytes.HexTextRead | packages/verify/src/hash.ts:21-23 | one `0x` in front is dropped, and nothing else |
| JsonFields.DigestHexRoundTrip | engine/crates/snapshot/src/hash.rs:19-30 | a digest reads back from its hex text |
| Utf8.DecodeEncode | packages/verify/src/hash.ts:29-31 | decoding the UTF-8 encoding of any text gives it back (section 3 of RFC 3629) |
| Utf8.EncodeDecode | packages/verify/src/hash.ts:29-31 | bytes that decode are the encoding of what they decode to, so each text has one encoding |
| Utf8.EncodeForm | packages/verify/src/hash.ts:29-31 | the bytes of one character, by its base 64 digits |
| Utf8.Utf8PreservesOrder | packages/verify/src/hash.ts:56-72 | the order of UTF-8 bytes is the order of code points (section 1 of RFC 3629) |
| Utf8.ByUtf8Total | packages/verify/src/hash.ts:56-72 | comparing by UTF-8 bytes is a total order on texts |
| Utf8.CompareUtf8 | packages/verify/src/hash.ts:61-72 | the sign of the result is the order of the code points, and zero means equal |
| Utf8.ComparesEqualExactly | packages/verify/src/hash.ts:61-72 | on well-formed UTF-16 the comparison is zero only for equal strings, and exactly when else |
| Utf8.CompareLimits | packages/verify/src/hash.ts:56-60 | strings that compare equal though they differ (a lone surrogate), and two that UTF-16 order sorts the other way |
| Utf8.ComparisonIsByUtf8 | packages/verify/src/manifest.ts:34-41 | sorting by the comparison is sorting by UTF-8 bytes |
| JsonText.JsonTextRoundTrip | engine/crates/snapshot/src/tree.rs:85-87 | every JSON value reads back from its compact text, escapes included (section 7 of RFC 8259) |
| Formats.EscapeWritten | engine/crates/snapshot/src/tree.rs:85-87 | each character of a string as it is written: the five short escapes, the others below U+0020 in lower-case hex (section 7 of RFC 8259) |
| Formats.EscapeRead | engine/crates/snapshot/src/tree.rs:176-179 | each short escape reads as its character, and no other letter is one |
| Formats.UnicodeRead | engine/crates/snapshot/src/tree.rs:176-179 | four hex digits of either case read as the character of that code |
| Decimal.DigitsWritten | packages/verify/src/evidence.ts:84-92 | decimal text has its most significant digit first and no zero in front |
| JsonFields.SortedFieldsRoundTrip | engine/crates/snapshot/src/tree.rs:26-30 | a map written with its keys sorted reads back as the map |
| ManifestFormat.CanonicalBytesDetermine | engine/crates/snapshot/src/manifest.rs:49-84 | two environments have the same canonical bytes exactly when they agree on the package multiset, tool set, redacted variables, memory pointer and root |
| ManifestFormat.CanonicalInjective | engine/crates/snapshot/src/manifest.rs:80-84 | equal canonical bytes mean equal manifests |
| ManifestFormat.JsonRoundTrip | engine/crates/snapshot/src/manifest.rs:35-43 | a manifest reads back from its canonical form |
| ManifestFormat.SecretsRedacted | engine/crates/snapshot/src/manifest.rs:57-68 | after redaction environments agree exactly when their non-secret values do: a secret value leaves no trace |
| Normalisation.SecretExactly | engine/crates/snapshot/src/manifest.rs:94-98 | a key names a secret exactly when one of the five words stands somewhere in it, in any case of each letter |
| Normalisation.NewExactly | engine/crates/snapshot/src/manifest.rs:49-78 | of a new manifest: which values are replaced by the marker and which are kept, packages by name and then version, each tool once in order, pointer and root as given |
| Formats.ManifestWritten | engine/crates/snapshot/src/manifest.rs:80-84 | the canonical bytes written out: six fields in their frozen order, keys in code point order |
| ManifestFormat.NewIdempotent | engine/crates/snapshot/src/manifest.rs:49-78 | normalising a normalised environment changes nothing |
| VerifierManifest.DedupeSorted | packages/verify/src/manifest.ts:73-81 | the pushing loop drops exactly the items equal to the one just kept |
| VerifierManifest.FillEnv | packages/verify/src/manifest.ts:40-43 | filling the fresh object key by key keeps every key but `__proto__` with its value |
| VerifierManifest.CanonicalManifestBytes | packages/verify/src/manifest.ts:33-56 | computes the bytes that the agreement below is about |
| VerifierText.ObjectKeysListed | packages/verify/src/manifest.ts:40-46 | how the object lists its keys: all but `__proto__`, integers up to 2^32 - 2 first and by value, the others by code points |
| VerifierText.VerifierWritten | packages/verify/src/manifest.ts:33-56 | the verifier's bytes written out, in the same frozen text |
| VerifierManifest.EncodersAgree | packages/verify/src/manifest.ts:25-56 | the verifier's bytes equal the engine's, for the same fields in any order, exactly when the environment's keys are plain |
| VerifierManifest.EncodersDisagree | packages/verify/src/manifest.ts:45-46 | two sets of keys that are not plain |
| Cas.CasStore.constructor | engine/crates/snapshot/src/cas.rs:17-21 | a store holds the objects its directory holds, none if it is new |
| Cas.CasStore.Put | engine/crates/snapshot/src/cas.rs:25-42 | the result is the content's digest, a stored object never changes, a new one takes the place of its temporary, and no other file is touched |
| Cas.CasStore.Get | engine/crates/snapshot/src/cas.rs:45-59 | bytes come back only if they hash to the name asked for, else the right error |
| Cas.CasStore.ReadAll | engine/crates/snapshot/src/cas.rs:67-92 | succeeds exactly on a sound store and lists each object once, sorted, never a temporary, whatever order directories are read in |
| Cas.SortEnumerated | engine/crates/snapshot/src/cas.rs:90-91 | the sorted listing is determined by the objects |
| CasSteps.StepSafe | engine/crates/snapshot/src/cas.rs:25-42 | every step of any interleaving of uncontested writers, a stop included, keeps the invariant and every stored object |
| CasSteps.RunSafe | engine/crates/snapshot/src/cas.rs:36-41 | over whole runs an object name is absent or holds its whole content, and never changes afterwards |
| CasSteps.SafeExactly | engine/crates/snapshot/src/cas.rs:36-41 | all runs from a start keep objects sound and unchanged and let no writer fail exactly when writers that share a digest put what is stored already |
| CasSteps.ReadersSeeObjects | engine/crates/snapshot/src/cas.rs:79-88 | in every state a reader sees sound objects only, and a finished put left its content behind |
| CasSteps.SharedTemporary | engine/crates/snapshot/src/cas.rs:36-40 | from any start with two writers of one digest not stored, a run with an empty object under that digest and a failed writer |
| Snapshot.NodeRoundTrip | engine/crates/snapshot/src/tree.rs:15-30 | a directory node reads back from its bytes, so equal bytes mean equal nodes |
| Formats.NodeWritten | engine/crates/snapshot/src/tree.rs:12-30 | a node's bytes written out: names in order, `kind` first, mode in decimal, hash in hex |
| Reading.EntryRead | engine/crates/snapshot/src/tree.rs:12-21 | what an entry reads as: each known field exactly once, others skipped |
| Reading.NodeRead | engine/crates/snapshot/src/tree.rs:176-179 | what a node reads as; of equal names the last counts |
| Snapshot.SerializeNode | engine/crates/snapshot/src/tree.rs:85-86 | the node's bytes, its names sorted whatever order they were inserted in |
| Snapshot.CaptureEntry | engine/crates/snapshot/src/tree.rs:61-81 | one entry: links in place, files and directories stored, anything else an error |
| Snapshot.CaptureChildren | engine/crates/snapshot/src/tree.rs:50-83 | the node is the same whatever order the directory is listed in |
| Snapshot.Capture | engine/crates/snapshot/src/tree.rs:49-88 | succeeds exactly on trees the owner can read, returns the root hash, and the store gains just the tree's objects |
| ByPath.CapturableExactly | engine/crates/snapshot/src/tree.rs:49-81 | a tree can be captured exactly when at every path the owner can read the node and it is no socket, pipe or device |
| ByPath.RootIs | engine/crates/snapshot/src/tree.rs:49-88 | the root hash is the hash of the record of the children: nine mode bits and the digest of each content or record |
| Snapshot.ExtendedStores | engine/crates/snapshot/src/cas.rs:23-30 | after a capture everything captured can be fetched, or two of the byte strings collide |
| Disks.CreateDirsPlain | engine/crates/snapshot/src/tree.rs:92-92 | where no link lies on the path, directories are made at the places it names and nowhere else |
| Restore.RestoreEntry | engine/crates/snapshot/src/tree.rs:97-112 | one entry on any disk: what it leaves and whether it goes through; a directory gets its mode after its children |
| Restore.Load | engine/crates/snapshot/src/tree.rs:176-179 | a node is read only from bytes that match their name |
| Restore.RestoreEntries | engine/crates/snapshot/src/tree.rs:94-113 | on any disk, the entries in sorted order up to the first that fails, each name checked before it reaches the disk |
| Restore.RestoreTree | engine/crates/snapshot/src/tree.rs:91-115 | on any disk and into any destination, exactly what is left and whether it succeeds; into a new or empty destination it succeeds exactly when the digest can be rebuilt with safe names, and then the destination holds just that |
| Restore.RestoreFills | engine/crates/snapshot/src/tree.rs:91-115 | the calls, run one by one into a new or empty destination, leave exactly the rebuilt tree in it, or fail exactly when there is none |
| ByPath.RebuildIs | engine/crates/snapshot/src/tree.rs:91-115 | exactly what a digest stands for: its object matches its name and reads as a node, every name is safe, every entry can be made, and modes keep twelve bits |
| ByPath.DestinationMode | engine/crates/snapshot/src/tree.rs:92-92 | a new destination gets mode 0755, one that was there keeps its own |
| Disks.LookSteps | engine/crates/snapshot/src/tree.rs:91-112 | what the system does with one name of a path: dots, two dots, links relative and absolute, the limit on links |
| Disks.SplitCuts | engine/crates/snapshot/src/tree.rs:109-111 | a link's target is cut at its slashes and nowhere else |
| Confinement.RestoreConfined | engine/crates/snapshot/src/tree.rs:91-115 | with no link on the way to the destination or in it, no store and no digest make a restore change a path apart from it, whether it succeeds or not |
| Confinement.ReadyLinkFree | engine/crates/snapshot/src/tree.rs:91-92 | a destination that is new or empty has no such link |
| Confinement.Escapes | engine/crates/snapshot/src/tree.rs:96-108 | if a path in the destination leads a write to some place, a recorded tree's restore leaves a file of its choice there |
| Confinement.WayOut | engine/crates/snapshot/src/tree.rs:91-115 | from any destination with a path that leads a write outside, a sound store and a root whose restore is not confined, or a collision |
| SnapshotTheorems.StoredIsRestorable | engine/crates/snapshot/src/tree.rs:47-115 | a store that holds what was captured can restore it, read-only directories included |
| SnapshotTheorems.RebuildCaptured | engine/crates/snapshot/src/tree.rs:90-115 | what is rebuilt from a captured root is the captured tree with its permission bits |
| TreePaths.RecordedCopies | engine/crates/snapshot/src/tree.rs:12-21 | what is recorded of a tree, at every path: contents, link targets, nine mode bits |
| SnapshotTheorems.SomeDepthFits | engine/crates/snapshot/src/tree.rs:103-104 | every tree fits some stack, so the recursion on a captured tree ends |
| SnapshotTheorems.RebuildUnique | engine/crates/snapshot/src/tree.rs:91-115 | a digest stands for one tree in all stores that can rebuild it, or two of their objects collide |
| SnapshotTheorems.RootHashCommits | engine/crates/snapshot/src/tree.rs:47-48 | equal root hashes mean trees recorded alike at every depth, or a collision |
| SnapshotTheorems.EntryCommits | engine/crates/snapshot/src/tree.rs:12-21 | equal entries stand for files, links or directories recorded alike, or a collision |
| Drift.CheckDrift | engine/crates/snapshot/src/tree.rs:119-133 | an error if the destination cannot be captured; `matches` exactly when its root hash is the expected one, and for a recorded tree exactly when it is recorded alike, with exactly the divergences listed, or a collision |
| Drift.Compare | engine/crates/snapshot/src/tree.rs:135-174 | appends exactly the differences of the two trees below this path |
| Drift.CompareNames | engine/crates/snapshot/src/tree.rs:153-173 | the loop appends what each name contributes, in order |
| Drift.CompareName | engine/crates/snapshot/src/tree.rs:154-171 | equal entries add nothing, two directories are compared in turn, anything else adds one line, whose text `DriftLines.LinesExact` gives |
| Drift.DiffComplete | engine/crates/snapshot/src/tree.rs:153-172 | a difference is listed exactly when the two trees part at its path in the way its tag says |
| Drift.DiffOrdered | engine/crates/snapshot/src/tree.rs:147-153 | the listing is in strictly increasing order of paths, so nothing is listed twice |
| Drift.DiffEmpty | engine/crates/snapshot/src/tree.rs:163-166 | nothing is listed exactly when the trees are equal up to directory modes |
| DriftLines.LinesExact | engine/crates/snapshot/src/tree.rs:153-172 | `missing: `, `unexpected: ` and `changed: ` with a path are listed exactly when the recorded tree alone has something there, the other alone has, or both have something a checkpoint can tell apart; everything above is a directory in both |
| DriftLines.JoinSpelled | engine/crates/snapshot/src/tree.rs:154-158 | the text of a path is its names with a slash between them |
| DriftLines.EveryLine | engine/crates/snapshot/src/tree.rs:153-172 | no other line is listed |
| DriftLines.ReportExact | engine/crates/snapshot/src/tree.rs:119-133 | an exact report is clean exactly when the directories agree at every path below them |
| TreePaths.DivergesIs | engine/crates/snapshot/src/tree.rs:153-172 | the three kinds of divergence, said of the nodes at the path |
| DriftLines.RenderDetermines | engine/crates/snapshot/src/tree.rs:153-172 | the printed lines determine tags and paths |
| Drift.ModeOnlyDrift | engine/crates/snapshot/src/tree.rs:32-34 | a change of a directory's own mode is no match and lists nothing |
| Drift.RestoredIsClean | engine/crates/snapshot/src/tree.rs:117-118 | what a restore leaves can be captured again and its report is clean |
| Bundle.FileRoundTrip | engine/crates/snapshot/src/bundle.rs:13-24 | a bundle reads back from its bytes |
| Formats.BundleWritten | engine/crates/snapshot/src/bundle.rs:13-24 | a bundle's bytes written out, around its manifest's canonical text |
| Formats.ObjectsListed | engine/crates/snapshot/src/bundle.rs:48-55 | the objects of a packed bundle: each once, digest and data in hex, in the order of the digests |
| Reading.ManifestRead | engine/crates/snapshot/src/manifest.rs:35-43 | what a manifest reads as; a missing memory pointer reads like `null` |
| Reading.PackageRead | engine/crates/snapshot/src/manifest.rs:16-20 | what a package reads as |
| Reading.FileRead | engine/crates/snapshot/src/bundle.rs:76-76 | what a bundle reads as |
| Reading.ObjectRead | engine/crates/snapshot/src/bundle.rs:13-17 | what a carried object reads as |
| Bundle.LoadAllFrom | engine/crates/snapshot/src/bundle.rs:83-94 | loading adds only sound objects that the bundle carried |
| ByPath.LoadsExactly | engine/crates/snapshot/src/bundle.rs:83-94 | loading goes through exactly when every object's data is hex and its name is the hex of the data's digest |
| ByPath.LoadsAll | engine/crates/snapshot/src/bundle.rs:83-94 | after it the store holds what it held and an object under the digest of everything carried |
| Bundle.LoadPacked | engine/crates/snapshot/src/bundle.rs:48-55 | loading what was packed rebuilds the packed store, no more and no less |
| Unpacking.Pack | engine/crates/snapshot/src/bundle.rs:37-62 | succeeds exactly when both trees can be captured; the memory's root overwrites the supplied pointer |
| ByPath.PackedManifest | engine/crates/snapshot/src/bundle.rs:43-61 | the schema version, the root, and whose pointer the packed manifest has |
| Unpacking.SerializeFile | engine/crates/snapshot/src/bundle.rs:56-61 | the bundle's bytes |
| Unpacking.PackDeterministic | engine/crates/snapshot/src/bundle.rs:26-62 | the bytes depend only on the trees and the normalised environment, whatever order directories and lists come in and whatever pointer a packed memory overwrites |
| Unpacking.LoadObjects | engine/crates/snapshot/src/bundle.rs:83-94 | every object is checked against its name; one mismatch rejects the bundle |
| Unpacking.Unpack | engine/crates/snapshot/src/bundle.rs:70-103 | on any disk, exactly what is left and whether it succeeds; into new or empty destinations apart from each other it succeeds exactly when the bundle's contents can be rebuilt and then delivers exactly those |
| ByPath.Refused | engine/crates/snapshot/src/bundle.rs:76-94 | a bundle that does not read, has another schema or carries an object under a wrong name is refused and the disk left alone |
| ByPath.AdmittedRestores | engine/crates/snapshot/src/bundle.rs:95-101 | the working directory first; the memory only after it, if a destination and a digest are given |
| ByPath.MemoryNamed | engine/crates/snapshot/src/bundle.rs:96-99 | a memory pointer stands for a memory in the bundle exactly when it is 32 bytes in hex |
| Unpacking.BothDeliver | engine/crates/snapshot/src/bundle.rs:95-101 | the two restores into such destinations leave both trees, or fail exactly when one cannot be rebuilt |
| Unpacking.UnpackConfined | engine/crates/snapshot/src/bundle.rs:70-103 | into such destinations no bundle, accepted or not, changes a path apart from both |
| UnpackConfinement.ConfinedExactly | engine/crates/snapshot/src/bundle.rs:64-103 | into new or empty destinations, with room for one file anywhere outside, every bundle stays inside exactly when neither destination lies on the other, or two objects of one small bundle collide |
| Unpacking.PackAndUnpack | engine/crates/snapshot/src/bundle.rs:37-103 | after packing and unpacking both destinations hold, at every path, the content, the link target and the nine mode bits of what was packed, nothing else, and the manifest is the packed one, or two of the packed objects collide |
| Unpacking.RoundTripDelivered | engine/crates/snapshot/src/bundle.rs:26-103 | what a packed bundle delivers to a disk is what was packed |
| Unpacking.RestoreManifest | engine/crates/snapshot/src/bundle.rs:95-102 | the same for the two restores: a pointer that is no content hash is left alone, the memory goes to its own destination |
| Unpacking.PackThenUnpack | engine/crates/snapshot/src/bundle.rs:26-103 | packing and unpacking gives back both trees and the manifest, or two of the packed objects collide |
| Unpacking.SameManifestSameTrees | engine/crates/snapshot/src/bundle.rs:64-103 | accepted bundles with the same manifest deliver the same trees, or two of their objects collide |
| Unpacking.DeliveredHolds | engine/crates/snapshot/src/bundle.rs:95-101 | after both restores each destination holds its own tree |
| Unpacking.DeliveredFrame | engine/crates/snapshot/src/bundle.rs:95-101 | a path apart from both destinations is as it was |
| Unpacking.TreeDelivered | engine/crates/snapshot/src/bundle.rs:95-101 | a store that holds a captured tree's objects gives that tree back |
| Destinations.WalkElsewhere | engine/crates/snapshot/src/tree.rs:91-115 | a restore leaves every path apart from its destination as it was |
| Destinations.ReadyElsewhere | engine/crates/snapshot/src/bundle.rs:95-101 | the first restore leaves the other destination ready for the second |
| Provenance.ComputeEntryHash | packages/verify/src/provenance.ts:50-66 | the hash of bytes laid out as frozen: head before, one byte of type, 8 of number, 32 of blob id, both hashes, 8 of time, numbers least significant byte first; an error exactly when a number does not fit |
| Provenance.HashDetermined | packages/verify/src/provenance.ts:50-66 | there is one such layout, so the head after an entry is determined |
| Provenance.PreimageAgree | packages/verify/src/provenance.ts:45-66 | equal preimages mean equal previous heads and equal entries up to the boundary, and conversely |
| Provenance.BoundaryNotBound | packages/verify/src/provenance.ts:57-65 | two different entries with one hash under every hash function |
| Provenance.ExactHistory | packages/verify/src/provenance.ts:57-65 | nothing is left open exactly when manifest hashes have equal lengths entry by entry |
| Provenance.ReplayChain | packages/verify/src/provenance.ts:105-111 | the head at the end of the chain of heads that starts at the genesis, each hashed from the one before |
| Provenance.CollectHeads | packages/verify/src/provenance.ts:118-126 | that whole chain of heads, the genesis first |
| Provenance.HeadsAreTheChain | packages/verify/src/provenance.ts:118-126 | there is exactly one such chain |
| Provenance.HeadsMeet | packages/verify/src/provenance.ts:32-66 | whatever the lengths of ids and parent heads, two chains with one head have the same history up to the boundary, or one's origin reads as an entry of the other, or their preimages collide |
| Provenance.SizedNotMisread | packages/verify/src/provenance.ts:32-66 | an origin of the right size never reads as an entry |
| Provenance.HeadBinds | packages/verify/src/provenance.ts:32-66 | with ids and parent heads of 32 bytes, two chains with one head have the same origin and the same history up to the boundary, or their preimages collide |
| Provenance.HeadsDistinct | packages/verify/src/provenance.ts:118-126 | no head of a chain comes back, or a collision |
| Linkage.OrderByLinkage | packages/verify/src/provenance.ts:87-102 | on any items, forged cycles included: a walk from the genesis, at each head the latest item that starts there, no head left twice, ended where none can be left |
| Linkage.ThreadUnique | packages/verify/src/provenance.ts:87-102 | there is one such walk |
| Linkage.OrderRestored | packages/verify/src/provenance.ts:78-102 | any permutation of a chain's links, with any repeated, gives exactly the chain's order, or a collision |
| Linkage.MissingLinkShortens | packages/verify/src/provenance.ts:83-86 | without one of its links a chain orders into fewer entries |
| Verifier.ResolveGenesis | packages/verify/src/verifier.ts:109-135 | the start is the emitted head of a fork, else the hash of the id; a fork adds its two lineage checks, each with its outcome, any other machine none |
| Verifier.VerifyMachine | packages/verify/src/verifier.ts:55-105 | an error exactly when an entry cannot be encoded; else the report names each check that applies, in order, tells of each whether it holds, and is favourable exactly when all do |
| Verifier.ReportTells | packages/verify/src/verifier.ts:55-135 | the conditions of the seven checks, each said of the input alone |
| Verifier.CheckpointsPlaced | packages/verify/src/verifier.ts:70-88 | the checkpoints, counted and numbered by their positions among the entries |
| Verifier.AcceptsAll | packages/verify/src/verifier.ts:104-104 | all checks passing means binding, parent head, head, count, contiguous numbers and anchors all hold, and conversely |
| Verifier.OneHeadOneHistory | packages/verify/src/verifier.ts:47-65 | inputs that reach one head agree on their histories, or an origin is misread, or a collision; with 32-byte ids and parent heads they agree on fresh or forked, machine id and parent head as well |
| Verifier.AcceptedIsTheRun | packages/verify/src/verifier.ts:46-105 | whatever entries are accepted for a run's machine are the run's, or a checkpoint-free beginning is missing behind a misread origin, or a collision; the latest checkpoint is exact in every case |
| Verifier.TailAccepted | packages/verify/src/verifier.ts:109-135 | an accepted input of the second kind, whose recorded parent head is not 32 bytes long |
| Verifier.RunIsAccepted | packages/verify/src/verifier.ts:46-105 | a run's own entries with a genuine fork proof are accepted |
| Verifier.DroppedLinkRejected | packages/verify/src/verifier.ts:59-65 | leaving out any one link is rejected, or a collision; only a recorded parent head that is not 32 bytes long can leave an accepted tail |
| Verifier.ParentHeadExact | packages/verify/src/verifier.ts:124-130 | the parent head check passes exactly when the recorded head replays some prefix of the parent's history, and still passes when that history grows |
| Verifier.StateExtended | move/sources/machine.move:154-168 | one more entry keeps head, count and anchors in step with the history |
| Chain.EntryRecorded | move/sources/machine.move:280-304 | a checkpoint or a head-only entry keeps the object and the log in agreement |
| Chain.NewRecorded | move/sources/machine.move:106-131 | a new machine starts with an empty history at a genesis bound to its id |
| Chain.HeadRemains | move/sources/machine.move:75-85 | a head a machine has had is a past head for ever, whatever is emitted next |
| Chain.EntryKeeps | move/sources/machine.move:142-180 | checkpoint, grant, revoke and retire keep every machine consistent |
| Chain.ForkKeeps | move/sources/machine.move:186-216 | a fork keeps every machine consistent and descends from a genuine head |
| Chain.StepKeeps | move/sources/machine.move:106-304 | every call, whoever makes it, keeps every machine consistent |
| Chain.RunConsistent | move/sources/machine.move:106-304 | in every reachable state each machine's object matches its events and its lineage is genuine |
| Ownership.StepExact | move/sources/machine.move:106-304 | exactly when a call goes through, and then the event it emits and every field of every machine and policy it leaves |
| Ownership.EveryEventCalled | move/sources/machine.move:106-304 | over whole runs each event was emitted by one of the calls, in the state reached |
| Ownership.OwnersStay | move/sources/machine.move:44-55 | no machine ever changes hands |
| Ownership.OwnersOnly | move/sources/machine.move:150-150 | each checkpoint, grant, revoke, retirement and fork was called for by the owner of the machine it concerns, with the arguments the event shows |
| Ownership.GrantsFollowEvents | move/sources/access.move:131-206 | in every reachable state each policy grants what the last event about a grantee says |
| Ownership.OwnerRights | move/sources/access.move:57-58 | an owner is always granted; with full rights and no end exactly when the last grant that names the owner, if any, says so |
| Ownership.OwnerDemoted | move/sources/access.move:131-150 | two calls after which an owner's own rights are none |
| Ownership.HistoryIs | move/sources/machine.move:57-104 | a machine's history is its linked events, all of them, in order, with their types and fields |
| Ownership.ViewIs | packages/chain/src/machine.ts:43-50 | a machine as a reader is shown it, field by field |
| Readers.QueryMachineEvents | packages/verify/src/readers.ts:93-115 | however the events are split into pages, all events that name this machine come back, in order, and no other |
| Readers.FetchForkEvent | packages/verify/src/readers.ts:279-305 | the first fork event that names the child, on any page, or none |
| Readers.FetchLinks | packages/verify/src/readers.ts:148-195 | the links of all four queries, one after another, each with its event's fields and the event type of its query |
| Readers.ParentChainHeads | packages/verify/src/readers.ts:489-509 | the chain of heads of the parent's walked links, from its fork event's head if it is a fork itself, else from the hash of its id |
| Readers.GatherVerifyInput | packages/verify/src/readers.ts:327-360 | what is gathered, said of the node's answers alone: the object, the walked links, the first fork event and the parent's heads; a missing fork event, or an error |
| Readers.VerifyFromChain | packages/verify/src/readers.ts:368-397 | the verdict on what was gathered; if a reader is given and a blob is pinned, one more check, passed exactly when the reader returns bytes and they are not empty; a missing fork event is a failed report |
| ChainVerifies.ServedLinks | packages/verify/src/readers.ts:93-195 | four paged queries bring back each of a machine's links and no other |
| ChainVerifies.ServedHistory | packages/verify/src/readers.ts:354-359 | ordering what the node serves gives the machine's history, or a collision |
| ChainVerifies.ServedGenesis | packages/verify/src/readers.ts:494-501 | the genesis taken for a parent is its own, also when it is a fork |
| ChainVerifies.GatherGenuine | packages/verify/src/readers.ts:321-360 | what is gathered from an honest node is the truth about the machine |
| ChainVerifies.EveryMachineVerifies | packages/verify/src/readers.ts:362-397 | after any run every machine verifies, forks and shared numbers included, or a collision |
| ChainVerifies.LyingEventsCaught | packages/verify/src/readers.ts:362-397 | with one object honest and any events, what is accepted is the machine's real history, or its tail behind a misread parent head that is not 32 bytes long, or a collision; the latest checkpoint is real in every case |
| Evidences.BigIntRoundTrip | packages/verify/src/evidence.ts:92-96 | every integer reads back from its decimal text |
| Evidences.BigIntForms | packages/verify/src/evidence.ts:119-133 | what decimal text with either sign or none reads as |
| Evidences.BigIntSpaces | packages/verify/src/evidence.ts:119-133 | no text is zero, and spaces in front do not count |
| Evidences.EvidenceRoundTrip | packages/verify/src/evidence.ts:66-143 | a record reads back as its input exactly when the id bytes are those the machine id spells |
| Evidences.ToEvidenceIs | packages/verify/src/evidence.ts:66-106 | every field of a record, those that are never read back included; each entry hash is the head after that entry |
| Evidences.LastHashIsHead | packages/verify/src/evidence.ts:25-27 | the last entry hash of a record whose head check holds is the machine's head |
| Evidences.FromEvidenceReads | packages/verify/src/evidence.ts:109-143 | what a record reads as, exactly: the one known schema, and each field what its text spells |
| Evidences.VerifyEvidence | packages/verify/src/evidence.ts:152-154 | the verdict is the verifier's on what the file says; an unknown schema or unreadable text is an error |
| Evidences.MachineEqual | packages/verify/src/evidence.ts:173-185 | true exactly for equal machine sections |
| Evidences.EntriesEqual | packages/verify/src/evidence.ts:187-203 | true exactly for equal entry sections |
| Evidences.ForkEqual | packages/verify/src/evidence.ts:205-216 | true exactly for equal fork sections, none included |
| Evidences.CompareEvidence | packages/verify/src/evidence.ts:165-171 | each part is true exactly when that section is equal in both files |
| Evidences.MatchingFileSameVerdict | packages/verify/src/evidence.ts:156-171 | a file of this schema that matches a record made from an input gets that input's verdict |
| Anchoring.ExportEvidence | packages/verify/src/readers.ts:404-412 | the record of what was gathered, every field of it; nothing exactly when gathering fails or an entry cannot be encoded |
| Anchoring.AnchorEvidence | packages/verify/src/readers.ts:424-482 | whether machine, entries and lineage of the file equal those of the record made again from the node, and the storage check as above |
| Anchoring.AnchoredVerdict | packages/verify/src/readers.ts:414-423 | an anchored file reads back as what the chain itself leads to |
| Anchoring.AnchoredIsTrue | packages/verify/src/readers.ts:414-423 | an anchored file is the machine's true history and verifies, or a collision |
| Anchoring.AnchoredLiesCaught | packages/verify/src/readers.ts:414-423 | an anchored file that verifies, on a node honest about one object only, is the machine's real history, or its tail behind a misread parent head that is not 32 bytes long, or a collision; the latest checkpoint is real in every case |
| Anchoring.ExportAnchors | packages/verify/src/readers.ts:399-412 | an export always anchors against the node it came from |
| ReadModels.ReadModel.Ensure | apps/indexer/src/read-model.ts:26-33 | the record under an id, added with nothing known if there was none |
| ReadModels.ReadModel.Add | apps/indexer/src/read-model.ts:28-31 | a new key goes last in the map's order with its record |
| ReadModels.ReadModel.ApplyEvent | apps/indexer/src/read-model.ts:40-61 | one event changes one record and leaves every other as it was |
| ReadModels.BuildModel | apps/indexer/src/read-model.ts:63-69 | the model is the fold of the events |
| ReadModels.CheckpointPlaced | apps/indexer/src/read-model.ts:52-59 | a new number takes its place in order; a number seen before changes nothing |
| ReadModels.AlwaysWellKept | apps/indexer/src/read-model.ts:52-60 | in every reachable state each record has strictly increasing checkpoint numbers |
| ReadModels.BuildDescribes | apps/indexer/src/read-model.ts:35-69 | the model of agreeing events says just what the set of events says |
| Displayed.BuildIs | apps/indexer/src/read-model.ts:35-69 | the model of any events, contradicting ones included: the last creation and fork count, of checkpoints with one number the first, in rising order |
| ReadModels.ConvergesExactly | apps/indexer/src/read-model.ts:35-39 | order and repetition make no difference exactly when no event contradicts another |
| ReadModels.ListEnvironments | apps/indexer/src/read-model.ts:72-81 | a sorted copy of the records |
| ReadModels.ListingSorted | apps/indexer/src/read-model.ts:71-81 | the listing holds every record once, oldest first and then by id |
| Displayed.ListingOrder | apps/indexer/src/read-model.ts:71-81 | the earlier epoch first, unknown ones as 2^53 - 1, then ids by UTF-16 code units |
| ReadModels.ListingCanonical | apps/indexer/src/read-model.ts:71-81 | the order the map was filled in does not show |
| ReadModels.RebuildsListAlike | apps/indexer/src/read-model.ts:35-81 | rebuilds from the same agreeing events list the same |
| IndexedChain.RunBirths | move/sources/machine.move:53-85 | in every reachable state each machine was born once, by the event its object agrees with |
| IndexedChain.IndexedAgree | apps/indexer/src/events.ts:46-77 | the events of a run never contradict each other |
| Displayed.IndexedIs | apps/indexer/src/events.ts:46-77 | which chain events the indexer sees and with what fields |
| IndexedChain.ShownIsRecord | apps/indexer/src/events.ts:46-77 | what the events of a run say about a machine is its lineage and its chain's checkpoints |
| IndexedChain.IndexShowsTheChain | apps/indexer/src/events.ts:41-77 | in any order and number a run's events show each machine with its lineage and exactly its chain's checkpoints |

## Left out

- Cryptography (BLAKE3, BLAKE2b, ed25519, attestation documents): abstract functions with explicit collisions.
- Console, web site, command line, paymaster, wallets and storage clients: user interface and foreign libraries. The blob reader of `verifyFromChain` is a parameter.
- Runtime tiers, guest agent, process control, framing, retries and tar extraction: input, output and isolation.
- The wire form of events and objects (byte arrays or hex, numbers or strings, the three shapes of an optional id): the model starts from parsed values.
- A chain that moves between two requests of one read: a node serves one state.
- Object deletion, wrapping and transfer, and the `seal_approve` checks: they do not touch a provenance head. Policy versions: only one exists.
- Detail texts of checks and errors: names and outcomes are modelled, and errors are told apart only where callers do.
- Names that are not UTF-8, owners, timestamps: rejected or excluded by design. Capture records nine mode bits; `chmod` on restore keeps twelve.
- The superuser, who ignores permission bits. The umask is fixed at 022. NAME_MAX, PATH_MAX and a full disk, which make calls fail, and file systems that fold case or normalise names.
- Restore.RestoreTree: paths are resolved, without `.` and `..`; those inside link targets are followed. Another process that changes the disk meanwhile is not modelled.
- Confinement.RestoreConfined: asks for no link at all. A link that stays inside, or leads nowhere yet, is in neither this nor `Confinement.WayOut`: whether it becomes a way out depends on what the restore has made by the time it comes to it.
- Unpacking.Unpack: an unknown field that holds a negative or fractional number, or a string with invalid UTF-8 or a lone surrogate escape, makes a bundle unreadable here, where the engine skips it.
- Cas.CasStore.constructor: asks for a directory with objects and temporaries only; a foreign file makes `read_all` fail in the engine.
- Cas.CasStore.Put: input and output errors of the disk under the store do not occur.
- VerifierManifest.CanonicalManifestBytes: texts are sequences of Unicode scalars, so a lone surrogate in a manifest is not represented.
- JsonText.JsonTextRoundTrip: covers null, booleans, unsigned integers, strings, arrays and objects; the recursion limit of the Rust reader and its acceptance of tagged values written as arrays are not modelled. Neither side writes anything else.
- Unpacking.PackThenUnpack: when no memory is packed but a supplied pointer happens to be a digest, asking for a memory succeeds exactly when the bundle can rebuild it; the statement says so and goes no further.
- An export time of 10^21 or more, which JavaScript prints with an exponent: metadata.
- `fetchProvenanceEntries`, `reconstructAccessTimeline`, `isRetired`, `has`, `manifestBytesMatch`: short sorts and lookups that would only add easy members.
