# package-lock-parser, modelled in Dafny

This project models the core of *package-lock-parser*. The library turns npm
`package-lock.json` files into dependency graphs, and turns those graphs
back into lockfiles. It has three codecs:

- **Flat v1 codec** (`src/v1.ts`). `parse` copies, for every name the
  manifest lists, the lockfile's package entry into a parsed package. `synth`
  writes the parsed packages back into a single table.
- **Graph v1 codec** (`src/v1/parse.ts`, `src/v1/synth.ts`).
  - `parse` walks the `requires` of every listed package. It resolves each
    one first in the requiring package's nested table and then in the
    root table. It shares one node per name and version through a memo.
  - `synth` rebuilds a v1 lockfile in two passes over the graph. Packages
    are nested under a parent when their name is already taken at the root.
    The root table is sorted by name, and objects are put in canonical key
    order.
- **Tree codec for lockfile v2** (`index.mjs`).
  - `parse` links every entry of `packages[""]`'s dependency fields to its
    `node_modules/<name>` package and its `dependencies` module, recursively.
  - `fabricate` walks such a tree and refills the `packages` and
    `dependencies` tables, first writer wins.
- **Helpers and the mercury parser.** `pick` (`src/util/misc.ts`) and
  `splitObject` (`src/common/functions.ts`) split records. The "mercury"
  parser (`src/formats/mercury.ts`) copies a v1 lockfile's packages into
  every container of a chain.

How JavaScript appears in the model:

- **Values.** JavaScript values are `JsValues.Value`. An object is a
  key-ordered sequence of pairs (`Records.Props`).
  - Assignment replaces a key in place or appends it; `delete` removes it.
  - Spreading is `Records.Assign`.
  - Reading a property of `null`/`undefined` is the `TypeError` outcome.
  - A thrown `Error(message)` is a `Failure` carrying that message.
- **Objects updated in place** are classes whose methods state the new state:
  - the parse workbench and its memo (`V1Parse.ParseWorkbench`);
  - the synth workbench, an arena of package objects (`V1Synth.SynthState`);
  - the mercury containers (`Mercury.Container`);
  - the accumulators of `fabricate` (`LockTree.Accumulators`);
  - the objects `splitObject` and `reorderObject` write to (`JsValues.JsObject`).
- **Object identity.** Parsed v1 graphs are arenas: a node is its index, so
  a shared object is a shared index.
- **Symbols.** The `MODULE`/`PACKAGE`/`LINK` symbol keys of `index.mjs` are
  datatype fields.

Two details follow the code where a reader might expect otherwise:

- The canonical key order of a synthesised package is `version, resolved,
  integrity, dev, requires`, as `src/v1/synth.ts:25-31` lists it.
- A v1 dependency is resolved in two places only: the requiring package's
  own `dependencies` table, then the lockfile's root table
  (`src/v1/parse.ts:21`). It does not look through every ancestor.

One detail departs from the code: the parse memo.

- `src/v1/parse.ts:27` keys the memo on the string `name + version`.
  `V1Parse.ParseWorkbench` keys it on the pair (name, version). The
  concatenated key lets two different packages collide (see "## Findings").
  `V1Parse.LookupKeyAsWritten`, `V1Parse.CachedAsWritten` and
  `V1Parse.LookupKeyCollision` model the key as written.

## Model

| member | source | states |
|---|---|---|
| Misc.Pick | src/util/misc.ts:1-12 | `remaining` is the target without the picked keys. `picked` has exactly the listed keys, once each, in first-listed order. Each picked key's value is the one the target had, or undefined. No key is in both halves. |
| Misc.PickStep | src/util/misc.ts:5-9 | One step of the loop (read, `delete`, assign) keeps the picked record equal to the pick of the keys seen so far. |
| Misc.PickedDistinct | src/util/misc.ts:5-9 | With distinct keys, every picked value is the target's own value, or undefined when the key is absent. |
| CommonFunctions.SplitObject | src/common/functions.ts:1-10 | With two destinations, the picked destination gets exactly the target's entries under listed keys and the remaining destination gets all the other entries. Each is assigned on top of its old contents. When both destinations are one object, it receives every entry. |
| CommonFunctions.SplitRouting | src/common/functions.ts:3-8 | A key of the target lands in exactly the destination its membership in the key list selects. Every other key keeps the destination's old value. |
| CommonFunctions.SplitPartition | src/common/functions.ts:3-8 | The two halves partition the target's keys: each key is in one half, never both. |
| CommonFunctions.SplitCreatesNothing | src/common/functions.ts:2-9 | A key the target lacks is in a destination afterwards exactly when it was there before. |
| Mercury.FirstNullish | src/formats/mercury.ts:26-29 | Gives the index of the first null or undefined package entry, or the length when there is none. Every entry before it is non-null. |
| Mercury.FirstNullishAt | src/formats/mercury.ts:26-29 | Any index with only non-null entries before it and a null entry at it (or the end) is the first nullish index. |
| Mercury.ParsePackage | src/formats/mercury.ts:31-48 | The parsed package has the entry's name. Its fields are the supported keys (version, resolved, integrity, dev, optional, peer) and the rest are its unsupported record. |
| Mercury.ParsedFields | src/formats/mercury.ts:38-46 | A key of the raw package is a field of the parsed package exactly when it is supported, and an unsupported entry exactly otherwise, with the same value. |
| Mercury.PlaceInChain | src/formats/mercury.ts:51-55 | Every container of the chain that has a dependency table and lacks the name gets the package. Containers with the name, or with no table, are unchanged. |
| Mercury.PlaceTwice | src/formats/mercury.ts:51-55 | Placing the same package twice is the same as placing it once. |
| Mercury.PlaceAllKeeps | src/formats/mercury.ts:52 | A name already in a container's table keeps its package whatever is placed after it: the first placement wins. |
| Mercury.PlaceAllAbsent | src/formats/mercury.ts:52 | A container without a dependency table stays without one. |
| Mercury.FreshPlacement | src/formats/mercury.ts:51-55 | Placing the parsed entries of a table with distinct keys into an empty container gives exactly those entries, in order. |
| Mercury.ParsePackages | src/formats/mercury.ts:25-57 | Packages before the first null entry are placed in every container. The first null entry fails with the source's message, naming that package. |
| Mercury.Parse | src/formats/mercury.ts:8-23 | A null lockfile is a TypeError. A version other than 1 fails with the version message. Otherwise the first null package fails with its message, and with none the result has version 1 and exactly the parsed entries of the lockfile's `dependencies`, in order. |
| FlatV1.Bucket | src/v1.ts:15-37 | The bucket lists the manifest's names in manifest order, each holding the parsed lockfile entry of that name. |
| FlatV1.ParsePackages | src/v1.ts:15-37 | Succeeds with the bucket exactly when every listed name has a non-null lockfile entry. Otherwise it fails with the out-of-sync message. |
| FlatV1.Parse | src/v1.ts:39-55 | Equals the flat parse function, which keeps the version and fills each bucket only when the raw table and the manifest field are both present. |
| FlatV1.ParseShape | src/v1.ts:39-55 | The result's version is the raw lockfile's. Each bucket is present exactly when both its manifest table and the raw table are non-null. |
| FlatV1.ParsedBucketEntry | src/v1.ts:23-35 | A listed name's bucket entry is the package parsed from the lockfile entry of that name. |
| FlatV1.ParsedPackageFields | src/v1.ts:23-33 | A parsed package keeps its name, takes the entry's version, and stashes every other key of the entry unchanged. |
| FlatV1.ParsedBuckets | src/v1.ts:44-52 | On success each bucket is exactly the result of parsing that manifest table against the raw table. |
| FlatV1.SynthPackages | src/v1.ts:62-69 | The output table is the old table assigned with one raw package per input entry. |
| FlatV1.LookupRawEntries | src/v1.ts:62-69 | A name's raw entry is the raw form of its parsed package, and there is none for an unlisted name. |
| FlatV1.Synth | src/v1.ts:57-86 | Equals the flat synth function: the version, plus a `dependencies` table only when a bucket exists. |
| FlatV1.SynthResultTable | src/v1.ts:57-86 | The result's `lockfileVersion` is the parsed version. `dependencies` is the merged table, or absent when there are no buckets. The key order is `lockfileVersion` then `dependencies`. |
| FlatV1.SynthDevWins | src/v1.ts:78-83 | The table exists exactly when a bucket does. A name in both buckets gets the dev package, since it is written second. |
| FlatV1.PackageRoundTrip | src/v1.ts:62-67 | The raw form of a parsed package is equivalent to the lockfile entry it came from, as long as that entry has a version. |
| FlatV1.ListedSynthesised | src/v1.ts:71-83 | Every name the manifest lists has an entry in the synthesised table. |
| FlatV1.FlatRoundTrip | src/v1.test.ts:135-147 | After parse then synth, every listed package is equivalent to its lockfile entry. |
| V1Parse.Resolve | src/v1/parse.ts:21-25 | Returns the nested entry when it is not null. Otherwise it returns the root entry. It fails exactly when both are null: a missing root table is a TypeError, otherwise the not-found message naming the package. |
| V1Parse.ManifestKeys | src/v1/parse.ts:80 | The names of a manifest field are its own keys, and none for a missing field. |
| V1Parse.BuildNode | src/v1/parse.ts:32-46 | A new node has the name, the entry's version, empty dependency tables, and every other key of the entry stashed. |
| V1Parse.ParseWorkbench.constructor | src/v1/parse.ts:63-65 | The workbench starts with an empty memo and no nodes. |
| V1Parse.ParseWorkbench.ParsePackage | src/v1/parse.ts:18-59 | Keeps the workbench invariant: memo keys are exactly the name and version of distinct nodes, and every node was built from what its name resolves to inside the lockfile. A resolution failure is returned as is. Any other failure is a TypeError or the not-found error of a name missing from the root table. When every `requires` below the package resolves, parsing succeeds. On success the id is the memo's node for the resolved name and version. A hit returns the cached node and adds nothing. A miss returns a new node at the end of the arena, built from the resolved raw package: its version, its stash and, as dependencies, its `requires`. |
| V1Parse.RequiredFound | src/v1/parse.ts:50-55 | When every name required anywhere in the root table has a root entry, so does each name a reachable package requires. |
| V1Parse.ParseWorkbench.NewNode | src/v1/parse.ts:34-48 | Appends the node, built from a raw package its name resolves to, records it in the memo under its name and version, and marks it open. |
| V1Parse.ParseWorkbench.Walk | src/v1/parse.ts:50-56 | On success the node's dependencies are exactly its `requires`, in order, each the node that name resolves to. The node is closed. A failure is a TypeError or the not-found error of a name missing from the root table, and there is none when every `requires` resolves. |
| V1Parse.ParseWorkbench.Step | src/v1/parse.ts:51-55 | One `requires` name is resolved and added to the node's dependencies after the ones already done. It succeeds when the name has a root entry and everything below resolves; a failure is a TypeError or a not-found error for a missing root entry. |
| V1Parse.ParseWorkbench.AddDependency | src/v1/parse.ts:51 | Adds one edge to one node and changes no node's name or version. |
| V1Parse.ParseWorkbench.Close | src/v1/parse.ts:50-58 | A node whose dependencies are all its `requires` leaves the open set. |
| V1Parse.ParseWorkbench.ParseBucket | src/v1/parse.ts:80-92 | The bucket has exactly the manifest's names, distinct and in manifest order, each pointing at the node its root entry resolves to. An empty manifest gives an empty bucket. A first name that cannot be resolved gives that error. Every failure is a TypeError or the not-found error of a name missing from the root table, and there is none when every listed and required name has a root entry. |
| V1Parse.PickLockfile | src/v1/parse.ts:67-78 | Keeps the lockfile's version and stashes every key other than `lockfileVersion` and `dependencies`. |
| V1Parse.Parse | src/v1/parse.ts:61-95 | A null manifest, or listed names with no root table, is a TypeError. Every other failure is a TypeError or the not-found error of a name missing from the root table. When every listed and required name has a root entry, parsing succeeds. On success the graph has the version, the stash, buckets keyed exactly by the manifest's names and an empty peer bucket. Each node was built from a raw package of the lockfile that its name resolves to: it has that package's version and stash, and its dependencies are that package's `requires`, each resolved as the lockfile says. |
| V1Parse.SharedNode | src/v1/parse.ts:27-30 | Two edges reach the same node exactly when they resolve to the same name and version: one shared node per package version. |
| V1Parse.AppendKeepsValid | src/v1/parse.ts:48 | Appending a fresh node under a fresh memo key keeps the workbench invariant. |
| V1Parse.AddKeepsValid | src/v1/parse.ts:51 | Adding a resolved edge to an open node keeps the workbench invariant. |
| V1Parse.CloseKeepsValid | src/v1/parse.ts:58 | Closing a node whose dependencies match its `requires` keeps the invariant. |
| V1Parse.DoneNodesOk | src/v1/parse.ts:94 | With no open node, every node is complete, distinct by name and version, built from what its name resolves to inside the lockfile, and every edge resolves correctly. |
| V1Parse.ParsedNodeOrigin | src/v1/parse.ts:21-56 | Every node of a parsed graph has a raw package of the lockfile that its name resolves to, from the root table or a package's nested table. The node has that package's version, stashes its fields other than `version`, `dependencies`, `dev` and `peer`, and has exactly its `requires` as dependencies, each pointing at the node that name resolves to from that package. |
| V1Parse.AppendOrigins | src/v1/parse.ts:21-48 | Appending a node built from what its name resolves to keeps every node tied to a raw package of the lockfile. |
| V1Parse.BucketGrows | src/v1/parse.ts:87-92 | A bucket stays correct as later buckets add nodes. |
| V1Parse.AddToBucket | src/v1/parse.ts:81-84 | Adding a resolved name to a bucket keeps it correct, with keys in manifest order. |
| V1Parse.RequiresDistinct | src/v1/parse.ts:50 | The names a package requires are distinct. |
| V1Parse.LookupKeyAsWritten | src/v1/parse.ts:27 | The memo key as written is the name followed by the version's string form, with no separator. |
| V1Parse.CachedAsWritten | src/v1/parse.ts:28-29 | The memo lookup as written hits exactly when the concatenated key is present, and returns its node. |
| V1Parse.LookupKeyCollision | src/v1/parse.ts:27-30 | Two different packages, `a` at 11.0.0 and `a1` at 1.0.0, get the same memo key. The lookup as written returns the wrong package's node. |
| V1Synth.ReorderObject | src/v1/synth.ts:34-47 | Moves the listed keys that are present to the end in listed order, then the other keys in their original order. |
| V1Synth.ReorderStep | src/v1/synth.ts:38-46 | One `delete` and reassignment moves one key to the end and changes no value. |
| V1Synth.ReorderEnd | src/v1/synth.ts:34-47 | After every key has been visited, the object is in the reordered layout. |
| V1Synth.ReorderedEntries | src/v1/synth.ts:34-47 | Reordering keeps exactly the same entries and keeps keys distinct. |
| V1Synth.ReorderedIdempotent | src/v1/synth.ts:34-47 | Reordering twice is the same as reordering once. |
| V1Synth.RemoveReordered | src/v1/synth.ts:34-47 | Deleting a key before or after reordering gives the same object. |
| V1Synth.StrLessIrreflexive | src/v1/synth.ts:51 | The comparator's `<` never holds between a name and itself. |
| V1Synth.StrLessTransitive | src/v1/synth.ts:51 | The comparator's `<` is transitive. |
| V1Synth.StrLessTotal | src/v1/synth.ts:51 | Any two names are equal or ordered one way. |
| V1Synth.InsertSorted | src/v1/synth.ts:51 | Inserting an entry into a sorted list keeps it sorted. |
| V1Synth.AlphabeticalEntries | src/v1/synth.ts:49-53 | The entries are a permutation of the object's entries, sorted by key. |
| V1Synth.PackageFieldsEntries | src/v1/synth.ts:62-79 | The synthesised package has `dev: true` for a dev package and `peer: true` for a peer package. Otherwise it has the stashed keys, with `version` from the node when not stashed. Keys are distinct and already in canonical order. |
| V1Synth.ProperTypeEntries | src/v1/synth.ts:55-60 | A regular package loses `dev` and `peer` and keeps everything else. Other packages are unchanged. |
| V1Synth.ProperTypeIdempotent | src/v1/synth.ts:55-60 | Applying `ensureProperType` twice with the same kind is the same as once. |
| V1Synth.ProperTypeOwnKind | src/v1/synth.ts:55-84 | A package built for a kind is unchanged by `ensureProperType` with that kind, when the node's stash holds no `dev` or `peer`. |
| V1Synth.RetypedTyped | src/v1/synth.ts:55-60 | A package built for a node and retyped once stays a retyping of it after any further `ensureProperType`. |
| V1Synth.TypedEntries | src/v1/synth.test.ts:97-121 | A retyped package has distinct keys in canonical order. Every field other than `dev` and `peer` is the built package's; `dev` and `peer` are the built package's or absent. |
| V1Synth.TableOf | src/v1/synth.ts:184 | The materialised table has the same names, in the same order, as the arena table. |
| V1Synth.LookupTableOf | src/v1/synth.ts:184 | Looking a name up in the materialised table gives the materialised package object of that name's arena slot. |
| V1Synth.ClaimedEntry | src/v1/synth.ts:184 | A root slot holding a node's typed package materialises to an object with that node's fields in canonical order, plus at most a nested `dependencies` object. |
| V1Synth.SynthState.constructor | src/v1/synth.ts:136-138 | The workbench starts with an empty cache, no package objects and an empty root table. |
| V1Synth.SynthState.MakePackage | src/v1/synth.ts:62-84 | Appends the package object built for the node and caches it under the node. |
| V1Synth.SynthState.EnsureProperType | src/v1/synth.ts:55-60 | Rewrites one package object to its properly typed fields. Nothing else changes. |
| V1Synth.SynthState.SavePackage | src/v1/synth.ts:86-97 | A name free at the root is added to the root table. A taken name is put in the parent's nested table, which is created when missing. |
| V1Synth.SynthState.Link | src/v1/synth.ts:106-122 | A cache hit retypes the cached object and adds it at the root only when the name is free. A miss synthesises the dependency and places it at the root or under the parent. |
| V1Synth.SynthState.SynthPackage | src/v1/synth.ts:99-126 | The node gets a new object, cached under it. Its fields are the node's synthesised fields for the kind, retyped at most by `ensureProperType`. Afterwards every dependency of the node is cached and its name is in the root table. Cached objects and root entries are never dropped, and older objects are at most retyped. |
| V1Synth.SynthState.Claim | src/v1/synth.ts:143-145 | Appends the package object made for the node, caches it under the node, and writes its index into the root slot of the name. The workbench invariant is kept. |
| V1Synth.SynthState.FirstPass | src/v1/synth.ts:141-147 | Afterwards the root has exactly the names it had plus the bucket's names. Each bucket name's slot is a fresh object holding the synthesised fields of that name's node for the pass's kind. A name outside the bucket keeps its old slot. |
| V1Synth.SynthState.SecondPass | src/v1/synth.ts:154-178 | Keeps the workbench invariant and never removes a root entry. |
| V1Synth.SynthState.Passes | src/v1/synth.ts:149-182 | Every name in any bucket is in the root table afterwards. Its slot holds the fields of the node listed by the last bucket (regular, dev, peer) that lists the name, typed as that bucket's kind, and at most retyped by a later pass. |
| V1Synth.FirstPassClaims | src/v1/synth.ts:141-151 | A first pass over one more bucket makes that bucket the source of its names and leaves the other names' sources in place. |
| V1Synth.ClaimsKept | src/v1/synth.ts:154-182 | Adding root names and retyping package objects keeps every name's source package in its slot, at most retyped. |
| V1Synth.ListedRootBuckets | src/v1/synth.ts:149-151 | A name has a source bucket exactly when one of the three buckets lists it. The source is peer, else dev, else regular: the last first pass that writes the name wins. |
| V1Synth.LockfileFieldsEntries | src/v1/synth.ts:130-134 | The lockfile has the rebuilt `dependencies`. Otherwise it has the stashed keys, with `lockfileVersion` from the graph when not stashed. Keys are distinct and in canonical order. |
| V1Synth.LockfileShape | src/v1/synth.ts:184-185 | The lockfile's version, `dependencies` table and other keys are as stated, and the object is already in canonical order. |
| V1Synth.Synth | src/v1/synth.ts:128-188 | The lockfile is an object in canonical key order, with the graph's version and stashed keys. Its root `dependencies` table has distinct keys, is sorted by name and holds every name of every bucket. Each such entry is an object with the node's version and stashed fields, in canonical key order, and the `dev`/`peer` flag of the last bucket listing the name unless a regular pass removed it. |
| V1Synth.RootEntries | src/v1/synth.ts:184 | Every listed name's entry in the materialised root table is the typed package of its source node. |
| V1Synth.ParsedGraphSynthesizable | src/v1/parse.ts:61-95 | Every graph that parse returns meets synth's preconditions. |
| V1Synth.ParseThenSynth | src/v1/index.test.ts:11-28 | Parse then synth fails exactly as parse can: a TypeError or a not-found error for a missing root entry, and never when every listed and required name has a root entry. Otherwise it gives a lockfile with the same version and the same other keys as the input, and every name the manifest lists is in its `dependencies`. |
| LockTree.LinkDependency | index.mjs:46-59 | A linked node has the entry's name, the module and package found for it, the module's version, the link target, and its own dependencies linked in turn. With the call stack exhausted it is a RangeError, and any other failure is a TypeError. |
| LockTree.LinkDependencies | index.mjs:62-69 | The output has exactly the accumulated keys plus the table's keys, distinct, each linked to the node of that name. When the table's keys are distinct and new, they follow the accumulated keys in table order. |
| LockTree.LinkBucket | index.mjs:75-85 | A null dependency field gives no bucket. Otherwise the bucket holds exactly the field's own keys, each linked. |
| LockTree.SearchAndLink | index.mjs:72-88 | A null package is a TypeError. Otherwise each dependency field of the package becomes a linked bucket exactly when it is non-null. |
| LockTree.Parse | index.mjs:146-178 | Fails with the required-properties error exactly when `packages`, `dependencies` or `packages[""]` is missing. On success the tree carries `packages[""]` and every other key of the lock, and links the root package's dependencies. |
| LockTree.Record | index.mjs:99-118 | Each slot keeps an existing non-null value, else takes the node's package or module. A linked package also fills its `resolved` target slot the same way. Success means no non-null slot changes. A free package slot with a null package is a TypeError. |
| LockTree.Fabricated | index.mjs:180-197 | The rebuilt lockfile is an object whose `packages` and `dependencies` are objects, with `packages[""]` the tree's module. |
| LockTree.Accumulators.constructor | index.mjs:181-182 | Both tables start empty. |
| LockTree.Accumulators.ReconstructDependency | index.mjs:99-121 | The outcome and the tables are what the recursive specification gives for this node. |
| LockTree.Accumulators.ReconstructDependencies | index.mjs:124-128 | The outcome and the tables are what the specification gives for the nodes, in order. |
| LockTree.Accumulators.SearchAndReconstruct | index.mjs:131-143 | The outcome and the tables are what the specification gives for the three buckets, in order. |
| LockTree.Fabricate | index.mjs:180-197 | Equals the fabricate specification: walk the tree, set `packages[""]`, drop the bucket fields and add the two tables. |
| LockTree.ReconstructedKeeps | index.mjs:99-121 | A successful reconstruction of a node never overwrites a non-null slot. Afterwards the node and every node below it have their package and module slots filled. |
| LockTree.SearchedAndReconstructedKeeps | index.mjs:131-143 | The same for every bucket of a tree. |
| LockTree.ReconstructedBucketKeeps | index.mjs:132-142 | The same for one bucket. |
| LockTree.ReconstructedAllKeeps | index.mjs:124-128 | The same for a list of nodes. |
| LockTree.RecordAgrees | index.mjs:99-118 | For a node linked from a lockfile, recording succeeds. Every slot then holds what the lockfile has under that key. |
| LockTree.ReconstructedAgrees | index.mjs:99-121 | Reconstructing a linked node succeeds and keeps every slot equal to the lockfile's entry. |
| LockTree.SearchedAndReconstructedAgrees | index.mjs:131-143 | Reconstructing linked buckets succeeds and keeps every slot equal to the lockfile's entry. |
| LockTree.ReconstructedBucketAgrees | index.mjs:132-142 | The same for one linked bucket. |
| LockTree.ReconstructedAllAgrees | index.mjs:124-128 | The same for a list of linked nodes. |
| LockTree.ParsedFields | index.mjs:169-171 | The parsed tree keeps every key of the lock other than `packages` and `dependencies`, with distinct keys. |
| LockTree.FabricatedTables | index.mjs:185-196 | The fabricated lockfile has the tree's fields, `packages` with `""` set to the module, and the rebuilt `dependencies`. |
| LockTree.FabricateAfterParse | index.spec.js:145-167 | Take a parsed lockfile with no top-level devDependencies or peerDependencies fields. Fabricate succeeds and keeps every other key of the lockfile. Every entry it writes into `packages` and `dependencies` equals the lockfile's own entry under that key. Every linked package and module is present. |

## Left out

- `parseInput` (`index.mjs:7-26`) is not modelled: JSON text and Buffer decoding is I/O. The model starts from the decoded value.
- Prototype-chain lookups (`in`, and properties inherited from `Object.prototype`) are not modelled: objects have own keys only.
- `Object.keys`/`Object.entries` of strings and arrays are taken as empty. Numbers are integers, not floats.
- Integer-like keys are kept in insertion order. JavaScript enumerates keys that are array indices (`"0"`, `"42"`) first, in ascending numeric order, and only then the other keys in insertion order. The model keeps insertion order for every key. This differs only for package names or fields that are canonical integer strings. It affects the sorted table rebuilt by `Object.fromEntries` (`src/v1/synth.ts:184`), the keys `reorderObject` leaves after the listed ones (`src/v1/synth.ts:34-47`), and every `Object.keys`/`Object.entries` walk.
- `V1Synth.StrLessTotal`: string order compares code points, not UTF-16 code units. The two differ only outside the Basic Multilingual Plane.
- `V1Synth.Synth`: requires that neither the lockfile's stash nor any node's stash holds a `dependencies` key. `ParsedGraphSynthesizable` proves every parsed graph meets this.
- `V1Synth.SynthState.SavePackage`: requires the parent object to be older than the child when the name is taken at the root. This keeps the arena a forest so it can be materialised as a value; in `synth` a nested dependency is always created after its parent.
- `V1Synth.ParseThenSynth`: states the lockfile's version, its other keys and the presence of every listed name. It does not state that synth(parse(x)) deep-equals x. That fails in general: when a dependency is cached and its name is already at the root, `src/v1/synth.ts:106-112` does not nest it, so a nested copy in the input is lost.
- `V1Synth.SynthState.SecondPass`: states the invariant, that root entries are kept, and that it only retypes existing package objects. It does not state the exact nesting it builds, nor that every dependency of a bucket package ends up linked.
- `V1Synth.SynthState.SynthPackage`: states that the new object's fields are the node's synthesised fields, possibly retyped by `ensureProperType` with the same kind, rather than exactly equal to them. A cyclic dependency can hit the object in the cache before `synthPackage` returns. `V1Synth.ProperTypeOwnKind` shows that the retyping changes nothing for the nodes parse produces.
- The branch-deletion scenario of `src/v1/synth.test.ts:53-83` (mutating a parsed graph before synth) is not modelled.
- `LockTree.LinkDependency`: the unbounded recursion of `index.mjs` is bounded by a `fuel` parameter, and running out is the RangeError a stack overflow throws. No lemma states how much fuel suffices.
- `LockTree.Fabricate`: requires that each tree field of `dependencies`, `devDependencies` and `peerDependencies` either holds a linked bucket or is null. A tree whose raw field holds a value that was never linked is outside the model.
- `LockTree.FabricateAfterParse`: proves the sound half of the round trip. Every rebuilt entry agrees with the lockfile, and every linked package is present. It does not prove that unreachable lockfile entries are absent from the rebuilt tables, so the deep equality of `index.spec.js:145-167` is not stated.
- A `LINK` symbol on a package whose `link` is falsy is not representable: a node carries a link target only when its package is a link.
- A dependency's `name` is a string. Trees whose names are not strings are outside the model.
- Type-only files and the test-resource and script files are not part of this model.

## Findings

| source | as written | input that shows it | evidently intended | confidence | as-written member | corrected member |
|---|---|---|---|---|---|---|
| src/v1/parse.ts:27 | The memo key is `name + version`, with no separator. | `a` at `11.0.0` and `a1` at `1.0.0` both give `a11.0.0`. Resolving `a1` after `a` returns the node named `a`. | One node per (name, version) pair. The tests at `src/v1/parse.test.ts:73-96` expect one shared object for the same name and version and separate objects for different versions. | not executed | V1Parse.LookupKeyCollision | V1Parse.ParseWorkbench.ParsePackage |
