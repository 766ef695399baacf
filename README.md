# pget resolver core in Dafny

This project models the core of `pget`, a small npm-style package manager
written in TypeScript for Bun, and proves properties of that model. It
covers four parts:

- **The dependency walk** (`src/list.ts`). `getDependency` fetches a package's
  version map and picks a version: the matcher's pick for a constraint, or the
  last key when the constraint is empty. It then places the package. A first
  sighting is hoisted into `flattenedPkgs`. A repeat is either a conflict or is
  appended to `unsatisfiedDeps` with a parent path. Then it visits the children
  that no ancestor frame already satisfies, each with a copy of the ancestor
  stack. `processDependencies` and `list` drive this walk over a manifest's
  `dependencies` and `devDependencies`.
- **The lock store** (`src/lock.ts`). `LockManager` has two generations of
  records. `createOrUpdate` merges field by field into the new one. `get`
  projects a record out of the old one.
- **The registry client** (`src/resolve.ts`). `retry` makes at most `retries + 1`
  attempts. `resolveVersions` caches version maps, and turns an error body into
  `PackageNotFoundError`.
- **Key sorting** (`utils/helpers.ts`). `sortKeys` returns an object's entries
  sorted by key. `beautifyJson` sorts a manifest's two dependency objects in place.

Files, one module each:

| file | module | models |
|---|---|---|
| `wrappers.dfy` | `Wrappers` | `Option`, `Result`, `Outcome` |
| `errors.dfy` | `Errors` | `src/errors.ts` and the plain `Error`/`TypeError` throws, with their messages |
| `entries.dfy` | `Entries` | a JS object as its ordered entries; `obj[k]`, `obj[k] = v` |
| `registry.dfy` | `Registry` | the registry records of `types/registry.ts` |
| `json.dfy` | `Json` | JS values as stored in lock records; `String(v)` for property keys |
| `manifest.dfy` | `Manifest` | the mutable manifest and its dependency objects |
| `helpers.dfy` | `Helpers` | `sortKeys`, `beautifyJson` |
| `lock.dfy` | `Lock` | `LockManager` |
| `resolve.dfy` | `Resolve` | `retry`, `resolveVersions` and its cache |
| `list.dfy` | `DependencyList` | the walk: specification functions and the `Resolver` class |
| `list_properties.dfy` | `ListProperties` | properties of whole runs of the walk |

### How the walk is modelled

- `flattenedPkgs` and `unsatisfiedDeps` are fields of the class `Resolver`.
- The registry cache and the attempt counter belong to `RegistryClient`.
- The ancestor stack is a `DepStack` object that the methods push and pop in place.
- Each method is proved equal to a specification function over a `State` value:
  - `GetDependency` to `Walk`
  - `SelectVersion` to `Select`
  - `Settle` to `Descend`
  - `VisitChildren` to `WalkChildren`
  - `ResolveRoots` to `WalkRoots`
  - `ProcessDependencies` to `WalkRoots` and `Rewrite`
  - `List` to `ListRun`
- The lemmas in `ListProperties` are proved about those functions.

Modelling choices:

- **Semver.** `semver` is a pair of uninterpreted function values:
  `satisfies(version, range)`, and `pick(versions, constraint)` for the call at
  `src/list.ts:33`.
- **Network.** `network(name, i)` is the outcome of the i-th request attempt
  overall. The client counts attempts in `sent`.
- **Sibling order.** `Promise.all` is modelled as depth-first evaluation of the
  siblings in declaration order. The first error ends the run. This order is a
  choice of the model.
- **Recursion depth.** Recursion carries a `fuel` bound. Running out gives the
  model-only error `DepthExhausted`.

The model reproduces the behaviour of the code as written:

- **Lock lookup.** Every call creates a fresh `LockManager`. The lookup always
  misses. The record is written, under `name@constraint`, into a manager that is
  then dropped.
- **Parent path.** When the nested record is pushed, `conflictIndex` is always
  -1. So the parent path is built from at most the last three stack names.
- **Frame contents.** A frame stores the value under the key `"dependencies"`
  of the package's dependency object. That value is a range string, normally
  absent, and it is indexed like a JS string.
- **Returned value.** A value is returned only for an empty constraint.
- **Empty stack.** `stack.at(-1)!` on an empty stack throws a `TypeError`.
- **Error unwinding.** A child that throws skips its parent's `pop`.

### Where the code does something other than its names suggest (the model follows the code)

- **Conflict check.** The error "Dependency conflict detected !" and the name
  `conflictIndex` suggest a conflict when no ancestor frame tolerates the new
  version. The code throws as soon as a tolerant frame is found
  (`src/list.ts:54`). It nests only when none is found.
- **Frame contents.** The frame field is named `dependencies`, which suggests
  the package's dependency map. The code stores `dependencies.dependencies`
  there (`src/list.ts:93`).
- **Returned value.** `processDependencies` writes each returned version
  back. The code returns a value only for an empty constraint
  (`src/list.ts:108`), so only those entries are rewritten.
- **Lock lookup.** `lock.get(...) || resolveVersions(...)` reads as a lock
  lookup before the registry. The lock manager is new on every call, so the
  registry always answers (`src/list.ts:27-29`).
- **Frame push.** `if (dependencies)` reads as "only when the record declares
  dependencies". `dependencies ?? {}` is always truthy, so the code always
  pushes a frame (`src/list.ts:73`, `src/list.ts:89`).

## Model

| member | source | states |
|---|---|---|
| Helpers.KeyLeqTotal | utils/helpers.ts:7 | any two keys are comparable under the sort's key order |
| Helpers.KeyLeqTransitive | utils/helpers.ts:7 | the key order is transitive |
| Helpers.KeyLeqAntisymmetric | utils/helpers.ts:7 | two keys each ordered before the other are equal, so the order is total on distinct keys |
| Helpers.SortKeys | utils/helpers.ts:5-9 | the result is a permutation of the input entries (same multiset) and is in ascending key order |
| Helpers.SortKeysKeySet | utils/helpers.ts:5-9 | the sorted object has exactly the input's key set and as many entries |
| Helpers.SortKeysDistinct | utils/helpers.ts:6-8 | an object with distinct keys still has distinct keys after sorting |
| Helpers.SortKeysKeepsValues | utils/helpers.ts:6-7 | every key maps to the same value before and after sorting (absent keys stay absent) |
| Helpers.SortKeysIdempotent | utils/helpers.ts:5-9 | sorting an already sorted object gives it back unchanged, so sorting twice equals sorting once |
| Helpers.BeautifyJson | utils/helpers.ts:30-38 | a null manifest is left alone; a present dependency object is replaced by a new one holding its key-sorted entries; an absent one and every other field stay as they were |
| Entries.SetExisting | src/list.ts:151 | assigning a key the object already has, at its first position, replaces that entry in place |
| Entries.Set | src/list.ts:151 | `obj[k] = v` makes `obj[k]` read `v`, leaves every other key's value, keeps the key order when k exists, and keeps keys distinct |
| Json.ToPropertyKey | src/lock.ts:27 | a string is its own property key; a number's key starts with "-" iff it is negative, and its digits read back as the number's magnitude |
| Lock.Assign | src/lock.ts:19 | `Object.assign`: the keys are the union; fields of the source win; other fields of the target are kept |
| Lock.Projection | src/lock.ts:26-48 | exactly the nineteen listed fields, each read from the stored record (missing ones `undefined`) |
| Lock.LockManager.constructor | src/lock.ts:11-14 | both generations start empty |
| Lock.LockManager.CreateOrUpdate | src/lock.ts:15-20 | an absent name gets exactly `pkgInfo`; an existing one gets the field-wise merge with `pkgInfo` winning; every other new-lock entry, the whole old lock and every later `get` are unchanged |
| Lock.LockManager.Get | src/lock.ts:21-49 | reads only the old lock at `name@constraint`: null iff that key is absent, else a one-key map from the record's version (as a property key) to the projection of its fields |
| Resolve.Retry | src/resolve.ts:11-20 | between 1 and `retries + 1` invocations, all but the last failed; success carries the last attempt's value; failure is the plain "Max retries reached!" error after exactly `retries + 1` failed invocations |
| Resolve.RetrySucceedsIffSomeAttemptDoes | src/resolve.ts:11-20 | retry succeeds iff one of the first `retries + 1` attempts succeeds |
| Resolve.DefaultBudgetExhausted | src/resolve.ts:8-34 | with the default RETRIES of 3, an uncached package whose attempts all fail costs exactly four attempts, leaves the cache alone and ends in "Max retries reached!" |
| Resolve.ResolveStep | src/resolve.ts:22-45 | a cached name is returned with no attempt; otherwise the attempts of one retry run are spent; cached maps are never removed or changed; success caches and returns the response's versions; an error body gives `PackageNotFoundError` with no further attempt and an unchanged cache; exhaustion gives the plain retry error, distinct from not-found; no other error can come out |
| Resolve.RegistryClient.constructor | src/resolve.ts:5-9 | the cache starts empty and no attempt has been made |
| Resolve.RegistryClient.ResolveVersions | src/resolve.ts:22-45 | the result, the new cache and the attempt count are those of ResolveStep on the old cache |
| DependencyList.DepStack.Pop | src/list.ts:105 | removes the top frame; an empty stack stays empty |
| DependencyList.DepStack.Slice | src/list.ts:102 | a fresh stack with the same frames |
| DependencyList.HasCirculation | src/list.ts:117-122 | true iff some frame has the name and a version satisfying the constraint |
| DependencyList.CheckStackDependencies | src/list.ts:124-137 | -1 iff no frame accepts the version; otherwise the first frame that does (no range for the name, or a range the version satisfies) |
| DependencyList.ChooseVersion | src/list.ts:32-37 | with an empty constraint the last key of the version map is chosen, and an empty map fails; otherwise the matcher's pick is chosen; a missing or empty choice fails with "Cannot resolve the package !" |
| DependencyList.Place | src/list.ts:39-71 | first sighting is hoisted with the tarball URL; a repeat conflicts iff the flattened version satisfies the new one and some frame accepts it; otherwise it nests under the last three stack names (satisfied repeat) or the top of the stack; the only other failures are `TypeError`s (missing record, empty stack) |
| DependencyList.DepStack.Push | src/list.ts:90-94 | the new frame goes on top; the frames below are kept |
| DependencyList.Select | src/list.ts:27-39 | the version lookup leaves both accumulators as they were; the cache and attempt count are those of the registry client's lookup; a failed lookup is its error; otherwise the call succeeds iff a version can be chosen, a failed choice is the plain `Cannot resolve` error, the chosen version is ChooseVersion over the cached version map, and its record is that map's entry for it |
| DependencyList.Walk | src/list.ts:22-115 | a call that returns yields a value iff its constraint is empty, and the value names the package |
| DependencyList.Descend | src/list.ts:39-114 | after version choice, a call that returns yields a value iff its constraint is empty, and that value is `{depName, version: matched, dependencies: record.dependencies ?? {}}`; a placement throw is the call's error and leaves the state as version choice left it |
| DependencyList.WalkRoots | src/list.ts:139-148 | on success there is one result per entry, present exactly for the entries with an empty constraint and named after the entry |
| DependencyList.Phase | src/list.ts:139-152 | a missing object changes nothing and yields no entries; a present one leaves the state and error of the root calls and on success yields its entries rewritten by their values |
| DependencyList.ListRun | src/list.ts:154-159 | a failed first phase ends the run with its error and state; after a successful first phase the state and error are those of the second phase, run on the state the first left; on success the runtime object's entries are those of its phase and the development object's those of its phase |
| DependencyList.Rewrite | src/list.ts:149-151 | existing keys keep their positions, keys stay distinct, and a key no returned value names keeps its value |
| DependencyList.LockRecordFields | src/list.ts:75-87 | the lock record has exactly the eleven fields written there, with the given name, version, `_id` and the dependency object's keys |
| DependencyList.Resolver.constructor | src/list.ts:17-20 | both accumulators start empty |
| DependencyList.Resolver.GetDependency | src/list.ts:22-115 | the accumulators, cache and attempt count change as Walk says and the result is Walk's; a call that returns leaves the caller's stack as it was; one that throws leaves it as it was or with one extra frame on top |
| DependencyList.Resolver.SelectVersion | src/list.ts:27-39 | a fresh lock manager with empty old and new locks is created; the cache, attempt count and result change as Select says |
| DependencyList.Resolver.Settle | src/list.ts:39-114 | placement, push, children and pop change the state as Descend says; on a fresh lock manager the record is written under `name@constraint` and is the only new entry; a placement throw leaves the lock untouched |
| DependencyList.Resolver.WriteLock | src/list.ts:75-87 | the old lock is kept; on an empty new lock the only entry is the eleven-field record under `name@constraint` |
| DependencyList.Resolver.Record | src/list.ts:41-71 | the decision is Place's; it is recorded as one new flattened entry or one appended nested record; a throw changes nothing |
| DependencyList.Resolver.VisitChildren | src/list.ts:95-104 | children run in order on copies of the stack, as WalkChildren says; the stack itself is untouched |
| DependencyList.Resolver.ResolveRoots | src/list.ts:144-148 | each root runs on a new empty stack, as WalkRoots says |
| DependencyList.Resolver.WriteBack | src/list.ts:149-151 | the dependency object becomes Rewrite of its entries by the returned values |
| DependencyList.Resolver.ProcessDependencies | src/list.ts:139-152 | a missing object changes nothing; otherwise the state is WalkRoots'; on failure the object is untouched; on success it is rewritten with the returned values |
| DependencyList.Resolver.List | src/list.ts:154-159 | runs the runtime then the development dependencies as ListRun says and returns the accumulators; on success both dependency objects hold the entries ListRun computed; a throwing phase leaves its object, and the development object, as they were |
| ListProperties.UnvisitedSkipsCircular | src/list.ts:96-100 | a dependency is kept by the filter iff it is declared and no frame, including the one just pushed, already has its name at a satisfying version; the filter never adds entries |
| ListProperties.SelectGrows | src/list.ts:27-29 | the version lookup keeps every flattened entry, nested record and cached map, and never lowers the attempt count |
| ListProperties.ApplyGrows | src/list.ts:41-71 | one placement keeps every flattened entry, appends to the nested records, adds exactly one record in total, and leaves the package flattened |
| ListProperties.WalkGrows | src/list.ts:22-115 | one call never overwrites a flattened entry, only appends nested records, keeps cached maps and never lowers the attempt count; every nested record stays backed by a flattened entry; a call that returns leaves its package flattened |
| ListProperties.DescendGrows | src/list.ts:39-114 | the same growth and consistency from the placement on |
| ListProperties.WalkChildrenGrows | src/list.ts:95-104 | the same growth and consistency over a list of children |
| ListProperties.WalkChildrenFlattens | src/list.ts:95-104 | after all children of a package return, every one of them is flattened |
| ListProperties.DescendResolvesChildren | src/list.ts:89-103 | a placed package's call that returns had a record, and every declared dependency not circular against the stack with the package's own frame pushed is flattened afterwards |
| ListProperties.WalkResolvesChildren | src/list.ts:22-115 | a call that returns found a record for its chosen version and flattened every dependency of it that the circularity filter, on the pushed stack, keeps |
| ListProperties.WalkNestsUnderTop | src/list.ts:65-70 | a name flattened at a version that does not satisfy the new choice is recorded, as the next nested record, under the name on top of the stack the call was given |
| ListProperties.DescendNestsChildUnderParent | src/list.ts:89-101 | the children run with the parent's frame on top: a first kept child that is flattened at a non-satisfying version is nested under the parent's name, right after the parent's own record |
| ListProperties.WalkRootsGrows | src/list.ts:144-148 | the same over the root calls; after success every root name is flattened |
| ListProperties.ListRunGrows | src/list.ts:154-159 | the same over a whole `list`; after success every entry of both objects is flattened |
| ListProperties.RewriteAt | src/list.ts:149-151 | on an object with distinct keys, the write-back sets position i to the returned version when call i returned a value and leaves it otherwise, keeping keys and order |
| ListProperties.WalkReturnsChosen | src/list.ts:32-34 | a call with an empty constraint that returns yields the package's latest version (the last key of its cached version map) with that version's dependencies |
| ListProperties.WalkRootsReturnChosen | src/list.ts:144-148 | after the root calls succeed, each entry with an empty constraint got back its package's latest version |
| ListProperties.RewriteWithLatest | src/list.ts:149-151 | when each empty-constraint entry got back its latest version, the write-back puts the last key of that package's version map there and leaves the other entries |
| ListProperties.ProcessRewritesEmptyConstraints | src/list.ts:144-151 | after success, an entry with an empty constraint holds the last version of its package's version map; every other entry is unchanged |
| ListProperties.RepeatBelowRootConflicts | src/list.ts:46-56 | when the bottom frame has no "dependencies" entry (the normal case), a repeat whose flattened version satisfies the new one conflicts anywhere below the root |
| ListProperties.SatisfiedRepeatNestsOnlyAtRoot | src/list.ts:46-64 | with such frames, the satisfied-repeat branch nests only from a root call, under the empty parent path |
| ListProperties.ConflictParentIsLastThree | src/list.ts:57-62 | the parent path at index -1 joins at most the last three stack names with "/node_modules/" |
| ListProperties.UnsatisfiedRepeatAtRootThrows | src/list.ts:65-71 | an unsatisfied repeat from a root call reads the top of an empty stack and throws a `TypeError` |
| ListProperties.CachedNameNotRefetched | src/resolve.ts:23-25 | a call for a cached name makes no request attempt before placing the package |

## Left out

- HTTP requests, the `Promise.race` timeout and `NetworkError` on timeout are not modelled as such. Each attempt's outcome is the parameter `network`, and a timed-out attempt is one whose outcome is a failure.
- Reading `REGISTRY`, `RESOLVETIMEOUT` and `RETRIES` from the environment is not modelled. The retry budget is a `nat` parameter, so a negative or fractional budget, on which `retry` would never stop, is not modelled.
- A response body that fails to parse as JSON is not modelled. A body is either an error object or a manifest with a `versions` map.
- Concurrency is not modelled. `Promise.all` in `getDependency` and `processDependencies` runs its calls one after another, depth first, in declaration order. The first error ends the run, so interleavings and sibling races are not covered.
- Bun's `semver` is uninterpreted: `satisfies` and `pick` are parameters.
- DependencyList.Resolver.GetDependency: recursion is bounded by `fuel`. Running out gives `DepthExhausted`, which the source has no counterpart for. A registry graph deeper than the fuel is not modelled.
- `readLock` and `writeLock` are not part of this model. They are YAML and file I/O, and the lock store's records are the in-memory maps.
- `findFile`, `writeJsonToFile`, `src/index.ts`, `src/cli.ts` and `src/install.ts` are not part of this model. They are file-system, argument-parsing and download code.
- Helpers.SortKeys: `localeCompare` is replaced by code-point order on Unicode scalar values. This is neither locale collation nor UTF-16 code-unit order: the two differ for supplementary-plane characters against U+E000 to U+FFFF. `Object.fromEntries` putting integer-like keys first is not modelled either.
- Helpers.BeautifyJson: a dependency object is present or null; other falsy or non-object values of those fields are not modelled.
- DependencyList.Walk: `Object.keys` ordering integer-like version keys first is not modelled. The version map's key order is its entry order.
- DependencyList.CheckStackDependencies: a frame's range string is indexed by canonical indices and `length` only. Members inherited from `String.prototype` (such as `name = "at"`) are not modelled.
- DependencyList.LockRecord: the record written to the discarded lock manager is computed, but the lock's later use (`writeLock`) is out of scope.
- Lock.LockManager.Get: stored records are assumed to be objects (truthy), and a record is an open map of JSON values. Non-integer numbers are not modelled.
- The type declarations of `types/package-json-types` are not part of this model. The manifest keeps its other fields as opaque JSON values.
- Errors raised while building error messages or stringifying values (`toString` on non-strings) are not modelled. Every version and constraint is a string.
- Registry.VersionMap and Registry.Dependencies: a body from the network may repeat a key. `JSON.parse` keeps the last value of a repeated key, while `Get` reads the first entry with that key. Objects that repeat keys are not modelled faithfully.
- DependencyList.Resolver.List: when `dependencies` and `devDependencies` are one and the same object, the second phase sees the first phase's rewrite. The contract says nothing about that aliased case.
- Json.ToPropertyKey: integers of magnitude 10^21 or more, which JavaScript prints in exponent form (such as "1e+21"), are printed in full decimal.
