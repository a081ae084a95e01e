# iotdb-fs core, modelled in Dafny

This project models the core of `iotdb-fs`. The library's operations take a
`self` record, read the filesystem and produce a new record. Six parts are
modelled:

- **Directory listings** (`lib/list.js`): the one-level `list`, and the two
  recursive listings `breadth_first` (also exported as `list.recursive`) and
  `depth_first`. Each keeps a work-list of paths and, for every directory it
  reads:
  - optionally sorts the names;
  - keeps the entries that pass `filter`/`filter_path` as results;
  - queues the entries that `parer`/`parer_path` do not prune.

  A failed read of `self.path` ends the listing with `otherwise_paths` or the
  error. Any other failed read goes to `fails`. The sorters `natural` and
  `natural_ignore_case` are modelled too.
- **`join`** (`lib/join.js`): `path.join`, restarted at the last absolute part.
- **`fs.read.json.magic` and its parameterized form `read_p`**
  (`lib/magic.js`): choose a reader from the path and hand back only `json`.
- **The readers** (`lib/read.js`): `read`, `read.buffer`, `read.utf8`,
  `read.json`, `read.jsons`, `read.yaml` and `read.yamls`. What is modelled is
  their fallback table: which error a fallback (`fs$otherwise_*`) field
  swallows, which one is replaced, and which one is passed on.
- **`map` and `map.json`** (`lib/map.js`): transforms of `self.outputs`.
- **`all(f)`** (`lib/all.js`): runs `f` once per path and collects one record
  per path.

Modules:

- `Js`: JavaScript values, the `self` record as `map<string, Value>`, and
  `Result`/`Option`.
- `FsTree`: the filesystem as a finite tree; `readdir` is `ReadDir`.
- `NodePath`: `path.join` and `path.isAbsolute` as uninterpreted functions.
- `Sorters`: the comparators and the sort.
- `ListSteps`: the request record, the per-directory steps, and `list`.
- `ListOrders`: the FIFO and LIFO visit orders over any step that shrinks the
  tree. Breadth-first is level order; depth-first groups are post-order.
- `ListScan`: the fold of visits into `paths` and `fails`, with the early end
  on a failed read of the root.
- `ListTraversal`: the two recursive listings as `while` loops over a
  work-list, proved equal to the `ListScan` specifications.
- `ListProperties`: theorems about the listings.
- `Join`, `Read`, `ReadContext`, `Magic`, `Map`, `All`: the helpers.
  `ReadContext.Context` is the mutable `self` object. Its methods update
  `fields` in place and are proved to agree with the `Read` functions.

Where the tests under `test/` expect something else, the model follows the
code:

- The batch of `all` stores its records only in `results`; test/all.js reads
  `outputs` (lib/all.js:57-61).
- The listings read the unprefixed fields `filter`, `filter_path`, `parer`,
  `parer_path`, `sorter` and `otherwise_paths` (lib/list.js:59-66,
  lib/list.js:111-112); the tests under `test/list/` pass `fs$`-prefixed ones.

## Model

| member | source | states |
|---|---|---|
| FsTree.ReadDir | lib/list.js:121-122 | `readdir` succeeds exactly on a listable directory and returns its entry names; a missing path fails with ENOENT |
| Sorters.LessIrreflexive | lib/list.js:248-250 | string `<` is irreflexive |
| Sorters.LessAsymmetric | lib/list.js:248-250 | string `<` never holds both ways |
| Sorters.LessTotal | lib/list.js:248-250 | two different strings are ordered one way or the other |
| Sorters.LessTransitive | lib/list.js:248-250 | string `<` is transitive |
| Sorters.NaturalZeroIffEqual | lib/list.js:247-255 | `natural(a, b)` is 0 exactly when `a == b` |
| Sorters.NaturalAntisymmetric | lib/list.js:247-255 | `natural(a, b) == -natural(b, a)` |
| Sorters.NaturalConsistent | lib/list.js:247-255 | `natural` is a consistent comparator (antisymmetric and transitive on `<= 0`), so sorting by it sorts |
| Sorters.NaturalIgnoreCaseZeroIff | lib/list.js:257-268 | `natural_ignore_case` is 0 exactly when the lower-cased strings are equal, and is antisymmetric |
| Sorters.NaturalIgnoreCaseConsistent | lib/list.js:257-268 | `natural_ignore_case` is a consistent comparator for any lower-casing function |
| Sorters.SortBy | lib/list.js:59-61 | `names.sort(sorter)` is a permutation of the names |
| Sorters.SortByStable | lib/list.js:59-61 | the sort is stable: for a consistent comparator, the names that compare equal to any one key keep their input order |
| Sorters.SortBySorted | lib/list.js:59-61 | with a consistent comparator the sorted names are in comparator order |
| ListSteps.SortEntries | lib/list.js:138-140 | a directory's entries, sorted when `sorter` is set, are a permutation of its entries |
| ListSteps.SortedMember | lib/list.js:138-140 | sorting neither adds nor loses an entry |
| ListSteps.MatchesMember | lib/list.js:148-151 | a path is in a directory's result set exactly when it is the join of an entry whose name passes `filter` and whose path passes `filter_path` |
| ListSteps.DescendMember | lib/list.js:142-146 | an item is queued exactly when it is the join of an entry not pruned by `parer` on the name or `parer_path` on the path |
| ListSteps.MatchesUnfiltered | lib/list.js:148-151 | without filters the result set is one joined path per entry, in entry order |
| ListSteps.MatchesIgnorePruners | lib/list.js:148-152 | the result set does not depend on `parer`/`parer_path` |
| ListSteps.DescendIgnoresFilters | lib/list.js:142-146 | what is queued does not depend on `filter`/`filter_path` |
| ListSteps.DescendNeverPared | lib/list.js:111-112 | pruners that never match queue what the defaults `() => false` queue |
| ListSteps.ListReadFailure | lib/list.js:49-57 | `list` on an unreadable path gives `otherwise_paths` when defined and the read error otherwise |
| ListSteps.ListMember | lib/list.js:59-66 | `list` on a directory succeeds, and a path is listed exactly when it joins `self.path` with an entry passing both filters |
| ListSteps.ListUnfiltered | lib/list.js:59-66 | `list` without filters gives one path per entry, in sorted order (native order without `sorter`), sorted by a consistent `sorter` |
| ListOrders.BreadthFirstVisitsLevels | lib/list.js:107-146 | the FIFO work-list visits the tree level by level |
| ListOrders.DepthFirstIsPostOrder | lib/list.js:224-235 | prepending each group in LIFO visit order gives the post-order of the tree: the groups beneath each child, children in descend-set order, before the directory's own group |
| ListOrders.SameVisits | lib/list.js:142-228 | the FIFO and the LIFO work-lists read the same items the same number of times |
| ListOrders.DescendSetVisited | lib/list.js:142-146 | everything queued below a read directory is read, by both orders |
| ListOrders.SameReports | lib/list.js:148-235 | both orders report the same multiset of result paths and of failures |
| ListOrders.QPathsStart | lib/list.js:148-152 | the breadth-first paths begin with the root's own group |
| ListOrders.SPathsEnd | lib/list.js:230-235 | the depth-first paths end with the root's own group |
| ListOrders.VisitedReported | lib/list.js:148-152 | every path of the group of a directory read is in both listings' paths |
| ListOrders.VisitedFailed | lib/list.js:121-136 | every item read that is not a directory is in both listings' failures |
| ListScan.ScanCompletes | lib/list.js:121-152 | without a failed read of `self.path`, every group and every failure is recorded in visit order |
| ListScan.ScanAborts | lib/list.js:123-130 | the first failed read of `self.path` stops the listing with the failures recorded before it and that read's error |
| ListScan.FirstAbort | lib/list.js:123-130 | when some read of `self.path` fails, there is a first such visit |
| ListScan.ScanCompletedIff | lib/list.js:121-136 | the scan completes exactly when no read of `self.path` fails |
| ListScan.ScanIgnoresGroups | lib/list.js:148-152 | completion, failures and the stopping error do not depend on the result sets |
| ListTraversal.PushAll | lib/list.js:142-152 | `forEach(name => stack.push(name))` and `forEach(name => self.paths.push(name))` append every item, in order |
| ListTraversal.UnshiftAll | lib/list.js:228 | `forEach(name => stack.unshift(name))` puts the descend set, reversed, in front of the work-list |
| ListTraversal.FlattenInto | lib/list.js:188 | the final `result.forEach(...)` appends every group, in order |
| ListTraversal.BreadthFirst | lib/list.js:96-159 | the work-list loop of `breadth_first` delivers exactly its specification: paths in visit order, failures, or the root's fallback or error |
| ListTraversal.DepthFirst | lib/list.js:166-242 | the loop of `depth_first` with its separate result stack delivers exactly its specification |
| ListProperties.RootVisitsAlone | lib/list.js:107-130 | an unreadable root is the only item either listing reads |
| ListProperties.RootUnreadable | lib/list.js:121-130 | an unreadable root gives `otherwise_paths` with no failures when defined, and the read error otherwise |
| ListProperties.BreadthFirstIsLevelOrder | lib/list.js:107-146 | `breadth_first` reads the tree in level order |
| ListProperties.BreadthFirstListed | lib/list.js:107-154 | without a failed read of `self.path`, `breadth_first` lists every group in visit order and every failure |
| ListProperties.DepthFirstListed | lib/list.js:177-238 | without a failed read of `self.path`, `depth_first` lists the groups in reverse visit order, and every failure |
| ListProperties.BreadthFirstCompletes | lib/list.js:114-154 | `breadth_first` completes exactly when no read of `self.path` fails, and then lists the concatenated groups |
| ListProperties.BreadthFirstAborts | lib/list.js:121-136 | a failed read of `self.path` ends `breadth_first` with `otherwise_paths` or the error |
| ListProperties.DepthFirstIsPostOrder | lib/list.js:186-235 | `depth_first` completes exactly when no read of `self.path` fails, and then its paths are the groups in post-order |
| ListProperties.DepthFirstAborts | lib/list.js:203-218 | a failed read of `self.path` ends `depth_first` with `otherwise_paths` or the error |
| ListProperties.SameItemsVisited | lib/list.js:142-228 | both recursive listings read the same multiset of items |
| ListProperties.NoAbortSameItems | lib/list.js:121-136 | whether a failed read of `self.path` occurs depends only on the multiset of items read |
| ListProperties.SameOutcome | lib/list.js:121-218 | the two listings both complete or both stop, and both fail or neither does |
| ListProperties.SameListing | lib/list.js:142-235 | when they complete, the two listings report the same multiset of paths and of failures |
| ListProperties.FiltersDoNotSteer | lib/list.js:142-152 | `filter`/`filter_path` change neither what is read nor what fails nor whether the listing completes |
| ListProperties.PrunersDoNotReport | lib/list.js:142-152 | `parer`/`parer_path` change no directory's result set, nor `list` |
| ListProperties.NeverMatchingPruners | lib/list.js:111-112 | pruners that never match give the same visits and listings as no pruners |
| ListProperties.NoPrunersReachEverything | lib/list.js:142-146 | without pruners, every entry of a directory read is read too, by both listings |
| ListProperties.ReadsEndUpListed | lib/list.js:121-152 | without a failed read of `self.path`, every result path of every directory read is reported, and every unreadable item (plain files included) is in `fails` |
| ListProperties.PrunedEntryStillReported | lib/list.js:142-152 | an entry passing both filters is reported even when it is pruned from descent |
| ListProperties.ListStartsAndEnds | lib/list.js:59-66 | `list` of a directory is the start of the breadth-first paths and the end of the depth-first paths |
| Join.LastAbsolute | lib/join.js:32-37 | `start` is the index of the last absolute part, or 0 when no part is absolute |
| Join.Join | lib/join.js:31-40 | the loop result is `path.join` of the parts from the last absolute one |
| Join.LastAbsoluteIs | lib/join.js:32-39 | an absolute part with no absolute part after it is where the join starts |
| Join.JoinWithoutAbsolute | lib/join.js:32-39 | with no absolute part the result is plain `path.join(...parts)` |
| Join.JoinSingle | lib/join.js:31-39 | one part is joined on its own |
| Join.JoinResets | lib/join.js:32-39 | appending an absolute part `q` makes every part before `q` irrelevant |
| Read.DocumentFallsBack | lib/read.js:40-44 | ENOENT with `fs$otherwise_document` defined succeeds with the fallback as document (same at 85-89 and 124-128) |
| Read.DocumentErrors | lib/read.js:38-48 | a document read fails exactly on a non-string path or on a read error that is not ENOENT-with-fallback, and then with that read error |
| Read.DocumentFields | lib/read.js:50-53 | after any success the document is the one read or the fallback, `document_encoding` is null, `document_name` the basename, `document_media_type` the MIME type, and nothing else changes |
| Read.DocumentReadersAgree | lib/read.js:82-141 | `read`, `read.buffer` and `read.utf8` differ only in the encoding passed to `fs.readFile` |
| Read.ParsedTable | lib/read.js:166-186 | `read.json` succeeds exactly on ENOENT with a fallback, or on a read whose parse succeeds or has a fallback; it then stores the parsed value whenever parsing succeeds, and the fallback only on ENOENT or a parse failure |
| Read.ParsedErrorIsReported | lib/read.js:172-181 | a failed parsing reader reports either the read error or, with no fallback, the parse error |
| Read.ReadJsonWritesOnlyJson | lib/read.js:165-188 | `read.json` writes only `json`: the document fields are never set |
| Read.ReadYamlIsReadJson | lib/read.js:262-292 | `read.yaml` follows the fallback rules of `read.json`, with `safeLoad` on a Buffer |
| Read.JsonsAgree | lib/read.js:212-240 | `read.jsons` and `read.yamls` store the same value in `json` and `jsons` on every success, and change nothing else |
| Read.ParsedArrayIsArray | lib/read.js:233-241 | `read.jsons` stores an array, or else its fallback |
| Read.ParsedArrayTable | lib/read.js:210-241 | `read.jsons` stores the fallback on ENOENT, and a parsed array as it is even when a fallback is defined |
| Read.NotAnArray | lib/read.js:233-241 | a parsed value that is not an array gives `Invalid("expected an Array")` without a fallback, the fallback with one |
| Read.ReadErrorBecomesParseError | lib/read.js:211-231 | in `read.jsons` a failed read reaches `JSON.parse(undefined)`: the result is the fallback or the parse error, never the read error |
| Read.ParsedArrayErrors | lib/read.js:219-241 | every error of `read.jsons` is a parse error or `Invalid("expected an Array")`, and only without a fallback |
| ReadContext.Context.ReadWithEncoding | lib/read.js:40-55 | the in-place document read: the record gets the four document fields, or stays as it was on error |
| ReadContext.Context.Read | lib/read.js:37-57 | `read` updates `self` or rejects exactly as the `read` decision table says |
| ReadContext.Context.ReadBuffer | lib/read.js:82-102 | `read.buffer` updates `self` or rejects exactly as its decision table says |
| ReadContext.Context.ReadUtf8 | lib/read.js:121-141 | `read.utf8` updates `self` or rejects exactly as its decision table says |
| ReadContext.Context.ReadJson | lib/read.js:165-188 | `read.json` updates `self` or rejects exactly as its decision table says |
| ReadContext.Context.ReadJsons | lib/read.js:208-245 | `read.jsons` updates `self` or rejects exactly as its decision table says |
| ReadContext.Context.ReadYaml | lib/read.js:262-292 | `read.yaml` updates `self` or rejects exactly as its decision table says |
| ReadContext.Context.ReadYamls | lib/read.js:313-346 | `read.yamls` updates `self` or rejects exactly as its decision table says |
| Magic.SelectCsv | lib/magic.js:84-85 | the CSV reader is chosen exactly for a `.csv` suffix |
| Magic.SuffixesExclusive | lib/magic.js:83-92 | the `.csv`, `.json` and `.yaml` tests and `"-"` exclude each other |
| Magic.SelectStdin | lib/magic.js:86-87 | the stdin reader is chosen exactly for the path `"-"` |
| Magic.SelectYaml | lib/magic.js:90-91 | `read.yaml` is chosen exactly for a `.yaml` suffix |
| Magic.SelectJson | lib/magic.js:83-92 | `read.json` is chosen for `.json` and for every path no other test claims |
| Magic.MagicReadErrors | lib/magic.js:78-97 | `read` rejects a non-string path, and otherwise fails exactly with the chosen reader's error |
| Magic.MagicReadCopiesOnlyJson | lib/magic.js:94-96 | only `json` is taken from the reader; every other field is the caller's own |
| Magic.ParamContextFields | lib/magic.js:114-119 | `read_p` uses `_path` when truthy, else `self.path`, and `_otherwise` unless undefined, else `self.otherwise`; nothing else changes |
| Magic.ReadPCopiesOnlyJson | lib/magic.js:114-122 | `read_p` gives back only the `json` that `read` produced |
| Magic.ReadPIgnoresOtherwise | lib/magic.js:116-120 | for a JSON or YAML path the `_otherwise` argument of `read_p` has no effect |
| Magic.ReadJsonOnlyNeeds | lib/read.js:165-188 | the `json` of `read.json` depends only on `path` and `fs$otherwise_json` |
| Magic.ReadYamlOnlyNeeds | lib/read.js:262-292 | the `json` of `read.yaml` depends only on `path` and `fs$otherwise_json` |
| Magic.ReadPFallbackLost | lib/magic.js:114-122 | `read_p("data/does-not-exist", 123)` on `{}` with the file missing rejects with ENOENT |
| Magic.IntendedReadPFallsBack | lib/magic.js:114-122 | with `_otherwise` stored as `fs$otherwise_json`, a missing JSON file gives `json == _otherwise` |
| Map.MapAll | lib/map.js:38 | `outputs.map(f)` succeeds exactly when `f` returns on every element, and then element i is `f(outputs[i])`; otherwise it fails with the first throw |
| Map.MapOutputsResult | lib/map.js:32-39 | `map` succeeds exactly when the guards pass and `f` never throws; the length is kept, element i is `f(outputs[i])`, and only `outputs` changes |
| Map.GuardRejects | lib/map.js:35-36 | a failed guard rejects both entry points with its assertion |
| Map.NoDocumentUnchanged | lib/map.js:57-59 | an output without a truthy `document` is returned unchanged and `f` plays no part |
| Map.DocumentGetsJson | lib/map.js:61-65 | an output with a document becomes a copy differing only in `json`, which is `f`'s result |
| Map.ThrowLeavesUndefined | lib/map.js:66-69 | when `f` throws, that position becomes `undefined` |
| Map.MapJsonAll | lib/map.js:56-70 | the `map_json` callback maps each output in place of its index, keeping the length |
| Map.MapJsonKeepsLength | lib/map.js:50-71 | `map.json` never rejects once the guards pass, keeps the length, and changes only `outputs` |
| Map.GuardOnSelfF | lib/map.js:53-54 | a record with proper `outputs` and no `f` field is rejected, whatever the argument `f` |
| Map.IntendedMapOutputsAccepts | lib/map.js:32-39 | with the guard on the argument, `map(f)` succeeds exactly on an array of dictionaries on which `f` returns, element i is `f(outputs[i])`, and it agrees with `map` wherever `self.f` is a function |
| Map.IntendedMapJsonAccepts | lib/map.js:50-71 | with the guard on the argument, `map.json` accepts exactly the records whose `outputs` are dictionaries, and agrees with the original wherever `self.f` is a function |
| All.Records | lib/all.js:41-55 | one record per path, in input order, each computed from that path alone |
| All.OneRecordPerPath | lib/all.js:37-65 | the batch rejects only when `paths` is not an array; otherwise one record per path in order, each naming its path, and no field but `results` changes |
| All.SuccessRecord | lib/all.js:45-50 | a successful operation gives exactly `{path, json, document, document_media_type}` from its result |
| All.FailureRecord | lib/all.js:51-54 | a failing operation gives `{path, error}` with its error |
| All.FailuresIsolated | lib/all.js:41-55 | a record depends only on what `f` does for that path |
| All.OnlyPathVaries | lib/all.js:42-44 | each call of `f` sees the caller's record with `path` set, and nothing else varies |

## Findings

| source | as written | input that shows it | evidently intended | confidence | as-written member | corrected member |
|---|---|---|---|---|---|---|
| lib/magic.js:118 | `read_p` stores `_otherwise` as `otherwise`, a field no reader consults; `read.json` and `read.yaml` look at `fs$otherwise_json` | `read_p("data/does-not-exist", 123)` on `{}` with the file missing rejects with ENOENT | store `_otherwise` as `fs$otherwise_json`, so that `json == 123`, which test/read.magic.js:98-109 expects | not executed; high | Magic.ReadPFallbackLost | Magic.IntendedReadPFallsBack |
| lib/map.js:36 | both guards test `self.f` rather than the argument `f` (the same guard is at line 54) | `fs.map(output => output)` on `{outputs: [{}]}` rejects with `map: expected self.f to be a Function`; `map_json(f)` called inside the module, the usage the comment at lib/map.js:48 shows, would reject the same way | test the argument `f` | not executed; medium | Map.GuardOnSelfF | Map.IntendedMapOutputsAccepts, Map.IntendedMapJsonAccepts |

## Left out

- I/O and asynchrony:
  - `fs.readdir` is a total function over a finite tree (`FsTree.ReadDir`).
  - The trampolining through `process.nextTick` is a sequential loop.
  - Promise plumbing (`_.promise`, `Q`, `done`) is a `Result`.
  - Concurrent changes to the filesystem are not modelled.
- Symlink cycles: a finite tree cannot have them, so every listing terminates.
- The `assert.ok` type checks at lib/list.js:99-105 and 169-175, and `_.promise.validate` in `list`:
  - The request is a typed record. A filter is an `Option` of a function, and `sorter` is an `Option` of a comparator.
  - So a non-function filter, or an `otherwise_paths` that is `null` or not an array, cannot be expressed.
  - `_.promise.validate` in the readers is modelled only for the required string `path`. Its checks on optional `accepts` fields are not modelled, and its error is a parameter (`Env.invalid`).
- The branch for array items in `depth_first` (lib/list.js:196-201) is left out. Nothing ever puts an array on the work-list, so it cannot run.
- `path.join` and `path.isAbsolute` are uninterpreted (`NodePath.PathApi`).
  - The listings take `path.join(dir, name)` to name that entry's node. The model carries the node along with the path.
  - A path that normalises onto `self.path` aborts like the root itself, as `first === self.path` compares paths.
- Sorters.SortBy: the model sorts with a stable insertion sort. It is proved to be a permutation, and to be sorted for a consistent comparator. It is also proved stable for a consistent comparator (`Sorters.SortByStable`). That it agrees element for element with `Array.prototype.sort` is not proved. Such agreement holds for any stable sort when `sorter` is consistent; for any other comparator ECMAScript leaves the order to the implementation.
- Sorters.NaturalIgnoreCase: `toLowerCase` is a parameter. String `<` is code-unit order on `seq<char>`; UTF-16 surrogates and locale rules are not modelled.
- `fs.readFile`, `JSON.parse`, `yaml.safeLoad`, `yaml.safeLoadAll`, `mime.getType` and `path.basename` are parameters (`Read.Env`).
  - Only their outcome enters the model: the document, the parsed value, or what they throw.
  - `JSON.parse(undefined)` throwing is a precondition of `Read.ReadErrorBecomesParseError`, not a fact the model derives.
  - `read.json` does not validate `path`, so a non-string path goes straight to `readFile`. What that does is the parameter's business.
- `read_stdin` (lib/read.js:362-382, lib/read_stdin.js), `_read_csv` and `_read_stdin` (lib/magic.js:38-74) are left out. They are streams over external parsers; `Magic.Streams` passes in their outcomes.
- The `.end(done, self, "json")` of the promise helper is taken to copy `json` from the reader's record onto the caller's record. That is what lib/magic.js:94-96 and 120-121 rely on.
- The exports at lib/map.js:77 and lib/all.js:74 are left out. The first assigns `map.json`, which is undefined, so `map_json` is not reachable through `exports`. The second wraps `all` in `Q.denodeify` once more. The model follows `map_json` and `all(f)` themselves.
- ListSteps.Passes, ListSteps.Matches: `Array.prototype.filter` passes `(value, index, array)` to `filter` and `filter_path` (lib/list.js:64-66, 148-150, and the same in `depth_first`). The model's filters see only their value, so a filter that reads its index, such as `(name, i) => i < 10`, is not modelled. `filter_path` would see its index among the entries `filter` kept, and the fused one-pass `Matches` cannot express that. The pruners are unaffected, since lib/list.js:143-145 wraps them in one-argument lambdas.
- Join.Join: `parts` are strings. A part that is not a string makes `path.isAbsolute` throw a `TypeError` (lib/join.js:34); that throw is not modelled.
- Map.MapAll: `Array.prototype.map` also passes the index and the array to `f`. The model's `f` sees only the element.
- All.All: the model's `self.paths.map` never throws for an array. For a non-array, the `TypeError` is the one for `undefined` or `null` (reading `map` fails), or "self.paths.map is not a function" for every other value. An object with a `map` method of its own is not modelled. `_.promise.ops.series` is taken to collect the records in order.
- Shallow clones are not aliased. The caller's record is a value in the model, so that it is not mutated (lib/all.js:39, lib/map.js:61) holds by construction. The lemmas state what the new record contains.
