# lock-inspector, modelled in Dafny

lock-inspector reads a project's `package-lock.json` and runs checks over it.
Most of them build on one structure, the **version index**. `computeVersions`
folds the nested dependency tree into a map from package name to version to
the set of resolved URLs.

This model covers the index and every consumer of it:

- **DiffVisitor** writes `-`/`+` lines for removed packages, added packages,
  versions and URLs.
- **GitDiffVisitor** writes new/removed package summaries and a block per
  changed package.
- **DuplicateVersionsVisitor** warns once for every package version bound to
  more than one URL.
- **RegistryInconsistencyVisitor** collects, for every URL of an unscoped
  package, the URL's protocol followed by `//` and its host, and warns unless
  there is exactly one.
- **InsecureUriVisitor** walks the raw tree and reports every `http://` URL.
- **ManifestInconsistencyVisitor** checks the top-level lock versions against
  the ranges that `package.json` declares. It also has its own insecure-URL
  `visitDependency`.

It also covers the `Logger` those visitors write to, and `lockcheck`. That
function reads the lock, chooses the visitors by mode, runs each one once, and
fails when any of them has errors.

Modules and files:

- `Lock.dfy` holds the shapes of the lock and of the manifest. A dependency
  record's `dependencies` is a sequence of name/record pairs in for-in key
  order.
- `Ordered.dfy` holds insertion-ordered JavaScript `Map` and `Set` values:
  `OMap`, plus `Add` for `Set.prototype.add` and the filters.
- `Logging.dfy` is the `Logger` class. Console output is kept as a sequence of
  `Line(level, message)` values instead of coloured text.
- `VisitorBase.dfy` is the visitor base class: a logger plus an `errors`
  collection.
- `Versions.dfy` holds `computeVersions`, as an imperative method over a
  `VersionIndex` object. It is proved equal to a fold over the tree, and the
  fold's properties are proved as lemmas.
- `Walk.dfy` holds the recursive, children-first walk of `_visitDependencies`.
- There is one module per visitor. Each `Visit` method is proved to write
  exactly the lines of a specification function of the input indexes. The
  lemmas next to it state what those lines mean: exactly one line per removed
  package, exactly one warning per flagged pair, a block iff something
  changed, and so on.
- `Lockcheck.dfy` is the orchestration and the pass/fail rule.

How the source's collections are represented:

- A `Map` or `Set` that the source iterates is a sequence without repetitions,
  so iteration order is kept.
- `errors` and DiffVisitor's `messages` are sequences. Both are `Set`s of
  fresh object literals or arrays, so they never merge two entries.
- `semver.satisfies`, `` `${url.protocol}//${url.host}` `` of `new URL(u)`,
  `JSON.parse`, the file read, `git show`, and `hasErrors()` are parameters.

## Model

| member | source | states |
|---|---|---|
| Ordered.Add | src/util/Versions.ts:40-43 | `Set.prototype.add` on an ordered set: the result holds exactly the old elements and `x`, extends the old sequence, and never repeats an element |
| Ordered.Missing | src/visitors/GitDiffVisitor.ts:41-46 | `[...keys].filter((k) => !o.has(k))`: a key is kept iff it is listed and not bound; no repetition is introduced |
| Ordered.MinusFacts | src/visitors/DiffVisitor.ts:74-75 | the URL filter keeps exactly the elements of the first list that are absent from the second, without repetitions |
| Ordered.MissingNone | src/visitors/GitDiffVisitor.ts:41-46 | nothing is missing iff every listed key is bound |
| Ordered.MissingKeys | src/visitors/GitDiffVisitor.ts:41-46 | for a valid map, the filtered keys are listed once each and are exactly the keys the other map lacks |
| Ordered.Put | src/util/Versions.ts:38 | `Map.prototype.set`: the binding is updated, a new key goes last, an existing key keeps its place, validity is kept |
| Ordered.KeysCount | src/util/Versions.ts:5 | a valid map lists as many keys as it binds |
| Ordered.EmptyMap | src/util/Versions.ts:21 | `new Map()` is valid, with no keys and no bindings |
| Lock.TopLevelAreNodes | src/Visitor.ts:38-42 | every top-level record is a node of the tree |
| Lock.ChildrenAreNodes | src/Visitor.ts:38-42 | the children of a node are nodes: the walk reaches every depth |
| Logging.ItemsOnce | src/visitors/RegistryInconsistencyVisitor.ts:30-32 | listing distinct entries with `log('-', x)` names each entry once and nothing else |
| Logging.Logger.constructor | src/Logger.ts:7-8 | a fresh logger has counted no warnings and no errors and has written nothing |
| Logging.Logger.Warn | src/Logger.ts:14-18 | one `[WARN]` line; `warnings` goes up by exactly one; `errors` is unchanged; the counters still count the tagged lines |
| Logging.Logger.Error | src/Logger.ts:24-28 | one `[ERROR]` line; `errors` goes up by exactly one; `warnings` is unchanged; the counters still count the tagged lines |
| Logging.Logger.Info | src/Logger.ts:34-36 | one `[INFO]` line; neither counter changes |
| Logging.Logger.Log | src/Logger.ts:42-44 | one untagged line; neither counter changes |
| Logging.Logger.Empty | src/Logger.ts:49-51 | exactly one empty line; neither counter changes |
| VisitorBase.Visitor.constructor | src/Visitor.ts:11 | a visitor starts with a fresh, empty logger and no errors |
| Versions.ComputeVersions | src/util/Versions.ts:19-55 | the mutated accumulator ends equal to the fold of the tree into its old value |
| Versions.VisitResolved | src/util/Versions.ts:32-44 | the accumulator after one record is the fold step for that record: its truthy `resolved` URL added under its name and version, or nothing |
| Versions.VersionIndex.constructor | src/util/Versions.ts:21 | the default accumulator is the empty index |
| Versions.VersionIndex.Set | src/util/Versions.ts:38 | `root.set` updates the map as `Map.prototype.set` does |
| Versions.EmptyIndex | src/util/Versions.ts:21 | the empty accumulator is well formed and has no keys |
| Versions.AddUrl | src/util/Versions.ts:33-43 | adding a record's URL binds exactly the old names plus the record's name |
| Versions.AddUrlUrls | src/util/Versions.ts:40-43 | only the URL set of the record's own name and version changes, by `Set.prototype.add` |
| Versions.AddUrlWellFormed | src/util/Versions.ts:33-38 | adding a URL keeps each set under its own name, with no repeated version or URL |
| Versions.AddUrlGrows | src/util/Versions.ts:33-43 | adding a URL loses no name, version or URL and keeps every order |
| Versions.AddUrlPresent | src/util/Versions.ts:40-43 | adding a URL that is already bound changes nothing |
| Versions.VisitRecord | src/util/Versions.ts:30-44 | one record keeps the index well formed and only grows it |
| Versions.GrowsKeepsUrls | src/util/Versions.ts:33-43 | growth never loses a URL |
| Versions.FoldWellFormed | src/util/Versions.ts:28-50 | the fold keeps every set under its own name (`name == key`) and repetition-free |
| Versions.FoldWellFormedOf | src/util/Versions.ts:19-55 | every index a consumer builds is well formed |
| Versions.FoldGrows | src/util/Versions.ts:28-50 | the accumulator only grows: no name, version or URL is removed and no order changes |
| Versions.FoldComplete | src/util/Versions.ts:28-48 | every record at any depth with a truthy `resolved` has that URL under its name and version, even below a parent without one |
| Versions.FoldSound | src/util/Versions.ts:33-43 | every URL in the result was in the accumulator already, or is the `resolved` of a record with that name and version |
| Versions.FoldNewNames | src/util/Versions.ts:32-44 | only a record with a truthy `resolved` ever creates an entry |
| Versions.FoldAbsorbs | src/util/Versions.ts:28-50 | a tree whose every URL is already bound leaves the accumulator unchanged |
| Versions.FoldIdempotent | src/util/Versions.ts:19-55 | folding the same tree twice equals folding it once |
| Versions.FoldEmpty | src/util/Versions.ts:21-54 | from the empty accumulator the index is empty iff no record of the tree has a truthy `resolved` |
| Walk.InsecureOfAppend | src/visitors/InsecureUriVisitor.ts:24 | selecting the insecure records distributes over concatenation |
| Walk.InsecureOfIn | src/visitors/InsecureUriVisitor.ts:24 | a record is selected iff it occurs and its `resolved` is truthy and starts with `http://` |
| Walk.WalkVisitsEveryNode | src/Visitor.ts:33-45 | the walk visits exactly the records of the tree, each as often as it occurs |
| Walk.WalkMeetsEveryInsecure | src/visitors/InsecureUriVisitor.ts:20-28 | the walk meets exactly as many insecure records as the tree holds |
| Walk.TopLevelVisited | src/Visitor.ts:38-42 | every top-level entry is visited |
| Walk.ChildrenFirst | src/visitors/InsecureUriVisitor.ts:20-24 | every child of a visited record is visited before the record itself |
| Walk.HttpsIsSecure | src/visitors/InsecureUriVisitor.ts:24 | an `https://` URL never passes the `http://` test |
| InsecureUriVisitor.Visit | src/visitors/InsecureUriVisitor.ts:9-13 | writes the block of every insecure record, in visiting order; `errors` grows by the number of insecure records in the whole tree; nothing for a missing `dependencies` |
| InsecureUriVisitor.VisitDependencies | src/Visitor.ts:33-45 | the entries' walks, one after another |
| InsecureUriVisitor.VisitDependency | src/visitors/InsecureUriVisitor.ts:16-29 | the children's lines, then the record's error, URL and empty line when it is insecure |
| InsecureUriVisitor.WalkLines | src/visitors/InsecureUriVisitor.ts:16-29 | the lines written are the blocks of the records in visiting order |
| InsecureUriVisitor.WalkCount | src/visitors/InsecureUriVisitor.ts:25 | the errors counted are the insecure records in visiting order |
| InsecureUriVisitor.BlocksAppend | src/visitors/InsecureUriVisitor.ts:24-28 | the blocks of a concatenation concatenate |
| InsecureUriVisitor.BlocksReport | src/visitors/InsecureUriVisitor.ts:24-28 | an error names `n` iff some record named `n` is insecure |
| InsecureUriVisitor.ReportedIffInsecure | src/visitors/InsecureUriVisitor.ts:20-28 | a name is reported iff the tree holds, at some depth, an insecure record of that name |
| ManifestInconsistencyVisitor.Merged | src/visitors/ManifestInconsistencyVisitor.ts:34-37 | the declared ranges are `dependencies` overridden by `devDependencies` on a shared key |
| ManifestInconsistencyVisitor.Visit | src/visitors/ManifestInconsistencyVisitor.ts:16-54 | adds the range mismatches of the top-level records; nothing without `dependencies` or without a readable manifest |
| ManifestInconsistencyVisitor.MismatchIff | src/visitors/ManifestInconsistencyVisitor.ts:39-53 | a mismatch for `d` is found iff `d` is a top-level key, its range is declared and non-empty, and the lock version does not satisfy it |
| ManifestInconsistencyVisitor.AtMostOnePerKey | src/visitors/ManifestInconsistencyVisitor.ts:39-53 | every finding is a mismatch, about one of the top-level keys, and no key gets two |
| ManifestInconsistencyVisitor.DepsAppend | src/visitors/ManifestInconsistencyVisitor.ts:39-53 | the subjects of concatenated findings concatenate |
| ManifestInconsistencyVisitor.VisitDependencies | src/Visitor.ts:33-45 | adds the findings of the insecure records of the whole tree, in visiting order |
| ManifestInconsistencyVisitor.VisitDependency | src/visitors/ManifestInconsistencyVisitor.ts:57-70 | the findings of the insecure records below, in visiting order, then one for the record when it is insecure |
| ManifestInconsistencyVisitor.FindingsSnoc | src/visitors/ManifestInconsistencyVisitor.ts:57-70 | the findings of the records before, of a record's subtree and of the record itself concatenate |
| ManifestInconsistencyVisitor.InsecureFindingsAppend | src/visitors/ManifestInconsistencyVisitor.ts:65-69 | the findings of a concatenation concatenate |
| ManifestInconsistencyVisitor.FindingsOfInsecure | src/visitors/ManifestInconsistencyVisitor.ts:65-69 | one finding per insecure record, naming the record and its URL |
| ManifestInconsistencyVisitor.SubtreeFindings | src/visitors/ManifestInconsistencyVisitor.ts:57-70 | `visitDependency` adds exactly one finding per insecure record below and at the record |
| DuplicateVersionsVisitor.Visit | src/visitors/DuplicateVersionsVisitor.ts:10-30 | writes the report of the lock's index; `warnings` grows by the number of (package, version) pairs with more than one URL |
| DuplicateVersionsVisitor.ReportIndex | src/visitors/DuplicateVersionsVisitor.ts:15-27 | the reports of every package, in order |
| DuplicateVersionsVisitor.ReportPackage | src/visitors/DuplicateVersionsVisitor.ts:16-26 | the reports of a package's versions, in order |
| DuplicateVersionsVisitor.ReportVersion | src/visitors/DuplicateVersionsVisitor.ts:17-25 | a version with more than one URL: one warning, each URL, one empty line; otherwise nothing |
| DuplicateVersionsVisitor.VersionPairsFacts | src/visitors/DuplicateVersionsVisitor.ts:16-17 | the flagged versions of one package are listed once each, and are exactly those with more than one URL |
| DuplicateVersionsVisitor.IndexPairsFacts | src/visitors/DuplicateVersionsVisitor.ts:15-17 | the flagged pairs of the index are listed once each, and are exactly the pairs with more than one URL |
| DuplicateVersionsVisitor.FlaggedCount | src/visitors/DuplicateVersionsVisitor.ts:18 | the number of warnings equals the number of flagged pairs |
| DuplicateVersionsVisitor.VersionLinesWarnings | src/visitors/DuplicateVersionsVisitor.ts:16-26 | a package's reports warn about each of its flagged versions exactly once |
| DuplicateVersionsVisitor.IndexLinesWarnings | src/visitors/DuplicateVersionsVisitor.ts:15-27 | the index's reports warn about each flagged pair exactly once |
| DuplicateVersionsVisitor.WarnedOnce | src/visitors/DuplicateVersionsVisitor.ts:15-27 | exactly one warning per flagged pair, none for a pair with one URL |
| DuplicateVersionsVisitor.VersionLinesBlock | src/visitors/DuplicateVersionsVisitor.ts:16-26 | each version's report sits whole within its package's reports |
| DuplicateVersionsVisitor.IndexLinesBlock | src/visitors/DuplicateVersionsVisitor.ts:15-27 | each package's reports sit whole within the output |
| DuplicateVersionsVisitor.FlaggedBlock | src/visitors/DuplicateVersionsVisitor.ts:18-24 | a flagged pair's warning is followed by each of its URLs once, then one empty line |
| RegistryInconsistencyVisitor.Visit | src/visitors/RegistryInconsistencyVisitor.ts:10-45 | writes the verbose listing and the warning for the registries of the index; one warning iff the number of registries is not one |
| RegistryInconsistencyVisitor.Report | src/visitors/RegistryInconsistencyVisitor.ts:28-42 | the verbose heading and listing, then a warning with the listing iff the number of registries is not one; `warnings` goes up by exactly that one |
| RegistryInconsistencyVisitor.CollectIndex | src/visitors/RegistryInconsistencyVisitor.ts:15-26 | the nested loops collect the registries of the unscoped packages |
| RegistryInconsistencyVisitor.CollectPackage | src/visitors/RegistryInconsistencyVisitor.ts:19-24 | the loops over one package's versions and URLs add their origins |
| RegistryInconsistencyVisitor.CollectUrls | src/visitors/RegistryInconsistencyVisitor.ts:20-23 | the loop over one version's URLs adds their origins, in order |
| RegistryInconsistencyVisitor.ListRegistries | src/visitors/RegistryInconsistencyVisitor.ts:30-32 | one `- registry` line per registry, in order |
| RegistryInconsistencyVisitor.UrlRegistriesFacts | src/visitors/RegistryInconsistencyVisitor.ts:20-23 | adding the origins of a URL list keeps the set repetition-free and adds exactly those origins |
| RegistryInconsistencyVisitor.VersionRegistriesFacts | src/visitors/RegistryInconsistencyVisitor.ts:19-24 | adding a package's versions adds exactly the origins of their URLs |
| RegistryInconsistencyVisitor.IndexRegistriesFacts | src/visitors/RegistryInconsistencyVisitor.ts:17-26 | adding the packages adds exactly the origins of the URLs of the unscoped ones |
| RegistryInconsistencyVisitor.RegistriesAre | src/visitors/RegistryInconsistencyVisitor.ts:15-26 | the registries are listed once each and are exactly `{ origin(u) | unscoped n, any version v, u in index[n][v] }` |
| RegistryInconsistencyVisitor.ItemsCount | src/visitors/RegistryInconsistencyVisitor.ts:30-32 | a distinct listing names each entry once |
| RegistryInconsistencyVisitor.WarnsUnlessOne | src/visitors/RegistryInconsistencyVisitor.ts:28-42 | exactly one warning iff the number of registries is not one, none included; each registry is listed once under the warning and once more in verbose mode |
| RegistryInconsistencyVisitor.OrderIndependent | src/visitors/RegistryInconsistencyVisitor.ts:15-26 | two indexes with the same bindings in any key order give the same registries |
| RegistryInconsistencyVisitor.ScopedIgnoredUpTo | src/visitors/RegistryInconsistencyVisitor.ts:18 | scoped packages do not affect the collection |
| RegistryInconsistencyVisitor.ScopedIgnored | src/visitors/RegistryInconsistencyVisitor.ts:18 | adding or changing a package whose name starts with `@` changes no registry |
| DiffVisitor.Visit | src/visitors/DiffVisitor.ts:22-106 | writes, untagged, the removals then the current packages' blocks of the two indexes; a missing `dependencies` is an empty index; no counter changes |
| DiffVisitor.ReportRemovals | src/visitors/DiffVisitor.ts:30-34 | `- name` for each previous package the current index lacks |
| DiffVisitor.ReportCurrent | src/visitors/DiffVisitor.ts:36-103 | the block of each current package, in order |
| DiffVisitor.ReportPackage | src/visitors/DiffVisitor.ts:37-102 | a new package: its name and every version/URL; otherwise its name and messages, or nothing |
| DiffVisitor.ReportFresh | src/visitors/DiffVisitor.ts:40-49 | a new package's name and one `+` line per URL of each version |
| DiffVisitor.PrintAll | src/visitors/DiffVisitor.ts:98-100 | every collected message is printed once, in insertion order |
| DiffVisitor.CollectMessages | src/visitors/DiffVisitor.ts:51-93 | collects the dropped versions, then each current version's difference |
| DiffVisitor.CollectVersion | src/visitors/DiffVisitor.ts:63-92 | a new version: one `+` per URL; a kept one: `-` for each lost URL, then `+` for each gained URL |
| DiffVisitor.PlusVersionFacts | src/visitors/DiffVisitor.ts:66-72 | one distinct `+ v [url]` per URL and no other message |
| DiffVisitor.MinusUrlsFacts | src/visitors/DiffVisitor.ts:77-83 | one distinct `- v [url]` per lost URL and no other message |
| DiffVisitor.PlusUrlsFacts | src/visitors/DiffVisitor.ts:85-91 | one distinct `+ v [url]` per gained URL and no other message |
| DiffVisitor.VersionDiffFacts | src/visitors/DiffVisitor.ts:63-92 | a version's messages are distinct and are exactly the changes of that version |
| DiffVisitor.VersionDiffsFacts | src/visitors/DiffVisitor.ts:62-93 | the current versions' messages are distinct and are exactly their changes |
| DiffVisitor.DroppedFacts | src/visitors/DiffVisitor.ts:53-60 | one `- v` per previous version the current package lacks, and no other |
| DiffVisitor.MessagesExact | src/visitors/DiffVisitor.ts:51-93 | every message occurs once if it is an expected change (dropped version, new version URL, lost or gained URL) and otherwise not at all |
| DiffVisitor.FreshFacts | src/visitors/DiffVisitor.ts:41-49 | a new package's lines are distinct and are exactly its (version, URL) pairs |
| DiffVisitor.FreshExact | src/visitors/DiffVisitor.ts:41-49 | one `+` line per (version, URL) pair of a new package, per URL not per version |
| DiffVisitor.SameExpectsNothing | src/visitors/DiffVisitor.ts:51-93 | two version sets with the same versions and URL sets expect no message |
| DiffVisitor.ChangedExpectsOne | src/visitors/DiffVisitor.ts:51-93 | any difference in versions or URL sets expects some message |
| DiffVisitor.NoMessagesIffSame | src/visitors/DiffVisitor.ts:95-101 | a package on both sides has no messages, so no header, iff its versions and URL sets are the same |
| DiffVisitor.RemovalsFacts | src/visitors/DiffVisitor.ts:30-34 | the removal lines are distinct and name exactly the previous packages the current index lacks |
| DiffVisitor.FreshLevel | src/visitors/DiffVisitor.ts:41-49 | a new package's lines are version lines |
| DiffVisitor.MessagesLevel | src/visitors/DiffVisitor.ts:51-93 | a kept package's messages are version lines |
| DiffVisitor.PackageMsgsShape | src/visitors/DiffVisitor.ts:37-102 | a package's block names only that package, once, and only when it is not empty |
| DiffVisitor.CurrentFacts | src/visitors/DiffVisitor.ts:36-103 | the current packages' blocks hold no removal, and one header per shown package |
| DiffVisitor.HeadersExact | src/visitors/DiffVisitor.ts:30-103 | exactly one removal line per package only the previous index has; exactly one header per new or changed package |
| DiffVisitor.RemovalsFirst | src/visitors/DiffVisitor.ts:30-36 | every removal line comes before every package block |
| DiffVisitor.CurrentBlock | src/visitors/DiffVisitor.ts:36-103 | each current package's block sits whole in the output |
| DiffVisitor.PackageBlock | src/visitors/DiffVisitor.ts:36-103 | each current package's block sits whole in everything written |
| DiffVisitor.SelfCurrentEmpty | src/visitors/DiffVisitor.ts:36-103 | a package compared with itself writes nothing |
| DiffVisitor.SelfDiffEmpty | src/visitors/DiffVisitor.ts:30-101 | diffing an index against itself writes nothing |
| GitDiffVisitor.ChangedIn | src/visitors/GitDiffVisitor.ts:63-69 | a version is changed iff it is on both sides and the URL lists differ in size or by a missing URL |
| GitDiffVisitor.Visit | src/visitors/GitDiffVisitor.ts:15-134 | nothing when the staged lock cannot be had; else the summary then the blocks; no counter changes |
| GitDiffVisitor.ReportSummary | src/visitors/GitDiffVisitor.ts:41-54 | one line naming the new packages and one naming the removed ones, each only when its list is not empty |
| GitDiffVisitor.ReportBlocks | src/visitors/GitDiffVisitor.ts:56-131 | the block of each current package the head also has, in order |
| GitDiffVisitor.ReportPackage | src/visitors/GitDiffVisitor.ts:59-129 | the header, new, removed and changed versions, and one empty line, or nothing when nothing changed |
| GitDiffVisitor.ListNewVersions | src/visitors/GitDiffVisitor.ts:76-83 | one line per new version, in order |
| GitDiffVisitor.ListOldVersions | src/visitors/GitDiffVisitor.ts:85-92 | one line per removed version, in order |
| GitDiffVisitor.ReportChanged | src/visitors/GitDiffVisitor.ts:94-126 | the block of each changed version; the `continue` of lines 98-100 is never taken, since every changed version is in the head |
| GitDiffVisitor.ReportUrlChange | src/visitors/GitDiffVisitor.ts:102-124 | the heading, then the added URLs, then the removed URLs |
| GitDiffVisitor.ListUrlNew | src/visitors/GitDiffVisitor.ts:108-115 | one line per URL the head lacks |
| GitDiffVisitor.ListUrlGone | src/visitors/GitDiffVisitor.ts:117-124 | one line per head URL the current version lacks |
| GitDiffVisitor.SizeOrSubset | src/visitors/GitDiffVisitor.ts:66-68 | on repetition-free lists, "different size or not a subset" is exactly "different sets" |
| GitDiffVisitor.ChangedNone | src/visitors/GitDiffVisitor.ts:63-69 | no version is changed iff every version on both sides keeps its URL set |
| GitDiffVisitor.BlockIffChanged | src/visitors/GitDiffVisitor.ts:71-74 | a package on both sides gets a block iff its versions or URL sets changed; the block opens with its header and ends with one empty line |
| GitDiffVisitor.SameNothingNew | src/visitors/GitDiffVisitor.ts:63-74 | unchanged versions and URL sets give no new, removed or changed version |
| GitDiffVisitor.ChangedSomething | src/visitors/GitDiffVisitor.ts:63-74 | any difference in versions or URL sets gives a new, removed or changed version |
| GitDiffVisitor.ChangedLinesUntagged | src/visitors/GitDiffVisitor.ts:94-126 | changed-version lines carry no tag |
| GitDiffVisitor.PackageLinesShape | src/visitors/GitDiffVisitor.ts:71-129 | a block holds its own header once and no other package's header |
| GitDiffVisitor.BlocksHeaders | src/visitors/GitDiffVisitor.ts:56-131 | one header per current package the head has and whose block is not empty |
| GitDiffVisitor.HeadersExact | src/visitors/GitDiffVisitor.ts:56-74 | exactly one "changed" header per package on both sides whose versions or URLs changed; none for a package only the current lock has |
| GitDiffVisitor.SummaryExact | src/visitors/GitDiffVisitor.ts:41-54 | the new packages are exactly current minus head and the removed ones head minus current, each once; no summary line iff both name the same packages |
| GitDiffVisitor.UrlLinesCount | src/visitors/GitDiffVisitor.ts:108-124 | a distinct URL list gives one line per URL |
| GitDiffVisitor.UrlChangeExact | src/visitors/GitDiffVisitor.ts:102-124 | each gained URL is listed once as added and each lost URL once as removed, and no other URL |
| GitDiffVisitor.SelfBlocksEmpty | src/visitors/GitDiffVisitor.ts:56-131 | packages compared with themselves get no block |
| GitDiffVisitor.SelfGitDiffEmpty | src/visitors/GitDiffVisitor.ts:41-131 | comparing a lock with itself writes nothing |
| Lockcheck.VisitOnce | src/lockcheck.ts:77-79 | one visit leaves a fresh visitor in the state its kind's specification gives |
| Lockcheck.NewVisited | src/lockcheck.ts:69-79 | a newly built visitor, left in the state its kind's specification gives after one visit |
| Lockcheck.VisitAll | src/lockcheck.ts:43-79 | one fresh visitor per planned kind, each visited once, in plan order |
| Lockcheck.Check | src/lockcheck.ts:26-84 | the outcome is the error thrown before any visitor, or else the validation failure iff `hasErrors()` holds of some visitor's kind, `errors`, error count and warning count; the visitors are exactly the plan's, each visited once |
| Lockcheck.CommitAcceptedIff | src/lockcheck.ts:52 | `^[\w^]*$` accepts a commit iff every character is an ASCII letter, digit, `_` or `^` |
| Lockcheck.AbsentCommitAccepted | src/lockcheck.ts:51-54 | an absent commit is the empty one, which is accepted |
| Lockcheck.SourceBypassesCommit | src/lockcheck.ts:48-49 | a truthy `diffSource` decides the source alone: neither the commit nor `git` matters |
| Lockcheck.InvalidCommitStops | src/lockcheck.ts:51-54 | a commit with a character outside the class stops the run whatever `git` would answer |
| Lockcheck.LockFailsFirst | src/lockcheck.ts:31-41 | an unreadable or unparsable lock fails with its own error before any visitor runs, in either mode |
| Lockcheck.PlanByMode | src/lockcheck.ts:45-75 | diff mode plans exactly one diff visitor; otherwise exactly the four checks, in order, each once |
| Lockcheck.ValidationFailureIff | src/lockcheck.ts:81-83 | the run fails validation iff it got to the visitors and `hasErrors()` holds of one of them, given its kind, its `errors` and its logger's error and warning counts |
| Lockcheck.NoDependencies | src/visitors/RegistryInconsistencyVisitor.ts:35-38 | without `dependencies` the checks find nothing, except that the registry check still warns, as zero registries is not one |

## Left out

- File reads, `JSON.parse`, the `git show` subprocess, `semver.satisfies`, `new URL(...)` and `hasErrors()` are parameters. The throw of `new URL` on a malformed URL is not modelled: `origin` (`` `${url.protocol}//${url.host}` ``, which is not `URL.origin` for non-special schemes such as `git+https:`) is total.
- The `WeakMap` cache of `computeVersions` (src/util/Versions.ts:8-11, 23-26, 52) memoises by object identity and is not modelled. On a cache hit the source returns the cached map without merging it into the supplied `root`. The model always folds into `root`.
- InsecureUriVisitor.Visit and ManifestInconsistencyVisitor.VisitDependency: `Promise.all` in `_visitDependencies` and the `async` visits are modelled as a sequential walk, children first, entries in key order. The source's order is deterministic but different: a leaf checks itself synchronously inside the loop of src/Visitor.ts:38-42, while a node with children checks itself only after its `await Promise.all`. For top-level entries `A` (one leaf child `a1`) and `B` (a leaf) the source logs `a1`, `B`, `A`; the model logs `a1`, `A`, `B`. The model captures which lines and findings appear and how many, not their order across siblings.
- Constructing a visitor has no effect another visitor can see, so `lockcheck` is modelled building each visitor just before its visit, not all of them first.
- Chalk colours and console formatting are left out. Lines are tagged values: GitDiffVisitor prints new and removed versions both with `-` and tells them apart by colour only; the model tells them apart by message kind.
- `path.sep` is `/` (POSIX) in the lock path.
- src/cli.ts (argument parsing, and an `inspector` module that is not part of this model) is left out.
- Lock layouts keyed by `node_modules/...` paths are not modelled. `integrity`, `dev` and `requires` are never read.
- `hasErrors()` is called in src/lockcheck.ts:81 but no visitor defines it. It is a parameter over the visitor's kind, its `errors` and its logger's error and warning counts, so any rule over that state (warnings failing the run included) is covered; its definition is not part of this model.
- ManifestInconsistencyVisitor.Visit: the merged ranges are a plain object, so `manifestDeps[dep]` also finds names inherited from `Object.prototype` (`constructor`, `toString`, `__proto__`, ...), whose values are truthy non-strings that semver rejects, so a top-level lock entry with such a name is a mismatch in the source. The model treats the ranges as a map, where such a name is undeclared and gives no finding.
- ManifestInconsistencyVisitor's `visit` never calls `_visitDependencies`, so its `visitDependency` is modelled and proved on its own. No `lockcheck` run reaches it.
- The no-op `visitDependency` methods of DiffVisitor, GitDiffVisitor, DuplicateVersionsVisitor and RegistryInconsistencyVisitor are not modelled.
- JavaScript `Set`s of strings are sequences without repetitions. URL sets are kept in insertion order because the visitors print them in that order.
- GitDiffVisitor.Visit: the staged lock (the parsed `diffSource` option or `git show :package-lock.json`) is one `Option` parameter; `None` covers every failure the source swallows.

## Proof helpers

These lemmas only carry proof steps for the rows above and model no source
behaviour of their own: `Logging.CountLevelSnoc`, `Versions.PutTwice`,
`Versions.GrowsTransitive`, `Walk.SamePieces`, `DiffVisitor.UntaggedAppend`,
`GitDiffVisitor.VersionLinesUntagged`, `GitDiffVisitor.SummaryEmpty`,
`GitDiffVisitor.SummaryHasNoHeader` and `DuplicateVersionsVisitor.ReportWarnings`.
