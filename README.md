# snapweb catalog core, modelled in Dafny

This project models the package-catalog code of snapweb's `snappy` package
(`snappy/converge.go`). It covers four pieces:

- **mergeSnaps** combines the payloads of the installed packages with those
  of the packages offered by the store. The result has one entry per name,
  an installed entry always beats a remote one, remote-only entries are
  dropped when only installed packages are asked for, and the list is sorted
  by name.
- **uiAccess** finds the port of a package's web UI. It looks for the first
  service whose external `"ui"` port entry reads `<port>/<proto>`.
- **snapQueryToPayload** (with **hasPortInformation**) turns a package into the
  flat `snapPkg` record shown to clients. It consults the install-progress
  registry and removes a tracker whose install has finished.
- **installPackage**, the registration step: it adds a tracker to the registry
  and starts the install only when that succeeds.

Layout, one module per component:

| file | module | contents |
|---|---|---|
| `wrappers.dfy` | `Wrappers` | `Option`, `Result` |
| `go_strings.dfy` | `GoStrings` | `strings.Split` on one separator character, and `Join` |
| `go_strconv.dfy` | `GoStrconv` | `strconv.ParseUint(s, 0, 64)`, with the base prefixes and underscore rule of base 0; decimal `FormatUint` as its partner |
| `snappy_types.dfy` | `Snappy` | `Part`, `Service`, `Ports`, `Port`, `SnapType` of the snappy library, as values |
| `webprogress.dfy` | `WebProgress` | `Tracker` snapshots and the `Registry` class (`Add`, `Get`, `Remove`) |
| `name_order.dfy` | `NameOrder` | the string order `snapPkgsByName` sorts by |
| `payload.dfy` | `Payload` | `SnapPkg`, `HasPortInformation`, and `PayloadOf`, the specification of snapQueryToPayload |
| `ui_access.dfy` | `UiPorts` | `UiAccess` |
| `catalog_merge.dfy` | `CatalogMerge` | the `Merged` specification, the imperative `MergeSnaps` with its loops and in-place sort, and lemmas |
| `converge.dfy` | `Converge` | the `Handler` class: `SnapQueryToPayload`, `InstallPackage` |

`MergeSnaps` follows the source's steps. It fills a remote map and an
installed map in loops, adds the remote names that are missing, collects the
map's values, and sorts them in place in an array. It is proved to return a
catalog of `Merged(installed, remote, installedOnly)`: strictly ascending
names, exactly that map's names, and that map's entry for each name. The
properties of the merge are proved as lemmas about `Merged`. `CatalogUnique`
shows that such a catalog is unique, so the output does not depend on Go's map
iteration order.

`uiAccess` is a search loop with early returns. It is written as a recursive
function, so that the payload specification `PayloadOf` can use it.

`SnapQueryToPayload` and `InstallPackage` are methods of a `Handler` class that
holds the registry. `SnapQueryToPayload` updates its result field by field, as
the source does. It is proved equal to `PayloadOf` on the tracker the registry
held, and its contract gives the registry afterwards.

## Model

| member | source | states |
|---|---|---|
| `CatalogMerge.MergeSnaps` | snappy/converge.go:131-162 | the output lists the merged catalog: names strictly ascending (so no name twice), exactly the names of `Merged`, each with `Merged`'s entry for that name |
| `CatalogMerge.IndexByName` | snappy/converge.go:137-143 | the map-filling loop leaves `ByName` of the list: the last entry of each name |
| `CatalogMerge.AddRemote` | snappy/converge.go:145-151 | remote names already present are skipped; the others are added only without `installedOnly`; existing entries never change |
| `CatalogMerge.ValuesOf` | snappy/converge.go:153-157 | the collected values are exactly the map's entries, each under its own name, no name twice |
| `CatalogMerge.SortByName` | snappy/converge.go:159 | the array ends in name order and holds the same entries (a permutation) |
| `CatalogMerge.ByNameKeys` | snappy/converge.go:137-143 | the name-keyed map has exactly the names of the list |
| `CatalogMerge.ByNameValues` | snappy/converge.go:137-143 | each map value is an entry of the list filed under its own name |
| `CatalogMerge.ByNameLastWins` | snappy/converge.go:137-143 | for repeated names the last entry of the list is the one kept |
| `CatalogMerge.MergedNames` | snappy/converge.go:141-151 | catalog names = installed names, plus remote names exactly when `installedOnly` is false |
| `CatalogMerge.InstalledWins` | snappy/converge.go:141-149 | whatever the filter, every installed name is in the catalog with an installed entry, never a remote one |
| `CatalogMerge.RemoteOnlyNames` | snappy/converge.go:145-151 | a remote-only name is in the catalog if and only if `installedOnly` is false, and then with a remote entry |
| `CatalogMerge.MergedKeyedByName` | snappy/converge.go:137-151 | every catalog entry is filed under its own name |
| `CatalogMerge.SortedCatalog` | snappy/converge.go:153-159 | sorting values without repeated names gives strictly ascending names, the same names and the same entries |
| `CatalogMerge.StrictlySortedFromAdjacent` | snappy/converge.go:159 | neighbours in order and names distinct imply names strictly ascending throughout |
| `CatalogMerge.StrictlySortedUnique` | snappy/converge.go:153-159 | two strictly name-ordered lists with the same entries are equal |
| `CatalogMerge.CatalogUnique` | snappy/converge.go:153-161 | the merged output is determined by the inputs, whatever order Go iterates its maps in |
| `CatalogMerge.MergeExample` | snappy/converge.go:131-162 | installed foo with remote foo and bar gives [bar, installed foo]; with `installedOnly`, [installed foo] |
| `NameOrder.LessIrreflexive` | snappy/converge.go:159 | no name sorts before itself |
| `NameOrder.LessTransitive` | snappy/converge.go:159 | the name order is transitive |
| `NameOrder.LessTotal` | snappy/converge.go:159 | two different names are ordered one way or the other |
| `UiPorts.UiAccess` | snappy/converge.go:222-243 | URI always empty; port 0 when no service has a well-shaped "ui" entry; otherwise the first well-shaped entry decides: its parsed port, or 0 if the text does not parse |
| `UiPorts.UiAccessIgnoresLater` | snappy/converge.go:228-238 | services after the first well-shaped "ui" entry are never consulted |
| `GoStrings.Split` | snappy/converge.go:229 | one more piece than separators, no piece contains the separator, and joining the pieces gives the text back |
| `GoStrings.SplitJoin` | snappy/converge.go:229 | splitting a join of separator-free pieces gives the pieces back |
| `GoStrconv.Accumulate` | snappy/converge.go:231 | the digit loop never yields a value above the 64-bit maximum |
| `GoStrconv.ParseUint` | snappy/converge.go:231 | a successful parse is of non-empty text and fits in 64 bits |
| `GoStrconv.AccumulateValue` | snappy/converge.go:231 | the digit loop from zero yields the value of the digits (Horner's rule, underscores skipped) exactly when every character is '_' or a digit below the base and the value fits in 64 bits, and fails otherwise |
| `GoStrconv.ParseUintValue` | snappy/converge.go:231 | ParseUint yields the value of the text after the base prefix exactly when that text is well-formed digits, fits in 64 bits and has underscores only between digits |
| `GoStrconv.ParsePrefixed` | snappy/converge.go:231 | text after "0b"/"0o"/"0x" (either case) reads in base 2, 8 or 16, with the same accept condition |
| `GoStrconv.ParseLeadingZero` | snappy/converge.go:231 | any other leading "0" (including a lone "0b", "0o" or "0x") reads the rest in base 8; "0" alone is zero |
| `GoStrconv.ParseNoPrefix` | snappy/converge.go:231 | text not starting with "0" reads in base 10 |
| `GoStrconv.AccumulateDecimal` | snappy/converge.go:231 | decimal digits read back as their value, or a range error beyond the 64-bit maximum |
| `GoStrconv.ParseDecimal` | snappy/converge.go:231 | ParseUint inverts decimal formatting for every 64-bit value and refuses larger ones |
| `GoStrconv.PrefixExamples` | snappy/converge.go:231 | base 0: "0x" hexadecimal, "0b" binary, a bare leading "0" octal ("08" fails) |
| `GoStrconv.UnderscoreExamples` | snappy/converge.go:231 | underscores are accepted only between digits |
| `GoStrconv.SyntaxErrorExamples` | snappy/converge.go:231 | empty text, trailing letters and a sign are errors |
| `Payload.HasPortInformation` | snappy/converge.go:164-166 | true exactly for app and framework parts, by their type text |
| `Payload.PayloadOf` | snappy/converge.go:164-220 | fields copied from the part; UI port only for app/framework parts with services, URI always empty; installed: installed size, download size 0, resolved icon or ""; not installed: download size, installed size 0, raw icon; no tracker: status from the installed flag, no progress or error; tracker: its status; running: its progress, no error; done: no progress, message and error flag if and only if the tracker has an error |
| `Converge.Handler.SnapQueryToPayload` | snappy/converge.go:168-220 | the payload is `PayloadOf` the part and the registered tracker; a done tracker is removed with every other entry unchanged; otherwise the registry is unchanged |
| `Converge.CompletionReportedOnce` | snappy/converge.go:200-217 | a finished install's status is reported once; the next query finds no tracker and falls back to the installed flag with no error |
| `Converge.Handler.InstallPackage` | snappy/converge.go:120-129 | a registry refusal is returned as it is, and nothing changes or starts; otherwise a fresh tracker is registered, one install is started, and no error is returned |
| `WebProgress.Registry.Add` | snappy/converge.go:121-124 | fails, changing nothing, when the name already has a tracker; otherwise inserts a fresh, unfinished tracker |
| `WebProgress.Registry.Get` | snappy/converge.go:200 | finds the tracker exactly when one is registered under the name |
| `WebProgress.Registry.Remove` | snappy/converge.go:203 | drops the name's tracker and keeps every other entry |

## Left out

- `packagePayload` and `allPackages` (snappy/converge.go:62-112) are not modelled. They only query the local repository, the metadata store and the Ubuntu store. `allPackages` feeds each remote result's `Alias` payload into `mergeSnaps`, which is modelled.
- `doInstallPackage` and the `go` statement of `installPackage` are not modelled. Starting the background install is recorded by appending the name to `Handler.dispatched`. The install itself, the `ErrorChan` signalling and concurrency are not modelled.
- The registry's thread safety is webprogress's contract and is not modelled. So is the mutation of a tracker by the running install: a `Tracker` is a snapshot value held in the registry's map.
- The literal texts of webprogress's status constants ("installed", "uninstalled", "installing") and the identity of the error `Add` returns are assumptions of this model. The proofs rely only on the constants being used consistently.
- `localIconPath` is a parameter that may fail. The `log.Println` on failure is not modelled.
- `Progress` is a `real` that is copied from the tracker and never computed on. Float semantics are not modelled.
- Sizes are unbounded integers copied unchanged, standing for `int64`. UI ports are naturals that are at most 2^64-1.
- JSON tags and serialization of `snapPkg`, `response` and `listFilter` are not modelled.
- Strings are sequences of Unicode characters, not UTF-8 bytes. Go's byte-wise `<` and the code-point order of `NameOrder.Less` agree. `ParseUint` rejects any non-ASCII character either way.
- `GoStrconv.ParseUint` models `strconv.ParseUint` as of Go 1.13 and later, where base 0 accepts the "0b"/"0o" prefixes and underscores. Go releases from before 1.13, current when this code was written, reject "0b101", "0o17" and "1_000" with a syntax error; `PrefixExamples` and `UnderscoreExamples` describe the newer releases only.
- `GoStrconv.ParseUint` merges Go's syntax and range errors into `None`. `uiAccess` returns 0 for either, so the difference is not visible.
- `snapPkgsByName` is not part of this model. It is taken to be `<` on `Name`. `sort.Sort`'s algorithm is modelled as an insertion sort. Names in the merged list are distinct, so the sorted result is the same for any sorting algorithm (`CatalogMerge.CatalogUnique`).
- An unfinished install's payload carries the tracker's own `Status`, not a fixed "in-progress". A finished tracker that carries an error sets `Message`/`IsError` whatever its status. The model follows the code.
- The URI from `uiAccess` is always empty, as the source's FIXME at snappy/converge.go:236 acknowledges. The model keeps this behaviour.
