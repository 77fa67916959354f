# Ether: dependency-management rules, modelled in Dafny

Ether is a command-line tool for Swift Package Manager projects. This project models
the decision and rewrite rules behind its commands and proves properties about them:

- **Lockfile lookups and target editing** (`manifest.dfy`, module `Manifest`). These are
  the name/URL lookups over the `pins` of `Package.resolved`, the target names of
  `Package.swift`, and `addDependency(_:to:)`, which appends a product to one target's
  `dependencies:` list in place.
- **`ether install`** (`install.dfy`, module `Install`) covers:
  - parsing `--targets`;
  - the y/n/q target prompt;
  - stripping a leading `v` from the version;
  - choosing a release when the latest one is a pre-release;
  - choosing products;
  - appending the products to the approved targets;
  - the count of installed packages.
- **`ether remove`** (`remove.dfy`, module `Remove`) deletes the `.Package(url: ...)`
  entries whose URL names the package.
- **`ether version latest`** (`version_latest.dfy`, module `VersionLatest`) rewrites each
  GitHub entry's version argument to `Version(a,b,c)`.
- **`ether version all`** (`version_all.dfy`, module `VersionAll`) prints one line per pin.
- **`ether test`** (`test_output.dfy`, module `TestOutput`) is the line formatter with its
  four cells (`compiling`, `suiteSuccess`, `error`, `measure`) and the verbose/filtered
  split of `log`.

Shared pieces:

- `base.dfy` holds `Option`/`Result` and the string helpers (module `Strings`). These
  include Swift's `split(separator:)`, which drops empty pieces, and
  `trimmingCharacters(in: .whitespaces)`.
- `package_text.dfy` (module `PackageText`) holds the chunk model of a manifest's
  dependency entries. `remove` and `version latest` both use it.

How the model represents the world:

- Regular expressions are not reproduced. A manifest is a sequence of chunks: plain text,
  or one structured entry or target declaration. An entry is found when its fields meet
  the conditions the pattern imposes.
- The character classes `\w` and `\s`, and case-insensitive comparison, are taken over
  ASCII.
- A console prompt is a finite sequence of answer lines. When the answers run out before
  a prompt loop ends, the result is `None`.
- Network answers and lockfile pin counts are parameters.
- Where the source mutates state (the `NSMutableString` manifest, the targets of the
  project, the formatter's captured variables, the loading bar), the model is a class.
  Its methods are proved against a specification function of the old state.

## Model

| member | source | states |
|---|---|---|
| Manifest.FirstMatch | Sources/Helpers/Manifest.swift:60-67 | `filter { ... }.first`: the index of the first pin whose key equals the wanted string. No earlier pin has it. `None` exactly when no pin has it. The result is `Some(i)` exactly when pin `i` is the first with that key. |
| Manifest.PackageName | Sources/Helpers/Manifest.swift:51-74 | Succeeds exactly when the pins exist, every pin has a string `repositoryURL`, and the first pin with that URL has a string `package`. The result is that `package`. Every failure carries "Unable to read Package.resolved". A pin without a URL anywhere makes it fail, even if another pin matches. |
| Manifest.PackageUrl | Sources/Helpers/Manifest.swift:81-104 | A missing pins array, or any pin without a string `package`, gives "Unable to read Package.resolved". When every pin has a name, each outcome holds exactly in its case. No pin of that name gives "No package data found for name". A first pin of that name with a URL gives success with that URL. A first pin of that name without a URL gives "Unable to read repo URL". |
| Manifest.NameThenUrl | Sources/Helpers/Manifest.swift:46-104 | On pins with unique names and URLs, looking up the URL of the name found for `url` gives `url` back. |
| Manifest.UrlThenName | Sources/Helpers/Manifest.swift:46-104 | On pins with unique names and URLs, looking up the name of the URL found for `name` gives `name` back. |
| Manifest.TargetNames | Sources/Helpers/Manifest.swift:111-125 | The result contains a name exactly when some `.target`/`.testTarget` declaration has that name. It has at most one name per chunk. |
| Manifest.TargetNamesAppend | Sources/Helpers/Manifest.swift:111-125 | The names of two documents one after the other are the names of the first, then those of the second. |
| Manifest.TargetNamesOne | Sources/Helpers/Manifest.swift:116-124 | A target declaration lists its name once, and text lists nothing. With `TargetNamesAppend`, the result is one name per declaration, in source order. |
| Manifest.FirstTarget | Sources/Helpers/Manifest.swift:143-149 | The index of the first declaration with the given name. No earlier declaration has that name. `None` exactly when no declaration has it. |
| Manifest.WithDependency | Sources/Helpers/Manifest.swift:138-152 | Fails with "Attempted to add a dependency to a non-existent target" exactly when no target has the name. Otherwise only the first target of that name is edited, and every other chunk is unchanged. |
| Manifest.AppendDependencyEffect | Sources/Helpers/Manifest.swift:140-151 | In the edited target, the quoted name becomes the last list element and the trailing comma goes. Kind and name are kept. |
| Manifest.AddTwiceListsTwice | Sources/Helpers/Manifest.swift:151 | No duplicate check: adding the same dependency twice lists it twice. |
| Manifest.AddKeepsTargets | Sources/Helpers/Manifest.swift:138-152 | Adding a dependency leaves the list of target names unchanged. |
| Manifest.ManifestText.AddDependency | Sources/Helpers/Manifest.swift:138-152 | The in-place edit. It fails exactly when the target is missing, and then the text is untouched. Otherwise the new text is `WithDependency` of the old. |
| Install.ParseTargets | Sources/Ether/Install/Install.swift:79 | `--targets` split on commas, with each name trimmed. No name contains a comma or starts or ends with a blank. |
| Install.ParseTargetsRoundTrip | Sources/Ether/Install/Install.swift:78-80 | Non-empty, comma-free, trimmed names written as `A, B, C` are parsed back to exactly those names. |
| Install.StripV | Sources/Ether/Install/Install.swift:96 | A version starting with `v` loses exactly that character. Any other version is unchanged. |
| Install.AskForTargets | Sources/Ether/Install/Install.swift:130-160 | The prompt loop computes `InquireFor`: one target is taken without asking. With more, `y` takes and advances, `n` advances, `q` stops, and any other answer asks again. |
| Install.InquireForSubseq | Sources/Ether/Install/Install.swift:135-157 | The accepted targets are a subsequence of the targets, in order. |
| Install.InquireForAllYes | Sources/Ether/Install/Install.swift:139-142 | Answering `y` to every question accepts every target. |
| Install.InquireForQuit | Sources/Ether/Install/Install.swift:145-146 | `q` as the first answer to a multi-target prompt accepts nothing. |
| Install.LeadingMajor | Sources/Ether/Install/Install.swift:210 | The value of a leading digit, else 0. It is at most 9. |
| Install.FirstOtherMajor | Sources/Ether/Install/Install.swift:222 | The index of the first release whose leading digit differs from the major. All earlier releases share the major. `None` when all do. |
| Install.SelectRelease | Sources/Ether/Install/Install.swift:202-231 | An error exactly for no releases. The result is always a release. It is the first release unless all of these hold: a pre-release, a leading digit above 0, more than one release, and answer `y`. Then it is the first release with another leading digit, falling back to the first when every release shares it. |
| Install.AskStable | Sources/Ether/Install/Install.swift:212-219 | The prompt settles on the first lowercased answer that is `y`, `n` or empty. All earlier answers are none of these. |
| Install.ParseInt | Sources/Ether/Install/Install.swift:251 | `Int(_:)` succeeds exactly for an optional `+` or `-` followed by at least one digit and nothing else, with a value in 64-bit range. The value is the digits' value, negated after `-`. |
| Install.ParseDecimal | Sources/Ether/Install/Install.swift:251 | A decimal numeral in range, with or without `-`, is read back as the number it denotes. |
| Install.IntsOf | Sources/Ether/Install/Install.swift:251 | `compactMap(Int.init)` over trimmed lines: exactly the values of the lines that parse. |
| Install.Picked | Sources/Ether/Install/Install.swift:253 | A subsequence of the products, in product order. It contains each product whose position was given, and every product in it sits at a given position. It is empty exactly when no given index is in range. |
| Install.PickedAppend | Sources/Ether/Install/Install.swift:253 | Picking from two product lists one after the other picks from the first, then from the second, whose positions count on from where the first ends. |
| Install.PickedOne | Sources/Ether/Install/Install.swift:253 | A single product is picked exactly when its position is given. With `PickedAppend`, the result is exactly the products at given positions, in product order. |
| Install.NamedLikeRepo | Sources/Ether/Install/Install.swift:240-242 | The first product equal to the repository name, ignoring case. `None` when no product is. |
| Install.SelectProducts | Sources/Ether/Install/Install.swift:240-257 | The method computes `ProductChoice`: the repository-named product alone, `[repo]` when there are no products, else the first non-empty selection from the answers. |
| Install.ProductChoiceShape | Sources/Ether/Install/Install.swift:240-257 | The chosen products are never empty. They are `[repo]` or a subsequence of the products. |
| Install.TargetNamed | Sources/Ether/Install/Install.swift:101 | The first target with that name. `None` when no target has it. |
| Install.WithProductsEffect | Sources/Ether/Install/Install.swift:100-104 | With unique target names, each target gets the products appended once per time its name was approved. Unknown names change nothing, and no target is added or renamed. |
| Install.Project.Install | Sources/Ether/Install/Install.swift:75-124 | With `--targets`, no prompt is shown. Without it, the prompt answers decide. The dependency is `.from` the stripped version. Products go to the approved targets, one at a time in place. The count is new pins minus old pins, with the old count 0 when unreadable. |
| Remove.ResidueThenDeleted | Sources/Ether/Remove.swift:65 | The text left of an entry, followed by the text the pattern deletes, is the whole entry. The deletion takes a comma only when it sits directly before the line break. |
| Remove.RemoveAsWritten | Sources/Ether/Remove.swift:65 | The source's deletion: every matching entry loses its matched text, and every other chunk is unchanged. |
| Remove.RemoveFirstLeavesComma | Sources/Ether/Remove.swift:52-65 | As written, removing the first entry of a two-entry list leaves text starting `[,`. The list is no longer comma-separated. |
| Remove.RemoveFrom | Sources/Ether/Remove.swift:65 | The corrected deletion, chunk by chunk. Text is kept. A matching entry is deleted as written. A kept entry changes at most its leading comma. |
| Remove.RemovePackageEntries | Sources/Ether/Remove.swift:65 | The entries left are exactly the non-matching ones, in order, with the first one stripped of its comma. A comma-separated list stays comma-separated. |
| Remove.NoneLeftAsWritten | Sources/Ether/Remove.swift:52-65 | As written, the entries left are exactly the non-matching ones, each unchanged and in order. So no entry for the package is left. |
| Remove.NoneLeft | Sources/Ether/Remove.swift:52-65 | After removal, no entry for the package is left. |
| Remove.RepairOnlyForFirst | Sources/Ether/Remove.swift:65 | When the list's first entry is kept, the corrected deletion equals the deletion as written. |
| Remove.RemovedCount | Sources/Ether/Remove.swift:78-82 | A count is reported only when both pin files were read. It is old minus new. |
| Remove.Workspace.Remove | Sources/Ether/Remove.swift:46-84 | No match: fails with no-match and nothing is written. Otherwise the manifest is edited by the source's own deletion, `RemoveAsWritten`. A failed write leaves the manifest unchanged and fails the bar. A failed fetch or update leaves the edited manifest written and fails the bar. Otherwise the bar finishes and the count is reported. |
| Remove.Workspace.RemoveRepaired | Sources/Ether/Remove.swift:46-84 | The same command with the corrected deletion, `RemovePackage`. When the manifest changes, its entries are exactly the non-matching ones with the first stripped of its comma, and a comma-separated list stays comma-separated. |
| VersionLatest.DetectedPath | Sources/Ether/VersionLatest.swift:51 | A found entry's URL is `https://github.com` + path + `.git`, with a non-empty path of path characters. |
| VersionLatest.DetectedOnlyFound | Sources/Ether/VersionLatest.swift:65-66 | Each listed path is the path of an entry the detection pattern finds. There is at most one path per chunk. |
| VersionLatest.DetectedAppend | Sources/Ether/VersionLatest.swift:65-66 | The paths found in two documents one after the other are those of the first, then those of the second. |
| VersionLatest.DetectedOne | Sources/Ether/VersionLatest.swift:65-66 | An entry lists its path exactly when the pattern finds one. Text lists nothing. With `DetectedAppend`, the result is one path per entry found, in text order. |
| VersionLatest.DetectedListsAll | Sources/Ether/VersionLatest.swift:65-66 | Every entry the detection pattern finds is listed for processing. |
| VersionLatest.FormatVersionParts | Sources/Ether/VersionLatest.swift:81-82 | A version `a.b.c...` formats as `Version(a,b,c)`, built from its first three parts. |
| VersionLatest.RewriteAll | Sources/Ether/VersionLatest.swift:71-85 | Every entry the rewrite pattern finds for the path gets the new version argument. Everything else is unchanged. |
| VersionLatest.UpdateAllEffect | Sources/Ether/VersionLatest.swift:68-88 | After an error-free loop, each rewritable entry whose path was processed carries the version from its lookup. All other chunks are unchanged. |
| VersionLatest.LatestEffect | Sources/Ether/VersionLatest.swift:60-88 | After an error-free run, every detected, rewritable entry has `Version(a,b,c)` from the catalogue's answer as its version argument. Every other chunk is unchanged. |
| VersionLatest.NothingDetected | Sources/Ether/VersionLatest.swift:60-62 | A manifest with no GitHub entry fails with no-dependencies and is left alone. |
| VersionLatest.ManifestFile.Latest | Sources/Ether/VersionLatest.swift:47-91 | The in-place loop. Entries are visited in text order. The first failed lookup, missing key, short version or failed pattern ends it, and earlier edits stay. The outcome equals `RunLatest` of the old manifest. |
| VersionAll.Display | Sources/Ether/VersionAll.swift:44-49 | `v` + version if tagged, else the branch, else the revision. |
| VersionAll.ListingLines | Sources/Ether/VersionAll.swift:38-53 | One line per pin, in lockfile order. Each line is the package name followed by its displayed version. |
| VersionAll.ListingAppend | Sources/Ether/VersionAll.swift:40 | Listing concatenated pins lists each part in turn. |
| VersionAll.Run | Sources/Ether/VersionAll.swift:35-56 | The heading comes first. The listing follows, or the command fails when the lockfile cannot be read. |
| TestOutput.KindOf | Sources/Ether/Test.swift:86-163 | The branch taken is the first in the chain whose condition holds. The build branch also requires that the build has not been announced. |
| TestOutput.Next | Sources/Ether/Test.swift:86-164 | `compiling` is set by a build line and never cleared. Suite start clears `suiteSuccess` and suite completion sets it. A finished case clears `error` and `measure`. A measure line stores ". Average measured time is <average> sec." and leaves `error` alone. A test error or unknown error line stores a line break, four spaces and the message, and leaves `measure` alone. No other line changes them. Unrecognised lines change nothing. |
| TestOutput.Emit | Sources/Ether/Test.swift:86-164 | Measure, error and unrecognised lines print nothing. Every other branch prints. A build prints "Building...". A suite start prints "Running <suite> Suite". A finished case prints ` v ` exactly when it passed, else ` x `, then its name, then its status and time followed by the pending measure or "." and the pending error or nothing. A completed suite prints its name and status. The totals print "Finished with <failed> out of <run> test cases failing". A fatal error prints "Fatal Error: " and the message. |
| TestOutput.BuildAtMostOnce | Sources/Ether/Test.swift:87-90 | "Building..." is announced at most once in any run of lines. |
| TestOutput.SuiteSuccessTracks | Sources/Ether/Test.swift:92-144 | Before each line, `suiteSuccess` is true exactly when the last suite event was a completion. With no suite event, it keeps its initial value. |
| TestOutput.SuiteDoneNewline | Sources/Ether/Test.swift:136-144 | From a fresh formatter, a completed suite's name is printed on a new line exactly when no suite has completed since the last one started. |
| TestOutput.StatesStep | Sources/Ether/Test.swift:56-58 | Within a run, the cells before a line are those the previous line left. |
| TestOutput.PendingTracks | Sources/Ether/Test.swift:104-134 | From a fresh formatter, the `measure` and `error` cells before each line hold the note of the latest measure line and of the latest error line since the last finished case. They are empty when there is none. |
| TestOutput.CaseLineShowsPending | Sources/Ether/Test.swift:104-118 | From a fresh formatter, a finished case prints the latest measurement since the previous finished case, or ".", and the latest error since then, or nothing. |
| TestOutput.PrintedAppend | Sources/Ether/Test.swift:54-58 | Formatting two runs one after the other prints the text of the first, then the second from the cells the first left. |
| TestOutput.Formatter.Text | Sources/Ether/Test.swift:86-164 | `text(for:)` returns `Emit` of the cells and updates them to `Next`. |
| TestOutput.Formatter.Log | Sources/Ether/Test.swift:50-62 | Undecodable data prints nothing. Verbose mode prints the data unchanged and leaves the cells alone. Otherwise each non-empty line goes through the formatter in order. |

## Left out

- Regular-expression matching over text is not modelled. Entries and targets are structured
  chunks, and the model assumes that what a pattern matches is exactly one chunk.
- Entries written with spacing other than one space after `url:` and after the URL's comma
  are not modelled. The same goes for patterns that run greedily past an entry's `)`.
- In `version latest`, a `.` in a package path acts as a regex wildcard in the rewrite
  pattern. A `$` in the formatted version is read as a template reference. The model treats
  both literally.
- `\w`, `\s` and case folding are modelled over ASCII only.
- Manifest.TargetNames, Remove.Workspace.Remove and VersionLatest.ManifestFile.Latest: the model
  assumes an ASCII manifest. The source builds the search range from the UTF-8 byte count
  (Sources/Helpers/Manifest.swift:118, Sources/Ether/Remove.swift:61,
  Sources/Ether/VersionLatest.swift:60). It then searches a string measured in UTF-16 units.
  With any non-ASCII character in the manifest, even in a comment, the range runs past the end,
  and the regex search rejects it before any match is made. The model runs these commands on
  such text exactly as it does on ASCII text.
- Remove.NamesPackage and Remove.Workspace.Remove: the source puts the package name into the
  pattern unescaped (Sources/Ether/Remove.swift:52). A `.` or `+` in the name then acts as a
  regex operator. An unbalanced `(` or `[` makes building the pattern throw before the manifest
  is read. The model compares the name literally.
- File reading and writing are not modelled. Neither are UTF-8 decoding (only as an absent
  value), processes (`swift package update`, `generate-xcodeproj`, `open`, git commits), HTTP
  (the catalogue, releases, products), loading-bar rendering, console styles and colours.
  Their results are parameters.
- The `Manifest` module that `Install/Install.swift` imports is not part of this model.
  `target(withName:)` is taken to return the first target with that name, and `save()` to
  store the edited targets. `targets()` and `resolved()` are inputs.
- Install.Project.Install: requires `--targets` or at least one target. Without both, the
  source indexes `targets[0]` of an empty list and traps.
- Install.AskForTargets: requires a non-empty target list, for the same reason.
- Install.Project.Install: the errors thrown by `dependency.save()`, `target.save()`, the
  processes, and `Manifest.current.resolved()` after the update (Sources/Ether/Install/Install.swift:105)
  are not modelled.
- Install.SelectRelease: takes the settled prompt answer as a parameter. The prompt loop
  itself is `Install.AskStable`.
- Remove.Workspace.Remove: on no match the bar is left running. `fail(bar:with:)` is not
  part of this model.
- The status messages other than the no-match message are not modelled: "Unable to read
  Package.swift", the JSON request error, and "Bad JSON key".
- VersionLatest.ManifestFile.Latest: a version with fewer than three dot-separated parts
  makes the source index out of range and trap. The model ends the run with a
  `TooFewParts` error instead.
- TestOutput: the `"N/A"`, `"failed"`, `"0"` and `"."` fallbacks for capture groups that
  did not participate are not modelled. Every group the model reads is one its pattern
  always captures.
- TestOutput.Formatter.Log: Swift's `split(separator: "\n")` does not split at `"\r\n"`,
  which Swift counts as one character. The model's split on `'\n'` does split there.
- TestOutput.Formatter.Log: the process delivers output in chunks, and a line split across
  two chunks is classified as two lines. The model takes each chunk as given.
- `Sources/Ether/Install.swift`, `Search.swift` and `VersionSet.swift` are not modelled:
  their logic is commented out.
- The commands `new`, `update`, `template`, `search`, `clean-manifest` and `config`, the
  HTTP helpers, and the command registration are outside the modelled core.

## Findings

| source | as written | input that shows it | evidently intended | confidence | as-written member | corrected member |
|---|---|---|---|---|---|---|
| Sources/Ether/Remove.swift:52-65 | The pattern takes a comma only when it sits directly before the entry's line break. Removing the first entry of a list therefore leaves the comma that followed it behind, giving `[,`. | `Remove.TwoEntryList`, `[` + entry for `x/a.git` + `,` entry for `x/b.git` + `]`, removing package `a` | the list stays comma-separated: the kept entry that becomes first loses its comma | not executed | Remove.RemoveFirstLeavesComma | Remove.RemovePackageEntries |
