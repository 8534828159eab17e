# memex in Dafny

memex is a desktop quick-search tool. Its command-line indexer walks a
directory and builds one search document per file. It skips ignored
directories, dot directories, user ignore patterns and disallowed
extensions. The documents go to a local Meilisearch engine. A desktop
front end shows a search bar or a Cmd+K search modal. Each one debounces
keystrokes, sends the trimmed query through the Go application bindings,
lists the hits with a file-type badge, and lets the user pick a result with
the arrow keys, Enter or a click, which opens the file in the host OS.

This project models that core and proves properties of the model:

- `Text` holds the string helpers: ASCII trim and case mapping, split and
  join, the text after the last separator, and Unix `filepath.Ext`.
- `Extensions` and `Config` hold the static tables: indexed extensions,
  metadata-only extensions, ignored directory names, and the engine
  URL and port.
- `Documents` holds the search document and `NewDocument`. Its identifier
  and content hash are lowercase hex of SHA-256.
- `Indexer` holds these parts of `pkg/indexer`:
  - the single-file extension gate;
  - the content-skip rule;
  - ignore-pattern expansion;
  - the walk callback's skip decision;
  - the walk over a file tree, with the callback state as class
    `WalkState`.
- `IndexCommand` holds the `memex index` argument loop.
- `App` holds the Go bindings: search-hit conversion, error shaping, and
  the per-OS open command.
- `SearchService` holds the frontend service that maps the bridge response
  and turns an error into a rejection.
- `FileLabels` holds the result-row badge (`getFileType`) and the displayed
  file name, in the bar and modal variants.
- `SearchController.Controller` is one class for both overlay components.
  The constant `mode` (`Bar` or `Modal`) selects each component's
  variant. There is one method per event:
  - a keystroke;
  - the debounce timer firing;
  - a search answer or failure;
  - the arrow keys, Enter and Escape;
  - an item click;
  - an open call settling;
  - the modal's open, close, toggle, overlay click and Cmd/Ctrl+K.

  The class invariant `Valid` says three things:
  - the selection is in bounds whenever there are results;
  - a visible listing shows exactly the current results;
  - the bar is always shown.

Library behaviour becomes parameters: `filepath.Clean`, `filepath.Match`,
SHA-256, the Meilisearch hit decoder, `os.UserHomeDir`, the clock, the
bridge calls, and the host OS name. The file system becomes a tree value
(`Indexer.Entry`) whose children are listed in walk order.

The model follows the code where a reader might expect otherwise:

- No sequence numbers. Sequence-numbered search sessions would discard
  stale answers; the components have none, so every answer overwrites the
  results whenever it arrives. `SearchController.StaleAnswerWins` shows an
  older query's late answer replacing a newer one's.
- Escape keeps the timer. Clearing the input does not cancel a pending
  debounce timer in the bar's `clearSearch`.
  `SearchController.EscapeThenTimer` shows the timer still firing, then
  reading the empty input.
- Failure visibility differs between the components. After a failed search
  the bar shows its panel with the error, but the modal only replaces the
  listing and leaves its search body as it was. Neither component clears its
  result list on failure, so Enter still opens a result of the earlier
  answer (`SearchController.OpenAfterFailure`).

## Model

| member | source | states |
|---|---|---|
| Text.Trim | frontend/src/components/SearchBar.ts:149 | The result has no leading or trailing whitespace character. |
| Text.TrimEmptyIff | frontend/src/components/SearchBar.ts:149-152 | A query trims to empty exactly when every character is whitespace, which is when the search is skipped. |
| Text.TrimIdempotent | internal/commands/index.go:29 | Trimming an already trimmed pattern changes nothing. |
| Text.SplitJoin | internal/commands/index.go:27 | `strings.Split` on ',' loses nothing: the pieces joined with ',' give back the input, and no piece contains ','. |
| Text.LastPieceIsAfterLast | frontend/src/components/SearchBar.ts:198 | `split(c).pop()` is exactly the text after the last `c` (the whole string when `c` is absent). |
| Text.Ext | pkg/indexer/indexer.go:163 | `filepath.Ext` is empty or a suffix of the path that starts with the final dot, with no other dot and no '/'. |
| Text.ExtEmptyIff | pkg/indexer/indexer.go:163 | The extension is empty exactly when the final path element (the text after the last '/') has no dot. |
| FileLabels.LabelShape | frontend/src/components/SearchBar.ts:251-261 | The badge is never empty and has at most 4 characters. It is the table label for a listed key, otherwise the upper-cased key cut to 3 (bar) or 4 (modal) characters, and "FILE" for an empty key. |
| FileLabels.FileType | frontend/src/components/SearchBar.ts:251-261 | `getFileType` with an own-key table lookup. Its shape is what `FileLabels.LabelShape` proves: a non-empty badge of at most 4 characters, from the table, the cut upper-cased key, or "FILE". |
| FileLabels.ExtensionKey | frontend/src/components/SearchBar.ts:252 | The lookup key has no '.' and is no longer than the path. `FileLabels.KeyAfterLastDot` and `FileLabels.EmptyKeyIff` pin it as the lower-cased text after the last '.'. |
| FileLabels.EmptyKeyIff | frontend/src/components/SearchModal.ts:256 | The extension key is empty exactly when the path is empty or ends in '.'. |
| FileLabels.YamlSpellingsAgree | frontend/src/components/SearchModal.ts:270-271 | 'yaml' and 'yml' paths get the same badge in the modal ("YAML"). In the bar, 'yaml' gives "YML". |
| FileLabels.KeyAfterLastDot | frontend/src/components/SearchBar.ts:252 | The key is the lower-cased text after the last '.' of the whole path. |
| FileLabels.DotInDirectoryName | frontend/src/components/SearchBar.ts:252-260 | For '/a.b/README' the bar shows "B/R" and the modal "B/RE": the dot of a directory name is used. |
| FileLabels.LabelIgnoresCase | frontend/src/components/SearchModal.ts:256 | The badge of a path and of its lower-cased form are equal. |
| FileLabels.InheritedKeyWidensBadge | frontend/src/components/SearchBar.ts:260 | As written, every path whose last '.'-piece lower-cases to "constructor" ("notes.constructor", "x.Constructor") gets a badge longer than 4 characters; the corrected lookup stays within 4. |
| FileLabels.ConstructorKey | frontend/src/components/SearchBar.ts:252 | The path "notes.constructor" has the lookup key "constructor". |
| FileLabels.FileTypeAsWritten | frontend/src/components/SearchModal.ts:255-277 | `getFileType` as written, where `typeMap[ext]` also finds inherited properties. `FileLabels.InheritedKeyWidensBadge` shows the badge it gives for ".constructor", and `FileLabels.AsWrittenAgreesElsewhere` shows it agrees with `FileType` on every other key. |
| FileLabels.AsWrittenAgreesElsewhere | frontend/src/components/SearchModal.ts:276 | Apart from the two inherited keys, the as-written and the corrected lookups give the same badge. |
| FileLabels.DisplayName | frontend/src/components/SearchBar.ts:198 | The name is the text after the last '/', or the whole path when that text is empty. So it is a suffix of the path, non-empty when the path is, and either the whole path or a '/'-free piece following a '/'. |
| Extensions.IgnoredContentIsAllowed | pkg/config/extensions.go:100-136 | The metadata-only extensions are exactly the document and media groups, so each is also an allowed extension. |
| Extensions.IsAllowedExtension | pkg/config/extensions.go:94-96 | An exact key test on the allowed table. `Extensions.ExactMatching` and `Extensions.NoExtensionNotAllowed` show that only a dot-prefixed, case-exact key passes. |
| Extensions.ShouldIgnoreContent | pkg/config/extensions.go:134-136 | An exact key test on the metadata-only table. `Extensions.IgnoredContentIsAllowed` shows every such key is also allowed, and `Extensions.ContentIsReadExactly` which allowed keys are read. |
| Extensions.ReadGroupsDisjoint | pkg/config/extensions.go:4-92 | The text, source and web/config groups share no extension with the document and media groups. |
| Extensions.ContentIsReadExactly | pkg/config/extensions.go:94-96 | An allowed extension has its content read exactly when it is in the text, source or web/config groups. |
| Extensions.ExactMatching | pkg/config/extensions.go:94-96 | Lookup is exact, with a leading dot, and case-sensitive: ".md" is allowed; "md" and ".MD" are not. |
| Extensions.NoExtensionNotAllowed | pkg/config/extensions.go:94-96 | The empty extension is not allowed, so files without an extension are never indexed. |
| Extensions.SourceContentIsRead | pkg/config/extensions.go:134-136 | Content is read (not ignored) for source and text extensions such as ".go", ".ts" and ".md". |
| Config.DirectoryMatchingIsExact | pkg/config/config.go:10-69 | "node_modules" and "Library" are ignored; "library", "Node_modules" and "" are not. |
| Config.ShouldIgnoreDirectory | pkg/config/config.go:67-69 | An exact, case-sensitive test on the base name. `Config.DirectoryMatchingIsExact` and `Config.PathsNeverMatch` state which names pass. |
| Config.PathsNeverMatch | pkg/config/config.go:67-69 | A name containing '/' is never an ignored directory name. |
| Config.UrlNamesPort | pkg/config/config.go:4-5 | The port component of `MeilisearchURL` is `MeilisearchPort` (58273). |
| Documents.HexRoundTrip | pkg/types/document.go:29 | Hex encoding is decoded back to the same bytes. |
| Documents.HexEncodeAlphabet | pkg/types/document.go:34 | Hex encoding uses only lowercase hex digits. |
| Documents.NewDocument | pkg/types/document.go:27-48 | The id is 64 characters, meets the engine's identifier rule, and decodes to SHA-256 of the path. The content hash is 64 characters and decodes to SHA-256 of the content. The other fields are copied, the description is empty, and the indexing time is the clock reading. |
| Documents.SameIdIffSamePathDigest | pkg/types/document.go:31-34 | Two documents get the same id exactly when their paths have the same digest, whatever their contents. |
| Documents.LowerHexIsEngineId | pkg/types/document.go:32 | Lowercase hex text meets the alphanumeric/hyphen/underscore identifier rule. |
| Indexer.IndexFile | pkg/indexer/indexer.go:15-44 | A disallowed extension is the "not allowed" error. Otherwise the result is a document exactly when open and read succeed, with the path, extension, name, directory, full content and path-digest id. |
| Indexer.RefusedBeforeOpening | pkg/indexer/indexer.go:16-18 | With a disallowed extension the outcome does not depend on the file at all. |
| Indexer.CreateDocumentForFile | pkg/indexer/indexer.go:68-104 | It succeeds exactly when the file opens and either its content is ignored or the read succeeds. Metadata-only extensions store "" and all others store the full content. |
| Indexer.IgnoredContentNeverRead | pkg/indexer/indexer.go:83-84 | For a metadata-only file, a failing read changes nothing and the content hash is that of "". |
| Indexer.ExpandIgnorePatterns | pkg/indexer/indexer.go:111-121 | There is one expanded pattern per input, in order. Each is the cleaned home-joined remainder for "~/" when home is known, and the cleaned pattern otherwise. |
| Indexer.ExpandPattern | pkg/indexer/indexer.go:112-121 | One pattern's expansion, the specification `Indexer.ExpandIgnorePatterns` is proved against. `Indexer.HomeOnlyForTilde` shows that only a "~/" pattern with a known home directory uses the home directory. |
| Indexer.HomeOnlyForTilde | pkg/indexer/indexer.go:113-119 | A pattern without "~/", or any pattern when home is unknown, is only cleaned. |
| Indexer.Decide | pkg/indexer/indexer.go:129-178 | Only directories are skipped, and only files with an allowed extension are collected. |
| Indexer.PatternVerdict | pkg/indexer/indexer.go:130-153 | Any answer of the pattern loop is `SkipDir` for a directory and plain `nil` for a file. `Indexer.PatternVerdictIff` states when there is an answer. |
| Indexer.PatternVerdictIff | pkg/indexer/indexer.go:130-153 | The pattern loop answers exactly when some pattern excludes the entry: an absolute pattern equal to a directory's path, or a prefix followed by '/', or a glob matching the base name. It then skips a directory and passes over a file. |
| Indexer.ExcludedIsNotCollected | pkg/indexer/indexer.go:131-151 | An excluded directory gets SkipDir and an excluded file is passed over without being collected. |
| Indexer.UnexcludedEntries | pkg/indexer/indexer.go:155-177 | Without a matching pattern, a file is collected iff its extension is allowed. A directory is skipped iff its name is ignored or starts with '.'. |
| Indexer.PrefixIsNotAncestor | pkg/indexer/indexer.go:132-141 | "/a/b" does not exclude "/a/bc/x.go", although it is a string prefix. It does not exclude a file whose path is exactly "/a/b" either. |
| Indexer.ChildrenSplit | pkg/indexer/indexer.go:123-127 | The walk of a child list is the sum of the walks of its parts, so no child (failing or not) stops its later siblings. |
| Indexer.WalkTally | pkg/indexer/indexer.go:123-178 | A directory the callback skips contributes nothing: no document, no count, and none of its subtree. |
| Indexer.UnreadableContributesNothing | pkg/indexer/indexer.go:124-127 | An entry whose stat fails contributes no document and no count, and the walk goes on. |
| Indexer.DocumentsWithinCount | pkg/indexer/indexer.go:167-177 | A walk keeps no more documents than the files it counts. |
| Indexer.CollectedAreAllowed | pkg/indexer/indexer.go:163-176 | Every collected document has the extension of its path, and that extension is allowed. |
| Indexer.DotRootCollectsNothing | pkg/indexer/indexer.go:159-161 | A walk rooted at a directory whose name starts with '.' (such as ".") collects nothing and counts nothing. |
| Indexer.WalkState.Callback | pkg/indexer/indexer.go:123-179 | The callback returns SkipDir exactly when the decision says so. It appends the document of a collected file when creation succeeds, and counts every collected file. |
| Indexer.WalkState.Walk | pkg/indexer/indexer.go:123 | Walking a tree appends exactly the specification's documents, in walk order, and adds its file count. |
| Indexer.WalkState.WalkChildren | pkg/indexer/indexer.go:123 | Walking a directory's children in order appends their documents and counts. |
| Indexer.IndexDirectory | pkg/indexer/indexer.go:106-185 | The documents and count returned are those of walking the tree with the expanded patterns. |
| IndexCommand.ParseIndexArgs | internal/commands/index.go:10-36 | The parsing loop computes `ParseIndex`: the usage error without arguments, then `args[0]` and the `--ignore` patterns, or the missing-pattern error. |
| IndexCommand.ParseIndex | internal/commands/index.go:10-36 | The missing-directory error comes exactly when there are no arguments. A successful parse has `args[0]` as its directory. |
| IndexCommand.Scan | internal/commands/index.go:18-36 | The only error the flag loop gives is the missing pattern. Patterns already gathered are kept, in order, at the front of the result. |
| IndexCommand.AppendPatterns | internal/commands/index.go:27-33 | One `--ignore` value adds its comma-separated, trimmed, non-empty pieces in order. |
| IndexCommand.KeptAreTrimmed | internal/commands/index.go:29-31 | Every kept piece is non-empty and already trimmed. |
| IndexCommand.ScanAccumulates | internal/commands/index.go:19-36 | Repeated `--ignore` flags accumulate in argument order: the scan from any gathered list is that list followed by the scan from nothing. |
| IndexCommand.ParsedPatternsAreTrimmed | internal/commands/index.go:19-36 | Every pattern of a successful parse is non-empty and trimmed. |
| IndexCommand.TrailingFlagIsError | internal/commands/index.go:20-23 | A final `--ignore` that no earlier flag consumed is the missing-pattern error. |
| IndexCommand.OtherArgumentsIgnored | internal/commands/index.go:19-20 | Without `--ignore`, the pattern list is empty and all other arguments are ignored. |
| IndexCommand.FlagValueConsumed | internal/commands/index.go:19-34 | At any position where `--ignore` has an argument after it, that argument is its value, whatever it says, and the scan resumes after it with that value's patterns added. |
| IndexCommand.FlagValueIsNotAFlag | internal/commands/index.go:19-34 | For `d --ignore --ignore` the parse succeeds, taking the second `--ignore` as the first one's value. |
| IndexCommand.Index | internal/commands/index.go:10-50 | A usage error stops before indexing. Otherwise the patterns are passed unchanged and the documents are those of walking `args[0]`. |
| App.Search | app.go:115-167 | An empty query gives no hits, echoes the query and has no error. A backend error gives "Search failed: " + message and no hits. Success gives the converted hits and the backend's query, time and total, with no error. |
| App.ToResult | app.go:139-155 | The frontend record keeps the document's id, path and content. Its type is the extension and its title the file name. Its score is the parsed `_rankingScore`, or 0. |
| App.ConvertHits | app.go:131-159 | The conversion never yields more hits than it is given. |
| App.FailureIsReported | app.go:128 | The failure message is never empty. |
| App.ConvertHitsAppend | app.go:133-159 | Conversion works hit by hit, so backend order is kept. |
| App.ConvertHitsCount | app.go:133-159 | The output has as many hits as decode, so it is no longer than the input, and exactly as long iff all decode. |
| App.AllDecodedKeepPositions | app.go:141-156 | When all hits decode, the k-th output copies the k-th document's id, path and content, with type = extension, title = name, and score = the parsed score or 0. |
| App.UndecodableDropped | app.go:137-139 | A hit that fails to decode is dropped and its neighbours are unaffected. |
| App.OpenFile | app.go:170-188 | darwin launches `open path`, linux `xdg-open path` and windows `cmd /c start path`. It succeeds on exactly those three, with the path as the last argument. Any other OS gives "unsupported operating system: " + the OS. |
| App.OpenPassesPathVerbatim | app.go:174-182 | The launcher is open, xdg-open or cmd, and the path is passed unchanged as one argument. |
| App.IndexDirectory | app.go:196-199 | The application indexes with no ignore patterns. |
| SearchService.Search | frontend/src/services/search.ts:5-26 | A rejected bridge call rejects with its message, and a non-empty error rejects with that error. Otherwise the hits map one-to-one, limit (default 20) and offset 0 are set, and query, time and total are copied. |
| SearchService.ToHit | frontend/src/services/search.ts:13-20 | A mapped hit always has a title and a score, and mapping it back gives the bridge hit it came from. |
| SearchService.HitsRoundTrip | frontend/src/services/search.ts:13-20 | Every mapped hit has a title and score, and mapping back gives the bridge's hits in order. |
| SearchService.GoAnswersAsSeen | frontend/src/services/search.ts:8-10 | The Go side's empty-query answer becomes an empty response; its failure answer becomes a rejection with the same message. |
| SearchService.GetHealth | frontend/src/services/search.ts:29-35 | A failing bridge call reads as unhealthy, and a successful one passes its value through. |
| SearchController.StepsAreInverse | frontend/src/components/SearchBar.ts:274-288 | ArrowUp undoes ArrowDown and vice versa. |
| SearchController.NextIndex | frontend/src/components/SearchBar.ts:274-276 | ArrowDown's index stays in bounds and wraps to 0 exactly from the last item. |
| SearchController.PrevIndex | frontend/src/components/SearchBar.ts:281-285 | ArrowUp's index stays in bounds and wraps to the last item exactly from 0. |
| SearchController.FullCycleDown | frontend/src/components/SearchModal.ts:301-306 | `\|results\|` presses of ArrowDown return to the starting selection. |
| SearchController.FullCycleUp | frontend/src/components/SearchModal.ts:308-315 | `\|results\|` presses of ArrowUp return to the starting selection. |
| SearchController.BadgeFromEngineScore | frontend/src/components/SearchModal.ts:240 | The percentage badge appears exactly when the engine's `_rankingScore` parsed to a non-zero number. |
| SearchController.ShowsPercent | frontend/src/components/SearchModal.ts:240 | The modal's percentage badge shows for a truthy score. `SearchController.BadgeFromEngineScore` traces this back to the engine's `_rankingScore`. |
| SearchController.Controller.constructor | frontend/src/components/SearchBar.ts:10-25 | Start state: empty input and results, selection 0, no timer, nothing in flight, panel hidden. The modal starts closed. |
| SearchController.Controller.Valid | frontend/src/components/SearchBar.ts:10-11 | The class invariant: the selection is in bounds whenever there are results, a shown listing is the current results, and the bar is always open. The constructor sets it up, and every event method keeps it. |
| SearchController.Controller.Render | frontend/src/components/SearchBar.ts:174-193 | Empty results hide the panel and leave the listing. Otherwise the panel shows the results with the selected item marked. |
| SearchController.Controller.Input | frontend/src/components/SearchBar.ts:113-116 | The input is updated and exactly one timer is pending. |
| SearchController.Controller.InputAll | frontend/src/components/SearchBar.ts:113-116 | After a burst of input events, only the last text remains, one timer is pending, and nothing else changes. |
| SearchController.Controller.TimerFire | frontend/src/components/SearchBar.ts:148-157 | An empty trimmed query clears the results without a search: the bar hides its panel and the modal blanks its listing. Any other query is sent, and the invariant is kept. |
| SearchController.Controller.SendQuery | frontend/src/components/SearchBar.ts:152-159 | An empty query clears the results without a request: the bar hides its panel and the modal blanks its listing. Any other query is appended to the requests in flight. |
| SearchController.Controller.Resolve | frontend/src/components/SearchModal.ts:150-154 | Any answer, whatever its age, replaces the results with the hits and resets the selection to 0. The panel is shown iff there are hits, and the invariant is kept. |
| SearchController.Controller.Fail | frontend/src/components/SearchBar.ts:163-171 | Results and selection stay and the error notice replaces the listing. The bar shows its panel; the modal does not change it. |
| SearchController.Controller.SelectNext | frontend/src/components/SearchBar.ts:274-279 | Nothing changes on empty results. Otherwise the selection wraps forward and the listing marks it. |
| SearchController.Controller.SelectPrevious | frontend/src/components/SearchBar.ts:281-288 | Nothing changes on empty results. Otherwise the selection wraps backward and the listing marks it. |
| SearchController.Controller.OpenSelected | frontend/src/components/SearchBar.ts:297-302 | Nothing changes on empty results. Otherwise exactly the selected result's path, which is in bounds, goes to the open call. |
| SearchController.Controller.OpenSettled | frontend/src/components/SearchModal.ts:328-337 | A failed open changes nothing shown. A successful one closes the modal and changes nothing in the bar. |
| SearchController.Controller.ClickItem | frontend/src/components/SearchBar.ts:187-191 | A click selects the shown item and opens exactly that result, without a redraw. |
| SearchController.Controller.ClearSearch | frontend/src/components/SearchBar.ts:309-314 | The input and results are emptied and the panel hidden. The selection, timer and requests in flight are kept. |
| SearchController.Controller.Open | frontend/src/components/SearchModal.ts:345-355 | The modal is shown with an empty input and listing, no results, and selection 0. |
| SearchController.Controller.Close | frontend/src/components/SearchModal.ts:357-360 | The modal is hidden and nothing else changes. |
| SearchController.Controller.Toggle | frontend/src/components/SearchModal.ts:362-368 | It opens when hidden and closes when shown. |
| SearchController.Controller.OverlayClick | frontend/src/components/SearchModal.ts:109 | A backdrop click closes the modal. |
| SearchController.Controller.GlobalKey | frontend/src/components/SearchModal.ts:112-117 | Cmd+K or Ctrl+K toggles the modal. Any other key changes nothing. |
| SearchController.Controller.HandleKey | frontend/src/components/SearchBar.ts:127-146 | The arrows move the selection with wrap-around and Enter opens the selection. Escape clears the bar but closes the modal. Other keys change nothing. |
| SearchController.DebouncedBurst | frontend/src/components/SearchBar.ts:113-116 | A burst of keystrokes and one timer expiry send at most one search. The query read is the final text trimmed, and it is sent unless it is blank. |
| SearchController.StaleAnswerWins | frontend/src/components/SearchBar.ts:158-162 | With two searches in flight, the older one's late answer overwrites the newer one's. |
| SearchController.ToggleTwice | frontend/src/components/SearchModal.ts:362-368 | Two Cmd+K presses from closed end closed, with the results emptied by the opening. |
| SearchController.EscapeThenTimer | frontend/src/components/SearchBar.ts:141-156 | After Escape, a pending timer still fires; it reads the empty input, sends nothing and hides the panel. |
| SearchController.OpenAfterFailure | frontend/src/components/SearchModal.ts:155-162 | After an answer and then a failure, Enter still opens the answer's first result while the error notice is shown. |

## Left out

- Network and processes:
  - sending documents to Meilisearch and waiting for its task (`indexer.go:46-65`, `185-201`);
  - the engine query itself, which is the `Backend` parameter;
  - `startMeilisearch`, `shutdown` and `GetMeilisearchHealth`;
  - starting the launched process in `OpenFile` (`cmd.Start`).
- Indexer.FileData: a failing `file.Stat` after a successful open is not a separate case. It counts as a failed open (`openOk`), which has the same outcome.
- Console printing, logging and `alert`.
- DOM, markup and styling: the HTML templates, `getFileTypeColor`, `scrollIntoView` and the focus timers. What remains is panel visibility, whether the listing is blank, items or the error notice, and which item is marked.
- The close button's `Quit()`: it belongs to the host runtime.
- Library internals are parameters: `filepath.Clean`, `filepath.Match`, SHA-256, the hit decoder, `os.UserHomeDir` and the walk order. `os.UserHomeDir` is read once for all patterns rather than once per pattern.
- Indexer.IndexDirectory: every document takes the same clock reading, while the code reads the clock once per document.
- Text.Trim: only the ASCII whitespace set is modelled (space, tab, LF, VT, FF, CR). JavaScript `trim` and Go `strings.TrimSpace` also remove Unicode spaces.
- Text.Lower: only ASCII case mapping is modelled.
- Text.Upper: only ASCII case mapping is modelled. JavaScript `toUpperCase` can change the length before the fallback badge is cut ("ß" becomes "SS").
- App.Search: scores are real numbers. The JSON float parse and NaN are not modelled. A Go `nil` hit list and an empty one are the same value.
- SearchController.ShowsPercent: the `(score * 100).toFixed(0)` text is not modelled, only whether the badge appears.
- SearchController.Controller: focus is not modelled, so keystrokes may arrive while the modal is closed.

## Findings

| source | as written | input that shows it | evidently intended | confidence | as-written member | corrected member |
|---|---|---|---|---|---|---|
| frontend/src/components/SearchBar.ts:260 | `typeMap[ext]` on an object literal also finds keys inherited from `Object.prototype`, and these are truthy | a result whose path ends in ".constructor" gets the badge "function Object() { [native code] }"; the same happens in the modal (SearchModal.ts:276) | an own-key lookup, so the fallback gives "CON" (bar) or "CONS" (modal) | not executed | FileLabels.InheritedKeyWidensBadge | FileLabels.LabelShape |
