# kubetui, modelled and verified in Dafny

kubetui is a terminal client for Kubernetes. Most of it draws screens and calls the cluster;
five parts hold algorithms or protocols of their own, and those are modelled here:

- **From a watch to a page.** A store per kind keeps a phase, an error and the flags *dirty*
  and *paused*; informer handlers, a watch-error handler, a ticker loop and the UI loop race on
  them. `Pipeline.dfy` interleaves them at every access to shared state, `Buried.dfy` follows a
  page that is covered by a drill-in, `Engine.dfy` holds the store and engine objects,
  `Routing.dfy` the view ids over any number of engines, and `SnapshotOrder.dfy` the order of a
  snapshot's rows.
- **The filter language.** `Filter.dfy` (parser and matcher), `FilterHint.dfy` (the rewrite
  offered for an empty result) and `FilterComplete.dfy` (completion of the last term).
- **The table widget.** `Widths.dfy` (column widths), `Table.dfy` (sort, cursor, scrolling,
  marks) and `RenderCache.dfy` (the widget object with its line cache), over `Rows.dfy` and
  `StableSorting.dfy`.
- **Apply and its preview.** `Documents.dfy` (splitting a YAML stream), `LineDiff.dfy` (the line
  diff) and `ApplyPreview.dfy` (dry run against real run).
- **Logs and ticks.** `LogBuffer.dfy` and `LogGroup.dfy` (merging the logs of many pods) and
  `RefreshChain.dfy` (refresh ticks over the page stack).

`Text.dfy` and `Picking.dfy` hold the string and sequence operations the others are written in.
Run `dafny verify dfyconfig.toml` to check everything.

Concurrent code is a state machine: a datatype of steps, a guard and a next-state function, and
theorems about every reachable state. Code that updates fields or arrays in place is a class or
a method on an array, proved against a function of the old state; the theorems are about those
functions.

What lies outside is a parameter: the informer's cache and its projection into rows, the API
server as a function of live object and document, the YAML and JSON encoders, the rendering of
one row, the library's stable sort (only its promise is used), the regular-expression engine,
and a case mapping that works character by character.

## What the proofs turned up

- **A buried page can miss an update for good.** Snapshots go to the page on top of the stack
  only. A page under a drill-in loses those delivered meanwhile, and popping the drill-in does
  not read the store again: a settled page is current if and only if the last snapshot sent to
  it was not handed to a drill-in, or said nothing new (`Pipeline.NoLostUpdate`). While
  the cache is not empty the heartbeat repairs it, in every run, within fourteen ticks of 150 ms;
  a page whose last object was deleted under a drill-in keeps showing it
  (`Buried.StalePageIsReachable`, `Buried.HeartbeatAlwaysRepairs`,
  `Buried.EmptyCacheNeverRepairs`).
- **The token counter of the CRD browse page is not protected.** A page is built by a command,
  off the UI loop, and increments the counter there. Taking a token is safe, however the run goes
  on, if and only if no other one is being taken; otherwise two pages can end up with one token
  and two refresh chains (`RefreshChain.AllocationIsSafeIff`).
- **The hint can change the meaning of a value that repeats its column**: `ns:ns:x` alone is
  literal text, inside `ns:ns:x|y` the prefix is removed
  (`FilterHint.RepeatedPrefixChangesMeaning`).
- **The completer looks for spaces, the parser for any white space**, so a pasted tab can
  make the two disagree: the chosen term is the one parsed if and only if the text put back in
  front of the choice holds no white space (`FilterComplete.CompletionAgreesIff`).
- **A diff can be non-empty and show nothing**: exactly when the texts differ only in the final
  newline (`LineDiff.DiffShowsChangeIff`); the YAML it is given always ends in one.
- **The sort comparator is not a strict weak order** when only some rows have a key in the sort
  column, or when a NaN stands among different numbers, which a numeric cell with the text "NaN"
  becomes (internal/action/dynbrowse/table.go:172; `Table.ComparatorIsWeakOrder`). Sorting keeps the cursor's index, so it keeps the
  selected object only when that object lands where the cursor is
  (`Table.ResortKeepsSelectionIff`).
- **The line cache gives rows of one key one line**: after any sequence of calls, the body is the
  uncached one if and only if what the cache holds for the visible rows is what they look like
  and no two of them share a key (uid, version, selection and mark) and look different
  (`RenderCache.BodyIsDirectIff`); one cursor move is enough to show another row's line
  (`RenderCache.MoveShowsOldLine`). An empty table is one line too tall
  (`RenderCache.BodyHeight`).

## Model

| member | source | states |
|---|---|---|
| Pipeline.NoLostUpdate | internal/engine/store.go:116-207 | In every interleaving before a terminal error, once nothing is pending or in flight, the last snapshot sent to the entered page is exactly the projection of the current cache and the current phase, and the page shows it if and only if it was not handed to a drill-in above the page or said nothing new |
| Pipeline.StepInv | internal/engine/store.go:116-248 | Every step of handler, error handler, loop, terminal flush and UI keeps the invariant: the snapshot the page got, missed or will get is current, or a signal that will replace it is still on its way |
| Pipeline.TerminalIsSticky | internal/engine/store.go:166-198 | No later event or error ever leaves the terminal phase |
| Pipeline.SnapshotErrors | internal/engine/store.go:179-248 | In every run a snapshot, sent or shown, carries an error if and only if its phase is stale or terminal, although it is not read atomically |
| Pipeline.StoreHoldsVerdict | internal/engine/store.go:166-198 | In every run the phase and error are what the events and errors so far amount to: ready after an event, stale with its reason after a transient error, and terminal for good |
| Pipeline.PageShowsVerdict | internal/engine/store.go:154-248 | A settled page that missed nothing shows the cache and that phase and error, an initial load counting as ready once synced |
| Pipeline.LastWordIsShown | internal/engine/store.go:179-198 | The last transient error is on the page with its reason as long as no event came after it; after an event the page is ready and shows none |
| Pipeline.PausedSendsNothing | internal/engine/store.go:101-147 | While a store is paused, and no terminal error comes, nothing is added to what is queued, whatever happens |
| Pipeline.PauseSilences | internal/engine/store.go:101 | Pausing starts that silence |
| Pipeline.StopEndsLoop | internal/engine/store.go:95-147 | Stopping lets the loop leave |
| Buried.ResumeSends | internal/engine/store.go:107-147 | A store that is resumed sends the current snapshot with its next tick |
| Buried.SyncSends | internal/engine/store.go:116-147 | The first sync makes the next tick send, though no object changed |
| Buried.TerminalErrorIsSent | internal/engine/store.go:179-190 | A terminal error stops the store and is sent at once with the last good rows, paused or not |
| Buried.BuriedPageGoesStale | internal/app/app.go:280-306 | Every run that has a settled page on top can go on, through any cache, until the page is on top again with its old rows, having missed the current snapshot; it is stale unless it already showed that cache as ready |
| Buried.EnteredPageShows | internal/view/resource.go:123-133 | Entering a page leads from the start to a settled page showing the initial cache |
| Buried.StalePageIsReachable | internal/app/app.go:280-306 | For every pair of caches some run from the start ends settled with the page on top showing the first while the store holds the second |
| Buried.HeartbeatRepairs | internal/engine/store.go:116-147 | With a non-empty cache some run of ticks and deliveries alone brings such a page up to date |
| Buried.HeartbeatAlwaysRepairs | internal/engine/store.go:112-147 | With a non-empty cache, every run without a new event, a pause or a stop whose ticks add up to the heartbeat has brought the page up to date once the loop is idle and nothing is queued, whatever it had missed |
| Buried.FourteenTicksRepair | internal/engine/store.go:112-147 | Fourteen ticks are enough |
| Buried.EmptyCacheNeverRepairs | internal/engine/store.go:116-147 | With an empty cache no number of ticks changes what the page shows |
| Engine.ViewStore.constructor | internal/engine/store.go:49-69 | A new store is loading, clean, unpaused and has view id 0 |
| Engine.ViewStore.Begin | internal/engine/store.go:85-93 | Starting is idempotent and flushes nothing |
| Engine.ViewStore.Stop | internal/engine/store.go:95-99 | Only the stopped flag changes |
| Engine.ViewStore.SetViewID | internal/engine/store.go:76 | Only the view id changes |
| Engine.ViewStore.Pause | internal/engine/store.go:101 | Only the paused flag changes |
| Engine.ViewStore.ResumeAndFlush | internal/engine/store.go:107-110 | Unpaused and dirty, nothing else changed |
| Engine.ViewStore.OnEvent | internal/engine/store.go:166-174 | The store becomes ready without an error, except from terminal, which stays with its error, and always dirty |
| Engine.ViewStore.OnWatchError | internal/engine/store.go:179-198 | A terminal error stops the store and sends its snapshot at once; a transient one makes it stale with that reason, unless it is terminal, which it then stays |
| Engine.ViewStore.CurrentPhase | internal/engine/store.go:154-162 | Loading only until the cache has synced, otherwise the phase held |
| Engine.ViewStore.Snapshot | internal/engine/store.go:213-248 | The rows of the cache with phase and error, loading shown as ready once synced |
| Engine.ViewStore.Flush | internal/engine/store.go:201-207 | The current snapshot under the current view id |
| Engine.ViewStore.OnTick | internal/engine/store.go:116-147 | One tick sends the current snapshot if and only if the store is unpaused and was dirty, just synced, or late for its heartbeat with rows to show |
| Engine.Engine.constructor | internal/engine/engine.go:39-48 | A new engine has no store and satisfies the lifecycle invariant |
| Engine.Engine.Register | internal/engine/engine.go:52-57 | Registering a kind touches no store |
| Engine.Engine.Ensure | internal/engine/engine.go:70-98 | Fails only for an unregistered kind; hands back the mapped store exactly when it is for this namespace and not terminal, otherwise stops it and maps a fresh one; no other store changes; the lifecycle invariant is kept |
| Engine.Engine.Rebuild | internal/engine/engine.go:88-97 | The replaced store is stopped, the new one is fresh and recorded under its namespace |
| Engine.Engine.StopKind | internal/engine/engine.go:109-118 | The kind is unmapped, exactly its store is stopped, and the invariant is kept |
| Engine.Engine.StopIfScreenScoped | internal/engine/engine.go:122-129 | Warm kinds stay as they are; any other kind is stopped and unmapped |
| Engine.Engine.StopAll | internal/engine/engine.go:159-168 | Nothing stays mapped and every store ever built is stopped |
| Engine.Engine.PauseAll | internal/engine/engine.go:132-142 | Exactly the mapped stores are paused |
| Engine.Engine.ResumeAllAndFlush | internal/engine/engine.go:146-156 | Exactly the mapped stores are unpaused and made dirty |
| Engine.Engine.Watch | internal/engine/store.go:166-198 | Watch activity on any store ever built keeps the lifecycle invariant; terminal and stopped stay so, and becoming terminal stops the store |
| Routing.RoutingIsSafe | internal/engine/engine.go:31-61 | In every run over any number of engines, any page accepts a delivered snapshot only from the store its latest entry stamped, in its own engine, and loaded after that stamp |
| Routing.LateSnapshotsAreDropped | internal/view/resource.go:192-198 | Whatever was loaded before the latest stamp is refused, from any store, and a page without a stamp refuses everything |
| Routing.EnteredPageIsServed | internal/view/resource.go:123-133 | What a store sends after a page has entered on it is accepted by that page |
| Routing.OpeningEnters | internal/view/resource.go:123-127 | Opening or re-entering a page goes on to a store exactly for a registered kind |
| SnapshotOrder.ProjectAll | internal/engine/store.go:225-231 | The loop yields the rows of the objects that project, in listing order |
| SnapshotOrder.ProjectedIs | internal/engine/store.go:225-231 | The rows are those of exactly the objects that project, one each and in listing order |
| SnapshotOrder.NamespaceFirst | internal/engine/store.go:232-239 | Rows are in order of namespace, and of name within one |
| SnapshotOrder.SnapshotIsDetermined | internal/engine/store.go:225-239 | However the cache is listed and whatever sort is used, two snapshots of one cache have the same rows in the same order when different rows differ in namespace or name |
| SnapshotOrder.SnapshotIsDeterminedIff | internal/engine/store.go:232-239 | The order is determined by the rows alone if and only if different rows differ in namespace or name |
| Filter.TitleIndex | internal/view/resource.go:1272-1276 | The first column title equal to the prefix up to case, if any |
| Filter.ResolvesAsDenoted | internal/view/resource.go:1264-1277 | A prefix resolves to the namespace for ns and namespace, to the name for name, to the first column of that title otherwise, up to case, and to nothing if there is none |
| Filter.SplitAlternatives | internal/view/resource.go:1378-1390 | The loop yields the value's needles, none of them empty |
| Filter.ParseFilter | internal/view/resource.go:1223-1259 | The loop yields the terms of the tokens in order, ignored tokens left out |
| Filter.FilterRows | internal/view/resource.go:1176-1188 | The loop yields the rows that satisfy every term |
| Filter.OutputIsOrderedSelection | internal/view/resource.go:1176-1188 | The output is the order-preserving subsequence at exactly the positions whose rows are kept |
| Filter.FilterComposes | internal/view/resource.go:1166-1188 | Filtering by f and g joined by a space is filtering by f and then by g, for all texts |
| Filter.TokenReads | internal/view/resource.go:1223-1259 | A token written from inversion, column and value is read back as exactly those |
| Filter.AlternationIsUnion | internal/view/resource.go:1280-1425 | An alternation of plain values keeps the union of what each value keeps, the inverted one the intersection of the inverted ones, for every row |
| Filter.FoundInTexts | internal/view/resource.go:1291-1313 | A term is found exactly where its matcher hits one of the texts its scope looks at |
| Filter.ColumnQuery | internal/view/resource.go:1223-1313 | "col:v" keeps exactly the rows whose column contains v up to case, "!col:v" exactly the others |
| Filter.NamespaceQuery | internal/view/resource.go:1264-1296 | For ns and namespace that is the object's namespace |
| Filter.NameQuery | internal/view/resource.go:1264-1296 | For name it is the object's name |
| Filter.CellQuery | internal/view/resource.go:1271-1302 | For a title it is the cell of the first column of that title, and a row without it is not found |
| Filter.AnywhereQuery | internal/view/resource.go:1303-1312 | A bare value is looked for in the namespace, the name and every cell |
| Filter.UnknownColumnQuery | internal/view/resource.go:1233-1239 | A prefix that denotes no column is literal text, colon included |
| Filter.RegexQuery | internal/view/resource.go:1244-1249 | "col:~p" keeps the rows whose column matches the pattern ignoring case, inverted the others, and asks for nothing when the pattern does not compile |
| Filter.AnywhereRegexQuery | internal/view/resource.go:1244-1249 | The same without a column |
| Filter.EmptyQuery | internal/view/resource.go:1240-1242 | A column without a value asks for nothing |
| Filter.LoneBangQuery | internal/view/resource.go:1226-1232 | A lone exclamation mark asks for nothing |
| Filter.AlternativeQuery | internal/view/resource.go:1378-1390 | A second alternative adds its rows |
| Filter.EmptyAlternativeQuery | internal/view/resource.go:1378-1390 | An alternative that is still empty changes nothing |
| Filter.RepeatedColumnQuery | internal/view/resource.go:1398-1410 | Repeating the column in an alternative, under any of its names, changes nothing |
| FilterHint.UnsatisfiableHint | internal/view/resource.go:1324-1365 | The hint is the earliest column with two or more plain terms, with all their values in order, and there is one whenever such a column exists |
| FilterHint.QueryParses | internal/view/resource.go:1358-1363 | The suggested text parses to one term on the group's column with the values' alternatives as needles, or to nothing |
| FilterHint.QueryContainsConjunction | internal/view/resource.go:1314-1365 | The suggested query keeps every row the original filter kept, always |
| FilterHint.QueryNeedlesIff | internal/view/resource.go:1378-1410 | The query has exactly the needles of the terms it replaces if and only if no value without a bar repeats its own column prefix |
| FilterHint.QueryIsExactIff | internal/view/resource.go:1324-1425 | The query keeps exactly the rows satisfying at least one grouped term if and only if it has a needle and the two needle lists cover each other |
| FilterHint.PlainQueryIsExact | internal/view/resource.go:1324-1425 | It is exact when some value has a non-empty alternative and no value without a bar repeats its column |
| FilterHint.RepeatedPrefixChangesMeaning | internal/view/resource.go:1398-1410 | For `col:col:x col:y` the hint is exact if and only if y occurs in x |
| FilterHint.RepeatedPrefixExample | internal/view/resource.go:1398-1410 | `ns:ns:a ns:b` gets a hint with another meaning |
| FilterComplete.SplitLastToken | internal/view/filtercomplete.go:65-70 | Head and token are the buffer; the token has no space, the head ends in one |
| FilterComplete.CompletionValues | internal/view/filtercomplete.go:75-90 | The candidates are exactly the values the rows contribute at the scope |
| FilterComplete.PrefixMatches | internal/view/filtercomplete.go:94-108 | Exactly the non-empty candidates extending the value up to case, each once, in first-seen order |
| FilterComplete.FilterMatches | internal/view/filtercomplete.go:23-61 | The offers are exactly the extending values of the term's scope, and whenever anything is offered prefix and value are the typed buffer |
| FilterComplete.NothingToCompleteIff | internal/view/filtercomplete.go:23-42 | There is nothing to complete exactly for an empty last token and for a regex |
| FilterComplete.CompletesItsPieces | internal/view/filtercomplete.go:23-60 | A buffer written from head, inversion, column and value is completed at exactly those, in the last alternative of the value |
| FilterComplete.LastIsCompleted | internal/view/filtercomplete.go:46-48 | Behind a bar it is the text after the last one |
| FilterComplete.RepeatedIsCompleted | internal/view/filtercomplete.go:49-57 | Behind a repeated column it is the text after that |
| FilterComplete.ColumnIsCompleted | internal/view/filtercomplete.go:33-60 | For "head col:w" the prefix is everything before w, and exactly the values of that column extending w up to case are offered |
| FilterComplete.NameIsCompleted | internal/view/filtercomplete.go:72-90 | Without a column exactly the names of the rows extending w are offered |
| FilterComplete.PrefixRestoresBuffer | internal/view/filtercomplete.go:23-61 | Wherever the buffer can be completed, prefix and value make up the buffer |
| FilterComplete.CompletionAgrees | internal/view/filtercomplete.go:23-61 | Parsing prefix and choice gives the head's terms and one last term of the same scope and inversion whose needles contain the lowercased choice |
| FilterComplete.CompletionAgreesIff | internal/view/filtercomplete.go:23-61 | For every buffer that can be completed and every offered plain choice, parsing prefix and choice gives the head's terms and the meant one if and only if the text put back holds no white space |
| FilterComplete.ChoiceKeepsItsRows | internal/view/filtercomplete.go:20-61 | With the choice, a row it came from is kept if and only if the head keeps it and the term is not inverted |
| FilterComplete.TrailingBarOffersAll | internal/view/filtercomplete.go:12-18 | In every buffer that can be completed, behind whatever head, inversion and column, a trailing bar has an empty value and exactly the non-empty values of the rows are offered |
| FilterComplete.ChoiceIsOneWordIff | internal/view/filtercomplete.go:63-70 | The parser sees the rebuilt token as one word if and only if the text put back holds no white space |
| FilterComplete.OtherWhiteSpaceSplits | internal/view/filtercomplete.go:63-70 | A white-space character other than a space in the token makes the choice two terms |
| Widths.ResolveWidths | internal/component/table.go:415-483 | The in-place array algorithm computes the specified widths |
| Widths.WidthsAreExact | internal/component/table.go:415-483 | The widths fill the available room exactly, unless there is room to spare and no flexible column, when they stay at their minimums |
| Widths.RoomIs | internal/component/table.go:425-429 | The room is the width without the two cells of the marker and the padding between columns, but at least three cells each |
| Widths.SurplusIsShared | internal/component/table.go:438-453 | With room to spare each column gets its minimum and its whole share of the surplus in proportion to its weight; only the first flexible one gets more, what rounding leaves |
| Widths.FlexibleGiveWayFirst | internal/component/table.go:454-467 | A column is narrowed below its minimum only when every flexible column, or for a flexible one every earlier one, is at three cells or less |
| Widths.WidthsKeepFloor | internal/component/table.go:415-483 | No width falls below the smaller of its minimum and 3 |
| Widths.RemainderIsSmall | internal/component/table.go:439-453 | Whole shares never exceed the surplus, and rounding leaves at most one cell per flexible column |
| Widths.BreakIsNeverNeeded | internal/component/table.go:468-481 | While a deficit is left the widest column is above the minimum, so the early break is never taken |
| Widths.ShavedIsEven | internal/component/table.go:468-481 | Every shaved column ends within one of the widest; the others keep their width |
| Rows.KeyLessOrder | internal/engine/columns/columns.go:79-87 | The key order is asymmetric, and every key lies between an ordered pair as a strict weak order demands, except NaN between two numbers |
| Rows.StrLessIff | internal/engine/columns/columns.go:86 | A text is below another when it is a proper beginning of it, or smaller where they first differ |
| StableSorting.SortIsStable | internal/component/table.go:157-169 | The reference sort orders the rows and keeps ties in place |
| StableSorting.StableSortIsUnique | internal/component/table.go:157-169 | Order and tie classes determine the outcome |
| StableSorting.SortedAtRank | internal/component/table.go:157-169 | Each row lands behind the rows strictly before it and the ties ahead of it |
| Table.ComparatorIsWeakOrder | internal/component/table.go:157-169 | The comparator is a strict weak order if and only if every row has the key and no NaN stands among different numbers, or it never tells two rows apart |
| Table.SortIsDetermined | internal/component/table.go:157-169 | With every key present and comparable any stable sort gives the same rows in the same order |
| Table.SortedByKey | internal/component/table.go:157-169 | Ascending, numbers come before texts, numbers do not decrease and texts do not go down the alphabet; descending is the reverse |
| Table.CursorStaysInView | internal/component/table.go:232-264 | After any sequence of operations the cursor is a row, or 0 on an empty table, and with a positive height it is on the screen |
| Table.CursorAlwaysInView | internal/component/table.go:51-264 | So for every new table, every stable sort and every sequence of operations |
| Table.MovedToNearest | internal/component/table.go:232-248 | A move goes to the row asked for or the nearest there is, and changes nothing but cursor and offset |
| Table.ScrollIsMinimal | internal/component/table.go:251-264 | Scrolling goes no further than any offset that shows the cursor |
| Table.ToggleFlipsOne | internal/component/table.go:187-200 | Toggling changes the selected object's mark and no other, and twice nothing |
| Table.RefreshKeepsSelection | internal/component/table.go:87-110 | New rows come out as a permutation, stably ordered when all have a comparable key, and the selected object stays selected while it is present |
| Table.LostSelectionGoesHome | internal/component/table.go:96-107 | Without the selected object the cursor goes to the first row |
| Table.ResortKeepsSelectionIff | internal/component/table.go:131-155 | For distinct uids, sorting keeps the selected object if and only if the rows before it in the new order and the ties ahead of it are as many as the rows above the cursor |
| Table.ResortMovesSelection | internal/component/table.go:143-155 | Turning the direction round on two rows in order always moves the selection |
| Table.MarkedOfIsExact | internal/component/table.go:211-229 | The marked rows are exactly the present rows with a mark, and pruning absent marks does not change them |
| Table.MarkedInDisplayOrder | internal/component/table.go:211-229 | They come in display order, each occurrence once |
| RenderCache.KeyInjective | internal/component/table.go:314-330 | Equal cache keys mean equal identity, selection and mark |
| RenderCache.ShowsItsRows | internal/component/table.go:290-305 | The window is every row there is from the offset on as far as the height goes, rendered with theme, columns, widths, selection and mark |
| RenderCache.DistinctUidsIdentify | internal/component/table.go:314-330 | Distinct uids without a bar are enough for identity to determine the row, whatever the versions |
| RenderCache.StoreKeepsCoherent | internal/component/table.go:314-378 | Storing a rendered line keeps every cached line equal to direct rendering |
| RenderCache.MoveKeepsCoherent | internal/component/table.go:187-264 | Cursor, scroll and mark changes keep the cache coherent as it is |
| RenderCache.CacheIsBounded | internal/component/table.go:55-64 | The cache holds at most four entries per current row |
| RenderCache.OneKeyOneLine | internal/component/table.go:314-330 | Two visible rows with one key get one line, whatever they look like and whatever was cached |
| RenderCache.LinesAreDirectIff | internal/component/table.go:290-378 | Through any cache, every rendered line is the uncached one if and only if the entries for the visible rows are what they look like and no two visible cacheable rows share a key and look different |
| RenderCache.BodyIsDirectIff | internal/component/table.go:290-378 | The same for the whole body, through any cache of single lines, for rows that render to single lines |
| RenderCache.WindowKeepsCacheOk | internal/component/table.go:290-378 | Every render keeps the cache coherent while identity determines the row, and within the keys of the current rows |
| RenderCache.MoveShowsOldLine | internal/component/table.go:233-330 | In a window one row high, moving to a second row of one identity shows the first one's body again, although no two visible rows ever clash |
| RenderCache.FreshBodyIsDirectIff | internal/component/table.go:87-110 | Right after new rows, when the cache is empty, only a clash in view matters |
| RenderCache.BodyHeight | internal/component/table.go:290-312 | The body fills its height, except on an empty table, where it has one line more |
| RenderCache.Widget.constructor | internal/component/table.go:51-53 | A new widget is empty and coherent |
| RenderCache.Widget.SetTheme | internal/component/table.go:67-73 | Only the theme changes; the cache stays coherent |
| RenderCache.Widget.SetColumns | internal/component/table.go:76-84 | The columns change, the sort column is kept in range, the cache stays coherent |
| RenderCache.Widget.SetRows | internal/component/table.go:87-110 | The rows are sorted, the selection followed, the cursor in view and the cache empty |
| RenderCache.Widget.SetSize | internal/component/table.go:112-120 | The cursor stays in view and the cache and widths current |
| RenderCache.Widget.SetSortState | internal/component/table.go:131-140 | The rows are re-sorted and the cache stays coherent |
| RenderCache.Widget.SetSort | internal/component/table.go:143-155 | Selecting the sort column again turns the direction round |
| RenderCache.Widget.ToggleMark | internal/component/table.go:187-200 | Exactly the selected object's mark changes |
| RenderCache.Widget.ClearMarks | internal/component/table.go:203 | No mark is left and nothing else changes |
| RenderCache.Widget.MarkedRows | internal/component/table.go:211-229 | The present marked rows are returned and the other marks dropped |
| RenderCache.Widget.MoveTo | internal/component/table.go:232-264 | The cursor is clamped and scrolled into view |
| RenderCache.Widget.MoveUp | internal/component/table.go:232 | One row up, in view |
| RenderCache.Widget.MoveDown | internal/component/table.go:233 | One row down, in view |
| RenderCache.Widget.Home | internal/component/table.go:234 | The first row, in view |
| RenderCache.Widget.End | internal/component/table.go:235 | The last row, in view |
| RenderCache.Widget.PageUp | internal/component/table.go:236 | One height up, in view |
| RenderCache.Widget.PageDown | internal/component/table.go:237 | One height down, in view |
| RenderCache.Widget.RenderRow | internal/component/table.go:314-378 | Exactly the cached line if there is one, otherwise the rendered one, which is stored under its key when the row has a uid; the cache stays coherent |
| RenderCache.Widget.Body | internal/component/table.go:290-312 | The body rendered through the cache as it was, and exactly the cache that leaves, so that renders chain; the uncached body when identity determines the row and, for single-line rows, if and only if the cache fits what is visible; at most four entries per row |
| Documents.HasContent | internal/action/apply/apply.go:89-98 | True exactly when some line is neither blank nor a comment |
| Documents.SeparatesIff | internal/action/apply/apply.go:57-76 | A line separates exactly when it is three dashes between white space |
| Documents.CarriesIff | internal/action/apply/apply.go:89-98 | A line carries something exactly when its first character that is not white space exists and is not a hash |
| Documents.LoneDocument | internal/action/apply/apply.go:63-85 | A stream without a separator is one document up to its trailing newlines, or none when no line carries anything |
| Documents.SplitDocuments | internal/action/apply/apply.go:63-85 | The loop yields the contentful runs between separator lines |
| Documents.SplitAtSeparator | internal/action/apply/apply.go:63-85 | Splitting two streams joined by a separator line gives the documents of the first and then of the second |
| Documents.SplitConservesPayload | internal/action/apply/apply.go:63-98 | No line that is neither blank, comment nor separator is lost, invented or reordered |
| Documents.ResplitIsIdentity | internal/action/apply/apply.go:63-98 | Joining the documents with separators and splitting again returns them |
| LineDiff.ResyncPoint | internal/action/apply/diff.go:268-280 | The two loops find the specified point |
| LineDiff.ResyncIsNearest | internal/action/apply/diff.go:229-280 | It is the matching pair at least total distance, ties to the smaller old index, or both ends if and only if no match is left; no line skipped on one side equals one skipped on the other |
| LineDiff.ScriptIsCorrect | internal/action/apply/diff.go:217-262 | Without additions the script is the old lines, without removals the new ones |
| LineDiff.ScriptShowsChange | internal/action/apply/diff.go:217-262 | It is all context if and only if the lines are equal |
| LineDiff.NoChangeBlockChurns | internal/action/apply/diff.go:229-262 | No change block removes a line and adds it back |
| LineDiff.UnifiedDiff | internal/action/apply/diff.go:217-262 | The loop terminates and writes the rendered script, or nothing for equal texts |
| LineDiff.RenderAddDiff | internal/action/apply/diff.go:195-207 | A new object is rendered as all its lines added |
| LineDiff.AddIsCorrect | internal/action/apply/diff.go:195-207 | Read back by its tags, a new object's diff has all its lines on one side and none on the other |
| LineDiff.DecodeRender | internal/action/apply/diff.go:217-302 | Reading the rendered text back by its tags gives the script |
| LineDiff.DiffIsCorrect | internal/action/apply/diff.go:217-302 | The text is empty if and only if the inputs are equal; otherwise it can be read back into the old and the new lines, without churn |
| LineDiff.DiffText | internal/action/apply/diff.go:217-288 | The text is the header naming the object and lines marked with a space, a minus or a plus; without the plus lines it is the old text, without the minus lines the new one |
| LineDiff.AddTextIs | internal/action/apply/diff.go:195-207 | A new object's text is the header and all its lines marked with a plus |
| LineDiff.DiffShowsChangeIff | internal/action/apply/diff.go:217-302 | For all texts, what is shown is pure context if and only if the texts are equal once their last lines are ended |
| LineDiff.NonEmptyDiffShowsChange | internal/action/apply/diff.go:217-302 | So for newline-terminated texts a non-empty diff shows a change |
| LineDiff.MissingNewlineShowsNothing | internal/action/apply/diff.go:292-302 | Every text whose last line is not ended gets a non-empty diff against its ended form that shows none |
| ApplyPreview.Apply | internal/action/apply/apply.go:128-176 | The loop applies the documents one after the other, each against the state the last one left |
| ApplyPreview.ApplyOne | internal/action/apply/apply.go:131-174 | One document with its early exits; a failed one changes nothing |
| ApplyPreview.ApplyPatchesItsObject | internal/action/apply/apply.go:131-174 | Exactly the object of the mapped resource, the document's name and its namespace, or the default one, or none for a cluster-scoped resource, is patched with what is live there and gets what the server accepts; every other object stays |
| ApplyPreview.ApplyTouchesOnlyItsObjects | internal/action/apply/apply.go:128-176 | Over a whole stream an object no document is about is left alone |
| ApplyPreview.ApplyStoresEach | internal/action/apply/apply.go:128-176 | With distinct objects each document's own gets what the server makes of what was there |
| ApplyPreview.UnresolvedIsReported | internal/action/apply/apply.go:131-150 | A document that cannot be read or mapped changes nothing and is reported as such by both |
| ApplyPreview.Diff | internal/action/apply/diff.go:59-138 | Every document is previewed against the unchanged cluster, which stays unchanged |
| ApplyPreview.DiffOne | internal/action/apply/diff.go:62-136 | One document: fetch, dry run, render |
| ApplyPreview.DiffAsksForItsObject | internal/action/apply/diff.go:62-136 | The same object is fetched and then dry-run, each failure is reported as what it is, and otherwise the diff is between what is live and what the server proposes |
| ApplyPreview.DiffHasContent | internal/app/app.go:930-937 | True exactly when some result has an error or a non-blank diff |
| ApplyPreview.PreviewIdentities | internal/action/apply/diff.go:59-138 | Preview and apply report the same documents, identities, and parse and mapping failures |
| ApplyPreview.ApplyFrames | internal/action/apply/apply.go:128-176 | An object no document addresses is left alone |
| ApplyPreview.PreviewIsStored | internal/action/apply/apply.go:128-176 | With distinct targets what the server answers the dry run of a document is what apply stores, and a rejected document leaves its target alone |
| ApplyPreview.PreviewShowsStored | internal/action/apply/diff.go:59-188 | With distinct targets, a document that diffs without error is stored, and its diff is empty for equal YAML or else reads back as the live object's lines, none for a new one, against the lines of the object apply stores |
| ApplyPreview.NoContentMeansNoChange | internal/action/apply/diff.go:157-188 | A document without error has no diff content if and only if the server would store what is there |
| ApplyPreview.EmptyPreviewIsNoOp | internal/app/app.go:930-937 | If no document has diff content, apply leaves the cluster unchanged, distinct targets or not |
| ApplyPreview.PreviewShowsEveryChange | internal/app/app.go:930-937 | With distinct targets and no error the preview is empty if and only if apply changes nothing |
| LogBuffer.Buffer.Append | internal/action/logstream/buffer.go:33-42 | The line is kept and the oldest beyond the capacity counted as dropped |
| LogBuffer.Buffer.Drain | internal/action/logstream/buffer.go:46-57 | Everything held is handed over and the buffer is empty |
| LogBuffer.ExtendedIsTight | internal/action/logstream/buffer.go:33-42 | Lines are dropped only when the buffer is full, and every line is kept or counted |
| LogBuffer.CoversWindows | internal/action/logstream/buffer.go:33-57 | Each batch is one stretch of the appended lines, the stretches in order and apart by exactly the reported drops |
| LogBuffer.CoversSubsequence | internal/action/logstream/buffer.go:33-57 | The batches in drain order are a subsequence of the append order |
| LogGroup.StepLedger | internal/action/logstream/group.go:55-109 | Every step of readers, flusher and closing readers keeps the ledger balanced, whatever the countdown says |
| LogGroup.CountdownStep | internal/action/logstream/group.go:75-109 | Every step keeps the countdown right: one closing reader, once all readers have finished, and one end |
| LogGroup.ReaderAppends | internal/action/logstream/group.go:55-72 | A reader's line is appended and nothing is sent |
| LogGroup.TickFlushes | internal/action/logstream/group.go:84-105 | A tick takes everything pending and sends it whole |
| LogGroup.ReaderFinishes | internal/action/logstream/group.go:75-82 | A reader that finishes counts down by one and closes exactly at zero |
| LogGroup.CloserCloses | internal/action/logstream/group.go:75-82 | The closing reader sends what is pending, stops the flusher and ends the stream, in that order |
| LogGroup.LogConservation | internal/action/logstream/group.go:55-105 | In every interleaving of any number of readers, lines appended are lines and drops delivered, in flight and pending; what is pending is the newest lines up to the capacity |
| LogGroup.NoLineTwice | internal/action/logstream/group.go:84-105 | Two batches always deliver disjoint stretches of the appended lines, unaltered |
| LogGroup.EndsExactlyOnce | internal/action/logstream/group.go:75-109 | The end is sent at most once, only after every reader has finished, with the buffer empty from then on, and it has been sent when the closing reader is through |
| LogGroup.EndWaitsForReaders | internal/action/logstream/options.go:84-109 | The end waits for all readers in every run if and only if there are at most 2^32 of them |
| LogGroup.WrappedCountdownEndsEarly | internal/action/logstream/group.go:75-82 | With more, the countdown wraps and some run ends while readers go on |
| LogGroup.Group.constructor | internal/action/logstream/options.go:84-109 | The countdown starts at the number of pods; with none the stream is ended at once |
| LogGroup.Group.FlushNow | internal/action/logstream/group.go:99-105 | What is held is sent as one batch, nothing when there is nothing |
| LogGroup.Group.StopFlushing | internal/action/logstream/group.go:107-109 | The flusher is told to stop, any number of times |
| LogGroup.Group.ReaderDone | internal/action/logstream/group.go:75-82 | The last reader flushes, stops the flusher and sends the end; any other only counts down |
| RefreshChain.SingleRefreshChain | internal/view/crdbrowse.go:93-158 | Over every run in which token allocations do not overlap, each browse page has at most one outstanding tick with its token, and exactly one whenever it is on top |
| RefreshChain.AllocationIsSafeIff | internal/view/crdbrowse.go:63-104 | In every run that has been serial so far, a step that takes a token, building a page or revealing one, keeps every continuation single-chained if and only if no constructor is part-way through taking one |
| RefreshChain.StepInv | internal/app/app.go:269-306 | Push, pop, navigation, context switch, tick and manual refresh each keep it |
| RefreshChain.OverlappingAllocationsDoubleTheChain | internal/view/crdbrowse.go:63-70 | A constructor interrupted in its increment can leave two pages with one token and two chains |
| RefreshChain.Root.NewBrowse | internal/view/crdbrowse.go:63-70 | A new page gets the next token |
| RefreshChain.Root.PushPage | internal/app/app.go:269-277 | The page goes on top and a browse page starts its tick |
| RefreshChain.Root.PopPage | internal/app/app.go:280-294 | The base page stays; a revealed browse page takes a new token and a new tick |
| RefreshChain.Root.RouteTick | internal/app/app.go:298-306 | The tick re-arms only the top page, and only with its own token |
| RefreshChain.Root.Navigate | internal/app/app.go:324-352 | The stack is replaced by the new page |
| RefreshChain.Root.SwitchContext | internal/app/app.go:355-370 | The stack is emptied |

## Left out

- Kubernetes clients, informers, exec and port-forward transports, kubeconfig loading: calls into other code; only the cache, the events and the server function are kept.
- Drawing, key maps, menus, themes and the table header: user interface; one row's rendering is an uninterpreted function.
- Column projectors, kind registries, patch builders, rollout and tenant status, error classification, scale and port parsing: one switch or one short loop each.
- Refresh timers of the node and tenant pages: they carry no token and manual refresh starts further chains on purpose.
- Contents of a fetched CRD table and the age shown beside it: only the ticks of the browse page are modelled.
- Metrics overlay, selector scoping, AGE text and the time of the last sync: they do not take part in the protocols.
- Pipeline: nothing is claimed about delivery order around a terminal error; its flush runs on another goroutine and may be overtaken.
- RefreshChain.SingleRefreshChain: for runs whose token allocations do not overlap, because the counter is incremented off the UI loop without a lock; RefreshChain.AllocationIsSafeIff shows the condition exact.
- RefreshChain.Root.NewBrowse: states the increment as one step; the interleaved increment is in the state machine.
- LogGroup.EndsExactlyOnce: for up to 2^32 readers; beyond that the countdown wraps and LogGroup.EndWaitsForReaders shows the claim false.
- Engine.ViewStore.OnTick: one uninterrupted pass of the loop body; Pipeline interleaves it at every access.
- LogGroup.Group.ReaderDone: one uninterrupted pass; the state machine interleaves draining and sending.
- FilterComplete.CompletionAgreesIff: assumes that case mapping keeps white space and makes none, and that column titles hold no white space but spaces.
- FilterComplete.CompletionAgrees: for candidates free of white space, `|` and `:` that do not start with `~`, which are the characters the language gives a meaning to.
- Filter: case mapping works character by character, keeps the length and, where stated, is idempotent and maps only `!` to `!`; Unicode folding that changes lengths is not modelled, and byte offsets are character offsets.
- FilterHint.UnsatisfiableHint: returns the group itself; the sentence around the suggested query is not modelled.
- Widths: integers are unbounded, so the overflow of a product of surplus and weight is not modelled.
- Rows: a number is a real, an infinity or NaN; rounding is not modelled.
- RenderCache.Widget.SetRows: takes a copy of the rows; the caller's slice being sorted in place is not modelled.
- ApplyPreview.EmptyPreviewIsNoOp: assumes that YAML encoding is injective and never empty, as do ApplyPreview.NoContentMeansNoChange and ApplyPreview.PreviewShowsEveryChange; encoding itself is a parameter.
- ApplyPreview: the server is a function of live object and document; a cluster that other clients change between preview and apply is not modelled.
- Routing: a snapshot is delivered to any page at any time the UI loop is between messages; which page is on top, and in which order messages arrive, is left to Pipeline.
- Documents: a document is a string of characters; bytes that are not valid text are not modelled.
