# Qleaner core in Dafny

This project models the decision logic of Qleaner, a macOS cache and
leftover cleaner with three front ends:

- **app.py** is the desktop server. The main part modelled here is the
  leftover detector. It builds an index of installed bundle identifiers,
  and seven detectors look for folders and property lists that belong to
  no installed application. Each detector has its own skip list, ownership
  test, size threshold and confidence. The worker runs six of the seven
  detectors and publishes the results sorted largest first, together with
  a running found count and total size.
- **web.py** is the web server. The model covers its cache scan: it keeps
  catalogue locations that exist and are not empty, adds one entry per
  sandboxed container cache, and sorts largest first. It also covers the
  guard that refuses a second scan while one runs, the 60-point history
  window of the statistics charts, and the days/hours/minutes uptime text.
- **mac.py** is the terminal cleaner. The model covers its scan of
  locations and sandbox caches, the size categories that colour the menu,
  and the interactive menu loop: select all, select none, toggle a number,
  toggle a range, delete, quit.

The file system, `du`, `mdfind` and the property-list reader are oracles.
A directory listing is a sequence of entries. Each entry carries its name,
whether it is a directory, and its measured size. A path probe says
whether the path exists and, if so, its size. The user's typed lines and
confirmation answers are inputs to the menu model. Strings are ASCII.

Modules, one per file:

| module | models |
|---|---|
| `Text` | Python string built-ins on ASCII: `lower`, `in`, `startswith`, `split`, `strip`, `str(n)`, `int(s)` |
| `Collections` | stable `sort(reverse=True)` by a key, `sum`, list comprehensions, `extend` |
| `Naming` | `infer_app_name` |
| `InstalledApps` | `get_installed_bundle_ids` as a union of three sources |
| `Detectors` | `LeftoverItem` and the seven `detect_*_orphans` |
| `ScanJob` | the in-progress/complete flags and progress record of both scans |
| `LeftoverScan` | `do_leftover_scan` |
| `CacheScan` | `do_scan` (web.py, and its copy in app.py) |
| `Monitor` | the history window and uptime text of `system_stats` |
| `Units` | the whole-byte branch of `human_readable_size` (three copies) |
| `Menu` | mac.py: `get_size_category`, `scan_locations`, `scan_sandboxed_apps`, `main`'s loop, `display_menu`'s summary |

Three behaviours of the code are worth noting:

- The Preferences test only asks whether an installed identifier occurs
  in the file's stem. A stem that is a proper prefix of an installed
  identifier is therefore reported.
- The Logs detector exists but is never called by the worker.
- Group Containers uses two containment tests, not four. The model proves
  that the two are as strong as the four-way test.

## Model

| member | source | states |
|---|---|---|
| Naming.InferAppName | app.py:154-171 | the empty id gives "Unknown App"; otherwise the name is title-cased, has no '.', '-' or '_', and its lower-case form is the last segment with a space after each lower-to-upper boundary and '-' and '_' blanked, so its letters and digits are the segment's, up to case |
| Naming.InferAppNameDetermined | app.py:154-171 | the inferred name is the only title-cased text with that lower-case form |
| Naming.InferAppNameUsesLastSegment | app.py:160-161 | only the text after the last '.' decides the name |
| Naming.SplitCamelSpec | app.py:166 | the camel-case split leaves no lower-to-upper boundary, inserts only spaces and keeps every other character in order |
| Naming.SplitCamelAtBoundaries | app.py:166 | a space goes after exactly the lower-case letters directly followed by an upper-case one, and text without such a boundary is unchanged |
| Naming.DashesToSpaces | app.py:168 | every '-' and '_' becomes a space and every other character is kept |
| Naming.TitleCasedUnique | app.py:170 | two title-cased texts with the same lower-case form are equal |
| Naming.TitleFromSpec | app.py:170 | title-casing changes only letter case, and upper-cases exactly the letters that do not follow a letter |
| Naming.TitleCasedFixed | app.py:170 | text that is already title-cased is left unchanged |
| Naming.TitleIdempotent | app.py:170 | title-casing a second time changes nothing |
| Naming.InferAppNameExample | app.py:154-171 | "com.example.MyCoolApp" and "MyCoolApp" give "My Cool App"; "" gives "Unknown App" |
| InstalledApps.Normalize | app.py:178-221 | one strategy's ids, lower-cased, with empty ids dropped: membership both ways |
| InstalledApps.BuildIndex | app.py:174-221 | the index is the union of the three strategies; every id in it is non-empty and lower-case |
| InstalledApps.FailedStrategyContributesNothing | app.py:187-192 | a strategy that fails adds nothing, and the other two still count |
| Detectors.ItemFor | app.py:60-73 | the reported item's category, path, size, id prefix, name and bundle id; it is preselected exactly when its confidence is not low |
| Detectors.ItemIdsDistinct | app.py:240-250 | two items with the same id come from the same category and the same entry name |
| Detectors.ScanFoldersMembers | app.py:233-253 | a folder walk reports exactly the items of the entries its rule admits |
| Detectors.ScanFoldersAppend | app.py:233-253 | the walk keeps listing order: scanning a concatenation scans the parts one after the other |
| Detectors.ScanPlistsMembers | app.py:316-355 | a property-list walk reports exactly the admitted files before the first one whose size cannot be read |
| Detectors.DetectContainerOrphans | app.py:224-255 | a container is reported iff it is a directory, its lower-cased name is not installed and its size is positive; high confidence, preselected |
| Detectors.DetectGroupContainerOrphans | app.py:258-304 | reported iff no installed id occurs in the lower-cased name and the suffix occurs in no installed id, and size > 0; high, preselected |
| Detectors.GroupOwnedFourWay | app.py:272-283 | the two containment tests are as strong as the four-way test |
| Detectors.DetectPreferenceOrphans | app.py:307-357 | reported iff the file is off the skip list, no installed id occurs in its stem and its size is positive; medium, preselected |
| Detectors.PreferencesOwnedIff | app.py:331-336 | the equality and prefix tests are special cases of containment |
| Detectors.PreferencePrefixOfInstalledIsReported | app.py:331-336 | the preferences of com.old.tool are reported while com.old.tool.helper is installed |
| Detectors.DetectAppSupportOrphans | app.py:360-415 | reported iff off the skip list, related to no installed id by containment or token, and over 1024 bytes; medium, preselected |
| Detectors.TokenOwnedIsTwoWay | app.py:389-394 | over lower-case ids the token test adds nothing to the two containment tests |
| Detectors.DetectLaunchAgentOrphans | app.py:418-472 | user then system agents, each walk stopping at its own failure; reported iff unrelated by containment, with no size filter; high, preselected |
| Detectors.EqualityIsContainment | app.py:447-452 | for Launch Agents and Caches the equality test adds nothing |
| Detectors.DetectCacheOrphans | app.py:475-525 | reported iff off the skip list, unrelated by containment and over 10240 bytes; medium, preselected |
| Detectors.DetectLogsOrphans | app.py:528-579 | the App Support rule with the Logs skip list; low confidence, not preselected |
| Detectors.ExactNameOwnedEverywhere | app.py:233-558 | a name equal to an installed id is owned under every category's test |
| Detectors.DockSkipsDocker | app.py:365-373 | the "Dock" skip entry is a prefix test, so a "Docker" folder is never reported |
| ScanJob.Start | app.py:983-997 | the reply is already_scanning exactly when a scan runs, and then nothing changes; otherwise the flags, results and progress are reset |
| ScanJob.Finish | app.py:1064-1066 | publishing clears in-progress and sets complete with the given results |
| ScanJob.StartTwice | web.py:488-505 | a second start while the first runs is refused and changes nothing |
| ScanJob.StartAfterFinish | web.py:488-505 | once the worker has finished, a new start is accepted and clears the results |
| ScanJob.ValidPreserved | app.py:983-1066 | a scan is never both running and complete, before or after a start or a finish |
| LeftoverScan.Aggregate | app.py:1015-1066 | results are a permutation of the six batches in order, sorted non-increasing and stable; the progress ends at 7/7, 100%, with the count and size total |
| LeftoverScan.DoLeftoverScan | app.py:999-1068 | Aggregate over the six detectors; no Logs item, no low-confidence item, every item preselected |
| LeftoverScan.BatchesExcludeLogs | app.py:1009-1057 | none of the six invoked detectors reports Logs or low-confidence items |
| CacheScan.KeptLocationsSpec | web.py:514-529 | a catalogue location is kept iff it exists with size > 0, and is then marked existing and selected |
| CacheScan.AppName | web.py:539 | the app name is the text after the last '.', and has no '.' |
| CacheScan.AppNameAsWritten | web.py:539 | the split-based expression in the source equals the last segment |
| CacheScan.ContainerEntry | web.py:540-556 | id "container_"+app, name app+" Cache", category Containers, risk low, preselected, size as measured |
| CacheScan.ContainerCachesMembers | web.py:535-558 | a container is reported iff its cache folder exists with size > 0 |
| CacheScan.ScanCatalogue | web.py:514-529 | the catalogue loop keeps the kept locations in order, total is n+1, and found count and size track the results |
| CacheScan.ScanContainers | web.py:531-558 | the container loop appends the container entries in listing order, keeping the count and size totals |
| CacheScan.DoScan | web.py:507-568 | results are a stable non-increasing permutation of catalogue and container entries, all existing, selected and non-empty; the progress ends at 100% "Complete" |
| Monitor.Record | web.py:736-746 | one sample appends to every series, keeps them aligned and at most 60 long, and the last point of each of the five series (cpu, memory, network in and out, time) is the sample's |
| Monitor.Trim | web.py:745-746 | trimming keeps the last min(n, 60) points |
| Monitor.ReplayKeepsLatest | web.py:736-746 | after any run of samples the history holds exactly the most recent 60 samples, in order |
| Monitor.Breakdown | web.py:723-725 | days, hours below 24, and minutes below 60 add up to the seconds less the partial minute |
| Monitor.BreakdownUnique | web.py:723-725 | that is the only such breakdown |
| Monitor.UptimeRoundTrip | web.py:723-731 | reading the uptime text back gives its days, hours and minutes breakdown, which is the uptime to the minute |
| Monitor.RenderRoundTrip | web.py:726-731 | the text has three pieces when there are days, two when there are hours but no days, one otherwise, and reads back to exactly its days, hours and minutes |
| Units.HumanSize | web.py:77-86 | negative sizes give the fixed text; below 1024 the text ends in "B" and starts with '0' only for zero; the float branch is not modelled |
| Text.NatToString | web.py:81 | `str(n)` is the canonical decimal text: all digits, with a leading '0' exactly when n is zero |
| Units.HumanSizeRoundTrip | mac.py:62-73 | a size below 1024 prints as its exact decimal value |
| Units.HumanSizeInjective | app.py:80-89 | different sizes below 1024 print differently |
| Menu.SizeCategoryOf | mac.py:76-84 | large above 1 GiB, medium above 100 MiB, small above 10 MiB, else tiny; all strict |
| Menu.SizeCategoryMonotone | mac.py:76-84 | a larger size never gets a smaller category |
| Menu.ScanLocationsSpec | mac.py:239-266 | exactly the locations that exist with size > 0 are kept, marked selected; none kept iff none qualifies |
| Menu.ScanLocationsAppend | mac.py:253-264 | the scan keeps input order |
| Menu.SandboxMembers | mac.py:220-236 | a container gives a menu line iff its cache folder is a non-empty directory, named after the app |
| Menu.Setup | mac.py:429-445 | the menu opens only when the catalogue yields something, then holds those locations followed by the sandbox caches |
| Menu.SetupOpensMenu | mac.py:432-434 | the program stops exactly when no catalogue location qualifies, whatever the containers hold |
| Menu.ParseCommandNormalized | mac.py:462 | case and outer white space of the typed line do not matter |
| Menu.NormalizeIdempotent | mac.py:462 | stripping and lower-casing a second time changes nothing |
| Menu.ParseNumber | mac.py:492-493 | a typed number asks to toggle that line |
| Menu.ParseRange | mac.py:499-502 | "s-e" asks to toggle lines s to e |
| Menu.ParseRangeChoice | mac.py:499-507 | a range needs exactly two pieces that both convert; anything else is ignored |
| Menu.Apply | mac.py:468-505 | only selection marks change; 'a' selects all, 'n' none; a toggle flips exactly the lines it names when in range; other commands change nothing |
| Menu.FlipSpan | mac.py:504-505 | the range loop flips exactly the marks in the range |
| Menu.ToggleInvolution | mac.py:494-505 | toggling the same line or range twice restores the selection |
| Menu.SingleRangeIsToggle | mac.py:494-505 | the range "n-n" is the same as typing n |
| Menu.OutOfRangeIgnored | mac.py:494-503 | "0", numbers past the end and reversed ranges change nothing |
| Menu.SummaryIsSelection | mac.py:326-327 | the summary's count and total size are those of the locations a deletion would clean |
| Menu.ToggleCount | mac.py:494-496 | toggling one line changes the selected count by exactly one |
| Menu.SelectAllCount | mac.py:468-474 | after 'a' every line counts; after 'n' none does |
| Menu.Step | mac.py:462-507 | quit cancels; delete cleans exactly the selected locations when there are some and the user confirms; otherwise the menu goes on with the command applied |
| Menu.Session | mac.py:453-507 | the loop never changes anything but marks; it cleans only after a confirmed delete, and only selected locations, each one of the menu's lines up to its mark and no more of them than the menu holds |
| Menu.QuitFirst | mac.py:464-466 | typing q first cancels whatever follows |

## Left out

- File-system access, `du`, `mdfind`, `defaults read` and plist parsing are given as inputs: listings, probes and the three index strategies.
- Threads, Flask routes, locks and JSON replies are left out. The two flags are modelled as a sequential state machine, and the worker as a method that runs after a successful start.
- Deletion (`clean_locations`, `clean_leftovers`, `clear_selected`, `clear_location`) is left out. The menu model stops where it hands over the locations to clean.
- The `get_cache_locations` catalogues are static data and are given as an input list.
- The human-readable size of every record (`size_human`) is left out: it is computed with floating point.
- Units.HumanSize: sizes of 1024 bytes and more are formatted from a floating-point quotient; the function answers None for them.
- CacheScan.ScanCatalogue: the progress percent is `int((i / (n + 1)) * 100)` on floats; the model uses the exact integer quotient `(i * 100) / (n + 1)`, which the float result can fall one below.
- The web server's container walk has no `try`; a failing directory listing would end the worker thread. The model takes the listing as given.
- Menu.ScanSandboxedApps: the terminal cleaner's walk of `~/Library/Containers` (`iterdir` and the per-container `exists`/`is_dir`) has no `try` either, so a listing error ends the program before the menu opens. The model takes the listing as given and does not model that exit.
- psutil readings (CPU, memory, network counters, boot time) are inputs, and the network-rate division in the history endpoint is left out. The uptime is modelled on whole seconds, after the source's `int`.
- `KeyboardInterrupt`, end of input at the prompt and the one-second pauses are left out; a session that runs out of typed lines leaves the menu open.
- Python's `str.lower`, `str.title`, `str.strip`, `str.isdigit` and `int` are modelled on ASCII. Unicode digits that `isdigit` accepts but `int` rejects are not modelled.
- The mac.py sandbox scan checks that each container cache exists twice (once while listing it, once in `scan_locations`) and measures it once, in `scan_locations`. The model uses one probe for both checks, so a folder that vanishes between them is not modelled.
- The rich console rendering (table, colours, path shortening) is left out; only the colour category is modelled.
