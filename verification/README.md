# Nift site information: a Dafny model

This project models the decision logic of `SiteInfo.cpp`, the part of the Nift
static-site generator that keeps track of a site's pages. A site has a
configuration file (`.siteinfo/nsm.config`), a list of tracked pages
(`.siteinfo/pages.list`), optional per-page extension override files, and one
build-information file per built page recording its name, title, template and
dependencies. The model covers:

- loading and validating the configuration, with its defaults;
- the page registry (`make_info`, `track`, `untrack`, `rm`, `mv`, `cp`,
  `new_title`, both `new_template`s, loading the page list);
- effective extensions and the per-page and site-wide extension setters;
- the staleness check that `build_updated` runs for each page, and the one
  `status` runs;
- the worker count, the claim loop the build threads share, `build`,
  `build_all` and `build_updated`, and the capped summaries printed after a
  build;
- the argument checks of `new_site_dir` and `new_content_dir`.

The file system is replaced by values. File existence, build records, user
dependency lists and the "modified after" relation form a `Snapshot`. Renames
and deletions are returned as plans. The page builder's outcome is a function
parameter. Helpers whose source is not part of this model are fields of an
`Env` value: unquoting, splitting a string into a directory and a file name,
the default title of a name, and the build-information path of a page.

Modules, one per file: `Wrappers` (Option, Result), `Paths` (paths and the
first-dot extension swap), `SiteConfig` (`open_config`, `no_build_threads`),
`Pages` (page record, registry, overrides, `get_ext`), `Registry` (tracking
operations and loading), `Extensions` (extension setters), `Staleness`
(`dep_thread` and `status` classification), `Summary` (capped listings),
`Scheduler` (worker count, claim loop, builds) and `SiteDirs` (directory moves).

Where the code and the documented behaviour differ, the model follows the
code:

- `new_title` and the per-page `new_template` do not reject a value equal to
  the current one.
- `status` does not stop at the first finding. It reads the build record even
  for a page with a missing content or template file, and it ignores `.deps`
  files.
- The per-page script-extension setter compares the new value with the page
  extension rather than the script extension (SiteInfo.cpp:1534).

## Model

| member | source | states |
|---|---|---|
| Paths.FirstDot | SiteInfo.cpp:1262 | the position `find_first_of('.')` yields: no dot before it, a dot at it, or the end of the string when there is no dot |
| Paths.FirstDotOfJoin | SiteInfo.cpp:1262 | a dot-free stem followed by a dotted extension has its first dot where the extension starts |
| Paths.StemHasNoDot | SiteInfo.cpp:1262 | the part before the first dot contains no dot |
| Paths.ReplaceExt | SiteInfo.cpp:1262 | definition: the part before the first dot followed by the new extension |
| Paths.ReplaceExtShape | SiteInfo.cpp:1262 | swapping in a dotted extension keeps the stem and makes the new extension the whole extension |
| Paths.ReplaceExtTwice | SiteInfo.cpp:1262 | two swaps, the first to a dotted extension, equal one swap to the second |
| Paths.ReplaceExtOwn | SiteInfo.cpp:1262 | swapping a file's extension for its own leaves the name unchanged |
| Paths.ReplaceExtRoundTrip | SiteInfo.cpp:1262 | swapping to a dotted extension and back to the original extension restores the file name |
| Paths.SameDirStr | SiteInfo.cpp:1263 | two paths in one directory print the same exactly when their file names are equal |
| SiteConfig.DropSpaces | SiteInfo.cpp:36 | definition: the leading whitespace `iss >> inType` skips, removed |
| SiteConfig.DropSpacesSuffix | SiteInfo.cpp:36 | skipping leading whitespace leaves a suffix of the line, everything skipped is whitespace, and what is left is empty or starts with a non-space |
| SiteConfig.FieldsDetermine | SiteInfo.cpp:38-59 | the eleven configuration keys determine the whole configuration |
| SiteConfig.Assign | SiteInfo.cpp:38-59 | a recognised line stores its value under its key and leaves every other key alone |
| SiteConfig.ApplyLines | SiteInfo.cpp:30-66 | the reading loop fails exactly when some read line (not blank, whitespace-only or `#`) has an unknown key, and the error names a key outside the eleven |
| SiteConfig.UnassignedKeepsInitial | SiteInfo.cpp:30-66 | a key no line assigns keeps its initial value |
| SiteConfig.LastAssignmentWins | SiteInfo.cpp:30-66 | for a key assigned several times the last assignment wins |
| SiteConfig.FirstProblem | SiteInfo.cpp:69-103 | no problem exactly when content and page extensions start with '.', the script extension is empty or starts with '.', and the default template, content directory and site directory are set |
| SiteConfig.GuessBranches | SiteInfo.cpp:145-163 | definition: "##unset##" for both without `.git`; otherwise "stage" and "master" when a `stage` branch exists, else "master" for both |
| SiteConfig.FillDefaults | SiteInfo.cpp:105-172 | definition: each missing optional setting gets its default, and the file is marked for rewriting when any did |
| SiteConfig.OpenConfig | SiteInfo.cpp:13-172 | an unknown key fails; success exactly when the post-read checks pass; a loaded configuration is well formed with a non-empty script extension |
| SiteConfig.OpenConfigKeepsValues | SiteInfo.cpp:105-172 | a loaded configuration keeps the required fields as read and every optional field the file set, and is rewritten exactly when a default was filled in |
| SiteConfig.OpenConfigLastWins | SiteInfo.cpp:30-103 | after a successful load, each required key holds the value of the last line assigning it |
| SiteConfig.NoBuildThreads | SiteInfo.cpp:1555-1575 | zero and the current count are refused; otherwise only the thread count changes and well-formedness is kept |
| Pages.Tracking | SiteInfo.cpp:487-492 | a name is tracked exactly when some record in the set carries it |
| Pages.GetInfo | SiteInfo.cpp:372-377 | the record returned is tracked, carries the name, and is the only such record |
| Pages.MakeInfo | SiteInfo.cpp:336-352 | definition: content and page paths from the unquoted, split name under the site-wide directories and extensions |
| Pages.MakeInfoShape | SiteInfo.cpp:336-352 | `make_info` keeps name, title and template; its paths depend on the name only; each derived file name's stem is the name's file part and its extension is the site-wide one |
| Pages.WithDefault | SiteInfo.cpp:1235 | setting a site-wide extension changes that extension; the other two extensions, both directories, the default template, the thread count, both editors and both branches are unchanged |
| Pages.GetExt | SiteInfo.cpp:443-465 | definition: the override value when the page has an override file of that kind, otherwise the site-wide extension |
| Pages.Overrides.With | SiteInfo.cpp:1242-1243 | replacing one kind of override file leaves the other two kinds alone |
| Registry.Track | SiteInfo.cpp:494-569 | refused (registry unchanged) for a dotted name, an empty field, mixed quotes, content path equal to template path, or an already-tracked name; otherwise exactly the `make_info` record is added; validity is kept |
| Registry.Untrack | SiteInfo.cpp:571-606 | fails exactly for an untracked name; otherwise only that record is removed, and its build record and page file are deleted |
| Registry.Rm | SiteInfo.cpp:608-649 | the same registry as `untrack`, and the content file is deleted too |
| Registry.TrackThenUntrack | SiteInfo.cpp:494-606 | a successful `track` followed by `untrack` restores the registry |
| Registry.CheckRename | SiteInfo.cpp:651-690 | a rename is allowed exactly for a non-empty dot-free new name without mixed quotes, a tracked old name and an untracked new name |
| Registry.Renamed | SiteInfo.cpp:683-691 | definition: the new record from the joined string `dir + name + ext`, the old template, and the title rule |
| Registry.Cp | SiteInfo.cpp:737-801 | accepted under the rename checks; adds a record under the new name, keeps the old records, carries the old template, and takes the new default title only when the old title was the old default title |
| Registry.Mv | SiteInfo.cpp:651-735 | as `cp`, but the old name is dropped and its build record, page and content file are deleted |
| Registry.MvIsCpWithoutOld | SiteInfo.cpp:651-801 | `mv` and `cp` accept the same arguments, and `mv`'s registry is `cp`'s without the old name |
| Registry.NewTitle | SiteInfo.cpp:803-836 | an empty or mixed-quote title or an untracked name is refused; otherwise only that page's title changes |
| Registry.NewTemplate | SiteInfo.cpp:888-922 | an empty or mixed-quote template or an untracked name is refused; otherwise only that page's template changes |
| Registry.NewTemplateChecked | SiteInfo.cpp:888-922 | the same, but a template equal to the page's content path is refused as well, so validity is kept |
| Registry.Retarget | SiteInfo.cpp:854-874 | each listed entry keeps name and title, and its template is replaced exactly when it was the old default |
| Registry.NewDefaultTemplate | SiteInfo.cpp:838-886 | an empty or mixed-quote template is refused; otherwise the default template changes, the persisted list is retargeted, and well-formedness is kept |
| Registry.NewDefaultTemplateMovesAll | SiteInfo.cpp:854-874 | afterwards no entry names the old default, and entries with other templates are unchanged |
| Registry.Reloaded | SiteInfo.cpp:197-225 | definition: `make_info`, then the content and page file names rewritten to any override extension |
| Registry.LoadRecords | SiteInfo.cpp:192-265 | definition: records read in order, stopping at equal content and template paths or a repeated name |
| Registry.LoadPages | SiteInfo.cpp:174-267 | definition: each listed entry loaded as its `Reloaded` record |
| Registry.RecordNamesSnoc | SiteInfo.cpp:192-265 | the names read so far grow by the last record's name |
| Registry.AllPathsDistinctSnoc | SiteInfo.cpp:228-234 | the content-versus-template check holds for all records exactly when it holds for the earlier ones and the last |
| Registry.RecordNamesDistinctSnoc | SiteInfo.cpp:236-258 | names stay distinct exactly when they were distinct before and the last name is new |
| Registry.LoadRecordsSucceeds | SiteInfo.cpp:192-265 | the load loop succeeds exactly when no record has equal content and template paths and no name repeats |
| Registry.LoadRecordsKeys | SiteInfo.cpp:192-265 | a successful load is valid and holds exactly the read records, each under its own name |
| Registry.LoadPagesSpec | SiteInfo.cpp:174-267 | loading the page list, with override extensions applied, succeeds exactly under those two conditions and yields the derived record for each listed name |
| Registry.SaveThenLoad | SiteInfo.cpp:174-299 | loading the list saved from a valid registry that matches its own derivation gives that registry back |
| Registry.TrackKeepsConsistent | SiteInfo.cpp:494-569 | `track` keeps the registry equal to what a reload would derive |
| Registry.NewTemplateBreaksReload | SiteInfo.cpp:888-922 | the as-written setter accepts a page's own content file as its template, and the list it saves then fails to load |
| Registry.NewTemplateCheckedReloads | SiteInfo.cpp:888-922 | with the check, the saved list loads back to the updated registry |
| Registry.MvBreaksReload | SiteInfo.cpp:651-735 | as written, `mv` keeps a template equal to the content file the new name derives, and the list it saves then fails to load |
| Registry.MvChecked | SiteInfo.cpp:651-735 | the corrected `mv`: accepted exactly when `mv` is and the derived content file is not the kept template, and then the same result; otherwise a same-paths error |
| Registry.MvCheckedReloads | SiteInfo.cpp:651-735 | with the check, the list saved from a valid, consistent registry loads again with the same names |
| Extensions.MoveFile | SiteInfo.cpp:1322-1328 | definition: an existing file renamed to its stem plus the new extension, unless the name is unchanged |
| Extensions.MoveFileShape | SiteInfo.cpp:1322-1328 | a rename is planned exactly for an existing file whose name changes, and it keeps the directory and stem |
| Extensions.MoveFileRoundTrip | SiteInfo.cpp:1322-1328 | a file renamed to a dotted extension is renamed back by changing to its original extension |
| Extensions.SetPageExt | SiteInfo.cpp:1275-1337 | per-page setters (also SiteInfo.cpp:1393-1455 and 1500-1553): refuse a badly formed extension or the current effective one; the override file exists afterwards exactly when the new value differs from the baseline (the page extension for scripts); content and page extensions become the new value; other pages and kinds are untouched; the planned rename is the existing file moved to stem plus new extension |
| Extensions.PageExtRoundTrip | SiteInfo.cpp:1275-1337 | setting a content or page extension and setting it back restores the override files exactly; when the first call renamed the page's file (whose extension was the effective one) and the renamed file is still there, the second call, given the registry with the renamed file, renames it back |
| Extensions.SetPageExtKeepsCanonical | SiteInfo.cpp:1309-1320 | per-page setters never leave a content or page override equal to the site-wide extension |
| Extensions.ScriptSetterComparesPageExt | SiteInfo.cpp:1534 | asking for the page extension as a page's script extension succeeds, yet the page keeps the site-wide script extension |
| Extensions.LookupDetermines | SiteInfo.cpp:443-465 | override files are determined by what lookup finds in them |
| Extensions.SetDefaultExt | SiteInfo.cpp:1221-1273 | site-wide setters (also SiteInfo.cpp:1339-1391 and 1457-1498): refuse a badly formed extension or the current default; the default becomes the new value; overrides equal to it are removed for tracked pages, others kept; pages with an override keep their effective extension, others follow the new default; every page without an override has its existing file renamed; scripts are not renamed |
| Extensions.SetDefaultExtKeepsCanonical | SiteInfo.cpp:1239-1255 | the sweep leaves no content or page override equal to the new site-wide extension |
| Extensions.DefaultExtRoundTrip | SiteInfo.cpp:1221-1273 | changing a default and changing it back restores the configuration; pages keep their effective extension except those whose override equalled the intermediate value, which now follow the default; every file the first sweep renamed from the old default extension, still present and recorded, is renamed back by the second sweep |
| Extensions.PrunedStep | SiteInfo.cpp:1239-1255 | visiting one more page removes its override exactly when it equals the new extension |
| Extensions.SweepRenamesStep | SiteInfo.cpp:1256-1265 | visiting one more page adds its rename exactly when it has no override and a rename is due |
| Extensions.Sweep | SiteInfo.cpp:1239-1266 | the page-by-page loop computes the same overrides and renames as the set-based description |
| Staleness.FirstIssue | SiteInfo.cpp:1825-1854 | the scan of a dependency list reports its first removed or modified entry, and nothing exactly when every entry is present and unmodified |
| Staleness.IssueFacts | SiteInfo.cpp:1825-1854 | a reported dependency really is missing or newer than the build record |
| Staleness.FirstIssueIsFirstBad | SiteInfo.cpp:1825-1854 | a list has at most one first bad entry; the issue the scan reports is about it, and it is the only file reported |
| Staleness.DepScan | SiteInfo.cpp:1824-1893 | with a matching record, current exactly when every recorded and every user dependency is present and unmodified; otherwise stale for a dependency change; the reported files are exactly the first bad entry of each list, each really removed or modified |
| Staleness.Classify | SiteInfo.cpp:1738-1893 | problem exactly when the content or template file is missing; yet-to-be-built exactly when there is no build record; current exactly when the record matches and every recorded and user dependency is fine; in that last case the result is the dependency scan, so each list adds exactly its first bad entry |
| Staleness.StatusOf | SiteInfo.cpp:2059-2140 | problem exactly when a file is missing; a problem page never needs building; otherwise it needs building exactly when the record is missing or differs or some recorded dependency is removed or modified; every bad dependency is collected |
| Staleness.ClassifiersAgree | SiteInfo.cpp:2059-2140 | without a `.deps` file both checks agree on problem and stale pages, and the build check's dependency reports are among the status ones |
| Staleness.StatusIgnoresUserDeps | SiteInfo.cpp:1857-1893 | a page with a matching record and fine recorded dependencies but a bad user dependency is stale for the build, yet `status` neither lists it as needing a build nor as a problem |
| Staleness.BadUserDepIsStale | SiteInfo.cpp:1857-1893 | one removed or modified user dependency makes the dependency scan stale |
| Staleness.CleanRecordReportsNothing | SiteInfo.cpp:2120-2133 | `status` lists no removed or modified file for a page whose recorded dependencies are all fine |
| Staleness.ScanOf | SiteInfo.cpp:1898-1921 | the scan lists a page as stale or problem exactly by its classification, never both, and collects exactly the pages' reported files |
| Staleness.ScanFiles | SiteInfo.cpp:1824-1893 | the removed and modified files collected are exactly those some page's classification reports |
| Staleness.GatherStep | SiteInfo.cpp:1726-1736 | adding one page to the scan adds exactly that page's classification |
| Staleness.GatherAll | SiteInfo.cpp:1726-1736 | folding classifications in any claim order gives the order-free result |
| Staleness.ScanAll | SiteInfo.cpp:1722-1896 | the sequential scan equals the set-based scan |
| Staleness.ReportedDepsHaveStalePage | SiteInfo.cpp:1825-1893 | every reported dependency file belongs to a page that will be built |
| Staleness.Collect | SiteInfo.cpp:2047-2140 | a page is listed as needing a build or as a problem exactly by its own report, and the collected files are exactly those some page reports |
| Staleness.Status | SiteInfo.cpp:2047-2140 | nothing when no page is tracked; otherwise a page needs building or is a problem exactly by its own check, never both, and the removed and the modified files are exactly those some page reports |
| Staleness.UpToDateMeansNothingRemoved | SiteInfo.cpp:2178-2182 | when "all pages are already up to date" is printed, no removed file was found either |
| Summary.Summarize | SiteInfo.cpp:1927-1936 | the printed entries are a prefix: all of them below 20, exactly 20 otherwise, and printed plus counted always equals the total |
| Summary.SummarizeComplete | SiteInfo.cpp:1927-1936 | an uncut listing shows every entry, and printed entries plus the rest are the whole listing |
| Summary.SummarizeAtCap | SiteInfo.cpp:1927-1936 | with exactly 20 entries the listing ends with "along with 0" |
| Scheduler.ToInt32 | SiteInfo.cpp:1662 | the conversion lands in 32-bit range and differs from its input by 0 or 2^32 |
| Scheduler.WorkerCount | SiteInfo.cpp:1660-1664 | a non-negative setting is the count; a negative one gives minus the setting times the cores whenever that fits in 31 bits |
| Scheduler.WorkerCountWraps | SiteInfo.cpp:1660-1664 | a setting of -2^30 on four cores gives zero workers, where 2^32 were meant |
| Scheduler.WorkerCountWideRuns | SiteInfo.cpp:1660-1664 | a non-zero setting on at least one core gives at least one worker, and below 2^31 the two counts agree |
| Scheduler.StartInv | SiteInfo.cpp:1666-1672 | the start state, with counter 0, every worker idle and nothing finished, built or failed, satisfies the claim-loop invariant |
| Scheduler.Step | SiteInfo.cpp:1631-1655 | definition: one atomic step of a worker: exit, claim the next item, or enter the finished item's name into built or failed by its outcome |
| Scheduler.OutcomesAdd | SiteInfo.cpp:1644-1655 | finishing one more item adds its name to exactly the set its outcome picks |
| Scheduler.IdleStepInv | SiteInfo.cpp:1631-1642 | an idle worker's step under the lock keeps the invariant and finishes nothing |
| Scheduler.BusyStepInv | SiteInfo.cpp:1644-1655 | a busy worker finishes an item nobody had finished, enters its name by the outcome, and keeps the invariant |
| Scheduler.StepPreservesInv | SiteInfo.cpp:1631-1655 | each atomic claim or finish keeps the counter at most the item count, each item held by at most one worker, finishes an item at most once, and keeps built and failed equal to the names of the finished items by outcome |
| Scheduler.AllExitedMeansAllFinished | SiteInfo.cpp:1631-1655 | once every worker has exited, and there was one, every item has been processed |
| Scheduler.ClaimLoopMatchesBatch | SiteInfo.cpp:1626-1655 | once every worker of any interleaving has exited, built and failed hold exactly the items whose build succeeded or failed, the sets `RunBatch` computes |
| Scheduler.RunBatch | SiteInfo.cpp:1631-1655 | with no worker nothing is built; otherwise each item lands in built or failed exactly by the builder's result |
| Scheduler.Build | SiteInfo.cpp:1579-1618 | failed holds the tracked names that failed, untracked the untracked names, and success is reported exactly when every name is tracked and built |
| Scheduler.BuildAll | SiteInfo.cpp:1658-1714 | built and failed partition the tracked pages when there is a worker; the success count is printed exactly when nothing failed, and is the number of pages when all succeed |
| Scheduler.Select | SiteInfo.cpp:1991-1996 | the claim order restricted to the stale pages holds exactly those pages |
| Scheduler.QuietScanMeansCurrent | SiteInfo.cpp:2035-2039 | a scan with no stale and no problem page found every page current |
| Scheduler.BuildUpdated | SiteInfo.cpp:1898-2045 | the scan is the classification of every page; exactly the stale pages are built, each into built or failed; "already up to date" is printed exactly when no page is stale or a problem and nothing failed, and then every page is current |
| SiteDirs.DirProblem | SiteInfo.cpp:1111-1138 | the shared argument checks in order: empty, mixed quotes, no trailing separator, unchanged, target exists |
| SiteDirs.NewSiteDir | SiteInfo.cpp:924-1107 | accepted exactly when the shared checks pass, the new build-information directory does not exist, and the current site and build-information directories can be entered; a missing site directory fails before any move; a missing build-information directory fails after the site directory was moved, with the setting unchanged; on success only the site directory setting changes and both directories are moved |
| SiteDirs.NewContentDir | SiteInfo.cpp:1109-1219 | accepted exactly when the shared checks pass and the current content directory can be entered, which otherwise fails with nothing moved; on success only the content directory setting changes and the content directory is moved |
| SiteDirs.NewSiteDirMovesPages | SiteInfo.cpp:924-1107 | the configuration stays well formed, and pages derived afterwards keep their content path and move their page file under the new site directory |
| SiteDirs.NewContentDirRoundTrip | SiteInfo.cpp:1109-1219 | after a successful move, moving back in any later state is accepted exactly when the old name passes the argument checks, the old location is free and the moved directory can be entered; it then restores the configuration and reverses the move |

## Left out

- Console output: message text, and the printers `info`, `info_all` and `info_names`. Only the outcome each message signals is modelled, such as `allBuilt` or `upToDate`.
- File-system effects: existence probes, `chmod`, `rename`, `removePath`, `rmdir`, `ensurePathExists` and the line-copy loops. Existence is a set of path strings. Renames and deletions are returned as plans and not applied.
- The formats written by `save_config` and `save_pages`. The page list is modelled as a sequence of entries (`Registry.Lists`), and the configuration as already-parsed lines.
- The directory relocation in `new_site_dir` and `new_content_dir`: the ls/rmdir walk that removes emptied parent directories. The argument checks, entering the current directories, the new setting and the moves are modelled.
- `SiteDirs.NewSiteDir`: success assumes the rest of the walk succeeds. Entering the parent directory and the site root again, and the rmdir loop, can also fail in the source; those partial failures are not modelled. Existence is judged on the state before the call.
- `SiteDirs.NewContentDir`: success assumes the walk after entering the content directory succeeds; a failure to re-enter the parent, the site root or to remove an emptied directory is not modelled.
- Threads, mutexes and `std::atomic`. The claim loop is a state machine with atomic steps, including the built and failed sets; the batches are sequential loops, tied to the state machine by `Scheduler.ClaimLoopMatchesBatch`. `hardware_concurrency` is the `cores` parameter.
- `PageBuilder::build` is not part of this model. Its outcome is the `ok` parameter.
- `Path`, `quote`/`unquote`, `read_quoted`, `read_file_path_from`, `set_file_path_from`, `get_title`, `getInfoPath`, `modified_after` and `get_git_branches` are not part of this model. They are `Env` fields or snapshot data.
- Override values are single strings. The load reads them as one whitespace-delimited token, the per-page setters read a whole line, and the site-wide sweeps use `read_quoted`. When the load hits an empty override file, it reuses the token of the previous page; that is not modelled.
- `Pages.MakeInfo`: the one- and two-argument overloads are this function with the title defaulting to the name and the template defaulting to the site default.
- `Staleness.Classify`: a build record is present exactly when the build-information file exists. An unreadable or truncated record is not modelled.
- `Staleness.ScanOf`: the problem set is a set of page names. The source keeps page paths, which are distinct for distinct tracked pages.
- `Scheduler.BuildAll`: its untracked set is always empty, and `failedPages` and `builtPages` are not cleared at its start. A second call in one process is not modelled.
- `Scheduler.WorkerCount`: the setting is assumed to be a 32-bit `int` and the core count an unsigned 32-bit value.
- `Summary.Summarize`: the listed sets print in their sorted order; the model takes that order as the input sequence.

## Findings

| source | as written | input that shows it | evidently intended | confidence | as-written member | corrected member |
|---|---|---|---|---|---|---|
| SiteInfo.cpp:888-922 | the per-page `new_template` accepts a template equal to the page's own content path, a check `track` (SiteInfo.cpp:518) and `open_pages` (SiteInfo.cpp:228) both make | a tracked page `a` with content file `content/a.md`, then `new_template a content/a.md` | refuse the template, as `track` does, so the saved page list stays loadable | medium, not executed | Registry.NewTemplate, Registry.NewTemplateBreaksReload | Registry.NewTemplateChecked, Registry.NewTemplateCheckedReloads |
| SiteInfo.cpp:1660-1664 | a negative thread setting is multiplied by the unsigned core count in 32-bit arithmetic and converted back to `int`, so the product wraps | `buildThreads` of -1073741824 on a four-core machine gives 0 worker threads, so nothing is scanned or built and "all 0 pages built successfully" is printed | minus the setting times the cores, so there is at least one worker | low, not executed | Scheduler.WorkerCount, Scheduler.WorkerCountWraps | Scheduler.WorkerCountWide, Scheduler.WorkerCountWideRuns |
| SiteInfo.cpp:651-735 | `mv` (and `cp`, SiteInfo.cpp:737-801) keeps the old template for the new record without comparing it with the new content path, a check `track` (SiteInfo.cpp:518) and `open_pages` (SiteInfo.cpp:228) both make | a tracked page `a` whose template is `content/b.md`, then `mv a b` with content extension `.md` | refuse the move, as `track` refuses such a record, so the saved page list stays loadable | medium, not executed | Registry.Mv, Registry.MvBreaksReload | Registry.MvChecked, Registry.MvCheckedReloads |
