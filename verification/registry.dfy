/** Tracking operations on the page registry: `track`, `untrack`, `rm`, `mv`,
    `cp`, `new_title`, both `new_template`s, and loading `.siteinfo/pages.list`
    in `open_pages`. Every successful operation rewrites the page list from the
    registry it returns. */
module Registry {
  import opened Wrappers
  import opened Paths
  import opened SiteConfig
  import opened Pages

  datatype Error =
    | DotInName
    | EmptyField
    | MixedQuotes
    | SamePaths(page: Name)
    | AlreadyTracked(existing: PageInfo)
    | NotTracked(name: Name)
    | Duplicate(name: Name)

  /** `pages'` is `pages` with exactly the record of `name` removed. */
  predicate Without(pages: Registry, name: Name, pages': Registry)
  {
    && pages'.Keys == pages.Keys - {name}
    && forall n :: n in pages' ==> pages'[n] == pages[n]
  }

  // ---------------------------------------------------------------- track

  /** `track(name, title, templatePath)`. */
  function Track(env: Env, cfg: Config, pages: Registry, name: Name, title: Title, template: Path)
    : (r: Result<Registry, Error>)
    ensures '.' in name ==> r == Failure(DotInName)
    ensures '.' !in name && (name == "" || title == "" || template == EmptyPath) ==> r == Failure(EmptyField)
    ensures r.Success? <==>
      && '.' !in name && name != "" && title != "" && template != EmptyPath
      && !MixesQuotes(env.unquote(name))
      && !MixesQuotes(env.unquote(title))
      && !MixesQuotes(env.unquote(template.Str()))
      && PathsDistinct(MakeInfo(env, cfg, name, title, template))
      && name !in pages
    ensures r.Failure? && name in pages && r.error.AlreadyTracked? ==> r.error.existing == pages[name]
    ensures r.Success? ==>
      && r.value.Keys == pages.Keys + {name}
      && r.value[name] == MakeInfo(env, cfg, name, title, template)
      && forall n :: n in pages ==> r.value[n] == pages[n]
    ensures r.Success? && Valid(pages) ==> Valid(r.value)
  {
    if '.' in name then Failure(DotInName)
    else if name == "" || title == "" || template == EmptyPath then Failure(EmptyField)
    else if MixesQuotes(env.unquote(name)) || MixesQuotes(env.unquote(title))
         || MixesQuotes(env.unquote(template.Str())) then Failure(MixedQuotes)
    else
      var page := MakeInfo(env, cfg, name, title, template);
      if page.contentPath == page.templatePath then Failure(SamePaths(name))
      else if name in pages then Failure(AlreadyTracked(pages[name]))
      else Success(pages[name := page])
  }

  // ------------------------------------------------------- untrack and rm

  /** The registry after the call, and the files the call deletes. */
  datatype Removal = Removal(pages: Registry, removed: set<Path>)

  /** `untrack(name)`: forgets the page and deletes its build record and its
      built page, but keeps its content file. */
  function Untrack(env: Env, pages: Registry, name: Name): (r: Result<Removal, Error>)
    ensures r.Failure? <==> name !in pages
    ensures r.Failure? ==> r.error == NotTracked(name)
    ensures r.Success? ==> Without(pages, name, r.value.pages)
    ensures r.Success? ==> r.value.removed == {env.infoPath(pages[name].pagePath), pages[name].pagePath}
    ensures r.Success? && Valid(pages) ==> Valid(r.value.pages)
  {
    if name !in pages then Failure(NotTracked(name))
    else
      var page := pages[name];
      Success(Removal(pages - {name}, {env.infoPath(page.pagePath), page.pagePath}))
  }

  /** `rm(name)`: the same as `untrack`, but also deletes the content file. */
  function Rm(env: Env, pages: Registry, name: Name): (r: Result<Removal, Error>)
    ensures r.Failure? <==> name !in pages
    ensures r.Failure? ==> r.error == NotTracked(name)
    ensures r.Success? ==> r.value.pages == Untrack(env, pages, name).value.pages
    ensures r.Success? ==> r.value.removed == Untrack(env, pages, name).value.removed + {pages[name].contentPath}
  {
    if name !in pages then Failure(NotTracked(name))
    else
      var page := pages[name];
      Success(Removal(pages - {name}, {env.infoPath(page.pagePath), page.pagePath, page.contentPath}))
  }

  /** Tracking a page and then untracking it gives back the registry the
      `track` started from. */
  lemma TrackThenUntrack(env: Env, cfg: Config, pages: Registry, name: Name, title: Title, template: Path)
    requires Track(env, cfg, pages, name, title, template).Success?
    ensures Untrack(env, Track(env, cfg, pages, name, title, template).value, name).value.pages == pages
  {
    var tracked := Track(env, cfg, pages, name, title, template).value;
    var back := Untrack(env, tracked, name).value.pages;
    assert back.Keys == pages.Keys;
  }

  // ------------------------------------------------------------ mv and cp

  /** The checks `mv` and `cp` make, in order. */
  function CheckRename(env: Env, pages: Registry, oldName: Name, newName: Name): (e: Option<Error>)
    ensures e.None? <==>
      '.' !in newName && newName != "" && !MixesQuotes(env.unquote(newName))
      && oldName in pages && newName !in pages
  {
    if '.' in newName then Some(DotInName)
    else if newName == "" then Some(EmptyField)
    else if MixesQuotes(env.unquote(newName)) then Some(MixedQuotes)
    else if oldName !in pages then Some(NotTracked(oldName))
    else if newName in pages then Some(AlreadyTracked(pages[newName]))
    else None
  }

  /** The record `mv` and `cp` create. Its paths come from the joined string
      `dir + name + ext` (not from the unquoted name as in `make_info`); a title
      still equal to the default title of the old name follows the new name,
      any other title is kept; the template is kept. */
  function Renamed(env: Env, cfg: Config, src: PageInfo, newName: Name): PageInfo
  {
    PageInfo(
      newName,
      if env.getTitle(src.name) == src.title then env.getTitle(newName) else src.title,
      env.splitPath(cfg.contentDir + newName + cfg.contentExt),
      env.splitPath(cfg.siteDir + newName + cfg.pageExt),
      src.templatePath)
  }

  /** `cp(trackedName, newName)`: adds a copy under the new name. */
  function Cp(env: Env, cfg: Config, pages: Registry, oldName: Name, newName: Name): (r: Result<Registry, Error>)
    requires Keyed(pages)
    ensures r.Success? <==>
      '.' !in newName && newName != "" && !MixesQuotes(env.unquote(newName))
      && oldName in pages && newName !in pages
    ensures r.Success? ==>
      && r.value.Keys == pages.Keys + {newName}
      && (forall n :: n in pages ==> r.value[n] == pages[n])
      && r.value[newName].name == newName
      && r.value[newName].templatePath == pages[oldName].templatePath
      && (env.getTitle(oldName) == pages[oldName].title ==> r.value[newName].title == env.getTitle(newName))
      && (env.getTitle(oldName) != pages[oldName].title ==> r.value[newName].title == pages[oldName].title)
    ensures r.Success? ==> Keyed(r.value)
  {
    match CheckRename(env, pages, oldName, newName)
    case Some(e) => Failure(e)
    case None => Success(pages[newName := Renamed(env, cfg, pages[oldName], newName)])
  }

  /** `mv(oldName, newName)`: replaces the old record by one under the new
      name and deletes the old build record, built page and content file. */
  function Mv(env: Env, cfg: Config, pages: Registry, oldName: Name, newName: Name): (r: Result<Removal, Error>)
    requires Keyed(pages)
    ensures r.Success? <==>
      '.' !in newName && newName != "" && !MixesQuotes(env.unquote(newName))
      && oldName in pages && newName !in pages
    ensures r.Success? ==>
      && r.value.pages.Keys == pages.Keys - {oldName} + {newName}
      && (forall n :: n in pages && n != oldName ==> r.value.pages[n] == pages[n])
      && r.value.pages[newName].name == newName
      && r.value.pages[newName].templatePath == pages[oldName].templatePath
      && (env.getTitle(oldName) == pages[oldName].title ==> r.value.pages[newName].title == env.getTitle(newName))
      && (env.getTitle(oldName) != pages[oldName].title ==> r.value.pages[newName].title == pages[oldName].title)
    ensures r.Success? ==>
      r.value.removed == {env.infoPath(pages[oldName].pagePath), pages[oldName].pagePath, pages[oldName].contentPath}
    ensures r.Success? ==> Keyed(r.value.pages)
  {
    match CheckRename(env, pages, oldName, newName)
    case Some(e) => Failure(e)
    case None =>
      var src := pages[oldName];
      Success(Removal(
        (pages - {oldName})[newName := Renamed(env, cfg, src, newName)],
        {env.infoPath(src.pagePath), src.pagePath, src.contentPath}))
  }

  /** `mv` is `cp` followed by dropping the old name: both accept the same
      arguments and yield the same new record. */
  lemma MvIsCpWithoutOld(env: Env, cfg: Config, pages: Registry, oldName: Name, newName: Name)
    requires Keyed(pages)
    ensures Mv(env, cfg, pages, oldName, newName).Success? <==> Cp(env, cfg, pages, oldName, newName).Success?
    ensures Mv(env, cfg, pages, oldName, newName).Success? ==>
      Mv(env, cfg, pages, oldName, newName).value.pages == Cp(env, cfg, pages, oldName, newName).value - {oldName}
  {
    if Mv(env, cfg, pages, oldName, newName).Success? {
      var m := Mv(env, cfg, pages, oldName, newName).value.pages;
      var c := Cp(env, cfg, pages, oldName, newName).value - {oldName};
      assert m.Keys == c.Keys;
    }
  }

  // ------------------------------------------------- title and templates

  /** `new_title(name, title)`. The title is checked before the name is looked up. */
  function NewTitle(env: Env, pages: Registry, name: Name, title: Title): (r: Result<Registry, Error>)
    ensures title == "" ==> r == Failure(EmptyField)
    ensures r.Success? <==> title != "" && !MixesQuotes(env.unquote(title)) && name in pages
    ensures r.Success? ==>
      && r.value.Keys == pages.Keys
      && r.value[name] == pages[name].(title := title)
      && forall n :: n in pages && n != name ==> r.value[n] == pages[n]
    ensures r.Success? && Valid(pages) ==> Valid(r.value)
  {
    if title == "" then Failure(EmptyField)
    else if MixesQuotes(env.unquote(title)) then Failure(MixedQuotes)
    else if name !in pages then Failure(NotTracked(name))
    else Success(pages[name := pages[name].(title := title)])
  }

  /** `new_template(name, templatePath)`, as written: unlike `track`, it does
      not reject a template equal to the page's content file. */
  function NewTemplate(env: Env, pages: Registry, name: Name, template: Path): (r: Result<Registry, Error>)
    ensures template == EmptyPath ==> r == Failure(EmptyField)
    ensures r.Success? <==> template != EmptyPath && !MixesQuotes(env.unquote(template.Str())) && name in pages
    ensures r.Success? ==>
      && r.value.Keys == pages.Keys
      && r.value[name] == pages[name].(templatePath := template)
      && forall n :: n in pages && n != name ==> r.value[n] == pages[n]
    ensures r.Success? && Keyed(pages) ==> Keyed(r.value)
  {
    if template == EmptyPath then Failure(EmptyField)
    else if MixesQuotes(env.unquote(template.Str())) then Failure(MixedQuotes)
    else if name !in pages then Failure(NotTracked(name))
    else Success(pages[name := pages[name].(templatePath := template)])
  }

  /** The per-page template setter with the check `track` and `open_pages`
      make: a template equal to the page's content file is refused. */
  function NewTemplateChecked(env: Env, pages: Registry, name: Name, template: Path): (r: Result<Registry, Error>)
    ensures r.Success? <==>
      NewTemplate(env, pages, name, template).Success? && pages[name].contentPath != template
    ensures r.Success? ==> r == NewTemplate(env, pages, name, template)
    ensures r.Success? && Valid(pages) ==> Valid(r.value)
  {
    if template == EmptyPath then Failure(EmptyField)
    else if MixesQuotes(env.unquote(template.Str())) then Failure(MixedQuotes)
    else if name !in pages then Failure(NotTracked(name))
    else if pages[name].contentPath == template then Failure(SamePaths(name))
    else Success(pages[name := pages[name].(templatePath := template)])
  }

  /** One record of `.siteinfo/pages.list`. */
  datatype Entry = Entry(name: Name, title: Title, templatePath: Path)

  function EntryOf(p: PageInfo): Entry
  {
    Entry(p.name, p.title, p.templatePath)
  }

  /** The rewriting loop of the global `new_template`: every listed page whose
      template is `from` gets `to`; everything else is copied unchanged. */
  function Retarget(listed: seq<Entry>, from: Path, to: Path): (r: seq<Entry>)
    ensures |r| == |listed|
    ensures forall i :: 0 <= i < |listed| ==>
      && r[i].name == listed[i].name
      && r[i].title == listed[i].title
      && r[i].templatePath == (if listed[i].templatePath == from then to else listed[i].templatePath)
  {
    if |listed| == 0 then []
    else
      var e := listed[0];
      [if e.templatePath == from then e.(templatePath := to) else e] + Retarget(listed[1..], from, to)
  }

  /** Global `new_template(templatePath)`: rewrites the persisted page list and
      the default template. The in-memory registry is not touched (and is not
      an argument here). */
  function NewDefaultTemplate(env: Env, cfg: Config, listed: seq<Entry>, template: Path)
    : (r: Result<(Config, seq<Entry>), Error>)
    ensures r.Success? <==> template != EmptyPath && !MixesQuotes(env.unquote(template.Str()))
    ensures r.Success? ==> r.value.0 == cfg.(defaultTemplate := template)
    ensures r.Success? ==> r.value.1 == Retarget(listed, cfg.defaultTemplate, template)
    ensures r.Success? && WellFormed(cfg) ==> WellFormed(r.value.0)
  {
    if template == EmptyPath then Failure(EmptyField)
    else if MixesQuotes(env.unquote(template.Str())) then Failure(MixedQuotes)
    else Success((cfg.(defaultTemplate := template), Retarget(listed, cfg.defaultTemplate, template)))
  }

  /** After a global template change no listed page still names the old
      default (unless the new default is the old one), and a page that named
      any other template keeps it. */
  lemma NewDefaultTemplateMovesAll(env: Env, cfg: Config, listed: seq<Entry>, template: Path)
    requires NewDefaultTemplate(env, cfg, listed, template).Success?
    requires template != cfg.defaultTemplate
    ensures var out := NewDefaultTemplate(env, cfg, listed, template).value.1;
      && (forall i :: 0 <= i < |out| ==> out[i].templatePath != cfg.defaultTemplate)
      && (forall i :: 0 <= i < |out| && listed[i].templatePath != cfg.defaultTemplate ==>
            out[i] == listed[i])
  {
  }

  // ------------------------------------------------------------- loading

  /** The record `open_pages` builds for a listed entry: `make_info`, then the
      content and page file names rewritten to any override extension. */
  function Reloaded(env: Env, cfg: Config, ov: Overrides, e: Entry): PageInfo
  {
    var p := MakeInfo(env, cfg, e.name, e.title, e.templatePath);
    var c := if e.name in ov.content then Path(p.contentPath.dir, ReplaceExt(p.contentPath.file, ov.content[e.name]))
             else p.contentPath;
    var g := if e.name in ov.page then Path(p.pagePath.dir, ReplaceExt(p.pagePath.file, ov.page[e.name]))
             else p.pagePath;
    p.(contentPath := c, pagePath := g)
  }

  predicate NamesDistinct(listed: seq<Entry>)
  {
    forall i, j :: 0 <= i < j < |listed| ==> listed[i].name != listed[j].name
  }

  /** One step of `open_pages`: a record whose content and template paths
      coincide, or whose name was already read, stops the load. */
  function Insert(pages: Registry, page: PageInfo): Result<Registry, Error>
  {
    if page.contentPath == page.templatePath then Failure(SamePaths(page.name))
    else if page.name in pages then Failure(Duplicate(page.name))
    else Success(pages[page.name := page])
  }

  /** The reading loop of `open_pages` over the records in file order. */
  function LoadRecords(records: seq<PageInfo>): Result<Registry, Error>
    decreases |records|
  {
    if |records| == 0 then Success(map[])
    else
      match LoadRecords(records[..|records| - 1])
      case Failure(e) => Failure(e)
      case Success(pages) => Insert(pages, records[|records| - 1])
  }

  /** `open_pages`: each listed entry becomes the record `Reloaded` derives. */
  function LoadPages(env: Env, cfg: Config, ov: Overrides, listed: seq<Entry>): Result<Registry, Error>
  {
    LoadRecords(seq(|listed|, i requires 0 <= i < |listed| => Reloaded(env, cfg, ov, listed[i])))
  }

  predicate RecordNamesDistinct(records: seq<PageInfo>)
  {
    forall i, j :: 0 <= i < j < |records| ==> records[i].name != records[j].name
  }

  function RecordNames(records: seq<PageInfo>): set<Name>
  {
    set i | 0 <= i < |records| :: records[i].name
  }

  lemma RecordNamesSnoc(records: seq<PageInfo>)
    requires |records| > 0
    ensures RecordNames(records) == RecordNames(records[..|records| - 1]) + {records[|records| - 1].name}
  {
    var n := |records| - 1;
    var front := records[..n];
    forall x | x in RecordNames(records) ensures x in RecordNames(front) + {records[n].name} {
      var i :| 0 <= i < |records| && records[i].name == x;
      if i < n { assert front[i].name == x; }
    }
    forall x | x in RecordNames(front) ensures x in RecordNames(records) {
      var i :| 0 <= i < n && front[i].name == x;
      assert records[i].name == x;
    }
  }

  predicate AllPathsDistinct(records: seq<PageInfo>)
  {
    forall i :: 0 <= i < |records| ==> PathsDistinct(records[i])
  }

  lemma AllPathsDistinctSnoc(records: seq<PageInfo>)
    requires |records| > 0
    ensures AllPathsDistinct(records) <==>
      AllPathsDistinct(records[..|records| - 1]) && PathsDistinct(records[|records| - 1])
  {
    var n := |records| - 1;
    assert forall i :: 0 <= i < n ==> records[..n][i] == records[i];
  }

  lemma RecordNamesDistinctSnoc(records: seq<PageInfo>)
    requires |records| > 0
    ensures RecordNamesDistinct(records) <==>
      RecordNamesDistinct(records[..|records| - 1])
      && records[|records| - 1].name !in RecordNames(records[..|records| - 1])
  {
    var n := |records| - 1;
    var front := records[..n];
    assert forall i :: 0 <= i < n ==> front[i] == records[i];
    if RecordNamesDistinct(front) && records[n].name !in RecordNames(front) {
      forall i, j | 0 <= i < j < |records| ensures records[i].name != records[j].name {
        if j == n {
          assert front[i].name in RecordNames(front);
        } else {
          assert front[i].name != front[j].name;
        }
      }
    }
  }

  /** The load loop succeeds exactly when every record keeps its content and
      template apart and no name repeats. */
  lemma {:induction false} LoadRecordsSucceeds(records: seq<PageInfo>)
    ensures LoadRecords(records).Success? <==> AllPathsDistinct(records) && RecordNamesDistinct(records)
    decreases |records|
  {
    if |records| > 0 {
      var n := |records| - 1;
      LoadRecordsSucceeds(records[..n]);
      AllPathsDistinctSnoc(records);
      RecordNamesDistinctSnoc(records);
      if LoadRecords(records[..n]).Success? {
        LoadRecordsKeys(records[..n]);
      }
    }
  }

  /** A successful load holds every record under its own name, and nothing else. */
  lemma {:induction false} LoadRecordsKeys(records: seq<PageInfo>)
    requires LoadRecords(records).Success?
    ensures Valid(LoadRecords(records).value)
    ensures LoadRecords(records).value.Keys == RecordNames(records)
    ensures forall i :: 0 <= i < |records| ==> LoadRecords(records).value[records[i].name] == records[i]
    decreases |records|
  {
    if |records| > 0 {
      var n := |records| - 1;
      var front := records[..n];
      LoadRecordsKeys(front);
      RecordNamesSnoc(records);
      var pages := LoadRecords(front).value;
      assert forall i :: 0 <= i < n ==> front[i] == records[i];
      assert records[n].name !in pages;
      forall i | 0 <= i < |records| ensures LoadRecords(records).value[records[i].name] == records[i] {
        if i < n {
          assert records[i].name in pages;
        }
      }
    }
  }

  /** Loading `.siteinfo/pages.list` succeeds exactly when no derived record
      has coinciding content and template paths and no name is listed twice;
      the registry then holds, for each listed name, the record derived from
      its entry. */
  lemma LoadPagesSpec(env: Env, cfg: Config, ov: Overrides, listed: seq<Entry>)
    ensures LoadPages(env, cfg, ov, listed).Success? <==>
      (forall i :: 0 <= i < |listed| ==> PathsDistinct(Reloaded(env, cfg, ov, listed[i])))
      && NamesDistinct(listed)
    ensures LoadPages(env, cfg, ov, listed).Success? ==>
      var pages := LoadPages(env, cfg, ov, listed).value;
      && Valid(pages)
      && pages.Keys == ListedNames(listed)
      && forall i :: 0 <= i < |listed| ==> pages[listed[i].name] == Reloaded(env, cfg, ov, listed[i])
  {
    var records := seq(|listed|, i requires 0 <= i < |listed| => Reloaded(env, cfg, ov, listed[i]));
    LoadRecordsSucceeds(records);
    if LoadRecords(records).Success? {
      LoadRecordsKeys(records);
    }
    assert forall i :: 0 <= i < |listed| ==> records[i].name == listed[i].name;
    assert RecordNames(records) == ListedNames(listed);
  }

  function ListedNames(listed: seq<Entry>): set<Name>
  {
    set i | 0 <= i < |listed| :: listed[i].name
  }

  /** Every record is the one `open_pages` would derive from its own list entry
      under the current configuration and override files. */
  predicate Consistent(env: Env, cfg: Config, ov: Overrides, pages: Registry)
  {
    forall n :: n in pages ==> pages[n] == Reloaded(env, cfg, ov, EntryOf(pages[n]))
  }

  /** `listed` is what `save_pages` writes for `pages`: one entry per record. */
  predicate Lists(listed: seq<Entry>, pages: Registry)
  {
    && NamesDistinct(listed)
    && ListedNames(listed) == pages.Keys
    && forall i :: 0 <= i < |listed| ==> listed[i] == EntryOf(pages[listed[i].name])
  }

  /** Saving a valid, consistent registry and loading it again gives it back. */
  lemma SaveThenLoad(env: Env, cfg: Config, ov: Overrides, pages: Registry, listed: seq<Entry>)
    requires Valid(pages) && Consistent(env, cfg, ov, pages) && Lists(listed, pages)
    ensures LoadPages(env, cfg, ov, listed) == Success(pages)
  {
    LoadPagesSpec(env, cfg, ov, listed);
    forall i | 0 <= i < |listed|
      ensures Reloaded(env, cfg, ov, listed[i]) == pages[listed[i].name]
    {
      assert listed[i].name in ListedNames(listed);
    }
    assert forall i :: 0 <= i < |listed| ==> PathsDistinct(Reloaded(env, cfg, ov, listed[i]));
    var loaded := LoadPages(env, cfg, ov, listed).value;
    forall n | n in pages ensures n in loaded && loaded[n] == pages[n] {
      assert n in ListedNames(listed);
      var i :| 0 <= i < |listed| && listed[i].name == n;
    }
    assert loaded.Keys == pages.Keys;
    assert loaded == pages;
  }

  /** A page tracked under a name without override files is the record a
      reload derives, so `track` keeps a consistent registry consistent. */
  lemma TrackKeepsConsistent(env: Env, cfg: Config, ov: Overrides, pages: Registry,
                             name: Name, title: Title, template: Path)
    requires Consistent(env, cfg, ov, pages)
    requires name !in ov.content && name !in ov.page
    requires Track(env, cfg, pages, name, title, template).Success?
    ensures Consistent(env, cfg, ov, Track(env, cfg, pages, name, title, template).value)
  {
  }

  /** As written, the per-page `new_template` accepts the page's own content
      file as its template; the page list it saves can then no longer be
      loaded, because `open_pages` rejects that record. */
  lemma NewTemplateBreaksReload(env: Env, cfg: Config, ov: Overrides, pages: Registry, name: Name)
    requires Valid(pages) && Consistent(env, cfg, ov, pages)
    requires name in pages
    requires pages[name].contentPath != EmptyPath
    requires !MixesQuotes(env.unquote(pages[name].contentPath.Str()))
    ensures NewTemplate(env, pages, name, pages[name].contentPath).Success?
    ensures forall listed :: Lists(listed, NewTemplate(env, pages, name, pages[name].contentPath).value) ==>
      LoadPages(env, cfg, ov, listed).Failure?
  {
    var after := NewTemplate(env, pages, name, pages[name].contentPath).value;
    forall listed: seq<Entry> | Lists(listed, after) ensures LoadPages(env, cfg, ov, listed).Failure? {
      LoadPagesSpec(env, cfg, ov, listed);
      assert name in ListedNames(listed);
      var i :| 0 <= i < |listed| && listed[i].name == name;
      assert Reloaded(env, cfg, ov, listed[i]).contentPath == pages[name].contentPath;
      assert !PathsDistinct(Reloaded(env, cfg, ov, listed[i]));
    }
  }

  /** With the collision check, the per-page template change keeps the
      registry valid and consistent, so the saved list loads back to it. */
  lemma NewTemplateCheckedReloads(env: Env, cfg: Config, ov: Overrides, pages: Registry,
                                  name: Name, template: Path, listed: seq<Entry>)
    requires Valid(pages) && Consistent(env, cfg, ov, pages)
    requires NewTemplateChecked(env, pages, name, template).Success?
    requires Lists(listed, NewTemplateChecked(env, pages, name, template).value)
    ensures LoadPages(env, cfg, ov, listed) == NewTemplateChecked(env, pages, name, template)
  {
    var after := NewTemplateChecked(env, pages, name, template).value;
    assert Consistent(env, cfg, ov, after);
    SaveThenLoad(env, cfg, ov, after, listed);
  }

  /** As written, `mv` (and likewise `cp`) never compares the new record's
      content path with the template it keeps. When the old page's template
      is the content file the new name derives, the saved page list can no
      longer be loaded, because `open_pages` rejects that record. */
  lemma MvBreaksReload(env: Env, cfg: Config, ov: Overrides, pages: Registry, oldName: Name, newName: Name)
    requires Keyed(pages)
    requires Mv(env, cfg, pages, oldName, newName).Success?
    requires newName !in ov.content
    requires pages[oldName].templatePath == MakeInfo(env, cfg, newName, "", EmptyPath).contentPath
    ensures forall listed :: Lists(listed, Mv(env, cfg, pages, oldName, newName).value.pages) ==>
      LoadPages(env, cfg, ov, listed).Failure?
  {
    var after := Mv(env, cfg, pages, oldName, newName).value.pages;
    forall listed: seq<Entry> | Lists(listed, after) ensures LoadPages(env, cfg, ov, listed).Failure? {
      LoadPagesSpec(env, cfg, ov, listed);
      assert newName in ListedNames(listed);
      var i :| 0 <= i < |listed| && listed[i].name == newName;
      assert !PathsDistinct(Reloaded(env, cfg, ov, listed[i]));
    }
  }

  /** `mv` with the check `track` makes: the record the new name derives must
      not have the kept template as its content file. */
  function MvChecked(env: Env, cfg: Config, pages: Registry, oldName: Name, newName: Name): (r: Result<Removal, Error>)
    requires Keyed(pages)
    ensures r.Success? <==>
      Mv(env, cfg, pages, oldName, newName).Success? &&
      MakeInfo(env, cfg, newName, "", EmptyPath).contentPath != pages[oldName].templatePath
    ensures r.Success? ==> r == Mv(env, cfg, pages, oldName, newName)
    ensures Mv(env, cfg, pages, oldName, newName).Success? && r.Failure? ==> r.error == SamePaths(newName)
  {
    match Mv(env, cfg, pages, oldName, newName)
    case Failure(e) => Failure(e)
    case Success(m) =>
      if MakeInfo(env, cfg, newName, "", EmptyPath).contentPath == pages[oldName].templatePath then Failure(SamePaths(newName))
      else Success(m)
  }

  /** With the check, the page list `mv` saves for a valid, consistent
      registry loads again, with the same names. */
  lemma MvCheckedReloads(env: Env, cfg: Config, ov: Overrides, pages: Registry,
                         oldName: Name, newName: Name, listed: seq<Entry>)
    requires Valid(pages) && Consistent(env, cfg, ov, pages)
    requires newName !in ov.content
    requires MvChecked(env, cfg, pages, oldName, newName).Success?
    requires Lists(listed, MvChecked(env, cfg, pages, oldName, newName).value.pages)
    ensures LoadPages(env, cfg, ov, listed).Success?
    ensures LoadPages(env, cfg, ov, listed).value.Keys == MvChecked(env, cfg, pages, oldName, newName).value.pages.Keys
  {
    var after := MvChecked(env, cfg, pages, oldName, newName).value.pages;
    LoadPagesSpec(env, cfg, ov, listed);
    forall i | 0 <= i < |listed| ensures PathsDistinct(Reloaded(env, cfg, ov, listed[i])) {
      var n := listed[i].name;
      assert n in ListedNames(listed);
      if n != newName {
        assert listed[i] == EntryOf(pages[n]);
        assert Reloaded(env, cfg, ov, listed[i]) == pages[n];
      } else {
        assert Reloaded(env, cfg, ov, listed[i]).contentPath == MakeInfo(env, cfg, newName, "", EmptyPath).contentPath;
      }
    }
  }
}
