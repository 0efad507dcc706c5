/** The page record, the registry of tracked pages, and the per-page extension
    overrides that can replace the site-wide extensions for one page. */
module Pages {
  import opened Wrappers
  import opened Paths
  import opened SiteConfig

  /** One tracked page. */
  datatype PageInfo = PageInfo(
    name: Name,
    title: Title,
    contentPath: Path,
    pagePath: Path,
    templatePath: Path)

  /** The tracked pages. The source keeps a `std::set<PageInfo>` whose order
      compares names only, so two records with the same name are the same
      element; a map from name to record states that directly. */
  type Registry = map<Name, PageInfo>

  /** Every record is filed under its own name. */
  predicate Keyed(pages: Registry)
  {
    forall n :: n in pages ==> pages[n].name == n
  }

  /** Rendering a page must never write into its own template. */
  predicate PathsDistinct(p: PageInfo)
  {
    p.contentPath != p.templatePath
  }

  predicate Valid(pages: Registry)
  {
    Keyed(pages) && forall n :: n in pages ==> PathsDistinct(pages[n])
  }

  /** `tracking`: searching the set with a record carrying only the name
      finds a record exactly when one with that name is tracked. */
  function Tracking(pages: Registry, name: Name): (b: bool)
    requires Keyed(pages)
    ensures b <==> exists p :: p in pages.Values && p.name == name
  {
    if name in pages then
      assert pages[name] in pages.Values;
      true
    else false
  }

  /** `get_info`: the tracked record with that name. */
  function GetInfo(pages: Registry, name: Name): (p: PageInfo)
    requires Keyed(pages) && name in pages
    ensures p in pages.Values && p.name == name
    ensures forall q :: q in pages.Values && q.name == name ==> q == p
  {
    pages[name]
  }

  /** `make_info`: the record for a page name. The name (unquoted) is split
      into a directory and a file part; the content file lives under the
      content directory with the content extension, the built page under the
      site directory with the page extension. */
  function MakeInfo(env: Env, cfg: Config, name: Name, title: Title, template: Path): PageInfo
  {
    var split := env.splitPath(env.unquote(name));
    PageInfo(
      name, title,
      Path(cfg.contentDir + split.dir, split.file + cfg.contentExt),
      Path(cfg.siteDir + split.dir, split.file + cfg.pageExt),
      template)
  }

  /** The record `make_info` derives carries the given name, title and
      template; its paths depend on the name alone, and when the file part of
      the name has no '.', each derived file name is that part followed by the
      site-wide extension, so its stem is the name's file part. */
  lemma MakeInfoShape(env: Env, cfg: Config, name: Name, t1: Title, t2: Title, tp1: Path, tp2: Path)
    requires '.' !in env.splitPath(env.unquote(name)).file
    requires DottedExt(cfg.contentExt) && DottedExt(cfg.pageExt)
    ensures MakeInfo(env, cfg, name, t1, tp1).name == name
    ensures MakeInfo(env, cfg, name, t1, tp1).title == t1
    ensures MakeInfo(env, cfg, name, t1, tp1).templatePath == tp1
    ensures MakeInfo(env, cfg, name, t1, tp1).contentPath == MakeInfo(env, cfg, name, t2, tp2).contentPath
    ensures MakeInfo(env, cfg, name, t1, tp1).pagePath == MakeInfo(env, cfg, name, t2, tp2).pagePath
    ensures Ext(MakeInfo(env, cfg, name, t1, tp1).contentPath.file) == cfg.contentExt
    ensures Ext(MakeInfo(env, cfg, name, t1, tp1).pagePath.file) == cfg.pageExt
    ensures Stem(MakeInfo(env, cfg, name, t1, tp1).contentPath.file) == env.splitPath(env.unquote(name)).file
  {
    var f := env.splitPath(env.unquote(name)).file;
    FirstDotOfJoin(f, cfg.contentExt);
    FirstDotOfJoin(f, cfg.pageExt);
    assert (f + cfg.contentExt)[..|f|] == f;
    assert (f + cfg.contentExt)[|f|..] == cfg.contentExt;
    assert (f + cfg.pageExt)[|f|..] == cfg.pageExt;
  }

  /** The three extensions a page can override. */
  datatype ExtKind = ContentKind | PageKind | ScriptKind

  /** The suffix of the sidecar file that stores an override of this kind. */
  function SidecarSuffix(kind: ExtKind): string
  {
    match kind
    case ContentKind => ".contExt"
    case PageKind => ".pageExt"
    case ScriptKind => ".scriptExt"
  }

  /** The site-wide extension of this kind. */
  function Default(cfg: Config, kind: ExtKind): string
  {
    match kind
    case ContentKind => cfg.contentExt
    case PageKind => cfg.pageExt
    case ScriptKind => cfg.scriptExt
  }

  /** The configuration with the site-wide extension of one kind replaced. */
  function WithDefault(cfg: Config, kind: ExtKind, ext: string): (r: Config)
    ensures Default(r, kind) == ext
    ensures forall k :: k != kind ==> Default(r, k) == Default(cfg, k)
    ensures r.contentDir == cfg.contentDir && r.siteDir == cfg.siteDir
    ensures r.defaultTemplate == cfg.defaultTemplate && r.buildThreads == cfg.buildThreads
    ensures r.unixTextEditor == cfg.unixTextEditor && r.winTextEditor == cfg.winTextEditor
    ensures r.rootBranch == cfg.rootBranch && r.siteBranch == cfg.siteBranch
  {
    match kind
    case ContentKind => cfg.(contentExt := ext)
    case PageKind => cfg.(pageExt := ext)
    case ScriptKind => cfg.(scriptExt := ext)
  }

  /** The override sidecar files present, by kind and page name: a name is in
      a map exactly when its sidecar file exists, and maps to the extension
      written in it. */
  datatype Overrides = Overrides(content: map<Name, string>, page: map<Name, string>, script: map<Name, string>)
  {
    function Of(kind: ExtKind): map<Name, string>
    {
      match kind
      case ContentKind => content
      case PageKind => page
      case ScriptKind => script
    }

    function With(kind: ExtKind, m: map<Name, string>): (r: Overrides)
      ensures r.Of(kind) == m
      ensures forall k :: k != kind ==> r.Of(k) == Of(k)
    {
      match kind
      case ContentKind => this.(content := m)
      case PageKind => this.(page := m)
      case ScriptKind => this.(script := m)
    }
  }

  const NoOverrides := Overrides(map[], map[], map[])

  /** `get_ext`: a page's effective extension of one kind. */
  function GetExt(cfg: Config, ov: Overrides, name: Name, kind: ExtKind): string
  {
    if name in ov.Of(kind) then ov.Of(kind)[name] else Default(cfg, kind)
  }

  /** The path a file of this kind has for a page (scripts have none here). */
  function FileOf(p: PageInfo, kind: ExtKind): Option<Path>
  {
    match kind
    case ContentKind => Some(p.contentPath)
    case PageKind => Some(p.pagePath)
    case ScriptKind => None
  }
}
