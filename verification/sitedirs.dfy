/** Moving the site or content directory: `new_site_dir` and
    `new_content_dir`. The argument checks are modelled in full; the moves
    are returned as a plan. */
module SiteDirs {
  import opened Wrappers
  import opened Paths
  import opened SiteConfig
  import opened Pages

  datatype DirError =
    | EmptyDir
    | MixedQuotes
    | NoTrailingSeparator
    | SameDir
    | TargetExists(dir: string)
    | InfoDirExists(dir: string)
    | CannotEnter(dir: string)
    | Stranded(dir: string, done: seq<(string, string)>)

  /** The directory holding the build-information files. */
  const InfoRoot := ".siteinfo/"

  predicate EndsInSeparator(d: string)
  {
    |d| > 0 && (d[|d| - 1] == '/' || d[|d| - 1] == '\\')
  }

  /** Something already exists at `d`, with or without its last character
      (the trailing separator). */
  predicate Occupied(existing: set<string>, d: string)
    requires |d| > 0
  {
    d in existing || d[..|d| - 1] in existing
  }

  /** `chdir` into `d` succeeds: the directory exists. */
  predicate Enterable(existing: set<string>, d: string)
  {
    |d| > 0 && Occupied(existing, d)
  }

  /** The configuration after the move, and the directory moves in order. */
  datatype Relocation = Relocation(config: Config, moves: seq<(string, string)>)

  /** The checks shared by both operations, in the order the code makes
      them. */
  function DirProblem(env: Env, current: string, existing: set<string>, d: string): (r: Option<DirError>)
    ensures r.None? <==>
      d != "" && !MixesQuotes(env.unquote(d)) && EndsInSeparator(d) && d != current && !Occupied(existing, d)
    ensures d == "" ==> r == Some(EmptyDir)
    ensures d != "" && MixesQuotes(env.unquote(d)) ==> r == Some(MixedQuotes)
    ensures d != "" && !MixesQuotes(env.unquote(d)) && !EndsInSeparator(d) ==> r == Some(NoTrailingSeparator)
    ensures r == Some(SameDir) <==>
      d != "" && !MixesQuotes(env.unquote(d)) && EndsInSeparator(d) && d == current
  {
    if d == "" then Some(EmptyDir)
    else if MixesQuotes(env.unquote(d)) then Some(MixedQuotes)
    else if !EndsInSeparator(d) then Some(NoTrailingSeparator)
    else if d == current then Some(SameDir)
    else if Occupied(existing, d) then Some(TargetExists(d))
    else None
  }

  /** `new_site_dir`: besides the shared checks, the new build-information
      directory must not exist either. The code then enters the current site
      directory, which fails when it does not exist; moves the site
      directory; and enters the current build-information directory, which
      fails when it does not exist, after the site directory has already been
      moved (`Stranded` carries that move). Only when both directories are
      moved is the setting changed. `existing` is the state before the
      call. */
  function NewSiteDir(env: Env, cfg: Config, existing: set<string>, d: string): (r: Result<Relocation, DirError>)
    ensures r.Success? <==>
      && DirProblem(env, cfg.siteDir, existing, d).None?
      && !Occupied(existing, InfoRoot + d)
      && Enterable(existing, cfg.siteDir)
      && Enterable(existing, InfoRoot + cfg.siteDir)
    ensures DirProblem(env, cfg.siteDir, existing, d).Some? ==> Some(r.error) == DirProblem(env, cfg.siteDir, existing, d)
    ensures DirProblem(env, cfg.siteDir, existing, d).None? && Occupied(existing, InfoRoot + d) ==>
      r == Failure(InfoDirExists(InfoRoot + d))
    ensures DirProblem(env, cfg.siteDir, existing, d).None? && !Occupied(existing, InfoRoot + d) &&
            !Enterable(existing, cfg.siteDir) ==>
      r == Failure(CannotEnter(cfg.siteDir))
    ensures r.Failure? && r.error.Stranded? <==>
      && DirProblem(env, cfg.siteDir, existing, d).None?
      && !Occupied(existing, InfoRoot + d)
      && Enterable(existing, cfg.siteDir)
      && !Enterable(existing, InfoRoot + cfg.siteDir)
    ensures r.Failure? && r.error.Stranded? ==> r.error.done == [(cfg.siteDir, d)]
    ensures r.Success? ==> r.value.config == cfg.(siteDir := d)
    ensures r.Success? ==> r.value.moves == [(cfg.siteDir, d), (InfoRoot + cfg.siteDir, InfoRoot + d)]
  {
    match DirProblem(env, cfg.siteDir, existing, d)
    case Some(e) => Failure(e)
    case None =>
      if Occupied(existing, InfoRoot + d) then Failure(InfoDirExists(InfoRoot + d))
      else if !Enterable(existing, cfg.siteDir) then Failure(CannotEnter(cfg.siteDir))
      else if !Enterable(existing, InfoRoot + cfg.siteDir) then
        Failure(Stranded(InfoRoot + cfg.siteDir, [(cfg.siteDir, d)]))
      else Success(Relocation(cfg.(siteDir := d), [(cfg.siteDir, d), (InfoRoot + cfg.siteDir, InfoRoot + d)]))
  }

  /** `new_content_dir`: the shared checks, then entering the current
      content directory, which fails when it does not exist; the content
      directory is moved. */
  function NewContentDir(env: Env, cfg: Config, existing: set<string>, d: string): (r: Result<Relocation, DirError>)
    ensures r.Success? <==> DirProblem(env, cfg.contentDir, existing, d).None? && Enterable(existing, cfg.contentDir)
    ensures DirProblem(env, cfg.contentDir, existing, d).Some? ==> Some(r.error) == DirProblem(env, cfg.contentDir, existing, d)
    ensures DirProblem(env, cfg.contentDir, existing, d).None? && !Enterable(existing, cfg.contentDir) ==>
      r == Failure(CannotEnter(cfg.contentDir))
    ensures r.Success? ==> r.value.config == cfg.(contentDir := d)
    ensures r.Success? ==> r.value.moves == [(cfg.contentDir, d)]
  {
    match DirProblem(env, cfg.contentDir, existing, d)
    case Some(e) => Failure(e)
    case None =>
      if !Enterable(existing, cfg.contentDir) then Failure(CannotEnter(cfg.contentDir))
      else Success(Relocation(cfg.(contentDir := d), [(cfg.contentDir, d)]))
  }

  /** After moving the site directory the configuration stays well formed,
      pages rebuilt from the new configuration have their page files under
      the new directory at the same relative place, and content files do not
      move. */
  lemma NewSiteDirMovesPages(env: Env, cfg: Config, existing: set<string>, d: string,
                             name: Name, title: Title, template: Path)
    requires WellFormed(cfg)
    requires NewSiteDir(env, cfg, existing, d).Success?
    ensures WellFormed(NewSiteDir(env, cfg, existing, d).value.config)
    ensures var before := MakeInfo(env, cfg, name, title, template);
      var after := MakeInfo(env, NewSiteDir(env, cfg, existing, d).value.config, name, title, template);
      && after.contentPath == before.contentPath
      && after.pagePath.file == before.pagePath.file
      && before.pagePath.dir == cfg.siteDir + after.pagePath.dir[|d|..]
      && after.pagePath.dir[..|d|] == d
  {
  }

  /** Moving the content directory and then moving it back, in whatever
      state the first move left behind: the move back is accepted exactly
      when the old location is free again, the moved directory is there to
      enter, and the old name passes the argument checks; it then restores
      the configuration and reverses the move. */
  lemma NewContentDirRoundTrip(env: Env, cfg: Config, existing: set<string>, existing': set<string>, d: string)
    requires NewContentDir(env, cfg, existing, d).Success?
    ensures var there := NewContentDir(env, cfg, existing, d).value.config;
      var back := NewContentDir(env, there, existing', cfg.contentDir);
      && (back.Success? <==>
            && !MixesQuotes(env.unquote(cfg.contentDir)) && EndsInSeparator(cfg.contentDir)
            && !Occupied(existing', cfg.contentDir) && Enterable(existing', d))
      && (back.Success? ==> back.value == Relocation(cfg, [(d, cfg.contentDir)]))
  {
  }
}
