/** Extension changes: the per-page setters `new_content_ext(name, ext)`,
    `new_page_ext(name, ext)`, `new_script_ext(name, ext)` and the site-wide
    setters `new_content_ext(ext)`, `new_page_ext(ext)`, `new_script_ext(ext)`.
    File renames are returned as a plan rather than performed. */
module Extensions {
  import opened Wrappers
  import opened Paths
  import opened SiteConfig
  import opened Pages

  datatype ExtError = NotDotted(ext: string) | Unchanged(ext: string)

  /** Moving the file at `from` to `to`. */
  datatype Rename = Rename(from: Path, to: Path)

  /** Content and page extensions must start with '.'; a script extension may
      also be empty. */
  predicate Accepted(kind: ExtKind, ext: string)
  {
    match kind
    case ScriptKind => ScriptExtOk(ext)
    case _ => DottedExt(ext)
  }

  /** The extension a per-page setter compares the new value against to decide
      between writing and deleting the sidecar file. For scripts the code
      compares against the page extension, not the script extension. */
  function WriteBaseline(cfg: Config, kind: ExtKind): string
  {
    match kind
    case ContentKind => cfg.contentExt
    case PageKind => cfg.pageExt
    case ScriptKind => cfg.pageExt
  }

  /** An override sidecar, if present. */
  function Lookup(ov: Overrides, kind: ExtKind, name: Name): Option<string>
  {
    if name in ov.Of(kind) then Some(ov.Of(kind)[name]) else None
  }

  /** Renaming an existing file to its stem plus `ext`, unless that is its
      current name; nothing for a file that does not exist. */
  function MoveFile(path: Path, files: set<Path>, ext: string): Option<Rename>
  {
    if path in files then
      var target := Path(path.dir, ReplaceExt(path.file, ext));
      if target.Str() != path.Str() then Some(Rename(path, target)) else None
    else None
  }

  /** The rename an extension change of this kind plans for a page. */
  function RenameFor(p: PageInfo, kind: ExtKind, files: set<Path>, ext: string): Option<Rename>
  {
    match FileOf(p, kind)
    case None => None
    case Some(path) => MoveFile(path, files, ext)
  }

  /** A planned rename keeps the directory and the stem and ends in `ext`. */
  lemma MoveFileShape(path: Path, files: set<Path>, ext: string)
    ensures MoveFile(path, files, ext).Some? <==>
      path in files && ReplaceExt(path.file, ext) != path.file
    ensures MoveFile(path, files, ext).Some? ==>
      MoveFile(path, files, ext).value == Rename(path, Path(path.dir, ReplaceExt(path.file, ext)))
  {
    SameDirStr(path.dir, ReplaceExt(path.file, ext), path.file);
  }

  /** A file renamed to a dotted extension is renamed back by changing to its
      original extension. */
  lemma MoveFileRoundTrip(path: Path, files: set<Path>, files': set<Path>, ext: string)
    requires DottedExt(ext)
    requires MoveFile(path, files, ext).Some?
    requires MoveFile(path, files, ext).value.to in files'
    ensures MoveFile(MoveFile(path, files, ext).value.to, files', Ext(path.file)) == Some(Rename(MoveFile(path, files, ext).value.to, path))
  {
    MoveFileShape(path, files, ext);
    var to := MoveFile(path, files, ext).value.to;
    ReplaceExtRoundTrip(path.file, ext);
    MoveFileShape(to, files', Ext(path.file));
  }

  // ------------------------------------------------------- per-page setters

  /** The override files after a per-page change, and the planned rename. */
  datatype ExtChange = ExtChange(overrides: Overrides, rename: Option<Rename>)

  /** The per-page setters. The source looks the page up before checking that
      it is tracked, which is undefined for an untracked name, so the page
      must be tracked. */
  function SetPageExt(cfg: Config, ov: Overrides, pages: Registry, files: set<Path>,
                      name: Name, kind: ExtKind, ext: string): (r: Result<ExtChange, ExtError>)
    requires name in pages
    ensures !Accepted(kind, ext) ==> r == Failure(NotDotted(ext))
    ensures Accepted(kind, ext) && ext == GetExt(cfg, ov, name, kind) ==> r == Failure(Unchanged(ext))
    ensures r.Success? <==> Accepted(kind, ext) && ext != GetExt(cfg, ov, name, kind)
    ensures r.Success? ==> (name in r.value.overrides.Of(kind) <==> ext != WriteBaseline(cfg, kind))
    ensures r.Success? && name in r.value.overrides.Of(kind) ==> r.value.overrides.Of(kind)[name] == ext
    ensures r.Success? && kind != ScriptKind ==> GetExt(cfg, r.value.overrides, name, kind) == ext
    ensures r.Success? ==> forall k, n :: k != kind || n != name ==>
      Lookup(r.value.overrides, k, n) == Lookup(ov, k, n)
    ensures r.Success? && r.value.rename.Some? ==>
      && kind != ScriptKind
      && FileOf(pages[name], kind) == Some(r.value.rename.value.from)
      && r.value.rename.value.from in files
      && r.value.rename.value.to == Path(r.value.rename.value.from.dir, ReplaceExt(r.value.rename.value.from.file, ext))
      && r.value.rename.value.to != r.value.rename.value.from
    ensures r.Success? && r.value.rename.None? && kind != ScriptKind ==>
      var path := FileOf(pages[name], kind).value;
      path !in files || ReplaceExt(path.file, ext) == path.file
  {
    if !Accepted(kind, ext) then Failure(NotDotted(ext))
    else if ext == GetExt(cfg, ov, name, kind) then Failure(Unchanged(ext))
    else
      var m := ov.Of(kind);
      var m' := if ext != WriteBaseline(cfg, kind) then m[name := ext] else m - {name};
      var plan := RenameFor(pages[name], kind, files, ext);
      assert plan.Some? ==> plan == MoveFile(FileOf(pages[name], kind).value, files, ext) by {
        if plan.Some? { MoveFileShape(FileOf(pages[name], kind).value, files, ext); }
      }
      assert plan.None? && kind != ScriptKind ==> var path := FileOf(pages[name], kind).value;
        path !in files || ReplaceExt(path.file, ext) == path.file by {
        if kind != ScriptKind { MoveFileShape(FileOf(pages[name], kind).value, files, ext); }
      }
      Success(ExtChange(ov.With(kind, m'), plan))
  }

  /** No content or page override file repeats the site-wide extension; the
      setters never write such a file and the site-wide sweep deletes the ones
      a change makes redundant. */
  predicate Canonical(cfg: Config, ov: Overrides)
  {
    forall k, n :: k != ScriptKind && n in ov.Of(k) ==> ov.Of(k)[n] != Default(cfg, k)
  }

  lemma SetPageExtKeepsCanonical(cfg: Config, ov: Overrides, pages: Registry, files: set<Path>,
                                 name: Name, kind: ExtKind, ext: string)
    requires name in pages
    requires Canonical(cfg, ov)
    requires SetPageExt(cfg, ov, pages, files, name, kind, ext).Success?
    ensures Canonical(cfg, SetPageExt(cfg, ov, pages, files, name, kind, ext).value.overrides)
  {
    var after := SetPageExt(cfg, ov, pages, files, name, kind, ext).value.overrides;
    forall k, n | k != ScriptKind && n in after.Of(k) ensures after.Of(k)[n] != Default(cfg, k) {
      if k != kind || n != name {
        assert Lookup(after, k, n) == Lookup(ov, k, n);
      }
    }
  }

  /** The record with the file of this kind at `path`: what `open_pages`
      derives once a planned rename has happened. */
  function WithFile(p: PageInfo, kind: ExtKind, path: Path): PageInfo
  {
    match kind
    case ContentKind => p.(contentPath := path)
    case PageKind => p.(pagePath := path)
    case ScriptKind => p
  }

  /** Changing a page's content or page extension and then changing it back to
      what it was restores the override files exactly; and when the first
      change renamed the page's file (whose extension was the page's
      effective one) and the renamed file is still there, the second change
      renames it back. `files'` is the state between the two calls. */
  lemma PageExtRoundTrip(cfg: Config, ov: Overrides, pages: Registry, files: set<Path>, files': set<Path>,
                         name: Name, kind: ExtKind, ext: string)
    requires name in pages && kind != ScriptKind
    requires SetPageExt(cfg, ov, pages, files, name, kind, ext).Success?
    requires Accepted(kind, GetExt(cfg, ov, name, kind))
    requires Canonical(cfg, ov)
    ensures var first := SetPageExt(cfg, ov, pages, files, name, kind, ext).value;
      var pages' := if first.rename.Some? then pages[name := WithFile(pages[name], kind, first.rename.value.to)] else pages;
      var second := SetPageExt(cfg, first.overrides, pages', files', name, kind, GetExt(cfg, ov, name, kind));
      && second.Success?
      && second.value.overrides == ov
      && (first.rename.Some? && first.rename.value.to in files' &&
          Ext(first.rename.value.from.file) == GetExt(cfg, ov, name, kind) ==>
            second.value.rename == Some(Rename(first.rename.value.to, first.rename.value.from)))
  {
    var before := GetExt(cfg, ov, name, kind);
    var first := SetPageExt(cfg, ov, pages, files, name, kind, ext).value;
    var pages' := if first.rename.Some? then pages[name := WithFile(pages[name], kind, first.rename.value.to)] else pages;
    var second := SetPageExt(cfg, first.overrides, pages', files', name, kind, before);
    assert second.Success?;
    var after := second.value.overrides;
    forall k, n ensures Lookup(after, k, n) == Lookup(ov, k, n) {
      if k != kind || n != name {
        assert Lookup(after, k, n) == Lookup(first.overrides, k, n);
      } else if name in ov.Of(kind) {
        assert before == ov.Of(kind)[name] != Default(cfg, kind);
      }
    }
    LookupDetermines(after, ov);
    if first.rename.Some? && first.rename.value.to in files' && Ext(first.rename.value.from.file) == before {
      var from := first.rename.value.from;
      assert MoveFile(from, files, ext) == first.rename by {
        MoveFileShape(from, files, ext);
      }
      MoveFileRoundTrip(from, files, files', ext);
      assert FileOf(pages'[name], kind) == Some(first.rename.value.to);
    }
  }

  /** Override files are determined by what `Lookup` finds in them. */
  lemma LookupDetermines(a: Overrides, b: Overrides)
    requires forall k, n :: Lookup(a, k, n) == Lookup(b, k, n)
    ensures a == b
  {
    forall k ensures a.Of(k) == b.Of(k) {
      assert forall n :: n in a.Of(k) <==> n in b.Of(k) by {
        forall n ensures n in a.Of(k) <==> n in b.Of(k) {
          assert Lookup(a, k, n) == Lookup(b, k, n);
        }
      }
      forall n | n in a.Of(k) ensures a.Of(k)[n] == b.Of(k)[n] {
        assert Lookup(a, k, n) == Lookup(b, k, n);
      }
    }
    assert a.content == a.Of(ContentKind) == b.Of(ContentKind) == b.content;
    assert a.page == a.Of(PageKind) == b.Of(PageKind) == b.page;
    assert a.script == a.Of(ScriptKind) == b.Of(ScriptKind) == b.script;
  }

  /** Because the script setter compares against the page extension, asking
      for the page extension as a page's script extension succeeds but deletes
      (or never writes) the sidecar, so the page keeps the site-wide script
      extension instead of the one requested. */
  lemma ScriptSetterComparesPageExt(cfg: Config, ov: Overrides, pages: Registry, files: set<Path>, name: Name)
    requires name in pages && name !in ov.script
    requires cfg.pageExt != cfg.scriptExt && ScriptExtOk(cfg.pageExt)
    ensures SetPageExt(cfg, ov, pages, files, name, ScriptKind, cfg.pageExt).Success?
    ensures GetExt(cfg, SetPageExt(cfg, ov, pages, files, name, ScriptKind, cfg.pageExt).value.overrides, name, ScriptKind)
            == cfg.scriptExt
    ensures cfg.scriptExt != cfg.pageExt
  {
  }

  // ---------------------------------------------------- site-wide setters

  /** The new configuration, the override files left, and the planned renames. */
  datatype GlobalChange = GlobalChange(config: Config, overrides: Overrides, renames: set<Rename>)

  /** The sweep deletes the sidecar of every visited page whose override
      equals the new site-wide extension. */
  function Pruned(m: map<Name, string>, visited: set<Name>, ext: string): map<Name, string>
  {
    map n | n in m && !(n in visited && m[n] == ext) :: m[n]
  }

  /** The sweep renames the file of every visited page without a sidecar. */
  function SweepRenames(pages: Registry, visited: set<Name>, m: map<Name, string>, kind: ExtKind,
                        files: set<Path>, ext: string): set<Rename>
  {
    set n | n in visited && n in pages && n !in m && RenameFor(pages[n], kind, files, ext).Some? ::
      RenameFor(pages[n], kind, files, ext).value
  }

  /** The site-wide setters: the new extension must be acceptable and differ
      from the current site-wide one. */
  function SetDefaultExt(cfg: Config, ov: Overrides, pages: Registry, files: set<Path>,
                         kind: ExtKind, ext: string): (r: Result<GlobalChange, ExtError>)
    ensures !Accepted(kind, ext) ==> r == Failure(NotDotted(ext))
    ensures Accepted(kind, ext) && ext == Default(cfg, kind) ==> r == Failure(Unchanged(ext))
    ensures r.Success? <==> Accepted(kind, ext) && ext != Default(cfg, kind)
    ensures r.Success? ==> r.value.config == WithDefault(cfg, kind, ext)
    ensures r.Success? ==> forall k :: k != kind ==> r.value.overrides.Of(k) == ov.Of(k)
    ensures r.Success? ==> forall n :: n in r.value.overrides.Of(kind) <==>
      n in ov.Of(kind) && !(n in pages && ov.Of(kind)[n] == ext)
    ensures r.Success? ==> forall n :: n in r.value.overrides.Of(kind) ==>
      r.value.overrides.Of(kind)[n] == ov.Of(kind)[n]
    ensures r.Success? ==> forall n :: n in pages ==>
      GetExt(r.value.config, r.value.overrides, n, kind) ==
        (if n in ov.Of(kind) then ov.Of(kind)[n] else ext)
    ensures r.Success? ==> forall n :: n in pages && n !in ov.Of(kind) && RenameFor(pages[n], kind, files, ext).Some? ==>
      RenameFor(pages[n], kind, files, ext).value in r.value.renames
    ensures r.Success? ==> forall mv :: mv in r.value.renames ==>
      exists n :: n in pages && n !in ov.Of(kind) && RenameFor(pages[n], kind, files, ext) == Some(mv)
    ensures r.Success? && kind == ScriptKind ==> r.value.renames == {}
  {
    if !Accepted(kind, ext) then Failure(NotDotted(ext))
    else if ext == Default(cfg, kind) then Failure(Unchanged(ext))
    else
      var m := ov.Of(kind);
      Success(GlobalChange(
        WithDefault(cfg, kind, ext),
        ov.With(kind, Pruned(m, pages.Keys, ext)),
        SweepRenames(pages, pages.Keys, m, kind, files, ext)))
  }

  /** The site-wide sweep keeps the override files canonical when every
      override file belongs to a tracked page. */
  lemma SetDefaultExtKeepsCanonical(cfg: Config, ov: Overrides, pages: Registry, files: set<Path>,
                                    kind: ExtKind, ext: string)
    requires Canonical(cfg, ov)
    requires forall k, n :: n in ov.Of(k) ==> n in pages
    requires SetDefaultExt(cfg, ov, pages, files, kind, ext).Success?
    ensures var r := SetDefaultExt(cfg, ov, pages, files, kind, ext).value;
      Canonical(r.config, r.overrides)
  {
    var r := SetDefaultExt(cfg, ov, pages, files, kind, ext).value;
    forall k, n | k != ScriptKind && n in r.overrides.Of(k)
      ensures r.overrides.Of(k)[n] != Default(r.config, k)
    {
      if k == kind {
        assert n in ov.Of(kind) && n in pages;
      } else {
        assert r.overrides.Of(k) == ov.Of(k);
        assert Default(r.config, k) == Default(cfg, k);
      }
    }
  }

  /** The sweep planned `mv` for a page without an override, and the page's
      record in `pages'` has the renamed file. */
  predicate RecordedMove(pages: Registry, pages': Registry, m: map<Name, string>, kind: ExtKind,
                         files: set<Path>, ext: string, mv: Rename)
  {
    exists n :: n in pages && n !in m && RenameFor(pages[n], kind, files, ext) == Some(mv) &&
                n in pages' && FileOf(pages'[n], kind) == Some(mv.to)
  }

  /** Changing a site-wide extension and changing it back restores the
      configuration; every tracked page ends with the effective extension it
      started with, except a page whose override equalled the intermediate
      value: that override was deleted, so the page now follows the
      site-wide extension. Every file the first sweep renamed (its extension
      having been the old site-wide one) is renamed back by the second,
      provided the renamed file is still there and `pages'` records it. */
  lemma DefaultExtRoundTrip(cfg: Config, ov: Overrides, pages: Registry, pages': Registry,
                            files: set<Path>, files': set<Path>, kind: ExtKind, ext: string)
    requires pages'.Keys == pages.Keys
    requires SetDefaultExt(cfg, ov, pages, files, kind, ext).Success?
    requires Accepted(kind, Default(cfg, kind))
    ensures var first := SetDefaultExt(cfg, ov, pages, files, kind, ext).value;
      var second := SetDefaultExt(first.config, first.overrides, pages', files', kind, Default(cfg, kind));
      && second.Success?
      && second.value.config == cfg
      && (forall n :: n in pages ==>
            GetExt(second.value.config, second.value.overrides, n, kind) ==
              (if n in ov.Of(kind) && ov.Of(kind)[n] != ext then GetExt(cfg, ov, n, kind) else Default(cfg, kind)))
      && (forall mv ::
            (mv in first.renames && mv.to in files' && Ext(mv.from.file) == Default(cfg, kind) &&
             RecordedMove(pages, pages', ov.Of(kind), kind, files, ext, mv)) ==>
            Rename(mv.to, mv.from) in second.value.renames)
  {
    var first := SetDefaultExt(cfg, ov, pages, files, kind, ext).value;
    assert Default(first.config, kind) == ext;
    var second := SetDefaultExt(first.config, first.overrides, pages', files', kind, Default(cfg, kind));
    assert second.Success?;
    assert second.value.config == cfg by {
      match kind
      case ContentKind =>
      case PageKind =>
      case ScriptKind =>
    }
    forall mv | mv in first.renames && mv.to in files' && Ext(mv.from.file) == Default(cfg, kind) &&
                RecordedMove(pages, pages', ov.Of(kind), kind, files, ext, mv)
      ensures Rename(mv.to, mv.from) in second.value.renames
    {
      var n :| n in pages && n !in ov.Of(kind) && RenameFor(pages[n], kind, files, ext) == Some(mv) &&
               n in pages' && FileOf(pages'[n], kind) == Some(mv.to);
      var from := FileOf(pages[n], kind).value;
      MoveFileShape(from, files, ext);
      MoveFileRoundTrip(from, files, files', ext);
      assert n !in first.overrides.Of(kind);
      assert RenameFor(pages'[n], kind, files', Default(cfg, kind)) == Some(Rename(mv.to, mv.from));
    }
  }

  lemma PrunedStep(m: map<Name, string>, visited: set<Name>, n: Name, ext: string)
    ensures Pruned(m, visited + {n}, ext) ==
      if n in m && m[n] == ext then Pruned(m, visited, ext) - {n} else Pruned(m, visited, ext)
  {
  }

  lemma SweepRenamesStep(pages: Registry, visited: set<Name>, m: map<Name, string>, kind: ExtKind,
                         files: set<Path>, ext: string, n: Name)
    requires n in pages
    ensures SweepRenames(pages, visited + {n}, m, kind, files, ext) ==
      if n !in m && RenameFor(pages[n], kind, files, ext).Some? then
        SweepRenames(pages, visited, m, kind, files, ext) + {RenameFor(pages[n], kind, files, ext).value}
      else SweepRenames(pages, visited, m, kind, files, ext)
  {
  }

  /** The sweep loop of the site-wide setters, page by page in registry
      order; it computes the same override map and renames as the set-based
      description above. */
  method Sweep(pages: Registry, order: seq<Name>, m: map<Name, string>, kind: ExtKind,
               files: set<Path>, ext: string) returns (kept: map<Name, string>, renames: set<Rename>)
    requires forall i :: 0 <= i < |order| ==> order[i] in pages
    requires forall n :: n in pages ==> n in order
    ensures kept == Pruned(m, pages.Keys, ext)
    ensures renames == SweepRenames(pages, pages.Keys, m, kind, files, ext)
  {
    kept := m;
    renames := {};
    ghost var visited: set<Name> := {};
    assert Pruned(m, {}, ext) == m;
    var i := 0;
    while i < |order|
      invariant 0 <= i <= |order|
      invariant visited == set j | 0 <= j < i :: order[j]
      invariant kept == Pruned(m, visited, ext)
      invariant renames == SweepRenames(pages, visited, m, kind, files, ext)
    {
      var n := order[i];
      PrunedStep(m, visited, n, ext);
      SweepRenamesStep(pages, visited, m, kind, files, ext, n);
      if n in m {
        if m[n] == ext {
          kept := kept - {n};
        }
      } else {
        var plan := RenameFor(pages[n], kind, files, ext);
        if plan.Some? {
          renames := renames + {plan.value};
        }
      }
      visited := visited + {n};
      i := i + 1;
      assert visited == set j | 0 <= j < i :: order[j];
    }
    assert visited == pages.Keys;
  }
}
