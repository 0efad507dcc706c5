/** Deciding which pages need building: the per-page classifier of
    `build_updated` (`dep_thread`) and the per-page check of `status`, over a
    snapshot of the file system. */
module Staleness {
  import opened Wrappers
  import opened Paths
  import opened Pages

  /** What a page's build-information file records: the name, title and
      template the page was last built with, then the files it depended on. */
  datatype BuildRecord = BuildRecord(name: Name, title: Title, templatePath: Path, deps: seq<Path>)

  /** The file system as far as staleness is concerned. Files are known by
      their path strings. A build record is present exactly when the page's
      build-information file exists; a user dependency list is present exactly
      when the `.deps` file next to the content file exists. `newer` holds the
      pairs (dependency, build-information file) where the dependency was
      modified after the build-information file. */
  datatype Snapshot = Snapshot(
    existing: set<string>,
    records: map<string, BuildRecord>,
    userDeps: map<string, seq<Path>>,
    newer: set<(string, string)>)

  predicate Exists(snap: Snapshot, p: Path)
  {
    p.Str() in snap.existing
  }

  /** The build-information file of a page. */
  function InfoFile(env: Env, p: PageInfo): string
  {
    env.infoPath(p.pagePath).Str()
  }

  /** The user dependency list next to the content file: the content file's
      stem followed by `.deps`. */
  function DepsFile(p: PageInfo): string
  {
    Path(p.contentPath.dir, ReplaceExt(p.contentPath.file, ".deps")).Str()
  }

  /** A page whose content or template file is missing cannot be built. */
  predicate Missing(snap: Snapshot, p: PageInfo)
  {
    !Exists(snap, p.contentPath) || !Exists(snap, p.templatePath)
  }

  /** The recorded name, title or template differs from the page's. */
  predicate RecordDiffers(rec: BuildRecord, p: PageInfo)
  {
    rec.name != p.name || rec.title != p.title || rec.templatePath != p.templatePath
  }

  datatype DepIssue = Removed(dep: Path) | Modified(dep: Path)

  /** What is wrong with one dependency: it no longer exists, or it was
      modified after the build-information file. */
  function IssueOf(snap: Snapshot, dep: Path, info: string): Option<DepIssue>
  {
    if !Exists(snap, dep) then Some(Removed(dep))
    else if (dep.Str(), info) in snap.newer then Some(Modified(dep))
    else None
  }

  predicate Bad(snap: Snapshot, dep: Path, info: string)
  {
    !Exists(snap, dep) || (dep.Str(), info) in snap.newer
  }

  /** Entry `i` is the first bad entry of the list. */
  predicate FirstBad(snap: Snapshot, deps: seq<Path>, info: string, i: int)
  {
    0 <= i < |deps| && Bad(snap, deps[i], info) && forall j :: 0 <= j < i ==> !Bad(snap, deps[j], info)
  }

  /** The classifier stops reading a dependency list at its first bad entry. */
  function FirstIssue(snap: Snapshot, deps: seq<Path>, info: string): (r: Option<DepIssue>)
    ensures r.None? <==> forall i :: 0 <= i < |deps| ==> !Bad(snap, deps[i], info)
    ensures r.Some? ==> exists i :: 0 <= i < |deps| && r == IssueOf(snap, deps[i], info) &&
                                    (forall j :: 0 <= j < i ==> !Bad(snap, deps[j], info))
    decreases |deps|
  {
    if |deps| == 0 then None
    else match IssueOf(snap, deps[0], info)
      case Some(issue) => Some(issue)
      case None =>
        var rest := FirstIssue(snap, deps[1..], info);
        assert rest.Some? ==> exists i :: 0 <= i < |deps| && rest == IssueOf(snap, deps[i], info) &&
                                          (forall j :: 0 <= j < i ==> !Bad(snap, deps[j], info)) by {
          if rest.Some? {
            var k :| 0 <= k < |deps| - 1 && rest == IssueOf(snap, deps[1..][k], info) &&
              forall j :: 0 <= j < k ==> !Bad(snap, deps[1..][j], info);
            assert forall j :: 0 <= j < k + 1 ==> !Bad(snap, deps[j], info) by {
              forall j | 0 <= j < k + 1 ensures !Bad(snap, deps[j], info) {
                if j > 0 { assert deps[j] == deps[1..][j - 1]; }
              }
            }
          }
        }
        assert rest.None? ==> forall i :: 0 <= i < |deps| ==> !Bad(snap, deps[i], info) by {
          if rest.None? {
            forall i | 0 <= i < |deps| ensures !Bad(snap, deps[i], info) {
              if i > 0 { assert deps[i] == deps[1..][i - 1]; }
            }
          }
        }
        rest
  }

  function RemovedBy(issue: Option<DepIssue>): set<Path>
  {
    if issue.Some? && issue.value.Removed? then {issue.value.dep} else {}
  }

  function ModifiedBy(issue: Option<DepIssue>): set<Path>
  {
    if issue.Some? && issue.value.Modified? then {issue.value.dep} else {}
  }

  // ---------------------------------------------------- the build classifier

  datatype Reason = YetToBeBuilt | NameChanged | TitleChanged | TemplateChanged | DepChanged

  datatype Verdict = Problem | Stale(reason: Reason) | Current

  /** A classification and the dependency files it reports. */
  datatype Check = Check(verdict: Verdict, removed: set<Path>, modified: set<Path>)

  /** The user dependency list, if the `.deps` file exists. */
  function UserDeps(snap: Snapshot, p: PageInfo): seq<Path>
  {
    if DepsFile(p) in snap.userDeps then snap.userDeps[DepsFile(p)] else []
  }

  /** The last stage of `dep_thread`, reached when the build record matches
      the page: the recorded dependencies and the user dependency list are
      both scanned, each up to its first bad entry (the first scan finding one
      does not stop the second), and the page is stale if either found one. */
  function DepScan(snap: Snapshot, deps: seq<Path>, user: seq<Path>, info: string): (r: Check)
    ensures r.verdict == Current <==>
      (forall i :: 0 <= i < |deps| ==> !Bad(snap, deps[i], info)) &&
      (forall i :: 0 <= i < |user| ==> !Bad(snap, user[i], info))
    ensures r.verdict != Current ==> r.verdict == Stale(DepChanged) && r.removed + r.modified != {}
    ensures r.verdict == Current ==> r.removed == {} && r.modified == {}
    ensures forall d :: d in r.removed + r.modified ==> d in deps || d in user
    ensures forall i :: FirstBad(snap, deps, info, i) ==> deps[i] in r.removed + r.modified
    ensures forall i :: FirstBad(snap, user, info, i) ==> user[i] in r.removed + r.modified
    ensures forall d :: d in r.removed + r.modified ==>
      (exists i :: FirstBad(snap, deps, info, i) && deps[i] == d) ||
      (exists i :: FirstBad(snap, user, info, i) && user[i] == d)
    ensures forall d :: d in r.removed ==> !Exists(snap, d)
    ensures forall d :: d in r.modified ==> Exists(snap, d) && (d.Str(), info) in snap.newer
    ensures |r.removed| + |r.modified| <= 2
  {
    var a := FirstIssue(snap, deps, info);
    var b := FirstIssue(snap, user, info);
    IssueFacts(snap, deps, info);
    IssueFacts(snap, user, info);
    FirstIssueIsFirstBad(snap, deps, info);
    FirstIssueIsFirstBad(snap, user, info);
    var removed := RemovedBy(a) + RemovedBy(b);
    var modified := ModifiedBy(a) + ModifiedBy(b);
    assert |removed| + |modified| <= 2 by {
      assert |RemovedBy(a)| + |ModifiedBy(a)| <= 1;
      assert |RemovedBy(b)| + |ModifiedBy(b)| <= 1;
    }
    Check(if a.Some? || b.Some? then Stale(DepChanged) else Current, removed, modified)
  }

  /** `dep_thread` for one page: a missing content or template file makes the
      page a problem; a missing build record, or a changed name, title or
      template (checked in that order) makes it stale at once; otherwise the
      dependency lists decide. */
  function Classify(env: Env, snap: Snapshot, p: PageInfo): (r: Check)
    ensures r.verdict == Problem <==> Missing(snap, p)
    ensures r.verdict == Stale(YetToBeBuilt) <==> !Missing(snap, p) && InfoFile(env, p) !in snap.records
    ensures !Missing(snap, p) && InfoFile(env, p) in snap.records && RecordDiffers(snap.records[InfoFile(env, p)], p) ==>
      r.verdict.Stale? && r.verdict.reason != DepChanged
    ensures r.verdict.Stale? && r.verdict.reason != DepChanged ==> r.removed == {} && r.modified == {}
    ensures !Missing(snap, p) && InfoFile(env, p) in snap.records && !RecordDiffers(snap.records[InfoFile(env, p)], p) ==>
      r == DepScan(snap, snap.records[InfoFile(env, p)].deps, UserDeps(snap, p), InfoFile(env, p))
    ensures r.verdict != Stale(DepChanged) ==> r.removed == {} && r.modified == {}
    ensures forall d :: d in r.removed ==> !Exists(snap, d)
    ensures forall d :: d in r.modified ==> Exists(snap, d) && (d.Str(), InfoFile(env, p)) in snap.newer
    ensures |r.removed| + |r.modified| <= 2
  {
    if Missing(snap, p) then Check(Problem, {}, {})
    else
      var info := InfoFile(env, p);
      if info !in snap.records then Check(Stale(YetToBeBuilt), {}, {})
      else
        var rec := snap.records[info];
        if rec.name != p.name then Check(Stale(NameChanged), {}, {})
        else if rec.title != p.title then Check(Stale(TitleChanged), {}, {})
        else if rec.templatePath != p.templatePath then Check(Stale(TemplateChanged), {}, {})
        else DepScan(snap, rec.deps, UserDeps(snap, p), info)
  }

  /** A list has at most one first bad entry, and the issue reported is about
      it. */
  lemma {:induction false} FirstIssueIsFirstBad(snap: Snapshot, deps: seq<Path>, info: string)
    ensures forall i, k :: FirstBad(snap, deps, info, i) && FirstBad(snap, deps, info, k) ==> i == k
    ensures forall i :: FirstBad(snap, deps, info, i) ==> FirstIssue(snap, deps, info) == IssueOf(snap, deps[i], info)
    ensures FirstIssue(snap, deps, info).Some? ==> exists i :: FirstBad(snap, deps, info, i)
    ensures var a := FirstIssue(snap, deps, info);
      && (forall i :: FirstBad(snap, deps, info, i) ==> deps[i] in RemovedBy(a) + ModifiedBy(a))
      && (forall d :: d in RemovedBy(a) + ModifiedBy(a) ==> exists i :: FirstBad(snap, deps, info, i) && deps[i] == d)
  {
    var a := FirstIssue(snap, deps, info);
    if a.Some? {
      var k :| 0 <= k < |deps| && a == IssueOf(snap, deps[k], info) &&
               (forall j :: 0 <= j < k ==> !Bad(snap, deps[j], info));
      assert FirstBad(snap, deps, info, k);
      assert RemovedBy(a) + ModifiedBy(a) == {deps[k]};
    }
  }

  /** The dependency an issue names is really removed or modified. */
  lemma IssueFacts(snap: Snapshot, deps: seq<Path>, info: string)
    ensures var a := FirstIssue(snap, deps, info);
      && (forall d :: d in RemovedBy(a) ==> !Exists(snap, d))
      && (forall d :: d in ModifiedBy(a) ==> Exists(snap, d) && (d.Str(), info) in snap.newer)
      && (a.Some? ==> RemovedBy(a) + ModifiedBy(a) != {})
      && (forall d :: d in RemovedBy(a) + ModifiedBy(a) ==> d in deps)
  {
    var a := FirstIssue(snap, deps, info);
    if a.Some? {
      var i :| 0 <= i < |deps| && a == IssueOf(snap, deps[i], info);
    }
  }

  // ------------------------------------------------------------ status

  /** What `status` finds for one page. */
  datatype Report = Report(needsBuild: bool, problem: bool, removed: set<Path>, modified: set<Path>)

  /** Every listed dependency that no longer exists. */
  function RemovedDeps(snap: Snapshot, deps: seq<Path>): (r: set<Path>)
    ensures forall d :: d in r <==> d in deps && !Exists(snap, d)
  {
    set d | d in deps && !Exists(snap, d)
  }

  /** Every listed dependency modified after the build-information file. */
  function ModifiedDeps(snap: Snapshot, deps: seq<Path>, info: string): (r: set<Path>)
    ensures forall d :: d in r <==> d in deps && Exists(snap, d) && (d.Str(), info) in snap.newer
  {
    set d | d in deps && Exists(snap, d) && (d.Str(), info) in snap.newer
  }

  /** `status` for one page: unlike the build classifier it does not stop at
      the first finding, it collects every removed or modified recorded
      dependency, it still reads the build record of a problem page, and it
      does not read the user dependency list. A problem page is never listed
      as needing a build. */
  function StatusOf(env: Env, snap: Snapshot, p: PageInfo): (r: Report)
    ensures r.problem <==> Missing(snap, p)
    ensures r.needsBuild ==> !r.problem
    ensures r.needsBuild <==>
      && !Missing(snap, p)
      && (InfoFile(env, p) !in snap.records || RecordDiffers(snap.records[InfoFile(env, p)], p) ||
          r.removed != {} || r.modified != {})
    ensures InfoFile(env, p) in snap.records ==>
      var rec := snap.records[InfoFile(env, p)];
      && (forall d :: d in r.removed <==> d in rec.deps && !Exists(snap, d))
      && (forall d :: d in r.modified <==> d in rec.deps && Exists(snap, d) && (d.Str(), InfoFile(env, p)) in snap.newer)
    ensures InfoFile(env, p) !in snap.records ==> r.removed == {} && r.modified == {}
  {
    var problem := Missing(snap, p);
    var info := InfoFile(env, p);
    if info !in snap.records then Report(!problem, problem, {}, {})
    else
      var rec := snap.records[info];
      var removed := RemovedDeps(snap, rec.deps);
      var modified := ModifiedDeps(snap, rec.deps, info);
      var needs := RecordDiffers(rec, p) || removed != {} || modified != {};
      Report(needs && !problem, problem, removed, modified)
  }

  /** Without a user dependency list the two checks agree on which pages are
      problems and which need building, and every dependency the build
      classifier reports is one `status` reports too. */
  lemma ClassifiersAgree(env: Env, snap: Snapshot, p: PageInfo)
    requires DepsFile(p) !in snap.userDeps
    ensures Classify(env, snap, p).verdict == Problem <==> StatusOf(env, snap, p).problem
    ensures Classify(env, snap, p).verdict.Stale? <==> StatusOf(env, snap, p).needsBuild
    ensures Classify(env, snap, p).removed <= StatusOf(env, snap, p).removed
    ensures Classify(env, snap, p).modified <= StatusOf(env, snap, p).modified
  {
    var c := Classify(env, snap, p);
    var s := StatusOf(env, snap, p);
    var info := InfoFile(env, p);
    if Missing(snap, p) {
      assert c.verdict == Problem && s.problem && !s.needsBuild;
    } else if info !in snap.records {
      assert c.verdict == Stale(YetToBeBuilt) && s.needsBuild;
    } else if RecordDiffers(snap.records[info], p) {
      assert c.verdict.Stale? && s.needsBuild;
    } else {
      var deps := snap.records[info].deps;
      assert UserDeps(snap, p) == [];
      assert c == DepScan(snap, deps, [], info);
      if c.verdict == Current {
        forall d | d in deps ensures d !in s.removed && d !in s.modified {
          var i :| 0 <= i < |deps| && deps[i] == d;
          assert !Bad(snap, deps[i], info);
        }
        assert s.removed == {} && s.modified == {};
      } else {
        var i :| 0 <= i < |deps| && Bad(snap, deps[i], info);
        assert deps[i] in s.removed || deps[i] in s.modified;
      }
    }
  }

  /** A page whose build record matches and whose recorded dependencies are
      all fine, but whose user dependency list holds a removed or modified
      file, is rebuilt by `build_updated` but not listed by `status`. */
  lemma StatusIgnoresUserDeps(env: Env, snap: Snapshot, p: PageInfo)
    requires !Missing(snap, p) && InfoFile(env, p) in snap.records
    requires !RecordDiffers(snap.records[InfoFile(env, p)], p)
    requires forall d :: d in snap.records[InfoFile(env, p)].deps ==> !Bad(snap, d, InfoFile(env, p))
    requires exists d :: d in UserDeps(snap, p) && Bad(snap, d, InfoFile(env, p))
    ensures Classify(env, snap, p).verdict == Stale(DepChanged)
    ensures !StatusOf(env, snap, p).needsBuild && !StatusOf(env, snap, p).problem
  {
    var info := InfoFile(env, p);
    var rec := snap.records[info];
    BadUserDepIsStale(snap, rec.deps, UserDeps(snap, p), info);
    CleanRecordReportsNothing(env, snap, p);
  }

  /** One bad entry in the user dependency list makes the dependency scan
      stale. */
  lemma BadUserDepIsStale(snap: Snapshot, deps: seq<Path>, user: seq<Path>, info: string)
    requires exists d :: d in user && Bad(snap, d, info)
    ensures DepScan(snap, deps, user, info).verdict == Stale(DepChanged)
  {
    var d :| d in user && Bad(snap, d, info);
    var i :| 0 <= i < |user| && user[i] == d;
  }

  /** `status` lists no file for a page whose recorded dependencies are all
      fine. */
  lemma CleanRecordReportsNothing(env: Env, snap: Snapshot, p: PageInfo)
    requires InfoFile(env, p) in snap.records
    requires forall d :: d in snap.records[InfoFile(env, p)].deps ==> !Bad(snap, d, InfoFile(env, p))
    ensures StatusOf(env, snap, p).removed == {} && StatusOf(env, snap, p).modified == {}
  {
    var s := StatusOf(env, snap, p);
    assert forall x :: x !in s.removed && x !in s.modified;
  }

  // --------------------------------------------------------- aggregation

  /** What a `build_updated` scan collects over the tracked pages: the pages
      to build, the problem pages, and the removed and modified dependency
      files. */
  datatype Scan = Scan(updated: set<Name>, problems: set<Name>, removed: set<Path>, modified: set<Path>)

  /** The classification of every tracked page. */
  function Checks(env: Env, snap: Snapshot, pages: Registry): map<Name, Check>
  {
    map n | n in pages :: Classify(env, snap, pages[n])
  }

  /** The scan as a property of a set of classified pages, whatever order the
      worker threads claim them in. */
  function Gather(cs: map<Name, Check>, names: set<Name>): Scan
    requires names <= cs.Keys
  {
    Scan(
      set n | n in names && cs[n].verdict.Stale?,
      set n | n in names && cs[n].verdict == Problem,
      set n, d | n in names && d in cs[n].removed :: d,
      set n, d | n in names && d in cs[n].modified :: d)
  }

  /** The scan of all tracked pages. */
  function ScanOf(env: Env, snap: Snapshot, pages: Registry): (r: Scan)
    ensures forall n :: n in pages ==>
      (n in r.updated <==> Classify(env, snap, pages[n]).verdict.Stale?) &&
      (n in r.problems <==> Missing(snap, pages[n]))
    ensures r.updated !! r.problems && r.updated + r.problems <= pages.Keys
    ensures forall d :: d in r.removed <==> exists n :: n in pages && d in Classify(env, snap, pages[n]).removed
    ensures forall d :: d in r.modified <==> exists n :: n in pages && d in Classify(env, snap, pages[n]).modified
  {
    ScanFiles(env, snap, pages);
    Gather(Checks(env, snap, pages), pages.Keys)
  }

  /** The files a scan collects are exactly the files its pages report. */
  lemma ScanFiles(env: Env, snap: Snapshot, pages: Registry)
    ensures var r := Gather(Checks(env, snap, pages), pages.Keys);
      && (forall d :: d in r.removed <==> exists n :: n in pages && d in Classify(env, snap, pages[n]).removed)
      && (forall d :: d in r.modified <==> exists n :: n in pages && d in Classify(env, snap, pages[n]).modified)
  {
    var cs := Checks(env, snap, pages);
    var r := Gather(cs, pages.Keys);
    forall d ensures d in r.removed <==> exists n :: n in pages && d in Classify(env, snap, pages[n]).removed {
      if d in r.removed {
        var n :| n in pages && d in cs[n].removed;
        assert cs[n] == Classify(env, snap, pages[n]);
      }
    }
    forall d ensures d in r.modified <==> exists n :: n in pages && d in Classify(env, snap, pages[n]).modified {
      if d in r.modified {
        var n :| n in pages && d in cs[n].modified;
        assert cs[n] == Classify(env, snap, pages[n]);
      }
    }
  }

  /** The scan is the sum of its parts: adding one page adds that page's
      classification. */
  lemma GatherStep(cs: map<Name, Check>, names: set<Name>, n: Name)
    requires names <= cs.Keys && n in cs
    ensures var s := Gather(cs, names);
      Gather(cs, names + {n}) ==
        Scan(if cs[n].verdict.Stale? then s.updated + {n} else s.updated,
             if cs[n].verdict == Problem then s.problems + {n} else s.problems,
             s.removed + cs[n].removed,
             s.modified + cs[n].modified)
  {
    var s := Gather(cs, names);
    var t := Gather(cs, names + {n});
    assert t.removed == s.removed + cs[n].removed;
    assert t.modified == s.modified + cs[n].modified;
  }

  /** The claim loop of the scan threads run one page at a time in any order
      that visits every tracked page once; the result does not depend on the
      order. */
  method ScanAll(env: Env, snap: Snapshot, pages: Registry, order: seq<Name>) returns (s: Scan)
    requires forall i :: 0 <= i < |order| ==> order[i] in pages
    requires forall n :: n in pages ==> n in order
    ensures s == ScanOf(env, snap, pages)
  {
    s := GatherAll(Checks(env, snap, pages), order);
  }

  /** Folding the classifications in claim order. */
  method GatherAll(cs: map<Name, Check>, order: seq<Name>) returns (s: Scan)
    requires forall i :: 0 <= i < |order| ==> order[i] in cs
    requires forall n :: n in cs ==> n in order
    ensures s == Gather(cs, cs.Keys)
  {
    s := Scan({}, {}, {}, {});
    ghost var visited: set<Name> := {};
    var i := 0;
    while i < |order|
      invariant 0 <= i <= |order|
      invariant visited == set j | 0 <= j < i :: order[j]
      invariant visited <= cs.Keys
      invariant s == Gather(cs, visited)
    {
      var n := order[i];
      var c := cs[n];
      GatherStep(cs, visited, n);
      s := Scan(if c.verdict.Stale? then s.updated + {n} else s.updated,
                if c.verdict == Problem then s.problems + {n} else s.problems,
                s.removed + c.removed,
                s.modified + c.modified);
      visited := visited + {n};
      i := i + 1;
      assert visited == set j | 0 <= j < i :: order[j];
    }
    assert visited == cs.Keys;
  }

  /** Every reported dependency file belongs to a page that is to be built. */
  lemma ReportedDepsHaveStalePage(env: Env, snap: Snapshot, pages: Registry)
    ensures var s := ScanOf(env, snap, pages);
      forall d :: d in s.removed + s.modified ==>
        exists n :: n in s.updated && d in Classify(env, snap, pages[n]).removed + Classify(env, snap, pages[n]).modified
  {
    var s := ScanOf(env, snap, pages);
    forall d | d in s.removed + s.modified
      ensures exists n :: n in s.updated && d in Classify(env, snap, pages[n]).removed + Classify(env, snap, pages[n]).modified
    {
      var n :| n in pages && d in Classify(env, snap, pages[n]).removed + Classify(env, snap, pages[n]).modified;
      assert n in s.updated;
    }
  }

  /** What `status` reports over all tracked pages. */
  datatype StatusSummary = StatusSummary(needBuild: set<Name>, problems: set<Name>, removed: set<Path>, modified: set<Path>)
  {
    /** "all pages are already up to date" is printed when no modified file,
        page needing a build or problem page was found. */
    predicate UpToDate()
    {
      modified == {} && needBuild == {} && problems == {}
    }
  }

  /** The `status` report of every tracked page. */
  function Reports(env: Env, snap: Snapshot, pages: Registry): map<Name, Report>
  {
    map n | n in pages :: StatusOf(env, snap, pages[n])
  }

  /** The summary as a property of a set of per-page reports. */
  function Collect(rs: map<Name, Report>, names: set<Name>): (r: StatusSummary)
    requires names <= rs.Keys
    ensures forall n :: n in names ==>
      (n in r.needBuild <==> rs[n].needsBuild) && (n in r.problems <==> rs[n].problem)
    ensures r.needBuild + r.problems <= names
    ensures forall d :: d in r.removed <==> exists n :: n in names && d in rs[n].removed
    ensures forall d :: d in r.modified <==> exists n :: n in names && d in rs[n].modified
  {
    StatusSummary(
      set n | n in names && rs[n].needsBuild,
      set n | n in names && rs[n].problem,
      set n, d | n in names && d in rs[n].removed :: d,
      set n, d | n in names && d in rs[n].modified :: d)
  }

  /** `status`: nothing when no page is tracked, otherwise the per-page
      reports gathered. */
  function Status(env: Env, snap: Snapshot, pages: Registry): (r: Option<StatusSummary>)
    ensures r.None? <==> pages == map[]
    ensures r.Some? ==> forall n :: n in pages ==>
      (n in r.value.needBuild <==> StatusOf(env, snap, pages[n]).needsBuild) &&
      (n in r.value.problems <==> Missing(snap, pages[n]))
    ensures r.Some? ==> r.value.needBuild !! r.value.problems && r.value.needBuild + r.value.problems <= pages.Keys
    ensures r.Some? ==> forall d :: d in r.value.removed <==> exists n :: n in pages && d in StatusOf(env, snap, pages[n]).removed
    ensures r.Some? ==> forall d :: d in r.value.modified <==> exists n :: n in pages && d in StatusOf(env, snap, pages[n]).modified
  {
    if pages == map[] then None
    else
      var rs := Reports(env, snap, pages);
      var s := Collect(rs, pages.Keys);
      assert forall n :: n in pages ==> rs[n] == StatusOf(env, snap, pages[n]);
      Some(s)
  }

  /** The up-to-date message leaves out removed files, but a removed file
      always makes its page need a build or be a problem, so the message
      never hides one. */
  lemma UpToDateMeansNothingRemoved(env: Env, snap: Snapshot, pages: Registry)
    ensures var r := Status(env, snap, pages);
      r.Some? && r.value.UpToDate() ==> r.value.removed == {}
  {
  }
}
