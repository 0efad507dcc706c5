/** The site-wide configuration (`.siteinfo/nsm.config`): reading it line by
    line, validating it, filling defaults, and the `no_build_threads` setter. */
module SiteConfig {
  import opened Wrappers
  import opened Paths

  datatype Config = Config(
    contentDir: string,
    contentExt: string,
    siteDir: string,
    pageExt: string,
    scriptExt: string,
    defaultTemplate: Path,
    buildThreads: int,
    unixTextEditor: string,
    winTextEditor: string,
    rootBranch: string,
    siteBranch: string)

  /** The values `open_config` starts from before reading any line. */
  const Unset := Config("", "", "", "", "", EmptyPath, 0, "", "", "", "")

  /** Every key the configuration file may assign. */
  const Keys: set<string> := {
    "contentDir", "contentExt", "siteDir", "pageExt", "scriptExt", "defaultTemplate",
    "buildThreads", "unixTextEditor", "winTextEditor", "rootBranch", "siteBranch"
  }

  /** One line of the configuration file. `text` is the raw line; the quoted
      string, file-path token and integer that the (unmodelled) value readers
      would extract from the rest of the line are given alongside it. */
  datatype ConfigLine = ConfigLine(text: string, quoted: string, path: Path, number: int)

  /** The value held under one key. */
  datatype Value = Text(s: string) | PathValue(p: Path) | Number(n: int)

  datatype ConfigError =
    | UnknownKey(key: string)
    | BadContentExt
    | BadPageExt
    | BadScriptExt
    | NoDefaultTemplate
    | NoContentDir
    | NoSiteDir
    | ZeroThreads
    | ThreadsUnchanged

  /** The characters C's `isspace` accepts. */
  predicate IsSpace(c: char)
  {
    c == ' ' || c == '\t' || c == '\n' || c == '\r' || c == '\U{000B}' || c == '\U{000C}'
  }

  predicate AllSpace(s: string)
  {
    forall i :: 0 <= i < |s| ==> IsSpace(s[i])
  }

  /** Blank lines, whitespace-only lines and lines starting with '#' are ignored. */
  predicate Skipped(text: string)
  {
    AllSpace(text) || |text| == 0 || text[0] == '#'
  }

  function DropSpaces(s: string): string
  {
    if |s| > 0 && IsSpace(s[0]) then DropSpaces(s[1..]) else s
  }

  /** Skipping leading whitespace leaves the rest of the string after its
      longest all-whitespace prefix. */
  lemma {:induction false} DropSpacesSuffix(s: string)
    ensures |DropSpaces(s)| <= |s| && DropSpaces(s) == s[|s| - |DropSpaces(s)|..]
    ensures AllSpace(s[..|s| - |DropSpaces(s)|])
    ensures |DropSpaces(s)| == 0 || !IsSpace(DropSpaces(s)[0])
    decreases |s|
  {
    if |s| > 0 && IsSpace(s[0]) {
      DropSpacesSuffix(s[1..]);
      var k := |s| - |DropSpaces(s)|;
      assert s[..k] == [s[0]] + s[1..][..k - 1];
    }
  }

  function TakeWord(s: string): string
  {
    if |s| > 0 && !IsSpace(s[0]) then [s[0]] + TakeWord(s[1..]) else []
  }

  /** The first whitespace-delimited word of a line (what `iss >> inType` reads). */
  function Key(text: string): string
  {
    TakeWord(DropSpaces(text))
  }

  /** A line that is read and whose key is not one of `Keys`. */
  predicate Unknown(l: ConfigLine)
  {
    !Skipped(l.text) && Key(l.text) !in Keys
  }

  /** A line that is read and assigns key `k`. */
  predicate Sets(l: ConfigLine, k: string)
  {
    !Skipped(l.text) && Key(l.text) == k
  }

  /** The value stored under key `k`. */
  function Field(c: Config, k: string): Value
  {
    if k == "contentDir" then Text(c.contentDir)
    else if k == "contentExt" then Text(c.contentExt)
    else if k == "siteDir" then Text(c.siteDir)
    else if k == "pageExt" then Text(c.pageExt)
    else if k == "scriptExt" then Text(c.scriptExt)
    else if k == "defaultTemplate" then PathValue(c.defaultTemplate)
    else if k == "buildThreads" then Number(c.buildThreads)
    else if k == "unixTextEditor" then Text(c.unixTextEditor)
    else if k == "winTextEditor" then Text(c.winTextEditor)
    else if k == "rootBranch" then Text(c.rootBranch)
    else if k == "siteBranch" then Text(c.siteBranch)
    else Text("")
  }

  /** What a line assigning key `k` stores: a file-path token for the default
      template, an integer for the thread count, a quoted string otherwise. */
  function Parsed(k: string, l: ConfigLine): Value
  {
    if k == "defaultTemplate" then PathValue(l.path)
    else if k == "buildThreads" then Number(l.number)
    else Text(l.quoted)
  }

  /** Two configurations that agree on every key are the same configuration. */
  lemma FieldsDetermine(a: Config, b: Config)
    requires forall k :: k in Keys ==> Field(a, k) == Field(b, k)
    ensures a == b
  {
    assert Field(a, "contentDir") == Field(b, "contentDir");
    assert Field(a, "contentExt") == Field(b, "contentExt");
    assert Field(a, "siteDir") == Field(b, "siteDir");
    assert Field(a, "pageExt") == Field(b, "pageExt");
    assert Field(a, "scriptExt") == Field(b, "scriptExt");
    assert Field(a, "defaultTemplate") == Field(b, "defaultTemplate");
    assert Field(a, "buildThreads") == Field(b, "buildThreads");
    assert Field(a, "unixTextEditor") == Field(b, "unixTextEditor");
    assert Field(a, "winTextEditor") == Field(b, "winTextEditor");
    assert Field(a, "rootBranch") == Field(b, "rootBranch");
    assert Field(a, "siteBranch") == Field(b, "siteBranch");
  }

  /** Stores the value a line carries for key `k`, leaving every other key alone. */
  function Assign(c: Config, k: string, l: ConfigLine): (r: Config)
    requires k in Keys
    ensures Field(r, k) == Parsed(k, l)
    ensures forall k' :: k' in Keys && k' != k ==> Field(r, k') == Field(c, k')
  {
    if k == "contentDir" then c.(contentDir := l.quoted)
    else if k == "contentExt" then c.(contentExt := l.quoted)
    else if k == "siteDir" then c.(siteDir := l.quoted)
    else if k == "pageExt" then c.(pageExt := l.quoted)
    else if k == "scriptExt" then c.(scriptExt := l.quoted)
    else if k == "defaultTemplate" then c.(defaultTemplate := l.path)
    else if k == "buildThreads" then c.(buildThreads := l.number)
    else if k == "unixTextEditor" then c.(unixTextEditor := l.quoted)
    else if k == "winTextEditor" then c.(winTextEditor := l.quoted)
    else if k == "rootBranch" then c.(rootBranch := l.quoted)
    else c.(siteBranch := l.quoted)
  }

  /** The reading loop of `open_config`: skips ignored lines, stops at the first
      unknown key, and otherwise assigns each key in file order. */
  function ApplyLines(c: Config, lines: seq<ConfigLine>): (r: Result<Config, ConfigError>)
    ensures r.Failure? <==> exists i :: 0 <= i < |lines| && Unknown(lines[i])
    ensures r.Failure? ==> r.error.UnknownKey? && r.error.key !in Keys
    decreases |lines|
  {
    if |lines| == 0 then Success(c)
    else
      var l := lines[0];
      if Skipped(l.text) then ApplyLines(c, lines[1..])
      else
        var k := Key(l.text);
        if k in Keys then ApplyLines(Assign(c, k, l), lines[1..])
        else Failure(UnknownKey(k))
  }

  /** A key no line assigns keeps its starting value. */
  lemma {:induction false} UnassignedKeepsInitial(c: Config, lines: seq<ConfigLine>, k: string)
    requires ApplyLines(c, lines).Success? && k in Keys
    requires forall j :: 0 <= j < |lines| ==> !Sets(lines[j], k)
    ensures Field(ApplyLines(c, lines).value, k) == Field(c, k)
    decreases |lines|
  {
    if |lines| > 0 {
      var l := lines[0];
      assert !Sets(lines[0], k);
      if Skipped(l.text) {
        UnassignedKeepsInitial(c, lines[1..], k);
      } else {
        UnassignedKeepsInitial(Assign(c, Key(l.text), l), lines[1..], k);
      }
    }
  }

  /** When a key is assigned more than once, the last assignment wins. */
  lemma {:induction false} LastAssignmentWins(c: Config, lines: seq<ConfigLine>, k: string, i: nat)
    requires ApplyLines(c, lines).Success? && k in Keys
    requires i < |lines| && Sets(lines[i], k)
    requires forall j :: i < j < |lines| ==> !Sets(lines[j], k)
    ensures Field(ApplyLines(c, lines).value, k) == Parsed(k, lines[i])
    decreases |lines|
  {
    var l := lines[0];
    if i == 0 {
      UnassignedKeepsInitial(Assign(c, k, l), lines[1..], k);
    } else if Skipped(l.text) {
      LastAssignmentWins(c, lines[1..], k, i - 1);
    } else {
      LastAssignmentWins(Assign(c, Key(l.text), l), lines[1..], k, i - 1);
    }
  }

  predicate DottedExt(e: string)
  {
    |e| > 0 && e[0] == '.'
  }

  /** A script extension may be empty ("no script") or must start with '.'. */
  predicate ScriptExtOk(e: string)
  {
    e == "" || e[0] == '.'
  }

  /** What every loaded configuration satisfies, and every setter preserves. */
  predicate WellFormed(c: Config)
  {
    && DottedExt(c.contentExt)
    && DottedExt(c.pageExt)
    && ScriptExtOk(c.scriptExt)
    && c.defaultTemplate != EmptyPath
    && c.contentDir != ""
    && c.siteDir != ""
    && c.buildThreads != 0
    && c.unixTextEditor != ""
    && c.winTextEditor != ""
    && c.rootBranch != ""
    && c.siteBranch != ""
  }

  /** The checks `open_config` makes after reading, in order; `None` when all pass. */
  function FirstProblem(raw: Config): (r: Option<ConfigError>)
    ensures r.None? <==>
      && DottedExt(raw.contentExt) && DottedExt(raw.pageExt) && ScriptExtOk(raw.scriptExt)
      && raw.defaultTemplate != EmptyPath && raw.contentDir != "" && raw.siteDir != ""
  {
    if !DottedExt(raw.contentExt) then Some(BadContentExt)
    else if !DottedExt(raw.pageExt) then Some(BadPageExt)
    else if !ScriptExtOk(raw.scriptExt) then Some(BadScriptExt)
    else if raw.defaultTemplate == EmptyPath then Some(NoDefaultTemplate)
    else if raw.contentDir == "" then Some(NoContentDir)
    else if raw.siteDir == "" then Some(NoSiteDir)
    else None
  }

  /** The configuration after loading, and whether it had to be written back
      because a default was filled in. */
  datatype Loaded = Loaded(config: Config, rewritten: bool)

  /** The branch pair chosen when either branch is missing: `git` is `None`
      when there is no `.git`, otherwise the repository's branch names. */
  function GuessBranches(git: Option<set<string>>): (string, string)
  {
    match git
    case None => ("##unset##", "##unset##")
    case Some(branches) => if "stage" in branches then ("stage", "master") else ("master", "master")
  }

  function FillDefaults(raw: Config, git: Option<set<string>>): Loaded
  {
    var branches := GuessBranches(git);
    var c := raw.(
      scriptExt := if raw.scriptExt == "" then ".py" else raw.scriptExt,
      buildThreads := if raw.buildThreads == 0 then -1 else raw.buildThreads,
      unixTextEditor := if raw.unixTextEditor == "" then "nano" else raw.unixTextEditor,
      winTextEditor := if raw.winTextEditor == "" then "notepad" else raw.winTextEditor,
      rootBranch := if raw.rootBranch == "" || raw.siteBranch == "" then branches.0 else raw.rootBranch,
      siteBranch := if raw.rootBranch == "" || raw.siteBranch == "" then branches.1 else raw.siteBranch);
    var changed := raw.scriptExt == "" || raw.buildThreads == 0 || raw.unixTextEditor == ""
                   || raw.winTextEditor == "" || raw.rootBranch == "" || raw.siteBranch == "";
    Loaded(c, changed)
  }

  /** `open_config` over the file's lines. */
  function OpenConfig(lines: seq<ConfigLine>, git: Option<set<string>>): (r: Result<Loaded, ConfigError>)
    ensures (exists i :: 0 <= i < |lines| && Unknown(lines[i])) ==> r.Failure? && r.error.UnknownKey?
    ensures r.Success? ==> WellFormed(r.value.config) && r.value.config.scriptExt != ""
    ensures ApplyLines(Unset, lines).Success? ==>
      var raw := ApplyLines(Unset, lines).value;
      && (r.Success? <==>
            DottedExt(raw.contentExt) && DottedExt(raw.pageExt) && ScriptExtOk(raw.scriptExt)
            && raw.defaultTemplate != EmptyPath && raw.contentDir != "" && raw.siteDir != "")
  {
    match ApplyLines(Unset, lines)
    case Failure(e) => Failure(e)
    case Success(raw) =>
      match FirstProblem(raw)
      case Some(e) => Failure(e)
      case None => Success(FillDefaults(raw, git))
  }

  /** A successfully loaded configuration keeps every value the file set and
      is rewritten exactly when a default had to be filled in. */
  lemma OpenConfigKeepsValues(lines: seq<ConfigLine>, git: Option<set<string>>)
    ensures var r := OpenConfig(lines, git);
      r.Success? ==>
            var raw := ApplyLines(Unset, lines).value;
            var c := r.value.config;
            && c.contentDir == raw.contentDir && c.contentExt == raw.contentExt
            && c.siteDir == raw.siteDir && c.pageExt == raw.pageExt
            && c.defaultTemplate == raw.defaultTemplate
            && (raw.scriptExt != "" ==> c.scriptExt == raw.scriptExt)
            && (raw.buildThreads != 0 ==> c.buildThreads == raw.buildThreads)
            && (raw.unixTextEditor != "" ==> c.unixTextEditor == raw.unixTextEditor)
            && (raw.winTextEditor != "" ==> c.winTextEditor == raw.winTextEditor)
            && (raw.rootBranch != "" && raw.siteBranch != "" ==>
                  c.rootBranch == raw.rootBranch && c.siteBranch == raw.siteBranch)
            && (r.value.rewritten <==>
                  raw.scriptExt == "" || raw.buildThreads == 0 || raw.unixTextEditor == ""
                  || raw.winTextEditor == "" || raw.rootBranch == "" || raw.siteBranch == "")
  {
  }

  /** The keys `open_config` never fills with a default. */
  const Required: set<string> := {"contentDir", "contentExt", "siteDir", "pageExt", "defaultTemplate"}

  /** For a key that is never defaulted, a successfully loaded configuration
      holds the value of the last line that assigns it. */
  lemma OpenConfigLastWins(lines: seq<ConfigLine>, git: Option<set<string>>, k: string, i: nat)
    requires OpenConfig(lines, git).Success?
    requires k in Required
    requires i < |lines| && Sets(lines[i], k)
    requires forall j :: i < j < |lines| ==> !Sets(lines[j], k)
    ensures Field(OpenConfig(lines, git).value.config, k) == Parsed(k, lines[i])
  {
    OpenConfigKeepsValues(lines, git);
    LastAssignmentWins(Unset, lines, k, i);
  }

  /** `no_build_threads`: a zero count or the current count is rejected. */
  function NoBuildThreads(c: Config, n: int): (r: Result<Config, ConfigError>)
    ensures n == 0 ==> r == Failure(ZeroThreads)
    ensures n != 0 && n == c.buildThreads ==> r == Failure(ThreadsUnchanged)
    ensures r.Success? <==> n != 0 && n != c.buildThreads
    ensures r.Success? ==> Field(r.value, "buildThreads") == Number(n)
    ensures r.Success? ==> forall k :: k in Keys && k != "buildThreads" ==> Field(r.value, k) == Field(c, k)
    ensures r.Success? && WellFormed(c) ==> WellFormed(r.value)
  {
    if n == 0 then Failure(ZeroThreads)
    else if n == c.buildThreads then Failure(ThreadsUnchanged)
    else Success(c.(buildThreads := n))
  }
}
