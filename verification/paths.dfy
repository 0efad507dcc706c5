/** Names, titles and paths, and the uninterpreted path/string helpers the
    site engine relies on but whose code is not part of this model. */
module Paths {

  type Name = string
  type Title = string

  /** A file location split into its directory part and its file-name part. */
  datatype Path = Path(dir: string, file: string) {
    function Str(): string { dir + file }
  }

  /** `Path("", "")`, which the engine treats as "no path given". */
  const EmptyPath := Path("", "")

  /** The helpers `unquote`, `Path::set_file_path_from`, `get_title` and
      `Path::getInfoPath` are not part of this model; every operation that
      needs them receives them here as uninterpreted functions. */
  datatype Env = Env(
    unquote: string -> string,
    splitPath: string -> Path,
    getTitle: Name -> Title,
    infoPath: Path -> Path)

  /** A name, title or path that contains both a double and a single quote
      cannot be written back quoted, so every setter rejects it. */
  predicate MixesQuotes(s: string)
  {
    '"' in s && '\'' in s
  }

  /** Position of the first '.' in `s`, or `|s|` when there is none: the value
      `find_first_of('.')` yields, with `npos` standing for "to the end". */
  function FirstDot(s: string): (i: nat)
    ensures i <= |s|
    ensures i < |s| ==> s[i] == '.'
    ensures forall j :: 0 <= j < i ==> s[j] != '.'
  {
    if |s| == 0 then 0
    else if s[0] == '.' then 0
    else 1 + FirstDot(s[1..])
  }

  /** The part of a file name before its first '.'. */
  function Stem(file: string): string
  {
    file[..FirstDot(file)]
  }

  /** The part of a file name from its first '.' on (empty when it has none). */
  function Ext(file: string): string
  {
    file[FirstDot(file)..]
  }

  /** `file.substr(0, file.find_first_of('.')) + ext`: the extension swap used
      for override sidecars, `.deps` lists and every extension change. */
  function ReplaceExt(file: string, ext: string): string
  {
    Stem(file) + ext
  }

  lemma StemHasNoDot(file: string)
    ensures '.' !in Stem(file)
  {
    var k := FirstDot(file);
    forall c | c in Stem(file)
      ensures c != '.'
    {
      var j :| 0 <= j < k && file[..k][j] == c;
    }
  }

  /** A stem without a dot followed by a dotted extension has its first dot
      exactly where the extension starts. */
  lemma {:induction false} FirstDotOfJoin(stem: string, ext: string)
    requires '.' !in stem
    requires |ext| > 0 && ext[0] == '.'
    ensures FirstDot(stem + ext) == |stem|
  {
    if |stem| == 0 {
      assert (stem + ext)[0] == '.';
    } else {
      assert (stem + ext)[0] == stem[0];
      assert (stem + ext)[1..] == stem[1..] + ext;
      assert stem[0] in stem;
      assert forall c :: c in stem[1..] ==> c in stem;
      FirstDotOfJoin(stem[1..], ext);
    }
  }

  /** The replaced name keeps the old stem and ends with the new extension. */
  lemma ReplaceExtShape(file: string, ext: string)
    requires |ext| > 0 && ext[0] == '.'
    ensures Stem(ReplaceExt(file, ext)) == Stem(file)
    ensures Ext(ReplaceExt(file, ext)) == ext
  {
    StemHasNoDot(file);
    FirstDotOfJoin(Stem(file), ext);
    assert (Stem(file) + ext)[..|Stem(file)|] == Stem(file);
    assert (Stem(file) + ext)[|Stem(file)|..] == ext;
  }

  /** Swapping the extension twice is the same as swapping it once to the
      second value, provided the first value starts with '.'. */
  lemma ReplaceExtTwice(file: string, e1: string, e2: string)
    requires |e1| > 0 && e1[0] == '.'
    ensures ReplaceExt(ReplaceExt(file, e1), e2) == ReplaceExt(file, e2)
  {
    ReplaceExtShape(file, e1);
  }

  /** Swapping a file's extension to its own extension changes nothing. */
  lemma ReplaceExtOwn(file: string)
    ensures ReplaceExt(file, Ext(file)) == file
  {
    assert file[..FirstDot(file)] + file[FirstDot(file)..] == file;
  }

  /** Changing a file's extension to a dotted one and back restores the name. */
  lemma ReplaceExtRoundTrip(file: string, ext: string)
    requires |ext| > 0 && ext[0] == '.'
    ensures ReplaceExt(ReplaceExt(file, ext), Ext(file)) == file
  {
    ReplaceExtTwice(file, ext, Ext(file));
    ReplaceExtOwn(file);
  }

  /** Two paths in the same directory print the same exactly when their file
      names are equal. */
  lemma SameDirStr(dir: string, f1: string, f2: string)
    ensures Path(dir, f1).Str() == Path(dir, f2).Str() <==> f1 == f2
  {
    if Path(dir, f1).Str() == Path(dir, f2).Str() {
      assert f1 == (dir + f1)[|dir|..];
      assert f2 == (dir + f2)[|dir|..];
    }
  }
}
