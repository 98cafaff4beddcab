/** The remote names the publishers use: the exporters' `TrimSlash` of the
    configured directory, the final and temporary paths built from it, and
    the builder's temporary name. */
module Paths {
  import opened Wrappers
  import opened Text

  /** `string.IsNullOrWhiteSpace` on a non-null string. */
  predicate AllDotNetSpace(s: string) {
    forall i :: 0 <= i < |s| ==> IsDotNetSpace(s[i])
  }

  predicate NoBackslash(s: string) {
    forall i :: 0 <= i < |s| ==> s[i] != '\\'
  }

  /** `s.Replace('\\', '/')`. */
  function Slashes(s: string): (r: string)
    ensures |r| == |s| && NoBackslash(r)
    ensures forall i :: 0 <= i < |s| && s[i] != '\\' ==> r[i] == s[i]
  {
    seq(|s|, i requires 0 <= i < |s| => if s[i] == '\\' then '/' else s[i])
  }

  /** `TrimSlash`: a null, empty or white-space directory becomes ""; any
      other has its backslashes turned into slashes and then every trailing
      slash removed. */
  function TrimSlash(s: Option<string>): (r: string)
    ensures s.None? || AllDotNetSpace(s.value) ==> r == ""
    ensures NoBackslash(r) && (r == [] || r[|r| - 1] != '/')
    ensures s.Some? && !AllDotNetSpace(s.value) ==>
              |r| <= |s.value| && r == Slashes(s.value)[..|r|] &&
              forall i :: |r| <= i < |s.value| ==> s.value[i] == '/' || s.value[i] == '\\'
  {
    if s.None? || AllDotNetSpace(s.value) then "" else RStripChar(Slashes(s.value), '/')
  }

  /** The strings `TrimSlash` leaves as they are: exactly those with no
      backslash, no trailing slash, and not made only of white space
      (except the empty string). */
  lemma TrimSlashFixedIff(t: string)
    ensures TrimSlash(Some(t)) == t <==>
              (NoBackslash(t) && (t == [] || t[|t| - 1] != '/') && (t == [] || !AllDotNetSpace(t)))
  {
    if NoBackslash(t) && (t == [] || t[|t| - 1] != '/') && !AllDotNetSpace(t) {
      assert Slashes(t) == t;
    }
  }

  /** A second `TrimSlash` changes a result only when that result is made
      of white space alone: then it becomes "". */
  lemma TrimSlashTwice(s: Option<string>)
    ensures var r := TrimSlash(s);
            TrimSlash(Some(r)) == if AllDotNetSpace(r) then "" else r
  {
    var r := TrimSlash(s);
    TrimSlashFixedIff(r);
  }

  /** " /" trims to " ", which trims to "": `TrimSlash` is not idempotent. */
  lemma TrimSlashNotIdempotent()
    ensures TrimSlash(Some(" /")) == " "
    ensures TrimSlash(Some(" ")) == ""
  {
    assert " /"[1] == '/' && !IsDotNetSpace('/');
    assert !AllDotNetSpace(" /");
    assert Slashes(" /") == " /";
    assert AllDotNetSpace(" ");
  }

  /** A Windows-style directory becomes a slash-separated one. */
  lemma TrimSlashBackslashes()
    ensures TrimSlash(Some("\\exports\\")) == "/exports"
  {
    var w := "\\exports\\";
    assert w[0] == '\\' && !IsDotNetSpace('\\');
    assert !AllDotNetSpace(w);
    assert Slashes(w) == "/exports/";
    assert "/exports/"[..8] == "/exports";
  }

  /** The root directory "/" trims to "", so its paths start at "/". */
  lemma TrimSlashRoot()
    ensures TrimSlash(Some("/")) == ""
    ensures FinalPath(TrimSlash(Some("/")), "inventario.csv") == "/inventario.csv"
  {
    assert "/"[0] == '/' && !IsDotNetSpace('/');
    assert Slashes("/") == "/";
  }

  /** The builder's temporary name: `remote_name + ".part"`. */
  function TempName(name: string): (r: string)
    ensures |r| == |name| + 5 && r[..|name|] == name
  {
    name + ".part"
  }

  /** The exporters' final remote path `{dir}/{name}`. */
  function FinalPath(dir: string, name: string): string {
    dir + "/" + name
  }

  /** The exporters' temporary remote path `{dir}/{name}.part`. */
  function TempPath(dir: string, name: string): string {
    dir + "/" + name + ".part"
  }

  /** The temporary name is never the final one, names with different
      finals have different temporaries, and the exporters' temporary path
      is the temporary name of their final path. */
  lemma TempNames(dir: string, name: string, other: string)
    ensures TempName(name) != name
    ensures TempName(name) == TempName(other) ==> name == other
    ensures TempPath(dir, name) == TempName(FinalPath(dir, name))
    ensures TempPath(dir, name) != FinalPath(dir, name)
  {
    if TempName(name) == TempName(other) {
      assert name == TempName(name)[..|name|];
    }
    assert TempPath(dir, name) == FinalPath(dir, name) + ".part";
  }
}
