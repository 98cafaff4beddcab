/** Character classes and string helpers shared by the Python builder and the
    C# exporters: Python's `str.isspace`, .NET's `Char.IsWhiteSpace`,
    stripping either end, and Python's substring test `needle in hay`. */
module Text {

  /** Python's `str.isspace()` for one character: the ASCII controls
      TAB..CR, the separators U+001C..U+001F, and the Unicode spaces. */
  predicate IsPySpace(c: char) {
    ('\t' <= c <= '\r') || ('\U{1C}' <= c <= '\U{1F}') || IsUnicodeSpace(c)
  }

  /** .NET's `Char.IsWhiteSpace`: like Python's, but U+001C..U+001F are not
      white space there. */
  predicate IsDotNetSpace(c: char) {
    ('\t' <= c <= '\r') || IsUnicodeSpace(c)
  }

  /** Space separators (Zs), line and paragraph separators, and NEL. */
  predicate IsUnicodeSpace(c: char) {
    c == ' ' || c == '\U{85}' || c == '\U{A0}' || c == '\U{1680}' ||
    ('\U{2000}' <= c <= '\U{200A}') || c == '\U{2028}' || c == '\U{2029}' ||
    c == '\U{202F}' || c == '\U{205F}' || c == '\U{3000}'
  }

  /** Python's `s.lstrip()`: the leading white space removed. */
  function PyLStrip(s: string): string
    decreases |s|
  {
    if |s| > 0 && IsPySpace(s[0]) then PyLStrip(s[1..]) else s
  }

  /** Python's `s.rstrip()`: the trailing white space removed. */
  function PyRStrip(s: string): string
    decreases |s|
  {
    if |s| > 0 && IsPySpace(s[|s| - 1]) then PyRStrip(s[..|s| - 1]) else s
  }

  /** Python's `s.strip()`: white space removed from both ends. */
  function PyStrip(s: string): string {
    PyRStrip(PyLStrip(s))
  }

  /** `lstrip` keeps a suffix of its input that does not start with white
      space, and what it drops is all white space. */
  lemma {:induction false} PyLStripShape(s: string)
    ensures |PyLStrip(s)| <= |s| && PyLStrip(s) == s[|s| - |PyLStrip(s)|..]
    ensures PyLStrip(s) == [] || !IsPySpace(PyLStrip(s)[0])
    ensures forall i :: 0 <= i < |s| - |PyLStrip(s)| ==> IsPySpace(s[i])
    decreases |s|
  {
    if |s| > 0 && IsPySpace(s[0]) {
      PyLStripShape(s[1..]);
      forall i | 1 <= i < |s| - |PyLStrip(s)|
        ensures IsPySpace(s[i])
      {
        assert s[i] == s[1..][i - 1];
      }
    }
  }

  /** `rstrip` keeps a prefix of its input that does not end with white
      space, and what it drops is all white space. */
  lemma {:induction false} PyRStripShape(s: string)
    ensures |PyRStrip(s)| <= |s| && PyRStrip(s) == s[..|PyRStrip(s)|]
    ensures PyRStrip(s) == [] || !IsPySpace(PyRStrip(s)[|PyRStrip(s)| - 1])
    ensures forall i :: |PyRStrip(s)| <= i < |s| ==> IsPySpace(s[i])
    decreases |s|
  {
    if |s| > 0 && IsPySpace(s[|s| - 1]) {
      PyRStripShape(s[..|s| - 1]);
    }
  }

  /** `strip` leaves no white space at either end, and a second `strip`
      changes nothing. */
  lemma PyStripProperties(s: string)
    ensures PyStrip(s) == [] || (!IsPySpace(PyStrip(s)[0]) && !IsPySpace(PyStrip(s)[|PyStrip(s)| - 1]))
    ensures PyStrip(PyStrip(s)) == PyStrip(s)
  {
    var t := PyLStrip(s);
    var r := PyStrip(s);
    PyLStripShape(s);
    PyRStripShape(t);
    if r != [] {
      assert r[0] == t[0];
    }
    assert PyLStrip(r) == r;
    assert PyRStrip(r) == r;
  }

  /** A string with no white space at either end is its own `strip`. */
  lemma PyStripNoop(s: string)
    requires s == [] || (!IsPySpace(s[0]) && !IsPySpace(s[|s| - 1]))
    ensures PyStrip(s) == s
  {
    assert PyLStrip(s) == s;
  }

  /** `s.lstrip(c)`: every leading `c` removed. */
  function LStripChar(s: string, c: char): (r: string)
    ensures |r| <= |s| && r == s[|s| - |r|..]
    ensures r == [] || r[0] != c
    decreases |s|
  {
    if |s| > 0 && s[0] == c then LStripChar(s[1..], c) else s
  }

  /** `s.TrimEnd(c)`: every trailing `c` removed. */
  function RStripChar(s: string, c: char): (r: string)
    ensures |r| <= |s| && r == s[..|r|]
    ensures r == [] || r[|r| - 1] != c
    ensures forall i :: |r| <= i < |s| ==> s[i] == c
    decreases |s|
  {
    if |s| > 0 && s[|s| - 1] == c then RStripChar(s[..|s| - 1], c) else s
  }

  /** Python's `needle in hay` on strings. */
  function Contains(hay: string, needle: string): bool
    decreases |hay|
  {
    (|needle| <= |hay| && hay[..|needle|] == needle) || (|hay| > 0 && Contains(hay[1..], needle))
  }

  /** `needle` occurs in `hay` starting at position `k`. */
  predicate OccursAt(hay: string, needle: string, k: int) {
    0 <= k <= |hay| - |needle| && hay[k..k + |needle|] == needle
  }

  /** `Contains` holds exactly when `needle` occurs at some position of `hay`. */
  lemma {:induction false} ContainsIff(hay: string, needle: string)
    ensures Contains(hay, needle) <==> exists k :: OccursAt(hay, needle, k)
    decreases |hay|
  {
    if exists k :: OccursAt(hay, needle, k) {
      var k :| OccursAt(hay, needle, k);
      if k > 0 {
        assert OccursAt(hay[1..], needle, k - 1);
        ContainsIff(hay[1..], needle);
      } else {
        assert hay[..|needle|] == needle;
      }
    }
    if Contains(hay, needle) {
      if |needle| <= |hay| && hay[..|needle|] == needle {
        assert OccursAt(hay, needle, 0);
      } else {
        ContainsIff(hay[1..], needle);
        var k :| OccursAt(hay[1..], needle, k);
        assert OccursAt(hay, needle, k + 1);
      }
    }
  }

  /** The empty string occurs in every string, as in Python. */
  lemma EmptyContained(hay: string)
    ensures Contains(hay, "")
  {
  }

  /** Every string contains itself. */
  lemma ContainsSelf(s: string)
    ensures Contains(s, s)
  {
  }
}
