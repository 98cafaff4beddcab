/** The CSV lines both exporters write: fields are escaped by the quoting
    rules 6 and 7 of section 2 of RFC 4180 and joined by commas; header
    names are joined unescaped. A reader of such lines is defined here as
    the partner of the escaping, and the round trips are proved. */
module Csv {
  import opened Wrappers

  /** The characters that make `CsvEscape` quote a field. */
  predicate IsSpecial(c: char) {
    c == ',' || c == '"' || c == '\n' || c == '\r'
  }

  /** `s.Contains(',') || s.Contains('"') || s.Contains('\n') || s.Contains('\r')`. */
  predicate NeedsQuotes(s: string) {
    exists i :: 0 <= i < |s| && IsSpecial(s[i])
  }

  /** `s.Replace("\"", "\"\"")`: every quote doubled, everything else kept. */
  function Double(s: string): string
    decreases |s|
  {
    if s == [] then [] else (if s[0] == '"' then "\"\"" else [s[0]]) + Double(s[1..])
  }

  /** `CsvEscape`: a field that holds a comma, a quote, CR or LF is quoted,
      with its quotes doubled; any other field is written as it is. */
  function Escape(s: string): string {
    if NeedsQuotes(s) then "\"" + Double(s) + "\"" else s
  }

  /** The fields joined by commas, as the writer loops emit them: a comma
      before every field but the first. */
  function Join(xs: seq<string>): string
    decreases |xs|
  {
    if xs == [] then ""
    else if |xs| == 1 then xs[0]
    else Join(xs[..|xs| - 1]) + "," + xs[|xs| - 1]
  }

  /** Every field escaped. */
  function Escapes(xs: seq<string>): (r: seq<string>)
    ensures |r| == |xs|
    decreases |xs|
  {
    if xs == [] then [] else Escapes(xs[..|xs| - 1]) + [Escape(xs[|xs| - 1])]
  }

  /** A data line without its terminator: the escaped cells joined. */
  function DataLine(cells: seq<string>): string {
    Join(Escapes(cells))
  }

  /** A header line without its terminator: the names joined, unescaped. */
  function HeaderLine(names: seq<string>): string {
    Join(names)
  }

  // ---------------------------------------------------------------------
  // A reader of the lines, the partner of the escaping
  // ---------------------------------------------------------------------

  /** The rest of a quoted field after its opening quote: up to the closing
      quote, with `""` standing for one quote. `None` when the quote is
      never closed. Returns the field and what follows the closing quote. */
  function ReadQuoted(s: string): Option<(string, string)>
    decreases |s|
  {
    if s == [] then None
    else if s[0] == '"' then
      if |s| > 1 && s[1] == '"' then
        match ReadQuoted(s[2..])
        case None => None
        case Some(p) => Some(("\"" + p.0, p.1))
      else Some(([], s[1..]))
    else
      match ReadQuoted(s[1..])
      case None => None
      case Some(p) => Some(([s[0]] + p.0, p.1))
  }

  /** An unquoted field: everything up to the next comma. */
  function ReadUnquoted(s: string): (string, string)
    decreases |s|
  {
    if s == [] || s[0] == ',' then ([], s)
    else var p := ReadUnquoted(s[1..]); ([s[0]] + p.0, p.1)
  }

  lemma {:induction false} ReadQuotedShorter(s: string)
    ensures ReadQuoted(s).Some? ==> |ReadQuoted(s).value.1| < |s|
    decreases |s|
  {
    if s != [] && s[0] == '"' && |s| > 1 && s[1] == '"' {
      ReadQuotedShorter(s[2..]);
    } else if s != [] && s[0] != '"' {
      ReadQuotedShorter(s[1..]);
    }
  }

  lemma {:induction false} ReadUnquotedShorter(s: string)
    ensures |ReadUnquoted(s).1| <= |s|
    decreases |s|
  {
    if s != [] && s[0] != ',' {
      ReadUnquotedShorter(s[1..]);
    }
  }

  /** One field at the start of a line, and what follows it. A quoted
      field must be followed by the end of the line or by a comma. */
  function ReadField(s: string): (r: Option<(string, string)>)
    ensures r.Some? ==> |r.value.1| <= |s|
  {
    ReadUnquotedShorter(s);
    if s != [] && s[0] == '"' then
      ReadQuotedShorter(s[1..]);
      match ReadQuoted(s[1..])
      case None => None
      case Some(p) => if p.1 == [] || p.1[0] == ',' then Some(p) else None
    else Some(ReadUnquoted(s))
  }

  /** The fields of a line: one field, then either the end of the line or
      a comma and the fields of the rest. */
  function ParseRecord(s: string): Option<seq<string>>
    decreases |s|
  {
    match ReadField(s)
    case None => None
    case Some(p) =>
      if p.1 == [] then Some([p.0])
      else if p.1[0] != ',' then None
      else
        match ParseRecord(p.1[1..])
        case None => None
        case Some(fs) => Some([p.0] + fs)
  }

  /** The value of a single field: the whole text must be one field. */
  function Unescape(f: string): Option<string> {
    match ReadField(f)
    case Some(p) => if p.1 == [] then Some(p.0) else None
    case None => None
  }

  // ---------------------------------------------------------------------
  // Properties of the escaping
  // ---------------------------------------------------------------------

  lemma {:induction false} DoubleLength(s: string)
    ensures |Double(s)| >= |s|
    decreases |s|
  {
    if s != [] {
      DoubleLength(s[1..]);
    }
  }

  /** A field is left unchanged exactly when it holds none of the special
      characters; otherwise it gains its two quotes. */
  lemma EscapeUnchangedIff(s: string)
    ensures Escape(s) == s <==> !NeedsQuotes(s)
    ensures NeedsQuotes(s) ==> |Escape(s)| >= |s| + 2
  {
    DoubleLength(s);
  }

  /** The quotes of a doubled string come in adjacent pairs. */
  predicate QuotesPaired(t: string)
    decreases |t|
  {
    if t == [] then true
    else if t[0] == '"' then |t| > 1 && t[1] == '"' && QuotesPaired(t[2..])
    else QuotesPaired(t[1..])
  }

  lemma {:induction false} DoublePaired(s: string)
    ensures QuotesPaired(Double(s))
    decreases |s|
  {
    if s != [] {
      var t := Double(s);
      var h: string := if s[0] == '"' then "\"\"" else [s[0]];
      assert t == h + Double(s[1..]);
      DoublePaired(s[1..]);
      if s[0] == '"' {
        assert t[2..] == Double(s[1..]);
      } else {
        assert t[1..] == Double(s[1..]);
      }
    }
  }

  /** A quoted field starts and ends with a quote, and between them every
      quote is one of an adjacent pair: its only unpaired quotes are its
      first and last characters. */
  lemma EscapedQuotesPaired(s: string)
    requires NeedsQuotes(s)
    ensures var e := Escape(s);
            |e| >= 2 && e[0] == '"' && e[|e| - 1] == '"' && QuotesPaired(e[1..|e| - 1])
  {
    var e := Escape(s);
    assert e[1..|e| - 1] == Double(s);
    DoublePaired(s);
  }

  /** Reading a doubled string back up to its closing quote gives the
      string and leaves what follows the quote. */
  lemma {:induction false} ReadQuotedDouble(s: string, rest: string)
    requires rest == [] || rest[0] != '"'
    ensures ReadQuoted(Double(s) + "\"" + rest) == Some((s, rest))
    decreases |s|
  {
    var t := Double(s) + "\"" + rest;
    if s == [] {
      assert t == "\"" + rest;
      assert t[1..] == rest;
    } else {
      ReadQuotedDouble(s[1..], rest);
      var u := Double(s[1..]) + "\"" + rest;
      if s[0] == '"' {
        assert t == "\"\"" + u;
        assert t[2..] == u;
        assert "\"" + s[1..] == s;
      } else {
        assert t == [s[0]] + u;
        assert t[1..] == u;
        assert [s[0]] + s[1..] == s;
      }
    }
  }

  lemma {:induction false} ReadUnquotedPlain(s: string, rest: string)
    requires forall i :: 0 <= i < |s| ==> s[i] != ','
    requires rest == [] || rest[0] == ','
    ensures ReadUnquoted(s + rest) == (s, rest)
    decreases |s|
  {
    if s == [] {
      assert s + rest == rest;
    } else {
      assert (s + rest)[1..] == s[1..] + rest;
      ReadUnquotedPlain(s[1..], rest);
      assert [s[0]] + s[1..] == s;
    }
  }

  /** An escaped field followed by the end of the line or a comma reads
      back as the original field. */
  lemma ReadFieldEscape(s: string, rest: string)
    requires rest == [] || rest[0] == ','
    ensures ReadField(Escape(s) + rest) == Some((s, rest))
  {
    if NeedsQuotes(s) {
      ReadFieldQuoted(s, rest);
    } else {
      ReadFieldPlain(s, rest);
    }
  }

  lemma ReadFieldQuoted(s: string, rest: string)
    requires rest == [] || rest[0] == ','
    requires NeedsQuotes(s)
    ensures ReadField(Escape(s) + rest) == Some((s, rest))
  {
    EscapeQuotedForm(s, rest);
    ReadQuotedDouble(s, rest);
    ReadFieldOpenQuote(Double(s) + "\"" + rest);
  }

  /** A quoted field and what follows it: the opening quote, then the
      doubled field, its closing quote and the rest. */
  lemma EscapeQuotedForm(s: string, rest: string)
    requires NeedsQuotes(s)
    ensures Escape(s) + rest == "\"" + (Double(s) + "\"" + rest)
  {
  }

  /** A field that opens with a quote is what the quoted reader makes of
      the rest, when that ends the field. */
  lemma ReadFieldOpenQuote(u: string)
    requires ReadQuoted(u).Some?
    requires ReadQuoted(u).value.1 == [] || ReadQuoted(u).value.1[0] == ','
    ensures ReadField("\"" + u) == ReadQuoted(u)
  {
    assert ("\"" + u)[1..] == u;
  }

  lemma ReadFieldPlain(s: string, rest: string)
    requires rest == [] || rest[0] == ','
    requires !NeedsQuotes(s)
    ensures ReadField(Escape(s) + rest) == Some((s, rest))
  {
    var t := s + rest;
    assert Escape(s) == s;
    assert forall i :: 0 <= i < |s| ==> s[i] != ',' by {
      forall i | 0 <= i < |s| ensures s[i] != ',' {
        assert !IsSpecial(s[i]);
      }
    }
    ReadUnquotedPlain(s, rest);
    if s != [] {
      assert !IsSpecial(s[0]);
      assert t[0] == s[0];
    } else {
      assert t == rest;
    }
  }

  /** Decoding an escaped field gives the field back, for every string. */
  lemma EscapeRoundTrip(s: string)
    ensures Unescape(Escape(s)) == Some(s)
  {
    ReadFieldEscape(s, []);
    assert Escape(s) + [] == Escape(s);
  }

  lemma {:induction false} JoinCons(x: string, xs: seq<string>)
    ensures Join([x] + xs) == if xs == [] then x else x + "," + Join(xs)
    decreases |xs|
  {
    if |xs| > 1 {
      var ys := xs[..|xs| - 1];
      JoinCons(x, ys);
      assert ([x] + xs)[..|xs|] == [x] + ys;
      assert xs[..|xs| - 1] == ys;
    }
  }

  lemma {:induction false} EscapesCons(x: string, xs: seq<string>)
    ensures Escapes([x] + xs) == [Escape(x)] + Escapes(xs)
    decreases |xs|
  {
    if xs != [] {
      var ys := xs[..|xs| - 1];
      EscapesCons(x, ys);
      assert ([x] + xs)[..|xs|] == [x] + ys;
    }
  }

  /** A data line reads back as exactly its cells, so it holds as many
      fields as the reader has columns. (No cells and one empty cell are
      the same empty line, see `EmptyLineAmbiguous`.) */
  lemma {:induction false} DataLineRoundTrip(cells: seq<string>)
    requires cells != []
    ensures ParseRecord(DataLine(cells)) == Some(cells)
    decreases |cells|
  {
    var x, xs := cells[0], cells[1..];
    assert cells == [x] + xs;
    EscapesCons(x, xs);
    JoinCons(Escape(x), Escapes(xs));
    if xs == [] {
      ReadFieldEscape(x, []);
      assert Escape(x) + [] == Escape(x) == DataLine(cells);
      assert cells == [x];
    } else {
      var rest := "," + DataLine(xs);
      assert DataLine(cells) == Escape(x) + rest;
      ReadFieldEscape(x, rest);
      assert rest[1..] == DataLine(xs);
      DataLineRoundTrip(xs);
    }
  }

  /** Header names are joined without escaping, so they read back as
      themselves only when none of them holds a special character. */
  lemma HeaderLineRoundTrip(names: seq<string>)
    requires names != []
    requires forall i :: 0 <= i < |names| ==> !NeedsQuotes(names[i])
    ensures ParseRecord(HeaderLine(names)) == Some(names)
  {
    EscapesPlain(names);
    DataLineRoundTrip(names);
  }

  lemma {:induction false} EscapesPlain(names: seq<string>)
    requires forall i :: 0 <= i < |names| ==> !NeedsQuotes(names[i])
    ensures Escapes(names) == names
    decreases |names|
  {
    if names != [] {
      EscapesPlain(names[..|names| - 1]);
      assert Escape(names[|names| - 1]) == names[|names| - 1];
    }
  }

  /** A column named "a,b" gives the same header line as two columns "a"
      and "b". */
  lemma HeaderCommaSplits()
    ensures HeaderLine(["a,b"]) == HeaderLine(["a", "b"])
  {
    assert ["a", "b"][..1] == ["a"];
  }

  /** A row with no cells and a row with one empty cell are the same line. */
  lemma EmptyLineAmbiguous()
    ensures DataLine([]) == DataLine([""]) == ""
  {
    assert !NeedsQuotes("");
  }
}
