/** Header reconciliation of the database builder (`_norm` and `_find_col`):
    canonicalising a column header, and mapping an ordered list of candidate
    names onto one real header of a CSV file. */
module Headers {
  import opened Wrappers
  import opened Text

  // ---------------------------------------------------------------------
  // Normalisation
  // ---------------------------------------------------------------------

  const Bom: char := '\U{FEFF}'

  predicate NotBom(c: char) { c != Bom }

  /** A combining mark (general category Mn). Only the block of combining
      diacritical marks, U+0300..U+036F, is covered: it holds every mark the
      Latin-1 decompositions below produce. */
  predicate IsMark(c: char) { '\U{300}' <= c <= '\U{36F}' }

  predicate NotMark(c: char) { !IsMark(c) }

  /** A character that survives the final `[^a-z0-9]+` substitution. */
  predicate IsKeyChar(c: char) { ('a' <= c <= 'z') || ('0' <= c <= '9') }

  /** Keeps the characters satisfying `keep`, in order. */
  function Filter(s: string, keep: char -> bool): (r: string)
    ensures |r| <= |s|
    ensures forall i :: 0 <= i < |r| ==> keep(r[i])
  {
    if s == [] then []
    else if keep(s[0]) then [s[0]] + Filter(s[1..], keep)
    else Filter(s[1..], keep)
  }

  /** Base letters of the canonical decompositions of U+00C0..U+00FF, one
      per code point; '_' where the character has no decomposition. */
  const LatinBase: string := "AAAAAA_CEEEEIIII_NOOOOO__UUUUY__aaaaaa_ceeeeiiii_nooooo__uuuuy_y"

  /** The combining mark of each decomposition, indexed by the code point
      modulo 32 (upper- and lower-case letters share their marks). */
  const LatinMark: string :=
    ['\U{300}', '\U{301}', '\U{302}', '\U{303}', '\U{308}', '\U{30A}', '_', '\U{327}',
     '\U{300}', '\U{301}', '\U{302}', '\U{308}', '\U{300}', '\U{301}', '\U{302}', '\U{308}',
     '_', '\U{303}', '\U{300}', '\U{301}', '\U{302}', '\U{303}', '\U{308}', '_',
     '_', '\U{300}', '\U{301}', '\U{302}', '\U{308}', '\U{301}', '_', '\U{308}']

  /** Canonical decomposition (NFD) of one character, for the Latin-1
      letters; every other character is left as it is. */
  function DecomposeChar(c: char): (r: string)
    ensures 1 <= |r| <= 2
  {
    if '\U{C0}' <= c <= '\U{FF}' && LatinBase[c as int - 0xC0] != '_' then
      [LatinBase[c as int - 0xC0], LatinMark[(c as int - 0xC0) % 32]]
    else [c]
  }

  /** `unicodedata.normalize("NFD", s)` over the modelled table. */
  function Decompose(s: string): string {
    if s == [] then [] else DecomposeChar(s[0]) + Decompose(s[1..])
  }

  /** `str.lower()` for ASCII and the Latin-1 capitals. */
  function LowerChar(c: char): char {
    if 'A' <= c <= 'Z' || ('\U{C0}' <= c <= '\U{DE}' && c != '\U{D7}') then
      (c as int + 32) as char
    else c
  }

  function Lower(s: string): (r: string)
    ensures |r| == |s|
  {
    if s == [] then [] else [LowerChar(s[0])] + Lower(s[1..])
  }

  /** `_norm`: drop every BOM, strip, decompose, drop combining marks,
      lower-case, keep only `[a-z0-9]`. */
  function Norm(s: string): (r: string)
    ensures forall i :: 0 <= i < |r| ==> IsKeyChar(r[i])
    ensures s == "" ==> r == ""
  {
    if s == "" then ""
    else Filter(Lower(Filter(Decompose(PyStrip(Filter(s, NotBom))), NotMark)), IsKeyChar)
  }

  lemma {:induction false} FilterNoop(s: string, keep: char -> bool)
    requires forall i :: 0 <= i < |s| ==> keep(s[i])
    ensures Filter(s, keep) == s
  {
    if s != [] {
      FilterNoop(s[1..], keep);
    }
  }

  lemma {:induction false} DecomposeKeyNoop(s: string)
    requires forall i :: 0 <= i < |s| ==> IsKeyChar(s[i])
    ensures Decompose(s) == s
  {
    if s != [] {
      DecomposeKeyNoop(s[1..]);
    }
  }

  lemma {:induction false} LowerKeyNoop(s: string)
    requires forall i :: 0 <= i < |s| ==> IsKeyChar(s[i])
    ensures Lower(s) == s
  {
    if s != [] {
      LowerKeyNoop(s[1..]);
    }
  }

  /** A non-empty string of `[a-z0-9]` is its own normal form. */
  lemma NormKeyFixed(t: string)
    requires forall i :: 0 <= i < |t| ==> IsKeyChar(t[i])
    ensures Norm(t) == t
  {
    if t != "" {
      assert !IsPySpace(t[0]) && !IsPySpace(t[|t| - 1]) by {
        assert IsKeyChar(t[0]) && IsKeyChar(t[|t| - 1]);
      }
      FilterNoop(t, NotBom);
      PyStripNoop(t);
      DecomposeKeyNoop(t);
      FilterNoop(t, NotMark);
      LowerKeyNoop(t);
      FilterNoop(t, IsKeyChar);
    }
  }

  /** `_norm` is idempotent: its output is already a fixed point. */
  lemma NormIdempotent(s: string)
    ensures Norm(Norm(s)) == Norm(s)
  {
    NormKeyFixed(Norm(s));
  }

  /** What one character contributes to a normal form: decomposed, its
      marks dropped, lower-cased, kept only if in `[a-z0-9]`. */
  function FoldChar(c: char): string {
    Filter(Lower(Filter(DecomposeChar(c), NotMark)), IsKeyChar)
  }

  function FoldAll(s: string): string {
    if s == [] then [] else FoldChar(s[0]) + FoldAll(s[1..])
  }

  lemma {:induction false} FoldAllAppend(a: string, b: string)
    ensures FoldAll(a + b) == FoldAll(a) + FoldAll(b)
  {
    if a == [] {
      assert a + b == b;
    } else {
      assert (a + b)[0] == a[0] && (a + b)[1..] == a[1..] + b;
      FoldAllAppend(a[1..], b);
    }
  }

  /** Below U+00C0 nothing decomposes: a character folds to its lower-case
      form when that is in `[a-z0-9]`, and to nothing otherwise. */
  lemma FoldBelowLatin1(c: char)
    requires c < '\U{C0}'
    ensures FoldChar(c) == if IsKeyChar(LowerChar(c)) then [LowerChar(c)] else []
  {
    assert DecomposeChar(c) == [c];
    assert Filter([c], NotMark) == [c];
    assert Lower([c]) == [LowerChar(c)];
  }

  lemma {:induction false} FilterAppend(a: string, b: string, keep: char -> bool)
    ensures Filter(a + b, keep) == Filter(a, keep) + Filter(b, keep)
  {
    if a == [] {
      assert a + b == b;
    } else {
      assert (a + b)[0] == a[0] && (a + b)[1..] == a[1..] + b;
      FilterAppend(a[1..], b, keep);
    }
  }

  lemma {:induction false} LowerAppend(a: string, b: string)
    ensures Lower(a + b) == Lower(a) + Lower(b)
  {
    if a == [] {
      assert a + b == b;
    } else {
      assert (a + b)[0] == a[0] && (a + b)[1..] == a[1..] + b;
      LowerAppend(a[1..], b);
    }
  }

  lemma {:induction false} FoldStages(s: string)
    ensures Filter(Lower(Filter(Decompose(s), NotMark)), IsKeyChar) == FoldAll(s)
  {
    if s != [] {
      FoldStages(s[1..]);
      var d := DecomposeChar(s[0]);
      FilterAppend(d, Decompose(s[1..]), NotMark);
      LowerAppend(Filter(d, NotMark), Filter(Decompose(s[1..]), NotMark));
      FilterAppend(Lower(Filter(d, NotMark)), Lower(Filter(Decompose(s[1..]), NotMark)), IsKeyChar);
    }
  }

  /** On a header without BOM and without surrounding white space, `_norm`
      works character by character: each character contributes its folded
      form independently of its neighbours. */
  lemma NormPerChar(s: string)
    requires forall i :: 0 <= i < |s| ==> s[i] != Bom
    requires s != [] ==> !IsPySpace(s[0]) && !IsPySpace(s[|s| - 1])
    ensures Norm(s) == FoldAll(s)
  {
    if s != [] {
      FilterNoop(s, NotBom);
      PyStripNoop(s);
      FoldStages(s);
    }
  }

  // ---------------------------------------------------------------------
  // The map from normalised header to real header
  // ---------------------------------------------------------------------

  /** `{_norm(h): h for h in headers}` as a Python dict: `keys` in
      first-insertion order, `byKey` holding the value last written. */
  datatype NormIndex = NormIndex(keys: seq<string>, byKey: map<string, string>)

  ghost predicate IndexValid(ix: NormIndex) {
    (forall k :: k in ix.byKey <==> k in ix.keys) &&
    (forall a, b :: 0 <= a < b < |ix.keys| ==> ix.keys[a] != ix.keys[b])
  }

  /** One dict assignment `norm_map[k] = h`. */
  function Insert(ix: NormIndex, k: string, h: string): NormIndex {
    NormIndex(if k in ix.byKey then ix.keys else ix.keys + [k], ix.byKey[k := h])
  }

  /** The dict built from headers `hs` whose normal forms are `ns`. */
  function IndexOf(ns: seq<string>, hs: seq<string>): NormIndex
    requires |ns| == |hs|
    decreases |hs|
  {
    if hs == [] then NormIndex([], map[])
    else Insert(IndexOf(ns[..|ns| - 1], hs[..|hs| - 1]), ns[|ns| - 1], hs[|hs| - 1])
  }

  function BuildIndex(headers: seq<string>): NormIndex {
    IndexOf(Norms(headers), headers)
  }

  /** A key of the index with the header stored under it, witnessed by a
      position of the lists. */
  ghost predicate Witnessed(ix: NormIndex, ns: seq<string>, hs: seq<string>)
    requires |ns| == |hs|
  {
    forall k :: k in ix.byKey ==>
      exists p :: 0 <= p < |hs| && ns[p] == k && hs[p] == ix.byKey[k]
  }

  /** One assignment keeps the index valid and every value witnessed. */
  lemma InsertFacts(ix: NormIndex, ns: seq<string>, hs: seq<string>, k: string, h: string)
    requires |ns| == |hs|
    requires IndexValid(ix) && (forall j :: j in ix.byKey <==> j in ns) && Witnessed(ix, ns, hs)
    ensures IndexValid(Insert(ix, k, h))
    ensures forall j :: j in Insert(ix, k, h).byKey <==> j in ns + [k]
    ensures Witnessed(Insert(ix, k, h), ns + [k], hs + [h])
  {
    var ix1 := Insert(ix, k, h);
    var ns1, hs1 := ns + [k], hs + [h];
    forall j | j in ix1.byKey
      ensures exists p :: 0 <= p < |hs1| && ns1[p] == j && hs1[p] == ix1.byKey[j]
    {
      if j != k {
        var p :| 0 <= p < |hs| && ns[p] == j && hs[p] == ix.byKey[j];
        assert ns1[p] == j && hs1[p] == ix1.byKey[j];
      } else {
        assert ns1[|ns|] == j && hs1[|hs|] == ix1.byKey[j];
      }
    }
  }

  /** The dict's keys are exactly the normal forms, each once; the value of
      a key is a header with that normal form. */
  lemma {:induction false} IndexFacts(ns: seq<string>, hs: seq<string>)
    requires |ns| == |hs|
    ensures IndexValid(IndexOf(ns, hs))
    ensures forall k :: k in IndexOf(ns, hs).byKey <==> k in ns
    ensures forall k :: k in IndexOf(ns, hs).byKey ==>
              exists p :: 0 <= p < |hs| && ns[p] == k && hs[p] == IndexOf(ns, hs).byKey[k]
    decreases |hs|
  {
    if hs != [] {
      var n := |hs|;
      var ns0, hs0 := ns[..n - 1], hs[..n - 1];
      IndexFacts(ns0, hs0);
      assert ns == ns0 + [ns[n - 1]] && hs == hs0 + [hs[n - 1]];
      InsertFacts(IndexOf(ns0, hs0), ns0, hs0, ns[n - 1], hs[n - 1]);
      assert Witnessed(IndexOf(ns, hs), ns, hs);
    }
  }

  /** The position where `k` first appears in `ns`. */
  ghost function FirstPos(ns: seq<string>, k: string): (p: nat)
    requires k in ns
    ensures p < |ns| && ns[p] == k
    ensures forall q :: 0 <= q < p ==> ns[q] != k
    decreases |ns|
  {
    if ns[0] == k then 0 else 1 + FirstPos(ns[1..], k)
  }

  /** When two headers normalise alike, the later one wins (the dict
      comprehension overwrites). */
  lemma {:induction false} IndexLastWins(ns: seq<string>, hs: seq<string>, p: nat)
    requires |ns| == |hs| && p < |hs|
    requires forall q :: p < q < |ns| ==> ns[q] != ns[p]
    ensures ns[p] in IndexOf(ns, hs).byKey && IndexOf(ns, hs).byKey[ns[p]] == hs[p]
    decreases |hs|
  {
    var n := |hs|;
    if p < n - 1 {
      IndexLastWins(ns[..n - 1], hs[..n - 1], p);
    }
  }

  /** Appending a normal form does not move the first position of one
      already present. */
  lemma FirstPosSnoc(ns: seq<string>, x: string, k: string)
    requires k in ns
    ensures k in ns + [x] && FirstPos(ns + [x], k) == FirstPos(ns, k)
  {
    var p := FirstPos(ns, k);
    assert (ns + [x])[p] == k;
  }

  /** Appending a normal form keeps the keys in first-appearance order:
      the key list grows by that form exactly when it is new. */
  lemma KeyOrderStep(init: seq<string>, x: string, k0: seq<string>, ks: seq<string>)
    requires forall k :: k in k0 ==> k in init
    requires forall a, b :: 0 <= a < b < |k0| ==> FirstPos(init, k0[a]) < FirstPos(init, k0[b])
    requires ks == if x in init then k0 else k0 + [x]
    ensures forall k :: k in ks ==> k in init + [x]
    ensures forall a, b :: 0 <= a < b < |ks| ==> FirstPos(init + [x], ks[a]) < FirstPos(init + [x], ks[b])
  {
    var ns := init + [x];
    forall a, b | 0 <= a < b < |ks|
      ensures FirstPos(ns, ks[a]) < FirstPos(ns, ks[b])
    {
      FirstPosSnoc(init, x, ks[a]);
      if b < |k0| {
        FirstPosSnoc(init, x, ks[b]);
      } else {
        assert ks[b] == x && x !in init;
        assert FirstPos(ns, x) == |init|;
      }
    }
  }

  /** The dict's keys are listed in the order in which they first appear
      among the normal forms. */
  lemma {:induction false} IndexKeyOrder(ns: seq<string>, hs: seq<string>)
    requires |ns| == |hs|
    ensures forall k :: k in IndexOf(ns, hs).keys ==> k in ns
    ensures forall a, b :: 0 <= a < b < |IndexOf(ns, hs).keys| ==>
              FirstPos(ns, IndexOf(ns, hs).keys[a]) < FirstPos(ns, IndexOf(ns, hs).keys[b])
    decreases |hs|
  {
    if hs != [] {
      var n := |hs|;
      var init, x := ns[..n - 1], ns[n - 1];
      var ix0 := IndexOf(init, hs[..n - 1]);
      IndexKeyOrder(init, hs[..n - 1]);
      assert x in ix0.byKey <==> x in init by { IndexFacts(init, hs[..n - 1]); }
      assert ns == init + [x];
      KeyOrderStep(init, x, ix0.keys, IndexOf(ns, hs).keys);
    }
  }

  // ---------------------------------------------------------------------
  // Column resolution
  // ---------------------------------------------------------------------

  /** The `KeyError` raised when no candidate matches, with the two lists
      its message reports. */
  datatype NotFound = NotFound(candidates: seq<string>, headers: seq<string>)

  function Norms(xs: seq<string>): (r: seq<string>)
    ensures |r| == |xs| && forall i :: 0 <= i < |xs| ==> r[i] == Norm(xs[i])
  {
    seq(|xs|, i requires 0 <= i < |xs| => Norm(xs[i]))
  }

  /** Phase 1: the first candidate whose normal form is a key. */
  function ExactMatch(ix: NormIndex, cns: seq<string>): Option<string> {
    if cns == [] then None
    else if cns[0] in ix.byKey then Some(ix.byKey[cns[0]])
    else ExactMatch(ix, cns[1..])
  }

  /** The fuzzy test `cn and (cn in nh or nh in cn)`. */
  predicate Related(cn: string, nh: string) {
    cn != "" && (Contains(nh, cn) || Contains(cn, nh))
  }

  /** Phase 2, inner loop: the first key related to `cn`. */
  function FuzzyScan(ix: NormIndex, cn: string, ks: seq<string>): Option<string>
    requires forall k :: k in ks ==> k in ix.byKey
  {
    if ks == [] then None
    else if Related(cn, ks[0]) then Some(ix.byKey[ks[0]])
    else FuzzyScan(ix, cn, ks[1..])
  }

  /** Phase 2, outer loop over the candidates. */
  function FuzzyMatch(ix: NormIndex, cns: seq<string>): Option<string>
    requires forall k :: k in ix.keys ==> k in ix.byKey
  {
    if cns == [] then None
    else match FuzzyScan(ix, cns[0], ix.keys)
      case Some(h) => Some(h)
      case None => FuzzyMatch(ix, cns[1..])
  }

  /** `_find_col`. Whatever it returns is one of the headers. */
  function FindCol(headers: seq<string>, candidates: seq<string>): (r: Result<string, NotFound>)
    ensures r.Ok? ==> r.value in headers
    ensures r.Err? ==> r.error == NotFound(candidates, headers)
  {
    IndexFacts(Norms(headers), headers);
    var ix := BuildIndex(headers);
    var cns := Norms(candidates);
    match ExactMatch(ix, cns)
    case Some(h) => ExactInValues(ix, cns); Ok(h)
    case None =>
      match FuzzyMatch(ix, cns)
      case Some(h) => FuzzyInValues(ix, cns); Ok(h)
      case None => Err(NotFound(candidates, headers))
  }

  lemma {:induction false} ExactInValues(ix: NormIndex, cns: seq<string>)
    ensures ExactMatch(ix, cns).Some? ==> ExactMatch(ix, cns).value in ix.byKey.Values
  {
    if cns != [] && cns[0] !in ix.byKey {
      ExactInValues(ix, cns[1..]);
    }
  }

  lemma {:induction false} FuzzyScanInValues(ix: NormIndex, cn: string, ks: seq<string>)
    requires forall k :: k in ks ==> k in ix.byKey
    ensures FuzzyScan(ix, cn, ks).Some? ==> FuzzyScan(ix, cn, ks).value in ix.byKey.Values
  {
    if ks != [] && !Related(cn, ks[0]) {
      FuzzyScanInValues(ix, cn, ks[1..]);
    }
  }

  lemma {:induction false} FuzzyInValues(ix: NormIndex, cns: seq<string>)
    requires forall k :: k in ix.keys ==> k in ix.byKey
    ensures FuzzyMatch(ix, cns).Some? ==> FuzzyMatch(ix, cns).value in ix.byKey.Values
  {
    if cns != [] {
      FuzzyScanInValues(ix, cns[0], ix.keys);
      FuzzyInValues(ix, cns[1..]);
    }
  }

  /** Phase 1 returns the entry of the first candidate that is a key, and
      nothing when none is. */
  lemma {:induction false} ExactMatchFirst(ix: NormIndex, cns: seq<string>)
    ensures ExactMatch(ix, cns).None? <==> forall j :: 0 <= j < |cns| ==> cns[j] !in ix.byKey
    ensures forall i :: 0 <= i < |cns| && cns[i] in ix.byKey && (forall j :: 0 <= j < i ==> cns[j] !in ix.byKey) ==>
              ExactMatch(ix, cns) == Some(ix.byKey[cns[i]])
  {
    if cns != [] {
      ExactMatchFirst(ix, cns[1..]);
      assert forall j :: 1 <= j < |cns| ==> cns[j] == cns[1..][j - 1];
    }
  }

  /** The inner fuzzy loop returns the entry of the first related key. */
  lemma {:induction false} FuzzyScanFirst(ix: NormIndex, cn: string, ks: seq<string>)
    requires forall k :: k in ks ==> k in ix.byKey
    ensures FuzzyScan(ix, cn, ks).None? <==> forall b :: 0 <= b < |ks| ==> !Related(cn, ks[b])
    ensures forall a :: 0 <= a < |ks| && Related(cn, ks[a]) && (forall b :: 0 <= b < a ==> !Related(cn, ks[b])) ==>
              FuzzyScan(ix, cn, ks) == Some(ix.byKey[ks[a]])
  {
    if ks != [] {
      FuzzyScanFirst(ix, cn, ks[1..]);
      assert forall b :: 1 <= b < |ks| ==> ks[b] == ks[1..][b - 1];
    }
  }

  /** No candidate is related to any key. */
  ghost predicate NoneRelated(ix: NormIndex, cns: seq<string>) {
    forall j, b :: 0 <= j < |cns| && 0 <= b < |ix.keys| ==> !Related(cns[j], ix.keys[b])
  }

  /** The outer fuzzy loop: the first candidate related to some key picks
      the first key (in insertion order) related to it. */
  lemma {:induction false} FuzzyMatchFirst(ix: NormIndex, cns: seq<string>, i: nat, a: nat)
    requires forall k :: k in ix.keys ==> k in ix.byKey
    requires i < |cns| && a < |ix.keys| && Related(cns[i], ix.keys[a])
    requires NoneRelated(ix, cns[..i])
    requires forall b :: 0 <= b < a ==> !Related(cns[i], ix.keys[b])
    ensures FuzzyMatch(ix, cns) == Some(ix.byKey[ix.keys[a]])
  {
    FuzzyScanFirst(ix, cns[0], ix.keys);
    if i > 0 {
      assert cns[0] == cns[..i][0];
      assert cns[1..][..i - 1] == cns[..i][1..];
      FuzzyMatchFirst(ix, cns[1..], i - 1, a);
    }
  }

  lemma {:induction false} FuzzyMatchNone(ix: NormIndex, cns: seq<string>)
    requires forall k :: k in ix.keys ==> k in ix.byKey
    ensures FuzzyMatch(ix, cns).None? <==> NoneRelated(ix, cns)
  {
    if cns != [] {
      FuzzyScanFirst(ix, cns[0], ix.keys);
      FuzzyMatchNone(ix, cns[1..]);
      assert forall j :: 1 <= j < |cns| ==> cns[j] == cns[1..][j - 1];
    }
  }

  /** Exact phase: when candidate `i` is the first whose normal form is
      some header's, the result is the LAST header of that normal form,
      whatever later candidates or the fuzzy phase would give. */
  lemma FindColExact(headers: seq<string>, candidates: seq<string>, i: nat, p: nat)
    requires i < |candidates| && p < |headers|
    requires Norm(headers[p]) == Norm(candidates[i])
    requires forall q :: p < q < |headers| ==> Norm(headers[q]) != Norm(headers[p])
    requires forall j :: 0 <= j < i ==> Norm(candidates[j]) !in Norms(headers)
    ensures FindCol(headers, candidates) == Ok(headers[p])
  {
    var ns := Norms(headers);
    IndexFacts(ns, headers);
    IndexLastWins(ns, headers, p);
    ExactMatchFirst(BuildIndex(headers), Norms(candidates));
  }

  /** Fuzzy phase: with no exact match, the first candidate related to some
      normalised header picks the header of the first such key, keys taken
      in the order of their first appearance. */
  lemma FindColFuzzy(headers: seq<string>, candidates: seq<string>, i: nat, a: nat)
    requires forall j :: 0 <= j < |candidates| ==> Norm(candidates[j]) !in Norms(headers)
    requires i < |candidates| && a < |BuildIndex(headers).keys|
    requires Related(Norm(candidates[i]), BuildIndex(headers).keys[a])
    requires NoneRelated(BuildIndex(headers), Norms(candidates)[..i])
    requires forall b :: 0 <= b < a ==> !Related(Norm(candidates[i]), BuildIndex(headers).keys[b])
    ensures BuildIndex(headers).keys[a] in BuildIndex(headers).byKey
    ensures FindCol(headers, candidates) == Ok(BuildIndex(headers).byKey[BuildIndex(headers).keys[a]])
  {
    IndexFacts(Norms(headers), headers);
    var ix := BuildIndex(headers);
    ExactMatchFirst(ix, Norms(candidates));
    FuzzyMatchFirst(ix, Norms(candidates), i, a);
  }

  /** `KeyError` is raised exactly when no candidate normalises to a header's
      normal form and no non-empty candidate form is a substring of a header
      form or contains one. */
  lemma FindColFails(headers: seq<string>, candidates: seq<string>)
    ensures FindCol(headers, candidates).Err? <==>
            (forall j :: 0 <= j < |candidates| ==> Norm(candidates[j]) !in Norms(headers)) &&
            NoneRelated(BuildIndex(headers), Norms(candidates))
  {
    IndexFacts(Norms(headers), headers);
    var ix := BuildIndex(headers);
    ExactMatchFirst(ix, Norms(candidates));
    FuzzyMatchNone(ix, Norms(candidates));
  }

  /** A header whose normal form is empty (such as "#" or "   ") matches
      every candidate with a non-empty normal form in the fuzzy phase, so
      resolution never fails once such a header is present. */
  lemma EmptyHeaderMatchesAll(headers: seq<string>, candidates: seq<string>, p: nat, i: nat)
    requires p < |headers| && Norm(headers[p]) == ""
    requires i < |candidates| && Norm(candidates[i]) != ""
    ensures FindCol(headers, candidates).Ok?
  {
    var ns := Norms(headers);
    IndexFacts(ns, headers);
    var ix := BuildIndex(headers);
    assert ns[p] == "";
    assert "" in ix.keys;
    var a :| 0 <= a < |ix.keys| && ix.keys[a] == "";
    EmptyContained(Norm(candidates[i]));
    assert Related(Norms(candidates)[i], ix.keys[a]);
    FindColFails(headers, candidates);
  }
}
