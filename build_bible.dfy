/** The corpus builder's plain-text reader (scripts/build-bible.js): each
    line `Book C:V text` becomes a verse record with an OSIS-style id, a
    normalised book name and automatically detected themes. */
module BuildBible {
  import opened Wrappers
  import opened Text
  import opened Lists
  import opened Types
  import opened Themes

  // ---------------------------------------------------------------------
  // autoThemes
  // ---------------------------------------------------------------------

  /** The builder's table: the engine's table without "troubled" and
      "charity". */
  const AUTO_THEMES: KeywordTable := [
    ("anxiety", ["anxious", "worry", "fear", "peace"]),
    ("forgiveness", ["forgive", "mercy", "grace"]),
    ("love", ["love", "beloved", "compassion"]),
    ("faith", ["faith", "believe", "trust"])
  ]

  /** `autoThemes(s)`: each theme is pushed, in table order, when the
      lower-cased text contains one of its keywords. */
  method AutoThemes(s: string) returns (out: seq<string>)
    ensures out == Tagged(AUTO_THEMES, s)
    ensures forall theme :: theme in out <==>
      exists i :: 0 <= i < |AUTO_THEMES| && AUTO_THEMES[i].0 == theme &&
        exists k :: k in AUTO_THEMES[i].1 && Contains(Lower(s), k)
    ensures IsSubsequence(out, ["anxiety", "forgiveness", "love", "faith"])
    ensures Distinct(out)
  {
    var t := Lower(s);
    out := [];
    ghost var m0 := if MentionsAny(t, ["anxious", "worry", "fear", "peace"]) then ["anxiety"] else [];
    ghost var m1 := if MentionsAny(t, ["forgive", "mercy", "grace"]) then ["forgiveness"] else [];
    ghost var m2 := if MentionsAny(t, ["love", "beloved", "compassion"]) then ["love"] else [];
    ghost var m3 := if MentionsAny(t, ["faith", "believe", "trust"]) then ["faith"] else [];
    if MentionsAny(t, ["anxious", "worry", "fear", "peace"]) {
      out := out + ["anxiety"];
    }
    assert out == m0;
    if MentionsAny(t, ["forgive", "mercy", "grace"]) {
      out := out + ["forgiveness"];
    }
    assert out == m0 + m1;
    if MentionsAny(t, ["love", "beloved", "compassion"]) {
      out := out + ["love"];
    }
    assert out == m0 + m1 + m2;
    if MentionsAny(t, ["faith", "believe", "trust"]) {
      out := out + ["faith"];
    }
    assert out == m0 + m1 + m2 + m3;
    assert out == Tagged(AUTO_THEMES, s) by { AutoThemesTable(t); }
    TaggedAutoThemes(s);
  }

  /** What the builder's table reports: a theme exactly when one of its
      keywords occurs, in table order, each at most once. */
  lemma TaggedAutoThemes(s: string)
    ensures forall theme :: theme in Tagged(AUTO_THEMES, s) <==>
      exists i :: 0 <= i < |AUTO_THEMES| && AUTO_THEMES[i].0 == theme &&
        exists k :: k in AUTO_THEMES[i].1 && Contains(Lower(s), k)
    ensures IsSubsequence(Tagged(AUTO_THEMES, s), ["anxiety", "forgiveness", "love", "faith"])
    ensures Distinct(Tagged(AUTO_THEMES, s))
  {
    var t := Lower(s);
    assert Names(AUTO_THEMES) == ["anxiety", "forgiveness", "love", "faith"];
    MatchingMembers(AUTO_THEMES, t);
    MatchingOrdered(AUTO_THEMES, t);
    MatchingDistinct(AUTO_THEMES, t);
    forall i | 0 <= i < |AUTO_THEMES| { MentionsAnyIff(t, AUTO_THEMES[i].1); }
  }

  lemma AutoThemesNames()
    ensures Names(AUTO_THEMES) == ["anxiety", "forgiveness", "love", "faith"]
  {
  }

  /** The table read entry by entry. */
  lemma AutoThemesTable(t: string)
    ensures Names(AUTO_THEMES) == ["anxiety", "forgiveness", "love", "faith"]
    ensures Matching(AUTO_THEMES, t) ==
      (if MentionsAny(t, ["anxious", "worry", "fear", "peace"]) then ["anxiety"] else []) +
      (if MentionsAny(t, ["forgive", "mercy", "grace"]) then ["forgiveness"] else []) +
      (if MentionsAny(t, ["love", "beloved", "compassion"]) then ["love"] else []) +
      (if MentionsAny(t, ["faith", "believe", "trust"]) then ["faith"] else [])
  {
    AutoThemesNames();
    MatchingFour(AUTO_THEMES[0], AUTO_THEMES[1], AUTO_THEMES[2], AUTO_THEMES[3], t);
    assert AUTO_THEMES == [AUTO_THEMES[0], AUTO_THEMES[1], AUTO_THEMES[2], AUTO_THEMES[3]];
  }

  /** Every theme the builder attaches to a verse is one the engine detects in
      the same text: each builder keyword is also an engine keyword for the
      same theme. */
  lemma AutoThemesDetected(s: string)
    ensures forall theme :: theme in Tagged(AUTO_THEMES, s) ==> theme in DetectThemes(s)
  {
    var t := Lower(s);
    MatchingMembers(AUTO_THEMES, t);
    forall theme | theme in Tagged(AUTO_THEMES, s) ensures theme in DetectThemes(s) {
      var i :| 0 <= i < |AUTO_THEMES| && AUTO_THEMES[i].0 == theme && MentionsAny(t, AUTO_THEMES[i].1);
      MentionsAnyIff(t, AUTO_THEMES[i].1);
      var k :| k in AUTO_THEMES[i].1 && Contains(t, k);
      KeywordShared(i, k);
    }
  }

  lemma KeywordShared(i: nat, k: string)
    requires i < |AUTO_THEMES| && k in AUTO_THEMES[i].1
    ensures i < |THEME_MAP| && THEME_MAP[i].0 == AUTO_THEMES[i].0 && k in THEME_MAP[i].1
  {
  }

  // ---------------------------------------------------------------------
  // normalizeBook and bookToOSIS
  // ---------------------------------------------------------------------

  /** The index of the first `\w` character, or the length when there is none. */
  function FirstWordIndex(s: string): (k: nat)
    ensures k <= |s| && (k < |s| ==> IsWordChar(s[k]))
    ensures forall i :: 0 <= i < k ==> !IsWordChar(s[i])
  {
    if s == [] then 0 else if IsWordChar(s[0]) then 0 else 1 + FirstWordIndex(s[1..])
  }

  /** Upper-cases the first word character of `s`: the first word character
      always sits at a word boundary, so it is the one the replacement hits. */
  function UpperFirstWord(s: string): (r: string)
    ensures |r| == |s|
  {
    var k := FirstWordIndex(s);
    if k < |s| then s[..k] + [UpperChar(s[k])] + s[k + 1..] else s
  }

  /** `normalizeBook(b)` */
  function NormalizeBook(b: string): string {
    UpperFirstWord(Trim(CollapseSpaces(b)))
  }

  /** `s` with every whitespace character removed. */
  function RemoveSpaces(s: string): (r: string)
    ensures |r| <= |s|
  {
    if s == [] then [] else (if IsSpace(s[0]) then [] else [s[0]]) + RemoveSpaces(s[1..])
  }

  /** What is left is non-whitespace and drawn from the input. */
  lemma {:induction false} RemoveSpacesChars(s: string)
    ensures forall i :: 0 <= i < |RemoveSpaces(s)| ==> !IsSpace(RemoveSpaces(s)[i]) && RemoveSpaces(s)[i] in s
  {
    if s != [] {
      RemoveSpacesChars(s[1..]);
      var r := RemoveSpaces(s);
      var t := RemoveSpaces(s[1..]);
      forall i | 0 <= i < |r| ensures !IsSpace(r[i]) && r[i] in s {
        if IsSpace(s[0]) {
          assert r[i] == t[i];
        } else if i > 0 {
          assert r[i] == t[i - 1];
        }
      }
    }
  }

  /** `bookToOSIS(b)` */
  function BookToOSIS(b: string): (r: string)
    ensures forall i :: 0 <= i < |r| ==> !IsSpace(r[i]) && !IsLower(r[i])
  {
    var u := Upper(NormalizeBook(b));
    RemoveSpacesChars(u);
    RemoveSpaces(u)
  }

  /** The normalised name has no leading, trailing or doubled whitespace; it
      differs from the collapsed, trimmed name only in the case of its first
      word character, which is not lower case. */
  lemma NormalizeBookSpec(b: string)
    ensures var c := Trim(CollapseSpaces(b)); var r := NormalizeBook(b);
      && Normalized(r) && |r| == |c| && FirstWordIndex(r) == FirstWordIndex(c)
      && (forall i :: 0 <= i < |r| ==> LowerChar(r[i]) == LowerChar(c[i]))
      && (FirstWordIndex(r) < |r| ==> !IsLower(r[FirstWordIndex(r)]))
      && (forall i :: 0 <= i < |c| && i != FirstWordIndex(c) ==> r[i] == c[i])
      && (FirstWordIndex(c) < |c| ==> r[FirstWordIndex(c)] == UpperChar(c[FirstWordIndex(c)]))
  {
    var c := Trim(CollapseSpaces(b));
    NormalizeCollapseTrim(b);
    UpperFirstWordSpec(c);
  }

  lemma UpperFirstWordSpec(s: string)
    ensures var r := UpperFirstWord(s);
      && (forall i :: 0 <= i < |s| ==> (IsSpace(r[i]) <==> IsSpace(s[i])) && LowerChar(r[i]) == LowerChar(s[i]))
      && (forall i :: 0 <= i < |s| && IsSpace(s[i]) ==> r[i] == s[i])
      && FirstWordIndex(r) == FirstWordIndex(s)
      && (FirstWordIndex(r) < |r| ==> !IsLower(r[FirstWordIndex(r)]))
      && (Normalized(s) ==> Normalized(r))
      && (forall i :: 0 <= i < |s| && i != FirstWordIndex(s) ==> r[i] == s[i])
      && (FirstWordIndex(s) < |s| ==> r[FirstWordIndex(s)] == UpperChar(s[FirstWordIndex(s)]))
  {
    var r := UpperFirstWord(s);
    var k := FirstWordIndex(s);
    UpperFirstWordPointwise(s);
    UpperFirstWordCase(s);
    UpperFirstWordNormalized(s);
    if k < |s| {
      FirstWordIndexAt(r, k);
    }
  }

  /** Every character keeps its whitespace class and its lower-case form. */
  lemma UpperFirstWordCase(s: string)
    ensures var r := UpperFirstWord(s);
      && (forall i :: 0 <= i < |s| ==> (IsSpace(r[i]) <==> IsSpace(s[i])) && LowerChar(r[i]) == LowerChar(s[i]))
      && (forall i :: 0 <= i < |s| && IsSpace(s[i]) ==> r[i] == s[i])
  {
    UpperFirstWordPointwise(s);
  }

  lemma UpperFirstWordNormalized(s: string)
    ensures Normalized(s) ==> Normalized(UpperFirstWord(s))
  {
    UpperFirstWordCase(s);
  }

  /** Only the first word character changes, to its upper-case form. */
  lemma UpperFirstWordPointwise(s: string)
    ensures var r := UpperFirstWord(s); var k := FirstWordIndex(s);
      && (forall i :: 0 <= i < |s| && i != k ==> r[i] == s[i])
      && (k < |s| ==> r[k] == UpperChar(s[k]))
  {
  }

  lemma FirstWordIndexAt(s: string, k: nat)
    requires k <= |s| && (k < |s| ==> IsWordChar(s[k])) && forall i :: 0 <= i < k ==> !IsWordChar(s[i])
    ensures FirstWordIndex(s) == k
  {
  }

  lemma UpperFirstWordIdempotent(s: string)
    ensures UpperFirstWord(UpperFirstWord(s)) == UpperFirstWord(s)
  {
    UpperFirstWordSpec(s);
    UpperFirstWordFixed(UpperFirstWord(s));
  }

  /** A text whose first word character is not lower case is left as it is. */
  lemma UpperFirstWordFixed(r: string)
    requires FirstWordIndex(r) < |r| ==> !IsLower(r[FirstWordIndex(r)])
    ensures UpperFirstWord(r) == r
  {
    var k := FirstWordIndex(r);
    if k < |r| {
      assert UpperChar(r[k]) == r[k];
      SplitAround(r, k);
    }
  }

  /** Normalising a normalised name changes nothing. */
  lemma NormalizeBookIdempotent(b: string)
    ensures NormalizeBook(NormalizeBook(b)) == NormalizeBook(b)
  {
    var r := NormalizeBook(b);
    NormalizeBookSpec(b);
    CollapseNormalized(r);
    NormalizedTrim(r);
    UpperFirstWordIdempotent(Trim(CollapseSpaces(b)));
  }

  lemma {:induction false} RemoveSpacesConcat(a: string, b: string)
    ensures RemoveSpaces(a + b) == RemoveSpaces(a) + RemoveSpaces(b)
  {
    if a != [] {
      assert (a + b)[1..] == a[1..] + b;
      RemoveSpacesConcat(a[1..], b);
    } else {
      assert a + b == b;
    }
  }

  lemma {:induction false} RemoveSpacesBlank(w: string)
    requires forall i :: 0 <= i < |w| ==> IsSpace(w[i])
    ensures RemoveSpaces(w) == []
  {
    if w != [] { RemoveSpacesBlank(w[1..]); }
  }

  lemma RemoveSpacesTrimStart(s: string)
    ensures RemoveSpaces(TrimStart(s)) == RemoveSpaces(s)
  {
    var a := TrimStart(s);
    var n := |s| - |a|;
    var w := s[..n];
    assert s == w + a by { assert a == s[n..]; }
    assert forall i :: 0 <= i < |w| ==> IsSpace(w[i]) by {
      forall i | 0 <= i < |w| ensures IsSpace(w[i]) { assert w[i] == s[i]; }
    }
    RemoveSpacesConcat(w, a);
    RemoveSpacesBlank(w);
  }

  lemma RemoveSpacesTrimEnd(s: string)
    ensures RemoveSpaces(TrimEnd(s)) == RemoveSpaces(s)
  {
    var b := TrimEnd(s);
    var w := s[|b|..];
    assert s == b + w by { assert b == s[..|b|]; }
    assert forall i :: 0 <= i < |w| ==> IsSpace(w[i]) by {
      forall i | 0 <= i < |w| ensures IsSpace(w[i]) { assert w[i] == s[|b| + i]; }
    }
    RemoveSpacesConcat(b, w);
    RemoveSpacesBlank(w);
  }

  lemma RemoveSpacesTrim(s: string)
    ensures RemoveSpaces(Trim(s)) == RemoveSpaces(s)
  {
    RemoveSpacesTrimStart(s);
    RemoveSpacesTrimEnd(TrimStart(s));
  }

  lemma {:induction false} RemoveSpacesCollapse(s: string)
    ensures RemoveSpaces(CollapseSpaces(s)) == RemoveSpaces(s)
    decreases |s|
  {
    if s != [] {
      if IsSpace(s[0]) {
        var t := TrimStart(s);
        calc {
          RemoveSpaces(CollapseSpaces(s));
          RemoveSpaces(" " + CollapseSpaces(t));
          { RemoveSpacesCons(' ', CollapseSpaces(t)); }
          RemoveSpaces(CollapseSpaces(t));
          { RemoveSpacesCollapse(t); }
          RemoveSpaces(t);
          { RemoveSpacesTrimStart(s); }
          RemoveSpaces(s);
        }
      } else {
        var t := s[1..];
        calc {
          RemoveSpaces(CollapseSpaces(s));
          RemoveSpaces([s[0]] + CollapseSpaces(t));
          { RemoveSpacesCons(s[0], CollapseSpaces(t)); }
          [s[0]] + RemoveSpaces(CollapseSpaces(t));
          { RemoveSpacesCollapse(t); }
          [s[0]] + RemoveSpaces(t);
          { assert s == [s[0]] + t; RemoveSpacesCons(s[0], t); }
          RemoveSpaces(s);
        }
      }
    }
  }

  lemma {:induction false} RemoveSpacesUpper(s: string)
    ensures RemoveSpaces(Upper(s)) == Upper(RemoveSpaces(s))
    decreases |s|
  {
    if s != [] {
      var c, t := s[0], s[1..];
      var kept := if IsSpace(c) then [] else [c];
      calc {
        RemoveSpaces(Upper(s));
        { assert Upper(s) == [UpperChar(c)] + Upper(t); }
        RemoveSpaces([UpperChar(c)] + Upper(t));
        { RemoveSpacesCons(UpperChar(c), Upper(t)); }
        Upper(kept) + RemoveSpaces(Upper(t));
        { RemoveSpacesUpper(t); }
        Upper(kept) + Upper(RemoveSpaces(t));
        { UpperConcat(kept, RemoveSpaces(t)); }
        Upper(kept + RemoveSpaces(t));
        { assert s == [c] + t; RemoveSpacesCons(c, t); }
        Upper(RemoveSpaces(s));
      }
    }
  }

  lemma RemoveSpacesCons(c: char, s: string)
    ensures RemoveSpaces([c] + s) == (if IsSpace(c) then [] else [c]) + RemoveSpaces(s)
  {
    assert ([c] + s)[1..] == s;
  }

  lemma UpperConcat(a: string, b: string)
    ensures Upper(a + b) == Upper(a) + Upper(b)
  {
  }

  /** Upper-casing the first word character first makes no difference to
      upper-casing the whole name. */
  lemma UpperUpperFirstWord(c: string)
    ensures Upper(UpperFirstWord(c)) == Upper(c)
  {
    var r := UpperFirstWord(c);
    var k := FirstWordIndex(c);
    forall i | 0 <= i < |c| ensures UpperChar(r[i]) == UpperChar(c[i]) {
      if k < |c| && i == k {
        assert r[i] == UpperChar(c[i]);
      } else {
        assert r[i] == c[i];
      }
    }
  }

  /** The OSIS code is the name's non-whitespace characters, upper-cased. */
  lemma BookToOSISReference(b: string)
    ensures BookToOSIS(b) == Upper(RemoveSpaces(b))
  {
    var c := Trim(CollapseSpaces(b));
    assert Upper(NormalizeBook(b)) == Upper(c) by { UpperUpperFirstWord(c); }
    RemoveSpacesUpper(c);
    RemoveSpacesTrim(CollapseSpaces(b));
    RemoveSpacesCollapse(b);
  }

  // ---------------------------------------------------------------------
  // The line pattern ^([1-3]?\s?[A-Za-z ]+)\s+(\d+):(\d+)\s+(.*)$
  // ---------------------------------------------------------------------

  /** `\s?[A-Za-z ]+` */
  predicate AfterOrdinal(y: string) {
    BookRun(y) || (y != [] && IsSpace(y[0]) && BookRun(y[1..]))
  }

  /** `[1-3]?\s?[A-Za-z ]+`, the book group. */
  predicate BookShape(x: string) {
    AfterOrdinal(x) || (x != [] && '1' <= x[0] <= '3' && AfterOrdinal(x[1..]))
  }

  predicate AllSpace(s: string) { forall i :: 0 <= i < |s| ==> IsSpace(s[i]) }
  predicate AllDigits(s: string) { forall i :: 0 <= i < |s| ==> IsDigit(s[i]) }

  /** What `.*$` accepts: no line terminator. */
  predicate OneLine(t: string) { forall i :: 0 <= i < |t| ==> !IsLineTerminator(t[i]) }

  /** The length of the leading run of `\s`. */
  function SpaceRun(s: string): (n: nat)
    ensures n <= |s| && (forall i :: 0 <= i < n ==> IsSpace(s[i])) && (n < |s| ==> !IsSpace(s[n]))
  {
    if s != [] && IsSpace(s[0]) then 1 + SpaceRun(s[1..]) else 0
  }

  /** The length of the leading run of `\d`. */
  function DigitRun(s: string): (n: nat)
    ensures n <= |s| && (forall i :: 0 <= i < n ==> IsDigit(s[i])) && (n < |s| ==> !IsDigit(s[n]))
  {
    if s != [] && IsDigit(s[0]) then 1 + DigitRun(s[1..]) else 0
  }

  /** `\s+(.*)$` at the start of `u`, giving the text group. */
  function TextRest(u: string): Option<string> {
    var b := SpaceRun(u);
    if b == 0 || !OneLine(u[b..]) then None else Some(u[b..])
  }

  /** `(\d+)\s+(.*)$` at the start of `w`. */
  function VerseRest(w: string): (r: Option<(string, string)>)
    ensures r.Some? ==> r.value.0 != [] && AllDigits(r.value.0)
  {
    var v := DigitRun(w);
    if v == 0 then None
    else
      match TextRest(w[v..])
      case None => None
      case Some(t) => Some((w[..v], t))
  }

  /** `(\d+):(\d+)\s+(.*)$` at the start of `z`. */
  function ChapterRest(z: string): (r: Option<(string, string, string)>)
    ensures r.Some? ==> r.value.0 != [] && AllDigits(r.value.0) && r.value.1 != [] && AllDigits(r.value.1)
  {
    var c := DigitRun(z);
    if c == 0 || c == |z| || z[c] != ':' then None
    else
      match VerseRest(z[c + 1..])
      case None => None
      case Some(g) => Some((z[..c], g.0, g.1))
  }

  /** `\s+(\d+):(\d+)\s+(.*)$` at the start of `y`, giving the three groups.
      Every quantifier here is greedy and no shorter choice can succeed where
      the longest fails, so the first match found is this one. */
  function TailMatch(y: string): (r: Option<(string, string, string)>)
    ensures r.Some? ==> r.value.0 != [] && AllDigits(r.value.0) && r.value.1 != [] && AllDigits(r.value.1)
  {
    var a := SpaceRun(y);
    if a == 0 then None else ChapterRest(y[a..])
  }

  /** The pattern matches with the book group ending at `k`. */
  predicate SplitsAt(line: string, k: nat)
    requires k <= |line|
  {
    BookShape(line[..k]) && TailMatch(line[k..]).Some?
  }

  /** The largest `k <= j` with `p(k)`. */
  function LastWhere(p: nat -> bool, j: nat): (r: Option<nat>)
    ensures r.Some? ==> r.value <= j && p(r.value)
    decreases j
  {
    if p(j) then Some(j)
    else if j == 0 then None
    else LastWhere(p, j - 1)
  }

  /** Nothing between the point found and `j` satisfies `p`. */
  lemma {:induction false} LastWhereMaximal(p: nat -> bool, j: nat, k: nat)
    requires k <= j
    requires LastWhere(p, j).None? || LastWhere(p, j).value < k
    ensures !p(k)
    decreases j
  {
    if j > k {
      assert LastWhere(p, j) == LastWhere(p, j - 1);
      LastWhereMaximal(p, j - 1, k);
    }
  }

  /** The largest split point not beyond `j`: the book group is greedy, so
      the regular expression settles on the longest book that leaves a
      well-formed rest. */
  function LastSplit(line: string, j: nat): (r: Option<nat>)
    requires j <= |line|
    ensures r.Some? ==> r.value <= j && SplitsAt(line, r.value)
  {
    LastWhere((k: nat) => k <= |line| && SplitsAt(line, k), j)
  }

  /** No split point between the one found and `j` works, and when none is
      found no split point up to `j` works. */
  lemma LastSplitMaximal(line: string, j: nat)
    requires j <= |line|
    ensures LastSplit(line, j).Some? ==> forall k :: LastSplit(line, j).value < k <= j ==> !SplitsAt(line, k)
    ensures LastSplit(line, j).None? ==> forall k :: 0 <= k <= j ==> !SplitsAt(line, k)
  {
    var p := (k: nat) => k <= |line| && SplitsAt(line, k);
    var r := LastSplit(line, j);
    forall k | (if r.Some? then r.value else -1) < k <= j ensures !SplitsAt(line, k) {
      LastWhereMaximal(p, j, k);
      assert !p(k);
    }
  }

  /** The groups of a matching line. */
  datatype LineMatch = LineMatch(book: string, chapter: string, verse: string, text: string)

  /** `line.match(re)` */
  function MatchLine(line: string): (r: Option<LineMatch>)
    ensures r.Some? ==> r.value.chapter != [] && AllDigits(r.value.chapter) &&
                        r.value.verse != [] && AllDigits(r.value.verse)
  {
    match LastSplit(line, |line|)
    case None => None
    case Some(j) =>
      var g := TailMatch(line[j..]).value;
      Some(LineMatch(line[..j], g.0, g.1, g.2))
  }

  lemma {:induction false} SpaceRunAt(w: string, rest: string)
    requires AllSpace(w)
    ensures SpaceRun(w + rest) == |w| + SpaceRun(rest)
  {
    if w != [] {
      assert (w + rest)[0] == w[0];
      assert (w + rest)[1..] == w[1..] + rest;
      SpaceRunAt(w[1..], rest);
    } else {
      assert w + rest == rest;
    }
  }

  lemma {:induction false} DigitRunAt(w: string, rest: string)
    requires AllDigits(w) && (rest == [] || !IsDigit(rest[0]))
    ensures DigitRun(w + rest) == |w|
  {
    if w != [] {
      assert (w + rest)[0] == w[0];
      assert (w + rest)[1..] == w[1..] + rest;
      DigitRunAt(w[1..], rest);
    } else {
      assert w + rest == rest;
    }
  }

  lemma {:induction false} TrimStartRun(t: string)
    ensures TrimStart(t) == t[SpaceRun(t)..]
  {
    if t != [] && IsSpace(t[0]) {
      TrimStartRun(t[1..]);
      assert t[1..][SpaceRun(t[1..])..] == t[1 + SpaceRun(t[1..])..];
    }
  }

  lemma OneLineSuffix(t: string, k: nat)
    requires OneLine(t) && k <= |t|
    ensures OneLine(t[k..])
  {
    assert forall i :: 0 <= i < |t| - k ==> t[k..][i] == t[k + i];
  }

  lemma TextRestOf(w2: string, t: string)
    requires w2 != [] && AllSpace(w2) && OneLine(t)
    ensures TextRest(w2 + t) == Some(TrimStart(t))
  {
    SpaceRunAt(w2, t);
    assert (w2 + t)[|w2| + SpaceRun(t)..] == t[SpaceRun(t)..];
    TrimStartRun(t);
    OneLineSuffix(t, SpaceRun(t));
  }

  lemma VerseRestOf(v: string, w2: string, t: string)
    requires v != [] && AllDigits(v) && w2 != [] && AllSpace(w2) && OneLine(t)
    ensures VerseRest(v + (w2 + t)) == Some((v, TrimStart(t)))
  {
    var w := v + (w2 + t);
    assert (w2 + t)[0] == w2[0];
    DigitRunAt(v, w2 + t);
    assert w[|v|..] == w2 + t && w[..|v|] == v;
    TextRestOf(w2, t);
  }

  lemma ChapterRestOf(c: string, w: string)
    requires c != [] && AllDigits(c) && VerseRest(w).Some?
    ensures ChapterRest(c + (":" + w)) == Some((c, VerseRest(w).value.0, VerseRest(w).value.1))
  {
    ChapterSlices(c, w);
    DigitRunAt(c, ":" + w);
    ChapterRestFires(c + (":" + w), |c|);
  }

  lemma ChapterSlices(c: string, w: string)
    ensures var z := c + (":" + w); |z| > |c| && z[..|c|] == c && z[|c|] == ':' && z[|c| + 1..] == w
  {
  }

  lemma ChapterRestFires(z: string, c: nat)
    requires 0 < c < |z| && DigitRun(z) == c && z[c] == ':' && VerseRest(z[c + 1..]).Some?
    ensures ChapterRest(z) == Some((z[..c], VerseRest(z[c + 1..]).value.0, VerseRest(z[c + 1..]).value.1))
  {
  }

  lemma TailMatchAt(w1: string, z: string)
    requires w1 != [] && AllSpace(w1) && ChapterRest(z).Some?
    ensures TailMatch(w1 + z) == ChapterRest(z)
  {
    assert DigitRun(z) > 0;
    assert IsDigit(z[0]);
    assert SpaceRun(z) == 0;
    SpaceRunAt(w1, z);
    assert (w1 + z)[|w1|..] == z;
  }

  /** The rest pattern matches every `\s+ digits : digits \s+ text` with a
      one-line text, and its last group is that text without its leading
      whitespace. */
  lemma TailMatchOf(w1: string, c: string, v: string, w2: string, t: string)
    requires w1 != [] && AllSpace(w1) && c != [] && AllDigits(c) && v != [] && AllDigits(v)
    requires w2 != [] && AllSpace(w2) && OneLine(t)
    ensures TailMatch(w1 + (c + (":" + (v + (w2 + t))))) == Some((c, v, TrimStart(t)))
  {
    var w := v + (w2 + t);
    VerseRestOf(v, w2, t);
    var z := c + (":" + w);
    ChapterRestOf(c, w);
    TailMatchAt(w1, z);
  }

  lemma TextRestShape(u: string) returns (w2: string)
    requires TextRest(u).Some?
    ensures var t := TextRest(u).value;
      u == w2 + t && w2 != [] && AllSpace(w2) && OneLine(t) && (t == [] || !IsSpace(t[0]))
  {
    var b := SpaceRun(u);
    w2 := u[..b];
    assert u == w2 + u[b..];
  }

  lemma VerseRestShape(w: string) returns (w2: string)
    requires VerseRest(w).Some?
    ensures var g := VerseRest(w).value;
      w == g.0 + (w2 + g.1) && w2 != [] && AllSpace(w2) && OneLine(g.1) && (g.1 == [] || !IsSpace(g.1[0]))
  {
    var v := DigitRun(w);
    w2 := TextRestShape(w[v..]);
    assert w == w[..v] + w[v..];
    assert w[v..] == w2 + VerseRest(w).value.1;
  }

  lemma ChapterRestShape(z: string) returns (w2: string)
    requires ChapterRest(z).Some?
    ensures var g := ChapterRest(z).value;
      && z == g.0 + (":" + (g.1 + (w2 + g.2)))
      && w2 != [] && AllSpace(w2) && OneLine(g.2) && (g.2 == [] || !IsSpace(g.2[0]))
  {
    ChapterRestParts(z);
    var c := DigitRun(z);
    var w := z[c + 1..];
    var g := VerseRest(w).value;
    w2 := VerseRestShape(w);
    assert w == g.0 + (w2 + g.1);
    assert z == z[..c] + (":" + w) by {
      SplitAround(z, c);
      assert [z[c]] == ":";
    }
  }

  lemma ChapterRestParts(z: string)
    requires ChapterRest(z).Some?
    ensures var c := DigitRun(z);
      && 0 < c < |z| && z[c] == ':' && VerseRest(z[c + 1..]).Some?
      && ChapterRest(z).value == (z[..c], VerseRest(z[c + 1..]).value.0, VerseRest(z[c + 1..]).value.1)
  {
  }

  lemma SplitAround(z: string, c: nat)
    requires c < |z|
    ensures z == z[..c] + ([z[c]] + z[c + 1..])
  {
  }

  /** Conversely every match of the rest pattern has that form, with the
      whitespace runs as the witnesses and the text not starting with
      whitespace. */
  lemma TailMatchShape(y: string) returns (w1: string, w2: string)
    requires TailMatch(y).Some?
    ensures var g := TailMatch(y).value;
      && y == w1 + (g.0 + (":" + (g.1 + (w2 + g.2))))
      && w1 != [] && AllSpace(w1) && w2 != [] && AllSpace(w2)
      && OneLine(g.2) && (g.2 == [] || !IsSpace(g.2[0]))
  {
    var a := SpaceRun(y);
    TailMatchIs(y);
    SpaceRunPrefix(y);
    w1 := y[..a];
    w2 := ChapterRestShape(y[a..]);
    SplitAt(y, a);
  }

  lemma SpaceRunPrefix(y: string)
    ensures AllSpace(y[..SpaceRun(y)]) && |y[..SpaceRun(y)]| == SpaceRun(y)
  {
    var a := SpaceRun(y);
    forall i | 0 <= i < a ensures IsSpace(y[..a][i]) {
      assert y[..a][i] == y[i];
    }
  }

  lemma TailMatchIs(y: string)
    requires TailMatch(y).Some?
    ensures SpaceRun(y) > 0 && TailMatch(y) == ChapterRest(y[SpaceRun(y)..])
  {
  }

  lemma SplitAt(y: string, a: nat)
    requires a <= |y|
    ensures y == y[..a] + y[a..]
  {
  }

  /** A line matches exactly when some split point works; the book group is
      then the longest prefix of book shape that leaves a matching rest. */
  lemma MatchLineSpec(line: string)
    ensures MatchLine(line).None? <==> forall k :: 0 <= k <= |line| ==> !SplitsAt(line, k)
    ensures MatchLine(line).Some? ==> var m := MatchLine(line).value;
      && m.book <= line && BookShape(m.book)
      && TailMatch(line[|m.book|..]) == Some((m.chapter, m.verse, m.text))
      && forall k :: |m.book| < k <= |line| ==> !SplitsAt(line, k)
  {
    var r := LastSplit(line, |line|);
    LastSplitMaximal(line, |line|);
    if r.Some? {
      var j := r.value;
      var g := TailMatch(line[j..]).value;
      assert MatchLine(line) == Some(LineMatch(line[..j], g.0, g.1, g.2));
    }
  }

  /** A line made of a book of book shape, whitespace, `C:V`, whitespace and
      a one-line text always matches, with a book group at least that long. */
  lemma MatchLineOf(book: string, w1: string, c: string, v: string, w2: string, t: string)
    requires BookShape(book)
    requires w1 != [] && AllSpace(w1) && c != [] && AllDigits(c) && v != [] && AllDigits(v)
    requires w2 != [] && AllSpace(w2) && OneLine(t)
    ensures var line := book + (w1 + (c + (":" + (v + (w2 + t)))));
      MatchLine(line).Some? && |book| <= |MatchLine(line).value.book|
  {
    var rest := w1 + (c + (":" + (v + (w2 + t))));
    var line := book + rest;
    TailMatchOf(w1, c, v, w2, t);
    assert line[..|book|] == book && line[|book|..] == rest;
    assert SplitsAt(line, |book|);
    MatchLineSpec(line);
  }

  // ---------------------------------------------------------------------
  // parsePlainText
  // ---------------------------------------------------------------------

  /** `txt.split(/\r?\n/)` */
  function SplitLines(txt: string): (r: seq<string>)
    ensures r != []
    decreases |txt|
  {
    var k := LineEnd(txt);
    if k == |txt| then [txt] else [DropCR(txt[..k])] + SplitLines(txt[k + 1..])
  }

  /** A line cut before a newline loses the carriage return ending it. */
  function DropCR(piece: string): string {
    if piece != [] && piece[|piece| - 1] == '\r' then piece[..|piece| - 1] else piece
  }

  /** Without carriage returns, joining the lines with newlines gives the
      text back. */
  lemma {:induction false} SplitLinesJoin(txt: string)
    requires '\r' !in txt
    ensures Join(SplitLines(txt), "\n") == txt
    decreases |txt|
  {
    var k := LineEnd(txt);
    if k < |txt| {
      var piece := txt[..k];
      var rest := txt[k + 1..];
      assert txt == piece + "\n" + rest;
      assert '\r' !in piece && '\r' !in rest;
      SplitLinesJoin(rest);
      assert DropCR(piece) == piece;
      var r := SplitLines(txt);
      assert r == [piece] + SplitLines(rest);
      assert r[1..] == SplitLines(rest);
    } else {
      assert SplitLines(txt) == [txt];
    }
  }

  /** Each line ends at a newline: a text without one is a single line, and a
      newline (with a carriage return before it) separates the first line
      from the lines of the rest. */
  lemma SplitLinesCrLf(a: string, b: string)
    requires '\n' !in a
    ensures SplitLines(a) == [a]
    ensures SplitLines(a + "\r\n" + b) == [a] + SplitLines(b)
    ensures '\r' !in a ==> SplitLines(a + "\n" + b) == [a] + SplitLines(b)
  {
    LineEndAt(a, []);
    assert a + "\n" + [] == a + "\n";
    var a' := a + "\r";
    assert '\n' !in a';
    assert a + "\r\n" + b == a' + "\n" + b;
    LineEndAt(a', b);
    assert (a' + "\n" + b)[..|a'|] == a';
    assert (a' + "\n" + b)[|a'| + 1..] == b;
    assert a'[..|a|] == a;
    LineEndAt(a, b);
    assert (a + "\n" + b)[..|a|] == a;
    assert (a + "\n" + b)[|a| + 1..] == b;
  }

  /** The non-empty lines, in order. */
  function NonEmpty(lines: seq<string>): (r: seq<string>)
    ensures forall i :: 0 <= i < |r| ==> r[i] != []
  {
    if lines == [] then []
    else (if lines[0] == [] then [] else [lines[0]]) + NonEmpty(lines[1..])
  }

  lemma {:induction false} NonEmptyFilter(lines: seq<string>)
    ensures IsSubsequence(NonEmpty(lines), lines)
    ensures forall x :: x in lines && x != [] ==> x in NonEmpty(lines)
  {
    if lines != [] {
      var r := NonEmpty(lines);
      NonEmptyFilter(lines[1..]);
      assert lines == [lines[0]] + lines[1..];
      if lines[0] != [] {
        assert r[1..] == NonEmpty(lines[1..]);
      } else {
        assert r == NonEmpty(lines[1..]);
        SubsequenceCons(r, lines);
      }
    }
  }

  /** The lines the reader visits. */
  function Lines(txt: string): seq<string> {
    NonEmpty(SplitLines(txt))
  }

  /** The record built from a matching line. */
  function ToVerse(m: LineMatch): Verse
    requires AllDigits(m.chapter) && AllDigits(m.verse)
  {
    Verse(
      BookToOSIS(m.book) + ("." + (m.chapter + ("." + m.verse))),
      NormalizeBook(m.book) + (" " + (m.chapter + (":" + m.verse))),
      NormalizeBook(m.book),
      DigitsValue(m.chapter),
      DigitsValue(m.verse),
      Trim(m.text),
      Some(Tagged(AUTO_THEMES, m.text)))
  }

  /** The records one line contributes: one if it matches, none otherwise. */
  function LineRecords(line: string): (r: seq<Verse>)
    ensures |r| <= 1
  {
    match MatchLine(line)
    case None => []
    case Some(m) => [ToVerse(m)]
  }

  /** The records of a list of lines, in line order. */
  function Records(lines: seq<string>): seq<Verse> {
    FlatMap(lines, LineRecords)
  }

  /** `parsePlainText(txt)` */
  method ParsePlainText(txt: string) returns (out: seq<Verse>)
    ensures out == Records(Lines(txt))
  {
    var lines := Lines(txt);
    out := [];
    for i := 0 to |lines|
      invariant out == Records(lines[..i])
    {
      RecordsStep(lines, i);
      var m := MatchLine(lines[i]);
      if m.None? {
        continue;
      }
      var book := m.value.book;
      var ch := m.value.chapter;
      var vs := m.value.verse;
      var text := m.value.text;
      var id := BookToOSIS(book) + ("." + (ch + ("." + vs)));
      var themes := AutoThemes(text);
      var v := Verse(id, NormalizeBook(book) + (" " + (ch + (":" + vs))), NormalizeBook(book),
                     DigitsValue(ch), DigitsValue(vs), Trim(text), Some(themes));
      assert v == ToVerse(m.value);
      out := out + [v];
    }
    assert lines[..|lines|] == lines;
  }

  lemma RecordsStep(lines: seq<string>, i: nat)
    requires i < |lines|
    ensures Records(lines[..i + 1]) == Records(lines[..i]) + LineRecords(lines[i])
  {
    assert lines[..i + 1][..i] == lines[..i];
  }

  /** Lines are read one at a time: the records of two runs of lines are the
      records of the first followed by those of the second. */
  lemma RecordsConcat(a: seq<string>, b: seq<string>)
    ensures Records(a + b) == Records(a) + Records(b)
  {
    FlatMapConcat(a, b, LineRecords);
  }

  /** Every record comes from a matching line, and every matching line
      yields its record. */
  lemma RecordsFromLines(lines: seq<string>)
    ensures forall v :: v in Records(lines) <==>
      exists i :: 0 <= i < |lines| && MatchLine(lines[i]).Some? && v == ToVerse(MatchLine(lines[i]).value)
  {
    forall v { FlatMapMembers(lines, LineRecords, v); }
  }

  /** At most one record per line. */
  lemma RecordsBound(lines: seq<string>)
    ensures |Records(lines)| <= |lines|
  {
    FlatMapBound(lines, LineRecords);
  }

  /** A matched line's id is the OSIS code of its book and the two numerals
      joined by dots; it splits back into those three parts and holds no
      whitespace and no lower-case letter. */
  lemma RecordId(m: LineMatch)
    requires BookShape(m.book)
    requires m.chapter != [] && AllDigits(m.chapter) && m.verse != [] && AllDigits(m.verse)
    ensures var id := ToVerse(m).id;
      && Split(id, '.') == [BookToOSIS(m.book), m.chapter, m.verse]
      && BookToOSIS(m.book) == Upper(RemoveSpaces(m.book))
      && forall i :: 0 <= i < |id| ==> !IsSpace(id[i]) && !IsLower(id[i])
  {
    var osis := BookToOSIS(m.book);
    BookToOSISReference(m.book);
    BookCharsNoDot(m.book);
    IdParts(osis, m.chapter, m.verse);
  }

  /** Dot-joining a dot-free code and two numerals: splitting at dots gives
      the three parts back, and no whitespace or lower-case letter appears. */
  lemma IdParts(osis: string, ch: string, vs: string)
    requires '.' !in osis && AllDigits(ch) && AllDigits(vs)
    requires forall i :: 0 <= i < |osis| ==> !IsSpace(osis[i]) && !IsLower(osis[i])
    ensures var id := osis + ("." + (ch + ("." + vs)));
      && Split(id, '.') == [osis, ch, vs]
      && forall i :: 0 <= i < |id| ==> !IsSpace(id[i]) && !IsLower(id[i])
  {
    var parts := [osis, ch, vs];
    assert '.' !in ch && '.' !in vs;
    Join3(osis, ch, vs, ".");
    SplitJoin(parts, '.');
    var id := osis + ("." + (ch + ("." + vs)));
    forall i | 0 <= i < |id| ensures !IsSpace(id[i]) && !IsLower(id[i]) {
      if i >= |osis| + 1 && i < |osis| + 1 + |ch| {
        assert id[i] == ch[i - |osis| - 1];
      } else if i >= |osis| + 2 + |ch| {
        assert id[i] == vs[i - |osis| - 2 - |ch|];
      }
    }
  }

  lemma Join3(a: string, b: string, c: string, sep: string)
    ensures Join([a, b, c], sep) == a + (sep + (b + (sep + c)))
  {
    var parts := [a, b, c];
    assert parts[1..] == [b, c] && parts[1..][1..] == [c];
    assert Join([b, c], sep) == b + (sep + c);
    assert Join(parts, sep) == (a + sep) + Join([b, c], sep);
  }

  /** A matched line's record: the book is normalised, the text trimmed, the
      chapter and verse are the numerals' values and the themes are the
      builder's tags, in table order. */
  lemma RecordFields(m: LineMatch)
    requires AllDigits(m.chapter) && AllDigits(m.verse)
    ensures var v := ToVerse(m);
      && Normalized(v.book)
      && (v.text != [] ==> !IsSpace(v.text[0]) && !IsSpace(v.text[|v.text| - 1]))
      && v.chapter == DigitsValue(m.chapter) && v.verse == DigitsValue(m.verse)
      && v.themes == Some(Tagged(AUTO_THEMES, m.text))
      && IsSubsequence(v.themes.value, ["anxiety", "forgiveness", "love", "faith"])
  {
    NormalizeBookSpec(m.book);
    TrimEnds(m.text);
    BuilderThemesOrdered(m.text);
  }

  lemma TrimEnds(s: string)
    ensures var t := Trim(s); t != [] ==> !IsSpace(t[0]) && !IsSpace(t[|t| - 1])
  {
    var a := TrimStart(s);
    var t := TrimEnd(a);
    if t != [] { assert t[0] == a[0]; }
  }

  lemma BuilderThemesOrdered(s: string)
    ensures IsSubsequence(Tagged(AUTO_THEMES, s), ["anxiety", "forgiveness", "love", "faith"])
  {
    MatchingOrdered(AUTO_THEMES, Lower(s));
    AutoThemesTable(Lower(s));
  }

  /** A book group holds letters, spaces and at most an ordinal digit, so its
      OSIS code has no dot. */
  lemma BookCharsNoDot(book: string)
    requires BookShape(book)
    ensures '.' !in Upper(RemoveSpaces(book))
  {
    assert forall i :: 0 <= i < |book| ==> book[i] != '.' by {
      if AfterOrdinal(book) {
        assert BookRun(book) || BookRun(book[1..]);
      } else {
        assert AfterOrdinal(book[1..]);
      }
    }
    var r := RemoveSpaces(book);
    RemoveSpacesChars(book);
    forall i | 0 <= i < |r| ensures Upper(r)[i] != '.' {
      assert r[i] in book;
    }
  }
}
