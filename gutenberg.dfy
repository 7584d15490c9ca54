/** The heading recogniser of the Project Gutenberg KJV importer
    (scripts/build-bible-kjv-gutenberg.js). `cleanBookName` tidies a raw book
    title by an ordered chain of prefix removals and a table of variant
    spellings; `detectBookFromHeader` maps a KJV book heading to a canonical
    book name. The importer's table of canonical names is the parameter
    `books`: a name counts as known exactly when it is in that set. */
module Gutenberg {
  import opened Wrappers
  import opened Text

  /** The value `detectBookFromHeader` returns: a book name, `null`, or
      `undefined`, which only the lookup for the books of Moses produces. */
  datatype Heading = Found(name: string) | Null | Undefined

  // ---------------------------------------------------------------------
  // Pattern pieces. Every pattern of the file carries the `i` flag, so
  // literal words are compared after ASCII lowering (they are written here
  // in lower case). A `\s+` is greedy and is always followed by a letter or
  // by the end of the pattern, so it takes the whole whitespace run.
  // ---------------------------------------------------------------------

  /** `w\s+` at the start of `s`: the text after the whitespace run. */
  function Word(s: string, w: string): (r: Option<string>)
    ensures r.Some? ==> |r.value| < |s| - |w| && r.value == s[|s| - |r.value|..]
  {
    if HasPrefixCI(s, w) && |s| > |w| && IsSpace(s[|w|]) then Some(TrimStart(s[|w|..])) else None
  }

  /** `w1\s+w2\s+…wn\s+` at the start of `s`: the text after the last run. */
  function Words(s: string, ws: seq<string>): (r: Option<string>)
    ensures r.Some? ==> |r.value| <= |s| && r.value == s[|s| - |r.value|..]
    ensures r.Some? && ws != [] && r.value != [] ==> !IsSpace(r.value[0])
    decreases |ws|
  {
    if ws == [] then Some(s)
    else match Word(s, ws[0])
      case None => None
      case Some(t) => Words(t, ws[1..])
  }

  /** Removes the words `ws`, each followed by whitespace, from the start of
      `s` when they are all there, and leaves `s` alone otherwise; an
      optional group of those words leaves the same text. */
  function Strip(s: string, ws: seq<string>): string {
    Words(s, ws).GetOr(s)
  }

  /** The first of the alternatives `(w0|w1|…)\s+` that `s` starts with. */
  function Alternative(s: string, words: seq<string>): (r: Option<nat>)
    ensures r.Some? ==> r.value < |words| && Word(s, words[r.value]).Some?
    decreases |words|
  {
    if words == [] then None
    else if Word(s, words[0]).Some? then Some(0)
    else
      match Alternative(s, words[1..])
      case None => None
      case Some(i) => assert words[1..][i] == words[i + 1]; Some(i + 1)
  }

  /** The name when the table of canonical names knows it, else `null`. */
  function Known(books: set<string>, name: string): (r: Heading)
    ensures r == Found(name) <==> name in books
    ensures r == Null <==> name !in books
  {
    if name in books then Found(name) else Null
  }

  // ---------------------------------------------------------------------
  // cleanBookName
  // ---------------------------------------------------------------------

  /** The prefixes of lines 10-17, removed in this order, each at most once. */
  const PREFIXES: seq<seq<string>> :=
    [["book of"], ["book of the"], ["book of the prophet"], ["prophet"], ["general"],
     ["epistle", "of"], ["epistle", "to"], ["epistle"]]

  function StripAll(s: string, ps: seq<seq<string>>): string
    decreases |ps|
  {
    if ps == [] then s else StripAll(Strip(s, ps[0]), ps[1..])
  }

  /** The name after whitespace normalisation, one leading "The " and the
      prefix chain. */
  function Stripped(raw: string): string {
    StripAll(Strip(Trim(CollapseSpaces(raw)), ["the"]), PREFIXES)
  }

  /** The `variants` object of lines 20-48. */
  const VARIANTS: map<string, string> :=
    map["Song of Songs" := "Song of Solomon", "Song Of Solomon" := "Song of Solomon",
        "Song of Solomon" := "Song of Solomon", "Psalms" := "Psalms", "Psalm" := "Psalms",
        "Proverbs" := "Proverbs", "Lamentations of Jeremiah" := "Lamentations",
        "1 Sam" := "1 Samuel", "2 Sam" := "2 Samuel", "1 Kin" := "1 Kings", "2 Kin" := "2 Kings",
        "1 Chr" := "1 Chronicles", "2 Chr" := "2 Chronicles", "1 Cor" := "1 Corinthians",
        "2 Cor" := "2 Corinthians", "1 Thess" := "1 Thessalonians", "2 Thess" := "2 Thessalonians",
        "1 Tim" := "1 Timothy", "2 Tim" := "2 Timothy", "1 Pet" := "1 Peter", "2 Pet" := "2 Peter"]

  /** The replacement callback of line 54. Its table is keyed by the exact
      spelling while the pattern ignores case, so any other capitalisation
      yields `undefined`, which `replace` writes out as that word. */
  function OrdinalReplacement(matched: string): string {
    if matched == "First" then "1 "
    else if matched == "Second" then "2 "
    else if matched == "Third" then "3 "
    else "undefined"
  }

  /** A leading "First", "Second" or "Third" and its whitespace replaced by
      what the replacement callback returns for the ordinal as written. */
  function Numbered(s: string): string {
    if Word(s, "first").Some? then OrdinalReplacement(s[..5]) + Word(s, "first").value
    else if Word(s, "second").Some? then OrdinalReplacement(s[..6]) + Word(s, "second").value
    else if Word(s, "third").Some? then OrdinalReplacement(s[..5]) + Word(s, "third").value
    else s
  }

  /** A leading digit, whitespace and "Book of" collapsed to the digit and
      one space. */
  function DigitBookOf(s: string): string {
    if DigitBookOfApplies(s) then [s[0], ' '] + Words(TrimStart(s[1..]), ["book of"]).value else s
  }

  predicate DigitBookOfApplies(s: string) {
    |s| >= 2 && IsDigit(s[0]) && IsSpace(s[1]) && Words(TrimStart(s[1..]), ["book of"]).Some?
  }

  function CleanBookName(raw: string): string {
    var s := Stripped(raw);
    if s in VARIANTS then VARIANTS[s] else Trim(DigitBookOf(Numbered(s)))
  }

  // ---------------------------------------------------------------------
  // detectBookFromHeader. Its patterns are matched against the line with
  // whitespace trimmed and collapsed, where every `\s+` is one space; they
  // are modelled for such lines.
  // ---------------------------------------------------------------------

  const MOSES_ORDINALS: seq<string> := ["first", "second", "third", "fourth", "fifth"]
  const MOSES_TITLES: seq<string> := ["First", "Second", "Third", "Fourth", "Fifth"]
  const MOSES_BOOKS: seq<string> := ["Genesis", "Exodus", "Leviticus", "Numbers", "Deuteronomy"]

  /** The names returned without consulting the table. */
  const FIXED_NAMES: set<string> :=
    {"Genesis", "Exodus", "Leviticus", "Numbers", "Deuteronomy",
     "Proverbs", "Song of Solomon", "Lamentations", "Acts", "Revelation"}

  /** The pattern of line 67 (a title ordinal from First to Fifth, "Book of
      Moses", a comma or colon, "Called" and a name); the ordinal as
      written. */
  function MosesMatch(l: string): Option<string> {
    match Word(l, "the")
    case None => None
    case Some(a) => MosesOrdinalMatch(a)
  }

  /** The pattern of line 67 after the leading "The". */
  function MosesOrdinalMatch(a: string): Option<string> {
    match Alternative(a, MOSES_ORDINALS)
    case None => None
    case Some(k) =>
      match Words(Word(a, MOSES_ORDINALS[k]).value, ["book", "of"])
      case None => None
      case Some(c) => if CalledTail(c) then Some(a[..|MOSES_ORDINALS[k]|]) else None
  }

  /** The end of the pattern of line 67: "Moses", a comma or colon,
      optional whitespace, "Called", whitespace, then letters and spaces to
      the end. */
  predicate CalledTail(c: string) {
    && HasPrefixCI(c, "moses") && |c| > 5 && (c[5] == ',' || c[5] == ':')
    && match Word(TrimStart(c[6..]), "called")
       case None => false
       case Some(d) => BookRun(d)
  }

  /** `map[m[1]]` of line 70, keyed by the exact spelling. */
  function MosesBook(ordinal: string): (r: Heading)
    ensures r.Found? ==> r.name in FIXED_NAMES
    ensures r == Undefined <==> ordinal !in MOSES_TITLES
  {
    if ordinal == "First" then Found("Genesis")
    else if ordinal == "Second" then Found("Exodus")
    else if ordinal == "Third" then Found("Leviticus")
    else if ordinal == "Fourth" then Found("Numbers")
    else if ordinal == "Fifth" then Found("Deuteronomy")
    else Undefined
  }

  /** The pattern of line 74: "The Book of", optionally "the Prophet", then
      a name of letters and spaces. */
  function ProphetMatch(l: string): Option<string> {
    match Words(l, ["the", "book", "of"])
    case None => None
    case Some(a) =>
      var g := Words(a, ["the", "prophet"]);
      if g.Some? && BookRun(g.value) then g
      else if BookRun(a) then Some(a)
      else None
  }

  /** Lines 81, 84, 87 and 105: `^w1\s+…wn\s+last$`, ignoring case. */
  predicate Title(l: string, ws: seq<string>, last: string) {
    match Words(l, ws)
    case None => false
    case Some(r) => EqualsCI(r, last)
  }

  /** The pattern of line 90: "The", "First" or "Second", "Book of",
      optionally "the", then a name; the ordinal as written and the name. */
  function KingsMatch(l: string): Option<(string, string)> {
    match Word(l, "the")
    case None => None
    case Some(a) =>
      match Alternative(a, ["first", "second"])
      case None => None
      case Some(k) =>
        var w := ["first", "second"][k];
        match Words(Word(a, w).value, ["book", "of"])
        case None => None
        case Some(b) =>
          var g := Words(b, ["the"]);
          if g.Some? && BookRun(g.value) then Some((a[..|w|], g.value))
          else if BookRun(b) then Some((a[..|w|], b))
          else None
  }

  /** The cleaned name when the table knows it, else `null`. */
  function KnownClean(books: set<string>, name: string): (r: Heading)
    ensures r == Found(CleanBookName(name)) <==> CleanBookName(name) in books
    ensures r == Null <==> CleanBookName(name) !in books
  {
    Known(books, CleanBookName(name))
  }

  /** Lines 92-94: "1" for the ordinal spelled "First" and "2" for any
      other, then the name without a leading "the", cleaned and looked up. */
  function KingsBook(books: set<string>, ordinal: string, name: string): (r: Heading)
    ensures var n := CleanBookName((if ordinal == "First" then "1" else "2") + " " + Strip(name, ["the"]));
      && (r == Found(n) <==> n in books)
      && (r == Null <==> n !in books)
  {
    var num := if ordinal == "First" then "1" else "2";
    KnownClean(books, num + " " + Strip(name, ["the"]))
  }

  /** The pattern of line 98: "The Gospel", "according to" or "of",
      optionally "St", "St." or "Saint", then a single word of letters. */
  function GospelMatch(l: string): Option<string> {
    match Words(l, ["the", "gospel"])
    case None => None
    case Some(a) =>
      var b := if Words(a, ["according", "to"]).Some? then Words(a, ["according", "to"]) else Words(a, ["of"]);
      match b
      case None => None
      case Some(c) => Evangelist(c)
  }

  /** The end of the pattern of line 98: optionally "St", "St." or "Saint",
      then a single word of letters. */
  function Evangelist(c: string): Option<string> {
    var g := if Word(c, "st.").Some? then Word(c, "st.") else if Word(c, "st").Some? then Word(c, "st") else Word(c, "saint");
    if g.Some? && LetterRun(g.value) then g
    else if LetterRun(c) then Some(c)
    else None
  }

  /** The pattern of line 108 up to the whitespace after "Epistle": "The",
      an optional ordinal, optionally "General", then "Epistle"; the
      ordinal as written, if any, and the rest. */
  function EpistleHead(l: string): Option<(Option<string>, string)> {
    match Word(l, "the")
    case None => None
    case Some(a) =>
      var n := OrdinalLength(a);
      var o := if n > 0 then Some(a[..n]) else None;
      match Word(Strip(TrimStart(a[n..]), ["general"]), "epistle")
      case None => None
      case Some(d) => Some((o, d))
  }

  /** The rest of the pattern of line 108: the optional words "of", "Paul",
      "the Apostle", "to" and "the", then a name of letters and spaces and an
      optional final "to". The optional groups are taken whenever present,
      and the lazy name leaves a final " to" to the last group. */
  function EpistleTarget(d: string): Option<string> {
    var e := Strip(Strip(Strip(Strip(Strip(d, ["of"]), ["paul"]), ["the", "apostle"]), ["to"]), ["the"]);
    var c := if |e| >= 3 && IsSpace(e[|e| - 3]) && EqualsCI(e[|e| - 2..], "to") then TrimEnd(e[..|e| - 2]) else e;
    if BookRun(c) then Some(c)
    else if BookRun(e) then Some(e)
    else None
  }

  /** Line 108 as written; the ordinal and the name. */
  function EpistleMatch(l: string): Option<(Option<string>, string)> {
    match EpistleHead(l)
    case None => None
    case Some((o, d)) =>
      match EpistleTarget(d)
      case None => None
      case Some(c) => Some((o, c))
  }

  /** The digit line 110 looks up for the ordinal as written: "1", "2" or
      "3" for "First", "Second" or "Third", and "" for a missing or
      differently capitalised ordinal. */
  function EpistleDigit(ordinal: Option<string>): string {
    if ordinal == Some("First") then "1"
    else if ordinal == Some("Second") then "2"
    else if ordinal == Some("Third") then "3"
    else ""
  }

  /** The name is "John" or "Peter", in any letter case. */
  predicate JohnOrPeter(who: string) {
    EqualsCI(who, "john") || EqualsCI(who, "peter")
  }

  /** Lines 113-118, given the ordinal digit and the cleaned name. */
  function EpistleName(books: set<string>, digit: string, who: string): (r: Heading)
    ensures r.Found? ==> r.name in books
  {
    var bookName := if digit != "" && JohnOrPeter(who)
      then digit + " " + (if Contains(Lower(who), "john") then "John" else "Peter")
      else who;
    Known(books, bookName)
  }

  /** Lines 110-118. */
  function EpistleBook(books: set<string>, ordinal: Option<string>, name: string): (r: Heading)
    ensures r.Found? ==> r.name in books
  {
    EpistleName(books, EpistleDigit(ordinal), CleanBookName(name))
  }

  /** The first test of line 122: "The Revelation", optionally followed by
      "of St. John the Divine" (the dot optional). */
  predicate RevelationTitle(l: string) {
    match Word(l, "the")
    case None => false
    case Some(a) =>
      HasPrefixCI(a, "revelation") &&
      (|a| == 10 ||
       (IsSpace(a[10]) &&
        match Words(TrimStart(a[10..]), ["of"])
        case None => false
        case Some(u) =>
          var v := if Word(u, "st.").Some? then Word(u, "st.") else Word(u, "st");
          v.Some? &&
          match Words(v.value, ["john", "the"])
          case None => false
          case Some(w) => EqualsCI(w, "divine")))
  }

  /** The chain of lines 67-128 on a normalised line `l`, given the result
      of the epistle pattern on it. */
  function Classify(l: string, books: set<string>, epistle: Option<(Option<string>, string)>): (r: Heading)
    ensures r.Found? ==> r.name in books || r.name in FIXED_NAMES
    ensures r == Undefined ==> MosesMatch(l).Some? && MosesMatch(l).value !in MOSES_TITLES
  {
    if MosesMatch(l).Some? then MosesBook(MosesMatch(l).value)
    else ClassifyNamed(l, books, epistle)
  }

  /** Lines 74-102: the prophets, the fixed titles, Kings and the gospels. */
  function ClassifyNamed(l: string, books: set<string>, epistle: Option<(Option<string>, string)>): (r: Heading)
    ensures r.Found? ==> r.name in books || r.name in FIXED_NAMES
    ensures r != Undefined
  {
    if ProphetMatch(l).Some? then KnownClean(books, ProphetMatch(l).value)
    else if Title(l, ["the"], "proverbs") then Found("Proverbs")
    else if Title(l, ["the", "song", "of"], "solomon") then Found("Song of Solomon")
    else if Title(l, ["the", "lamentations", "of"], "jeremiah") then Found("Lamentations")
    else if KingsMatch(l).Some? then KingsBook(books, KingsMatch(l).value.0, KingsMatch(l).value.1)
    else if GospelMatch(l).Some? then KnownClean(books, GospelMatch(l).value)
    else ClassifyLate(l, books, epistle)
  }

  /** Lines 105-128: Acts, the epistles, Revelation and the fallback. */
  function ClassifyLate(l: string, books: set<string>, epistle: Option<(Option<string>, string)>): (r: Heading)
    ensures r.Found? ==> r.name in books || r.name in FIXED_NAMES
    ensures r != Undefined
  {
    if Title(l, ["the", "acts", "of", "the"], "apostles") then Found("Acts")
    else if epistle.Some? then EpistleBook(books, epistle.value.0, epistle.value.1)
    else if RevelationTitle(l) || Contains(Lower(l), "revelation") then Found("Revelation")
    else KnownClean(books, l)
  }

  /** The line as the patterns see it. */
  function HeaderLine(line: string): string {
    CollapseSpaces(Trim(line))
  }

  function DetectBookFromHeader(line: string, books: set<string>): (r: Heading)
    ensures r.Found? ==> r.name in books || r.name in FIXED_NAMES
    ensures r == Undefined ==> MosesMatch(HeaderLine(line)).Some?
  {
    var l := HeaderLine(line);
    Classify(l, books, EpistleMatch(l))
  }

  // ---------------------------------------------------------------------
  // Matching facts
  // ---------------------------------------------------------------------

  /** A word followed by one space, before text that does not begin with
      whitespace. */
  lemma WordOn(a: string, w: string, x: string)
    requires Lower(a) == w && (x == [] || !IsSpace(x[0]))
    ensures Word(a + " " + x, w) == Some(x)
  {
    var s := a + " " + x;
    assert s[..|w|] == a;
    assert s[|w|..] == " " + x;
  }

  /** A character that differs from the pattern's, ignoring case. */
  lemma NoWord(s: string, w: string, i: nat)
    requires i < |w| && i < |s| && LowerChar(s[i]) != w[i]
    ensures Word(s, w).None? && !HasPrefixCI(s, w) && !EqualsCI(s, w)
  {
  }

  lemma AlternativeNone(s: string, words: seq<string>)
    requires s != [] && forall i :: 0 <= i < |words| ==> words[i] != [] && words[i][0] != LowerChar(s[0])
    ensures Alternative(s, words) == None
  {
    forall i | 0 <= i < |words|
      ensures Word(s, words[i]).None?
    {
      NoWord(s, words[i], 0);
    }
  }

  /** Two normalised pieces joined by one space are normalised. */
  lemma NormalizedJoin(a: string, x: string)
    requires Normalized(a) && a != [] && Normalized(x) && x != []
    ensures Normalized(a + " " + x)
  {
    var s := a + " " + x;
    forall i | 0 <= i < |s| && IsSpace(s[i])
      ensures s[i] == ' ' && (i + 1 < |s| ==> !IsSpace(s[i + 1]))
    {
      if i < |a| {
        assert s[i] == a[i] && i + 1 < |a|;
        assert s[i + 1] == a[i + 1];
      } else if i > |a| {
        assert s[i] == x[i - |a| - 1];
        if i + 1 < |s| { assert s[i + 1] == x[i - |a|]; }
      } else {
        assert s[i + 1] == x[0];
      }
    }
    assert s[0] == a[0] && s[|s| - 1] == x[|x| - 1];
  }

  // ---------------------------------------------------------------------
  // Properties of cleanBookName
  // ---------------------------------------------------------------------

  /** What a pattern leaves of a normalised string is normalised and does
      not begin with whitespace. */
  lemma WordNormalized(s: string, w: string)
    requires Normalized(s) && Word(s, w).Some?
    ensures Normalized(Word(s, w).value)
  {
    NormalizedSuffix(s, |s| - |Word(s, w).value|);
  }

  lemma WordsStep(s: string, ws: seq<string>)
    requires ws != [] && Words(s, ws).Some?
    ensures Word(s, ws[0]).Some? && Words(Word(s, ws[0]).value, ws[1..]) == Words(s, ws)
  {
  }

  /** The first word of a list matched: the rest continues after it. */
  lemma WordsHead(s: string, ws: seq<string>, r: string)
    requires ws != [] && Word(s, ws[0]) == Some(r)
    ensures Words(s, ws) == Words(r, ws[1..])
  {
  }

  /** `The\s+Gospel\s+` fails once the word after "The" does not begin with "g". */
  lemma GospelWordsNone(l: string, r: string)
    requires Word(l, "the") == Some(r) && r != [] && LowerChar(r[0]) != 'g'
    ensures Words(l, ["the", "gospel"]).None?
  {
    var ws := ["the", "gospel"];
    assert ws[0] == "the" && ws[1..] == ["gospel"];
    WordsHead(l, ws, r);
    NoWord(r, "gospel", 0);
  }

  lemma {:induction false} WordsNormalized(s: string, ws: seq<string>)
    requires Normalized(s) && Words(s, ws).Some?
    ensures Normalized(Words(s, ws).value)
    decreases |ws|
  {
    if ws != [] {
      WordsStep(s, ws);
      var t := Word(s, ws[0]).value;
      WordNormalized(s, ws[0]);
      WordsNormalized(t, ws[1..]);
    }
  }

  lemma StripNormalized(s: string, ws: seq<string>)
    requires Normalized(s)
    ensures Normalized(Strip(s, ws))
  {
    if Words(s, ws).Some? {
      WordsNormalized(s, ws);
    }
  }

  lemma {:induction false} StripAllNormalized(s: string, ps: seq<seq<string>>)
    requires Normalized(s)
    ensures Normalized(StripAll(s, ps))
    decreases |ps|
  {
    if ps != [] {
      StripNormalized(s, ps[0]);
      StripAllNormalized(Strip(s, ps[0]), ps[1..]);
    }
  }

  lemma StrippedNormalized(raw: string)
    ensures Normalized(Stripped(raw))
  {
    NormalizeCollapseTrim(raw);
    StripNormalized(Trim(CollapseSpaces(raw)), ["the"]);
    StripAllNormalized(Strip(Trim(CollapseSpaces(raw)), ["the"]), PREFIXES);
  }

  lemma ReplacementSingleSpaced(m: string)
    ensures SingleSpaced(OrdinalReplacement(m))
  {
    var r := OrdinalReplacement(m);
    if r == "undefined" {
      assert forall i :: 0 <= i < |r| ==> IsLetter(r[i]);
    }
  }

  /** One branch of `Numbered`: the replacement put before what follows
      the ordinal. */
  lemma ReplacedSingleSpaced(s: string, w: string)
    requires Normalized(s) && Word(s, w).Some?
    ensures SingleSpaced(OrdinalReplacement(s[..|w|]) + Word(s, w).value)
  {
    WordNormalized(s, w);
    ReplacementSingleSpaced(s[..|w|]);
    SingleSpacedConcat(OrdinalReplacement(s[..|w|]), Word(s, w).value);
  }

  lemma NumberedSingleSpaced(s: string)
    requires Normalized(s)
    ensures SingleSpaced(Numbered(s))
  {
    if Word(s, "first").Some? {
      NumberedFires(s, "first", Word(s, "first").value);
      ReplacedSingleSpaced(s, "first");
    } else if Word(s, "second").Some? {
      NumberedFires(s, "second", Word(s, "second").value);
      ReplacedSingleSpaced(s, "second");
    } else if Word(s, "third").Some? {
      NumberedFires(s, "third", Word(s, "third").value);
      ReplacedSingleSpaced(s, "third");
    } else {
      NumberedIdle(s);
    }
  }

  lemma NumberedIdle(s: string)
    requires Word(s, "first").None? && Word(s, "second").None? && Word(s, "third").None?
    ensures Numbered(s) == s
  {
  }

  lemma WordsSingleSpaced(s: string, ws: seq<string>)
    requires SingleSpaced(s) && Words(s, ws).Some?
    ensures SingleSpaced(Words(s, ws).value)
  {
    DropSingleSpaced(s, |s| - |Words(s, ws).value|);
  }

  lemma DigitSpaceBefore(d: char, v: string)
    requires IsDigit(d) && SingleSpaced(v) && (v == [] || !IsSpace(v[0]))
    ensures SingleSpaced([d, ' '] + v)
  {
    assert SingleSpaced([d, ' ']);
    SingleSpacedConcat([d, ' '], v);
  }

  /** `DigitBookOf` either leaves its argument alone or puts the digit and
      one space before a suffix of it that does not begin with whitespace. */
  lemma DigitBookOfSplit(t: string) returns (v: string)
    ensures DigitBookOfApplies(t) ==>
      DigitBookOf(t) == [t[0], ' '] + v && IsSuffix(v, t) && (v == [] || !IsSpace(v[0]))
    ensures !DigitBookOfApplies(t) ==> DigitBookOf(t) == t
  {
    if DigitBookOfApplies(t) {
      v := Words(TrimStart(t[1..]), ["book of"]).value;
      DigitBookOfRest(t);
    } else {
      v := t;
    }
  }

  lemma DigitBookOfRest(t: string)
    requires DigitBookOfApplies(t)
    ensures var v := Words(TrimStart(t[1..]), ["book of"]).value;
      IsSuffix(v, t) && (v == [] || !IsSpace(v[0]))
  {
    var u := TrimStart(t[1..]);
    var ws := ["book of"];
    assert ws != [];
    SuffixOfSuffix(t, t[1..], u);
    SuffixOfSuffix(t, u, Words(u, ws).value);
  }

  lemma DigitBookOfSingleSpaced(t: string)
    requires SingleSpaced(t)
    ensures SingleSpaced(DigitBookOf(t))
  {
    var v := DigitBookOfSplit(t);
    if DigitBookOfApplies(t) {
      SuffixSingleSpaced(t, v);
      DigitSpaceBefore(t[0], v);
    }
  }

  /** The result of `cleanBookName` is one of the table's canonical names,
      or has single spaces between words and no whitespace at either end. */
  lemma CleanBookNameNormalized(raw: string)
    ensures CleanBookName(raw) in VARIANTS.Values || Normalized(CleanBookName(raw))
  {
    var s := Stripped(raw);
    StrippedNormalized(raw);
    if s !in VARIANTS {
      NumberedSingleSpaced(s);
      DigitBookOfSingleSpaced(Numbered(s));
      TrimSingleSpaced(DigitBookOf(Numbered(s)));
    }
  }

  // ---------------------------------------------------------------------

  lemma {:induction false} StripAllIdle(s: string, ps: seq<seq<string>>)
    requires forall i :: 0 <= i < |ps| ==> Words(s, ps[i]).None?
    ensures StripAll(s, ps) == s
    decreases |ps|
  {
    if ps != [] {
      assert forall i :: 0 <= i < |ps[1..]| ==> ps[1..][i] == ps[i + 1];
      StripAllIdle(s, ps[1..]);
    }
  }

  /** No prefix of the chain begins with the name's first letter. */
  lemma PrefixesIdle(s: string)
    requires s != [] && LowerChar(s[0]) != 'b' && LowerChar(s[0]) != 'p'
    requires LowerChar(s[0]) != 'g' && LowerChar(s[0]) != 'e'
    ensures StripAll(s, PREFIXES) == s
  {
    forall i | 0 <= i < |PREFIXES|
      ensures Words(s, PREFIXES[i]).None?
    {
      NoWord(s, PREFIXES[i][0], 0);
    }
    StripAllIdle(s, PREFIXES);
  }

  /** How the keys of the variants table begin: "So", "Ps", "Pr", "La", or
      a digit and a space. */
  predicate KeyStart(s: string)
    requires |s| >= 2
  {
    (s[0] == 'S' && s[1] == 'o') || (s[0] == 'P' && (s[1] == 's' || s[1] == 'r'))
    || (s[0] == 'L' && s[1] == 'a') || ((s[0] == '1' || s[0] == '2') && s[1] == ' ')
  }

  lemma NotVariant(s: string)
    requires |s| >= 2 && !KeyStart(s)
    ensures s !in VARIANTS
  {
  }

  /** A canonical-looking name: normalised, and none of the rewrites of
      lines 6-57 applies to it. */
  predicate Plain(x: string) {
    Normalized(x) && x != []
    && Word(x, "the").None?
    && (forall i :: 0 <= i < |PREFIXES| ==> Words(x, PREFIXES[i]).None?)
    && x !in VARIANTS
    && Word(x, "first").None? && Word(x, "second").None? && Word(x, "third").None?
    && DigitBookOf(x) == x
  }

  lemma StrippedPlain(raw: string, x: string)
    requires Plain(x) && Strip(Trim(CollapseSpaces(raw)), ["the"]) == x
    ensures CleanBookName(raw) == x
  {
    StripAllIdle(x, PREFIXES);
    assert Stripped(raw) == x;
    NormalizedTrim(x);
  }

  /** "The " before a normalised name keeps it normalised, and the
      pattern `^The\s+` takes exactly that prefix off again. */
  lemma TheJoin(x: string)
    requires Normalized(x) && x != []
    ensures Normalized("The " + x) && Word("The " + x, "the") == Some(x)
  {
    assert LetterRun("The");
    LetterRunNormalized("The");
    NormalizedJoin("The", x);
    assert "The " + x == "The" + " " + x;
    WordOn("The", "the", x);
  }

  /** A name none of the rewrites applies to comes back unchanged, with or
      without a leading "The". */
  lemma CanonicalUnchanged(x: string)
    requires Plain(x)
    ensures CleanBookName(x) == x
    ensures CleanBookName("The " + x) == x
  {
    CollapseNormalized(x);
    NormalizedTrim(x);
    StrippedPlain(x, x);
    var t := "The " + x;
    TheJoin(x);
    CollapseNormalized(t);
    NormalizedTrim(t);
    StrippedPlain(t, x);
  }

  // ---------------------------------------------------------------------
  // The variants table
  // ---------------------------------------------------------------------

  /** Letters, digits and single inner spaces. */
  predicate Spaced(s: string) {
    && s != [] && s[0] != ' ' && s[|s| - 1] != ' '
    && (forall i :: 0 <= i < |s| ==> IsLetter(s[i]) || IsDigit(s[i]) || s[i] == ' ')
    && (forall i :: 0 <= i < |s| - 1 ==> s[i] != ' ' || s[i + 1] != ' ')
  }

  lemma SpacedNormalized(s: string)
    requires Spaced(s)
    ensures Normalized(s)
  {
    forall i, j | 0 <= i < |s| && 0 <= j < |s| && j == i + 1
      ensures !IsSpace(s[i]) || !IsSpace(s[j])
    {
    }
  }

  /** The keys of the table, in the order of lines 21-43. */
  const VARIANT_KEYS: seq<string> :=
    ["Song of Songs", "Song Of Solomon", "Song of Solomon", "Psalms", "Psalm", "Proverbs",
     "Lamentations of Jeremiah", "1 Sam", "2 Sam", "1 Kin", "2 Kin", "1 Chr", "2 Chr", "1 Cor",
     "2 Cor", "1 Thess", "2 Thess", "1 Tim", "2 Tim", "1 Pet", "2 Pet"]

  lemma VariantKeysListed(k: string)
    requires k in VARIANTS
    ensures k in VARIANT_KEYS
  {
  }

  lemma SongKeysSpaced()
    ensures Spaced("Song of Songs")
    ensures Spaced("Song Of Solomon")
    ensures Spaced("Song of Solomon")
  {
  }

  lemma PoetryKeysSpaced()
    ensures Spaced("Psalms")
    ensures Spaced("Psalm")
    ensures Spaced("Proverbs")
  {
  }

  lemma LamentationsKeySpaced()
    ensures Spaced("Lamentations of Jeremiah")
  {
  }

  lemma EarlyKeysSpaced()
    ensures Spaced("1 Sam")
    ensures Spaced("2 Sam")
    ensures Spaced("1 Kin")
    ensures Spaced("2 Kin")
    ensures Spaced("1 Chr")
    ensures Spaced("2 Chr")
    ensures Spaced("1 Cor")
  {
  }

  lemma LateKeysSpaced()
    ensures Spaced("2 Cor")
    ensures Spaced("1 Thess")
    ensures Spaced("2 Thess")
    ensures Spaced("1 Tim")
    ensures Spaced("2 Tim")
    ensures Spaced("1 Pet")
    ensures Spaced("2 Pet")
  {
  }

  /** How the table's keys look: normalised, and beginning so that neither
      "The " nor any prefix of the chain applies. */
  lemma VariantKeyShape(k: string)
    requires k in VARIANTS
    ensures Normalized(k) && |k| >= 4
    ensures k[0] == 'S' || k[0] == 'L' || k[0] == '1' || k[0] == '2' ||
            (k[0] == 'P' && (k[1] == 's' || (k[1] == 'r' && k[3] == 'v')))
  {
    VariantKeySpaced(k);
    SpacedNormalized(k);
    VariantKeyStart(k);
  }

  lemma VariantKeySpaced(k: string)
    requires k in VARIANTS
    ensures Spaced(k)
  {
    VariantKeysListed(k);
    SongKeysSpaced();
    PoetryKeysSpaced();
    LamentationsKeySpaced();
    EarlyKeysSpaced();
    LateKeysSpaced();
  }

  lemma VariantKeyStart(k: string)
    requires k in VARIANTS
    ensures |k| >= 4
    ensures k[0] == 'S' || k[0] == 'L' || k[0] == '1' || k[0] == '2' ||
            (k[0] == 'P' && (k[1] == 's' || (k[1] == 'r' && k[3] == 'v')))
  {
    VariantKeysListed(k);
  }

  lemma VariantKeyIdle(k: string)
    requires k in VARIANTS
    ensures Word(k, "the").None?
    ensures forall i :: 0 <= i < |PREFIXES| ==> Words(k, PREFIXES[i]).None?
  {
    VariantKeyStart(k);
    NoWord(k, "the", 0);
    forall i | 0 <= i < |PREFIXES| ensures Words(k, PREFIXES[i]).None? {
      VariantKeyNoPrefix(k, i);
    }
  }

  lemma VariantKeyNoPrefix(k: string, i: nat)
    requires i < |PREFIXES| && |k| >= 4
    requires k[0] == 'S' || k[0] == 'L' || k[0] == '1' || k[0] == '2' ||
             (k[0] == 'P' && (k[1] == 's' || (k[1] == 'r' && k[3] == 'v')))
    ensures Words(k, PREFIXES[i]).None?
  {
    PrefixHead(i);
    if i == 3 {
      ProphetNoWord(k);
    } else {
      NoWord(k, PREFIXES[i][0], 0);
    }
    WordsFirstNone(k, PREFIXES[i]);
  }

  lemma ProphetNoWord(k: string)
    requires |k| >= 4
    requires k[0] == 'S' || k[0] == 'L' || k[0] == '1' || k[0] == '2' ||
             (k[0] == 'P' && (k[1] == 's' || (k[1] == 'r' && k[3] == 'v')))
    ensures Word(k, "prophet").None?
  {
    if k[0] != 'P' {
      NoWord(k, "prophet", 0);
    } else if k[1] == 's' {
      NoWord(k, "prophet", 1);
    } else {
      NoWord(k, "prophet", 3);
    }
  }

  /** The first word of each prefix of the chain. */
  lemma PrefixHead(i: nat)
    requires i < |PREFIXES|
    ensures PREFIXES[i] != [] && |PREFIXES[i][0]| >= 4
    ensures i == 3 ==> PREFIXES[i][0] == "prophet"
    ensures var c := PREFIXES[i][0][0]; i != 3 ==> c == 'b' || c == 'g' || c == 'e'
  {
  }

  lemma WordsFirstNone(s: string, ws: seq<string>)
    requires ws != [] && Word(s, ws[0]).None?
    ensures Words(s, ws).None?
  {
  }

  /** A normalised name that neither "The " nor any prefix of the chain
      applies to is left as it is by the stripping, with or without a
      leading "The ". */
  lemma StrippedIdle(x: string)
    requires Normalized(x) && x != [] && Word(x, "the").None?
    requires forall i :: 0 <= i < |PREFIXES| ==> Words(x, PREFIXES[i]).None?
    ensures Stripped(x) == x && Stripped("The " + x) == x
  {
    CollapseNormalized(x);
    NormalizedTrim(x);
    StripAllIdle(x, PREFIXES);
    var t := "The " + x;
    TheJoin(x);
    CollapseNormalized(t);
    NormalizedTrim(t);
    assert Strip(t, ["the"]) == x;
  }

  /** Each spelling in the table, bare or after "The ", is replaced by its
      canonical name: "Psalm" by "Psalms", "Lamentations of Jeremiah" by
      "Lamentations", "1 Cor" by "1 Corinthians", and so on. */
  lemma VariantsApplied(k: string)
    requires k in VARIANTS
    ensures CleanBookName(k) == VARIANTS[k]
    ensures CleanBookName("The " + k) == VARIANTS[k]
  {
    VariantKeyShape(k);
    VariantKeyIdle(k);
    StrippedIdle(k);
  }

  // ---------------------------------------------------------------------
  // Ordinals in cleanBookName
  // ---------------------------------------------------------------------

  lemma TrimStartSpace(x: string)
    requires x != [] && !IsSpace(x[0])
    ensures TrimStart(" " + x) == x
  {
    assert (" " + x)[1..] == x;
  }

  /** `Numbered` on a title ordinal, its lower-case word and its digit. */
  predicate OrdinalTriple(o: string, w: string, d: string) {
    (o == "First" && w == "first" && d == "1")
    || (o == "Second" && w == "second" && d == "2")
    || (o == "Third" && w == "third" && d == "3")
  }

  /** The ordinal title in lower case. */
  lemma OrdinalLower(o: string, w: string, d: string)
    requires OrdinalTriple(o, w, d)
    ensures Lower(o) == w && |o| == |w| && OrdinalReplacement(o) == d + " "
    ensures w != "first" ==> LowerChar(o[0]) != 'f'
    ensures w == "third" ==> LowerChar(o[0]) != 's'
  {
  }

  lemma JoinHead(o: string, x: string)
    requires o != []
    ensures (o + " " + x)[..|o|] == o && (o + " " + x)[0] == o[0]
  {
  }

  /** Line 54 once the alternative and its rest are known. */
  lemma NumberedFires(s: string, w: string, x: string)
    requires Word(s, w) == Some(x)
    requires w == "first" || (w == "second" && Word(s, "first").None?)
      || (w == "third" && Word(s, "first").None? && Word(s, "second").None?)
    ensures Numbered(s) == OrdinalReplacement(s[..|w|]) + x
  {
  }

  lemma NumberedOrdinal(o: string, w: string, d: string, x: string)
    requires OrdinalTriple(o, w, d) && x != [] && !IsSpace(x[0])
    ensures Numbered(o + " " + x) == d + " " + x
  {
    OrdinalLower(o, w, d);
    WordOn(o, w, x);
    JoinHead(o, x);
    if w != "first" {
      NoWord(o + " " + x, "first", 0);
    }
    if w == "third" {
      NoWord(o + " " + x, "second", 0);
    }
    NumberedFires(o + " " + x, w, x);
  }


  /** A normalised name that "The " does not begin and whose first letter
      starts no prefix of the chain is left as it is by the stripping. */
  lemma StrippedStart(s: string)
    requires Normalized(s) && s != [] && Word(s, "the").None?
    requires LowerChar(s[0]) != 'b' && LowerChar(s[0]) != 'p'
    requires LowerChar(s[0]) != 'g' && LowerChar(s[0]) != 'e'
    ensures Stripped(s) == s
  {
    CollapseNormalized(s);
    NormalizedTrim(s);
    assert Strip(s, ["the"]) == s;
    PrefixesIdle(s);
  }

  lemma OrdinalNormalized(o: string, w: string, d: string)
    requires OrdinalTriple(o, w, d)
    ensures Normalized(o) && |o| >= 5
  {
    assert LetterRun(o);
    LetterRunNormalized(o);
  }

  lemma OrdinalJoin(o: string, w: string, d: string, x: string)
    requires OrdinalTriple(o, w, d) && Normalized(x) && x != []
    ensures Normalized(o + " " + x) && |o + " " + x| >= 3
    ensures var s := o + " " + x; s[0] == o[0] && s[1] == o[1] && s[2] == o[2]
  {
    OrdinalNormalized(o, w, d);
    NormalizedJoin(o, x);
  }

  lemma StrippedOrdinal(o: string, w: string, d: string, x: string)
    requires OrdinalTriple(o, w, d) && Normalized(x) && x != []
    ensures Normalized(o + " " + x) && Stripped(o + " " + x) == o + " " + x
    ensures o + " " + x !in VARIANTS
  {
    var s := o + " " + x;
    OrdinalJoin(o, w, d, x);
    NotVariant(s);
    NoWord(s, "the", if o == "Third" then 2 else 0);
    StrippedStart(s);
  }

  lemma BookOfWord(x: string)
    requires x != [] && !IsSpace(x[0])
    ensures Words("Book of " + x, ["book of"]) == Some(x)
  {
    BookOfLower();
    BookOfSpaced(x);
    WordOn("Book of", "book of", x);
    WordsOne("Book of " + x, "book of");
  }

  lemma BookOfLower()
    ensures Lower("Book of") == "book of"
  {
  }

  lemma BookOfSpaced(x: string)
    ensures "Book of" + " " + x == "Book of " + x
  {
  }

  lemma WordsOne(s: string, w: string)
    ensures Words(s, [w]) == Word(s, w)
  {
    assert [w][1..] == [];
  }

  /** The digit, a space and the rest, with the rest from index 1 on. */
  lemma DigitSpace(d: string, x: string)
    requires |d| == 1 && x != [] && !IsSpace(x[0])
    ensures TrimStart((d + " " + x)[1..]) == x
  {
    assert (d + " " + x)[1..] == " " + x;
    TrimStartSpace(x);
  }

  /** Line 56 applied: the digit, a space and what follows "Book of". */
  lemma DigitBookOfFires(s: string, x: string)
    requires |s| >= 2 && IsDigit(s[0]) && IsSpace(s[1])
    requires Words(TrimStart(s[1..]), ["book of"]) == Some(x)
    ensures DigitBookOf(s) == [s[0], ' '] + x
  {
    assert DigitBookOfApplies(s);
  }

  lemma DigitHead(d: string, b: string)
    requires |d| == 1
    ensures var s := d + " " + b; |s| >= 2 && s[0] == d[0] && s[1] == ' '
    ensures d + " " + b == [d[0], ' '] + b
  {
  }

  lemma DigitBookOfBook(d: string, x: string)
    requires |d| == 1 && IsDigit(d[0]) && x != [] && !IsSpace(x[0])
    ensures DigitBookOf(d + " " + ("Book of " + x)) == d + " " + x
  {
    DigitHead(d, "Book of " + x);
    DigitHead(d, x);
    assert "Book of " + x != [] && !IsSpace(("Book of " + x)[0]);
    DigitSpace(d, "Book of " + x);
    BookOfWord(x);
    DigitBookOfFires(d + " " + ("Book of " + x), x);
  }

  lemma DigitBookOfPlain(d: string, x: string)
    requires |d| == 1 && x != [] && !IsSpace(x[0]) && Word(x, "book of").None?
    ensures DigitBookOf(d + " " + x) == d + " " + x
  {
    DigitSpace(d, x);
  }

  lemma DigitBookOfOn(d: string, x: string)
    requires |d| == 1 && IsDigit(d[0]) && x != [] && !IsSpace(x[0])
    ensures DigitBookOf(d + " Book of " + x) == d + " " + x
    ensures Word(x, "book of").None? ==> DigitBookOf(d + " " + x) == d + " " + x
  {
    assert d + " Book of " + x == d + " " + ("Book of " + x);
    DigitBookOfBook(d, x);
    if Word(x, "book of").None? {
      DigitBookOfPlain(d, x);
    }
  }



  /** A digit, a space and a normalised name: trimming leaves it. */
  lemma DigitJoinTrimmed(d: string, x: string)
    requires |d| == 1 && IsDigit(d[0]) && Normalized(x) && x != []
    ensures Trim(d + " " + x) == d + " " + x
  {
    assert Normalized(d);
    NormalizedJoin(d, x);
    NormalizedTrim(d + " " + x);
  }

  /** An ordinal title before a normalised name: it becomes the digit, and
      "Book of" after the digit goes. */
  lemma OrdinalClean(o: string, w: string, d: string, x: string)
    requires OrdinalTriple(o, w, d) && Normalized(x) && x != []
    ensures CleanBookName(o + " " + x) == Trim(DigitBookOf(d + " " + x))
  {
    StrippedOrdinal(o, w, d, x);
    NumberedOrdinal(o, w, d, x);
  }

  lemma OrdinalDigit(o: string, w: string, d: string)
    requires OrdinalTriple(o, w, d)
    ensures |d| == 1 && IsDigit(d[0])
  {
  }

  /** "First X", "Second X" and "Third X" become "1 X", "2 X" and "3 X". */
  lemma OrdinalNumbered(o: string, w: string, d: string, x: string)
    requires OrdinalTriple(o, w, d) && Normalized(x) && x != [] && Word(x, "book of").None?
    ensures CleanBookName(o + " " + x) == d + " " + x
  {
    OrdinalDigit(o, w, d);
    DigitBookOfOn(d, x);
    DigitJoinTrimmed(d, x);
    OrdinalClean(o, w, d, x);
  }

  lemma SpaceBookOf(a: string, x: string)
    ensures a + " Book of " + x == a + " " + ("Book of " + x)
  {
  }

  lemma BookOfJoin(x: string)
    requires Normalized(x) && x != []
    ensures Normalized("Book of " + x)
  {
    assert LetterRun("Book") && LetterRun("of");
    LetterRunNormalized("Book");
    LetterRunNormalized("of");
    NormalizedJoin("Book", "of");
    assert "Book" + " " + "of" == "Book of";
    NormalizedJoin("Book of", x);
    assert "Book of" + " " + x == "Book of " + x;
  }

  /** "First Book of X", "Second Book of X" and "Third Book of X" become
      "1 X", "2 X" and "3 X". */
  lemma OrdinalBookOf(o: string, w: string, d: string, x: string)
    requires OrdinalTriple(o, w, d) && Normalized(x) && x != []
    ensures CleanBookName(o + " Book of " + x) == d + " " + x
  {
    var b := "Book of " + x;
    OrdinalDigit(o, w, d);
    BookOfJoin(x);
    calc {
      CleanBookName(o + " Book of " + x);
      { SpaceBookOf(o, x); }
      CleanBookName(o + " " + b);
      { OrdinalClean(o, w, d, b); }
      Trim(DigitBookOf(d + " " + b));
      { SpaceBookOf(d, x); }
      Trim(DigitBookOf(d + " Book of " + x));
      { DigitBookOfOn(d, x); }
      Trim(d + " " + x);
      { DigitJoinTrimmed(d, x); }
      d + " " + x;
    }
  }

  // ---------------------------------------------------------------------
  // The books of Moses
  // ---------------------------------------------------------------------

  /** The alternatives of line 67 tried in order. */
  lemma MosesAlternative(s: string)
    ensures Alternative(s, MOSES_ORDINALS) ==
      if Word(s, MOSES_ORDINALS[0]).Some? then Some(0)
      else if Word(s, MOSES_ORDINALS[1]).Some? then Some(1)
      else if Word(s, MOSES_ORDINALS[2]).Some? then Some(2)
      else if Word(s, MOSES_ORDINALS[3]).Some? then Some(3)
      else if Word(s, MOSES_ORDINALS[4]).Some? then Some(4)
      else None
  {
    var ws := MOSES_ORDINALS;
    assert |ws| == 5;
    assert ws[1..][1..][1..][1..][1..] == [];
  }

  /** Where the ordinal words of line 67 first differ from one another. */
  function OrdinalClash(i: nat, j: nat): nat {
    if (j == 0 && i == 3) || (j == 3 && i == 4) then 1
    else if j == 0 && i == 4 then 2
    else 0
  }

  /** A title ordinal of the books of Moses selects its own alternative. */
  lemma MosesOrdinal(i: nat, r: string)
    requires i < 5 && r != [] && !IsSpace(r[0])
    ensures Alternative(MOSES_TITLES[i] + " " + r, MOSES_ORDINALS) == Some(i)
    ensures Word(MOSES_TITLES[i] + " " + r, MOSES_ORDINALS[i]) == Some(r)
    ensures (MOSES_TITLES[i] + " " + r)[..|MOSES_ORDINALS[i]|] == MOSES_TITLES[i]
  {
    MosesOwnWord(i, r);
    if i > 0 { MosesEarlier(i, 0, r); }
    if i > 1 { MosesEarlier(i, 1, r); }
    if i > 2 { MosesEarlier(i, 2, r); }
    if i > 3 { MosesEarlier(i, 3, r); }
    MosesAlternative(MOSES_TITLES[i] + " " + r);
  }

  /** The title ordinal passes its own alternative. */
  lemma MosesOwnWord(i: nat, r: string)
    requires i < 5 && r != [] && !IsSpace(r[0])
    ensures Word(MOSES_TITLES[i] + " " + r, MOSES_ORDINALS[i]) == Some(r)
    ensures (MOSES_TITLES[i] + " " + r)[..|MOSES_ORDINALS[i]|] == MOSES_TITLES[i]
  {
    var t := MOSES_TITLES[i];
    assert (t + " " + r)[..|t|] == t;
    assert Lower(t) == MOSES_ORDINALS[i];
    WordOn(t, MOSES_ORDINALS[i], r);
  }

  /** The title ordinal fails every earlier alternative. */
  lemma MosesEarlier(i: nat, j: nat, r: string)
    requires j < i < 5
    ensures Word(MOSES_TITLES[i] + " " + r, MOSES_ORDINALS[j]).None?
  {
    var t := MOSES_TITLES[i];
    var k := OrdinalClash(i, j);
    assert (t + " " + r)[k] == t[k];
    NoWord(t + " " + r, MOSES_ORDINALS[j], k);
  }

  /** `Book\s+of\s+` before text that does not begin with whitespace. */
  lemma OfWords(c: string)
    requires c != [] && !IsSpace(c[0])
    ensures Words("of " + c, ["of"]) == Some(c)
  {
    assert "of" + " " + c == "of " + c;
    WordOn("of", "of", c);
  }

  lemma BookWord(c: string)
    ensures Word("Book of " + c, "book") == Some("of " + c)
  {
    assert "Book" + " " + ("of " + c) == "Book of " + c;
    WordOn("Book", "book", "of " + c);
  }

  lemma BookOfWords(c: string)
    requires c != [] && !IsSpace(c[0])
    ensures Words("Book of " + c, ["book", "of"]) == Some(c)
  {
    BookWord(c);
    OfWords(c);
    assert ["book", "of"][1..] == ["of"];
  }

  /** `Moses[,:]\s*Called\s+` before a name. */
  lemma MosesCalled(x: string)
    requires BookRun(x) && IsLetter(x[0])
    ensures CalledTail("Moses, Called " + x)
  {
    MosesCalledSlices(x);
    CalledWord(x);
    MosesLower();
    CalledTailOn("Moses, Called " + x, x);
  }

  lemma MosesLower()
    ensures Lower("Moses") == "moses"
  {
  }

  lemma CalledTailOn(c: string, d: string)
    requires |c| > 5 && Lower(c[..5]) == "moses" && c[5] == ','
    requires Word(TrimStart(c[6..]), "called") == Some(d) && BookRun(d)
    ensures CalledTail(c)
  {
  }

  lemma MosesCalledSlices(x: string)
    ensures var c := "Moses, Called " + x; |c| > 6 && c[..5] == "Moses" && c[5] == ','
    ensures ("Moses, Called " + x)[6..] == " " + ("Called " + x)
  {
  }

  lemma CalledWord(x: string)
    requires x != [] && !IsSpace(x[0])
    ensures Word(TrimStart(" " + ("Called " + x)), "called") == Some(x)
  {
    CalledStart(x);
    TrimStartSpace("Called " + x);
    CalledLower();
    WordOn("Called", "called", x);
  }

  lemma CalledLower()
    ensures Lower("Called") == "called"
  {
  }

  lemma CalledStart(x: string)
    ensures "Called " + x != [] && !IsSpace(("Called " + x)[0])
    ensures "Called" + " " + x == "Called " + x
  {
    assert ("Called " + x)[0] == 'C';
  }

  function MosesHeading(i: nat, x: string): string
    requires i < 5
  {
    "The " + MOSES_TITLES[i] + " Book of Moses, Called " + x
  }

  /** Line 67 after `The\s+` once its pieces are found. */
  lemma MosesOrdinalFires(a: string, i: nat, c: string)
    requires i < 5 && Alternative(a, MOSES_ORDINALS) == Some(i) && Word(a, MOSES_ORDINALS[i]).Some?
    requires Words(Word(a, MOSES_ORDINALS[i]).value, ["book", "of"]) == Some(c) && CalledTail(c)
    ensures MosesOrdinalMatch(a) == Some(a[..|MOSES_ORDINALS[i]|])
  {
  }

  lemma MosesOrdinalMatched(i: nat, x: string)
    requires i < 5 && BookRun(x) && IsLetter(x[0])
    ensures MosesOrdinalMatch(MOSES_TITLES[i] + " " + ("Book of " + ("Moses, Called " + x)))
      == Some(MOSES_TITLES[i])
  {
    var c := "Moses, Called " + x;
    MosesOrdinal(i, "Book of " + c);
    BookOfWords(c);
    MosesCalled(x);
    MosesOrdinalFires(MOSES_TITLES[i] + " " + ("Book of " + c), i, c);
  }

  lemma MosesMatched(i: nat, x: string)
    requires i < 5 && BookRun(x) && IsLetter(x[0])
    ensures MosesMatch(MosesHeading(i, x)) == Some(MOSES_TITLES[i])
  {
    var a := MOSES_TITLES[i] + " " + ("Book of " + ("Moses, Called " + x));
    MosesHeadingSplit(i, x);
    assert a[0] == MOSES_TITLES[i][0];
    TheWord(a);
    MosesOrdinalMatched(i, x);
  }

  /** `The\s+` before text that does not begin with whitespace. */
  lemma TheWord(a: string)
    requires a != [] && !IsSpace(a[0])
    ensures Word("The" + " " + a, "the") == Some(a)
  {
    WordOn("The", "the", a);
  }

  lemma MosesHeadingSplit(i: nat, x: string)
    requires i < 5
    ensures MosesHeading(i, x) == "The" + " " + (MOSES_TITLES[i] + " " + ("Book of " + ("Moses, Called " + x)))
  {
  }

  lemma MosesBookOf(i: nat)
    requires i < 5
    ensures MosesBook(MOSES_TITLES[i]) == Found(MOSES_BOOKS[i])
  {
  }

  /** A heading "The First Book of Moses, Called Genesis", and likewise
      for the second to the fifth, gives Genesis, Exodus, Leviticus,
      Numbers and Deuteronomy, whatever name follows "Called". */
  lemma MosesHeadings(line: string, i: nat, x: string, books: set<string>)
    requires i < 5 && BookRun(x) && IsLetter(x[0])
    requires HeaderLine(line) == MosesHeading(i, x)
    ensures DetectBookFromHeader(line, books) == Found(MOSES_BOOKS[i])
  {
    var l := MosesHeading(i, x);
    MosesMatched(i, x);
    MosesBookOf(i);
    assert Classify(l, books, EpistleMatch(l)) == MosesBook(MOSES_TITLES[i]);
  }

  // ---------------------------------------------------------------------
  // Headings that the early patterns of detectBookFromHeader pass by
  // ---------------------------------------------------------------------

  lemma TheLine(r: string)
    requires r != [] && !IsSpace(r[0])
    ensures Word("The " + r, "the") == Some(r)
  {
    assert "The " + r == "The" + " " + r;
    WordOn("The", "the", r);
  }

  /** No pattern of lines 67-102 matches, and neither does the Acts title
      of line 105. */
  predicate ReachesLate(l: string) {
    && MosesMatch(l).None? && ProphetMatch(l).None?
    && !Title(l, ["the"], "proverbs") && !Title(l, ["the", "song", "of"], "solomon")
    && !Title(l, ["the", "lamentations", "of"], "jeremiah")
    && KingsMatch(l).None? && GospelMatch(l).None?
  }

  lemma ClassifyReachesLate(l: string, books: set<string>, e: Option<(Option<string>, string)>)
    requires ReachesLate(l)
    ensures Classify(l, books, e) == ClassifyLate(l, books, e)
  {
  }

  /** A pattern `The\s+w\s+…` or `^The\s+w$` fails on a line whose word
      after "The" begins with another letter. */
  lemma TitleNone(l: string, r: string, ws: seq<string>, last: string)
    requires Word(l, "the") == Some(r) && r != []
    requires |ws| >= 1 && ws[0] == "the" && last != [] && (|ws| > 1 ==> ws[1] != [])
    requires LowerChar(r[0]) != (if |ws| > 1 then ws[1] else last)[0]
    ensures !Title(l, ws, last)
  {
    if |ws| > 1 {
      NoWord(r, ws[1], 0);
      assert Words(l, ws) == Words(r, ws[1..]);
    } else {
      NoWord(r, last, 0);
      assert Words(l, ws) == Some(r);
    }
  }

  lemma ProverbsNone(l: string, r: string)
    requires Word(l, "the") == Some(r) && r != [] && LowerChar(r[0]) != 'p'
    ensures !Title(l, ["the"], "proverbs")
  {
    TitleNone(l, r, ["the"], "proverbs");
  }

  lemma SongNone(l: string, r: string)
    requires Word(l, "the") == Some(r) && r != [] && LowerChar(r[0]) != 's'
    ensures !Title(l, ["the", "song", "of"], "solomon")
  {
    TitleNone(l, r, ["the", "song", "of"], "solomon");
  }

  lemma LamentationsNone(l: string, r: string)
    requires Word(l, "the") == Some(r) && r != [] && LowerChar(r[0]) != 'l'
    ensures !Title(l, ["the", "lamentations", "of"], "jeremiah")
  {
    TitleNone(l, r, ["the", "lamentations", "of"], "jeremiah");
  }

  lemma MosesNone(l: string, r: string)
    requires Word(l, "the") == Some(r) && r != []
    requires LowerChar(r[0]) != 'f' && LowerChar(r[0]) != 's' && LowerChar(r[0]) != 't'
    ensures MosesMatch(l).None?
  {
    AlternativeNone(r, MOSES_ORDINALS);
  }

  lemma KingsNone(l: string, r: string)
    requires Word(l, "the") == Some(r) && r != []
    requires LowerChar(r[0]) != 'f' && LowerChar(r[0]) != 's'
    ensures KingsMatch(l).None?
  {
    AlternativeNone(r, ["first", "second"]);
  }

  lemma ProphetNone(l: string, r: string)
    requires Word(l, "the") == Some(r) && r != [] && LowerChar(r[0]) != 'b'
    ensures ProphetMatch(l).None?
  {
    NoWord(r, "book", 0);
  }

  lemma GospelNone(l: string, r: string)
    requires Word(l, "the") == Some(r) && r != [] && LowerChar(r[0]) != 'g'
    ensures GospelMatch(l).None?
  {
    GospelWordsNone(l, r);
  }

  /** A heading "The X…" whose X begins with none of the letters the early
      patterns start with. */
  lemma LetterReachesLate(l: string, r: string)
    requires Word(l, "the") == Some(r) && r != []
    requires var c := LowerChar(r[0]);
      c != 'f' && c != 's' && c != 't' && c != 'b' && c != 'p' && c != 'l' && c != 'g'
    ensures ReachesLate(l)
  {
    MosesNone(l, r);
    ProphetNone(l, r);
    ProverbsNone(l, r);
    SongNone(l, r);
    LamentationsNone(l, r);
    KingsNone(l, r);
    GospelNone(l, r);
  }

  // ---------------------------------------------------------------------
  // Fixed titles. Their patterns ignore case, so the lemmas take any line
  // that reads as the title once trimmed, collapsed and lowered.
  // ---------------------------------------------------------------------

  lemma LowerSlice(s: string, i: nat, j: nat)
    requires i <= j <= |s|
    ensures Lower(s[i..j]) == Lower(s)[i..j]
  {
  }

  /** A line that reads `w rest` ignoring case: the pattern `w\s+` takes
      the word and its space, and leaves what reads `rest`. */
  lemma WordOnCI(s: string, w: string, rest: string)
    requires Lower(s) == w + " " + rest && (rest == [] || !IsSpace(rest[0]))
    ensures Word(s, w) == Some(s[|w| + 1..]) && Lower(s[|w| + 1..]) == rest
  {
    WordOnCIPrefix(s, w, rest);
    WordOnCIRest(s, w, rest);
    WordAt(s, w);
  }

  lemma WordOnCIPrefix(s: string, w: string, rest: string)
    requires Lower(s) == w + " " + rest
    ensures |s| > |w| && Lower(s[..|w|]) == w && s[|w|] == ' '
  {
    LowerSlice(s, 0, |w|);
    assert Lower(s)[..|w|] == w;
    assert LowerChar(s[|w|]) == ' ';
  }

  lemma WordOnCIRest(s: string, w: string, rest: string)
    requires Lower(s) == w + " " + rest && (rest == [] || !IsSpace(rest[0]))
    ensures Lower(s[|w| + 1..]) == rest && (|s| == |w| + 1 || !IsSpace(s[|w| + 1]))
  {
    LowerSlice(s, |w| + 1, |s|);
    assert Lower(s)[|w| + 1..] == rest;
    if rest != [] {
      assert LowerChar(s[|w| + 1]) == rest[0];
    }
  }

  /** `w\s+` where one space follows `w` and something else comes next. */
  lemma WordAt(s: string, w: string)
    requires |s| > |w| && Lower(s[..|w|]) == w && s[|w|] == ' '
    requires |s| == |w| + 1 || !IsSpace(s[|w| + 1])
    ensures Word(s, w) == Some(s[|w| + 1..])
  {
    var t := s[|w|..];
    assert t[0] == ' ' && t[1..] == s[|w| + 1..];
  }

  lemma ClassifyProverbs(l: string, books: set<string>, e: Option<(Option<string>, string)>)
    requires MosesMatch(l).None? && ProphetMatch(l).None? && Title(l, ["the"], "proverbs")
    ensures Classify(l, books, e) == Found("Proverbs")
  {
  }

  lemma ClassifySong(l: string, books: set<string>, e: Option<(Option<string>, string)>)
    requires MosesMatch(l).None? && ProphetMatch(l).None? && !Title(l, ["the"], "proverbs")
    requires Title(l, ["the", "song", "of"], "solomon")
    ensures Classify(l, books, e) == Found("Song of Solomon")
  {
  }

  lemma ClassifyLamentations(l: string, books: set<string>, e: Option<(Option<string>, string)>)
    requires MosesMatch(l).None? && ProphetMatch(l).None? && !Title(l, ["the"], "proverbs")
    requires !Title(l, ["the", "song", "of"], "solomon")
    requires Title(l, ["the", "lamentations", "of"], "jeremiah")
    ensures Classify(l, books, e) == Found("Lamentations")
  {
  }

  /** "The Proverbs" gives Proverbs. */
  lemma ProverbsTitle(line: string, books: set<string>)
    requires EqualsCI(HeaderLine(line), "the proverbs")
    ensures DetectBookFromHeader(line, books) == Found("Proverbs")
  {
    ProverbsWord(HeaderLine(line));
    ProverbsClassified(HeaderLine(line), books);
  }

  lemma ProverbsWord(l: string)
    requires EqualsCI(l, "the proverbs")
    ensures Word(l, "the").Some? && Word(l, "the").value != [] && LowerChar(Word(l, "the").value[0]) == 'p'
    ensures Title(l, ["the"], "proverbs")
  {
    assert Lower(l) == "the" + " " + "proverbs";
    assert Solid("proverbs");
    TheRest(l, "proverbs", "proverbs");
    WordsOne(l, "the");
  }

  lemma ProverbsClassified(l: string, books: set<string>)
    requires Word(l, "the").Some? && Word(l, "the").value != [] && LowerChar(Word(l, "the").value[0]) == 'p'
    requires Title(l, ["the"], "proverbs")
    ensures Classify(l, books, EpistleMatch(l)) == Found("Proverbs")
  {
    var r := Word(l, "the").value;
    MosesNone(l, r);
    ProphetNone(l, r);
    ClassifyProverbs(l, books, EpistleMatch(l));
  }

  /** A word that is no whitespace at its start. */
  predicate Solid(w: string) { w != [] && !IsSpace(w[0]) }

  lemma WordsThen(s: string, w: string, ws: seq<string>, t: string)
    requires Word(s, w) == Some(t)
    ensures Words(s, [w] + ws) == Words(t, ws)
  {
    assert ([w] + ws)[1..] == ws;
  }

  /** Lists of words built by putting one word in front. */
  lemma ConsLists(a: string, b: string, c: string, d: string)
    ensures [a] + [] == [a] && [a] + [b] == [a, b]
    ensures [a] + [b, c] == [a, b, c] && [a] + [b, c, d] == [a, b, c, d]
  {
  }

  lemma SolidJoin(w: string, x: string)
    requires Solid(w)
    ensures Solid(w + " " + x)
  {
    assert (w + " " + x)[0] == w[0];
  }

  /** `w\s+last$` on a text that reads "w last" ignoring case. */
  lemma Title1Rest(q: string, w: string, last: string)
    requires Solid(w) && Solid(last) && Lower(q) == w + " " + last
    ensures Words(q, [w]).Some? && EqualsCI(Words(q, [w]).value, last)
  {
    WordOnCI(q, w, last);
    WordsThen(q, w, [], q[|w| + 1..]);
    ConsLists(w, w, w, w);
  }

  lemma Title2Rest(r: string, w1: string, w2: string, last: string)
    requires Solid(w1) && Solid(w2) && Solid(last) && Lower(r) == w1 + " " + (w2 + " " + last)
    ensures Words(r, [w1, w2]).Some? && EqualsCI(Words(r, [w1, w2]).value, last)
  {
    SolidJoin(w2, last);
    WordOnCI(r, w1, w2 + " " + last);
    Title1Rest(r[|w1| + 1..], w2, last);
    WordsThen(r, w1, [w2], r[|w1| + 1..]);
    ConsLists(w1, w2, w2, w2);
  }

  lemma Title3Rest(r: string, w1: string, w2: string, w3: string, last: string)
    requires Solid(w1) && Solid(w2) && Solid(w3) && Solid(last)
    requires Lower(r) == w1 + " " + (w2 + " " + (w3 + " " + last))
    ensures Words(r, [w1, w2, w3]).Some? && EqualsCI(Words(r, [w1, w2, w3]).value, last)
  {
    SolidJoin(w2, w3 + " " + last);
    WordOnCI(r, w1, w2 + " " + (w3 + " " + last));
    Title2Rest(r[|w1| + 1..], w2, w3, last);
    WordsThen(r, w1, [w2, w3], r[|w1| + 1..]);
    ConsLists(w1, w2, w3, w3);
  }

  /** A leading "The" and its whitespace, on a line that reads "the rest",
      where the rest starts with `w`. */
  lemma TheRest(l: string, w: string, rest: string)
    requires Solid(w) && Lower(l) == "the" + " " + rest && |rest| >= |w| && rest[..|w|] == w
    ensures Word(l, "the") == Some(l[4..]) && Lower(l[4..]) == rest
    ensures l[4..] != [] && LowerChar(l[4..][0]) == w[0]
  {
    WordOnCI(l, "the", rest);
    assert LowerChar(l[4..][0]) == Lower(l[4..])[0];
  }

  /** `^The\s+w1\s+w2\s+last$` on a line that reads "the w1 w2 last". */
  lemma Title3(l: string, w1: string, w2: string, last: string)
    requires Solid(w1) && Solid(w2) && Solid(last)
    requires Lower(l) == "the" + " " + (w1 + " " + (w2 + " " + last))
    ensures Word(l, "the").Some? && Word(l, "the").value != []
    ensures LowerChar(Word(l, "the").value[0]) == w1[0]
    ensures Title(l, ["the", w1, w2], last)
  {
    TheRest(l, w1, w1 + " " + (w2 + " " + last));
    Title2Rest(l[4..], w1, w2, last);
    WordsThen(l, "the", [w1, w2], l[4..]);
    ConsLists("the", w1, w2, w2);
  }

  /** `^The\s+w1\s+w2\s+w3\s+last$` on a line that reads "the w1 w2 w3 last". */
  lemma Title4(l: string, w1: string, w2: string, w3: string, last: string)
    requires Solid(w1) && Solid(w2) && Solid(w3) && Solid(last)
    requires Lower(l) == "the" + " " + (w1 + " " + (w2 + " " + (w3 + " " + last)))
    ensures Word(l, "the").Some? && Word(l, "the").value != []
    ensures LowerChar(Word(l, "the").value[0]) == w1[0]
    ensures Title(l, ["the", w1, w2, w3], last)
  {
    TheRest(l, w1, w1 + " " + (w2 + " " + (w3 + " " + last)));
    Title3Rest(l[4..], w1, w2, w3, last);
    WordsThen(l, "the", [w1, w2, w3], l[4..]);
    ConsLists("the", w1, w2, w3);
  }

  lemma {:induction false} AlternativeAllNone(s: string, words: seq<string>)
    requires forall i :: 0 <= i < |words| ==> Word(s, words[i]).None?
    ensures Alternative(s, words) == None
    decreases |words|
  {
    if words != [] {
      assert forall i :: 0 <= i < |words| - 1 ==> words[1..][i] == words[i + 1];
      AlternativeAllNone(s, words[1..]);
    }
  }

  /** Line 67 fails on "The So…": no ordinal begins with "so". */
  lemma SoNotMoses(l: string, r: string)
    requires Word(l, "the") == Some(r) && |r| > 1 && LowerChar(r[0]) == 's' && LowerChar(r[1]) == 'o'
    ensures MosesMatch(l).None?
  {
    SoNotOrdinal(r);
  }

  lemma SoNotOrdinal(r: string)
    requires |r| > 1 && LowerChar(r[0]) == 's' && LowerChar(r[1]) == 'o'
    ensures MosesOrdinalMatch(r).None?
  {
    NoWord(r, "first", 0);
    NoWord(r, "second", 1);
    NoWord(r, "third", 0);
    NoWord(r, "fourth", 0);
    NoWord(r, "fifth", 0);
    AlternativeAllNone(r, MOSES_ORDINALS);
  }

  lemma JoinCons(w: string, ws: seq<string>, sep: string)
    requires ws != []
    ensures Join([w] + ws, sep) == w + sep + Join(ws, sep)
  {
    assert ([w] + ws)[1..] == ws;
  }

  lemma SongSpelled()
    ensures Join(["the", "song", "of", "solomon"], " ") == "the" + " " + ("song" + " " + ("of" + " " + "solomon"))
  {
    JoinCons("the", ["song", "of", "solomon"], " ");
    JoinCons("song", ["of", "solomon"], " ");
    JoinCons("of", ["solomon"], " ");
  }

  lemma SongLead(l: string)
    requires EqualsCI(l, Join(["the", "song", "of", "solomon"], " "))
    ensures Word(l, "the").Some? && |Word(l, "the").value| > 1
    ensures LowerChar(Word(l, "the").value[0]) == 's' && LowerChar(Word(l, "the").value[1]) == 'o'
  {
    SongSpelled();
    WordOnCI(l, "the", "song" + " " + ("of" + " " + "solomon"));
    var r := l[4..];
    assert LowerChar(r[0]) == Lower(r)[0] == 's';
    assert LowerChar(r[1]) == Lower(r)[1] == 'o';
  }

  lemma SongWords(l: string)
    requires EqualsCI(l, Join(["the", "song", "of", "solomon"], " "))
    ensures Title(l, ["the", "song", "of"], "solomon")
  {
    SongSpelled();
    Title3(l, "song", "of", "solomon");
  }

  lemma SongMatched(l: string)
    requires EqualsCI(l, Join(["the", "song", "of", "solomon"], " "))
    ensures MosesMatch(l).None? && ProphetMatch(l).None? && !Title(l, ["the"], "proverbs")
    ensures Title(l, ["the", "song", "of"], "solomon")
  {
    SongLead(l);
    var r := Word(l, "the").value;
    SoNotMoses(l, r);
    ProphetNone(l, r);
    ProverbsNone(l, r);
    SongWords(l);
  }

  /** "The Song of Solomon" gives Song of Solomon. */
  lemma SongTitle(line: string, books: set<string>)
    requires EqualsCI(HeaderLine(line), Join(["the", "song", "of", "solomon"], " "))
    ensures DetectBookFromHeader(line, books) == Found("Song of Solomon")
  {
    var l := HeaderLine(line);
    SongMatched(l);
    ClassifySong(l, books, EpistleMatch(l));
  }

  lemma LamentationsMatched(l: string)
    requires EqualsCI(l, Join(["the", "lamentations", "of", "jeremiah"], " "))
    ensures MosesMatch(l).None? && ProphetMatch(l).None? && !Title(l, ["the"], "proverbs")
    ensures !Title(l, ["the", "song", "of"], "solomon")
    ensures Title(l, ["the", "lamentations", "of"], "jeremiah")
  {
    assert Join(["the", "lamentations", "of", "jeremiah"], " ")
      == "the" + " " + ("lamentations" + " " + ("of" + " " + "jeremiah")) by {
      JoinCons("the", ["lamentations", "of", "jeremiah"], " ");
      JoinCons("lamentations", ["of", "jeremiah"], " ");
      JoinCons("of", ["jeremiah"], " ");
    }
    Title3(l, "lamentations", "of", "jeremiah");
    var r := Word(l, "the").value;
    MosesNone(l, r);
    ProphetNone(l, r);
    ProverbsNone(l, r);
    SongNone(l, r);
  }

  /** "The Lamentations of Jeremiah" gives Lamentations. */
  lemma LamentationsTitle(line: string, books: set<string>)
    requires EqualsCI(HeaderLine(line), Join(["the", "lamentations", "of", "jeremiah"], " "))
    ensures DetectBookFromHeader(line, books) == Found("Lamentations")
  {
    var l := HeaderLine(line);
    LamentationsMatched(l);
    ClassifyLamentations(l, books, EpistleMatch(l));
  }

  lemma ActsMatched(l: string)
    requires EqualsCI(l, Join(["the", "acts", "of", "the", "apostles"], " "))
    ensures ReachesLate(l) && Title(l, ["the", "acts", "of", "the"], "apostles")
  {
    assert Join(["the", "acts", "of", "the", "apostles"], " ")
      == "the" + " " + ("acts" + " " + ("of" + " " + ("the" + " " + "apostles"))) by {
      JoinCons("the", ["acts", "of", "the", "apostles"], " ");
      JoinCons("acts", ["of", "the", "apostles"], " ");
      JoinCons("of", ["the", "apostles"], " ");
      JoinCons("the", ["apostles"], " ");
    }
    Title4(l, "acts", "of", "the", "apostles");
    LetterReachesLate(l, Word(l, "the").value);
  }

  /** "The Acts of the Apostles" gives Acts. */
  lemma ActsTitle(line: string, books: set<string>)
    requires EqualsCI(HeaderLine(line), Join(["the", "acts", "of", "the", "apostles"], " "))
    ensures DetectBookFromHeader(line, books) == Found("Acts")
  {
    var l := HeaderLine(line);
    ActsMatched(l);
    ClassifyReachesLate(l, books, EpistleMatch(l));
  }

  // ---------------------------------------------------------------------
  // Revelation
  // ---------------------------------------------------------------------

  lemma ActsNone(l: string, r: string)
    requires Word(l, "the") == Some(r) && r != [] && LowerChar(r[0]) != 'a'
    ensures !Title(l, ["the", "acts", "of", "the"], "apostles")
  {
    TitleNone(l, r, ["the", "acts", "of", "the"], "apostles");
  }

  /** Line 108 fails on "The X…" when X begins with neither an ordinal,
      "General" nor "Epistle". */
  lemma EpistleNone(l: string, r: string)
    requires Word(l, "the") == Some(r) && r != []
    requires var c := LowerChar(r[0]); c != 'f' && c != 's' && c != 't' && c != 'g' && c != 'e'
    ensures EpistleMatch(l).None?
  {
    NoWord(r, "first", 0);
    NoWord(r, "third", 0);
    NoWord(r, "second", 0);
    assert r[0..] == r;
    NoWord(r, "general", 0);
    NoWord(r, "epistle", 0);
  }

  /** Lines 122-124: a line that gets past the patterns before it and
      mentions "Revelation" in any capitalisation gives Revelation. */
  lemma ClassifyRevelation(l: string, books: set<string>, e: Option<(Option<string>, string)>)
    requires ReachesLate(l) && !Title(l, ["the", "acts", "of", "the"], "apostles") && e.None?
    requires Contains(Lower(l), "revelation")
    ensures Classify(l, books, e) == Found("Revelation")
  {
    ClassifyReachesLate(l, books, e);
  }

  /** A word found at the end of a line occurs in the lowered line. */
  lemma SuffixMentions(l: string, r: string, w: string)
    requires |r| <= |l| && r == l[|l| - |r|..] && HasPrefixCI(r, w)
    ensures Contains(Lower(l), w)
  {
    var k := |l| - |r|;
    LowerSlice(l, k, k + |w|);
    assert l[k..k + |w|] == r[..|w|];
    assert OccursAt(Lower(l), w, k);
    ContainsAt(Lower(l), w);
  }

  lemma RevelationLine(l: string, r: string)
    requires Word(l, "the") == Some(r) && r != [] && LowerChar(r[0]) == 'r'
    ensures ReachesLate(l) && !Title(l, ["the", "acts", "of", "the"], "apostles")
    ensures EpistleMatch(l).None?
  {
    LetterReachesLate(l, r);
    ActsNone(l, r);
    EpistleNone(l, r);
  }

  /** Every heading "The Revelation…", such as "The Revelation of St. John
      the Divine", gives Revelation. */
  lemma RevelationHeading(line: string, books: set<string>)
    requires Word(HeaderLine(line), "the").Some?
    requires HasPrefixCI(Word(HeaderLine(line), "the").value, "revelation")
    ensures DetectBookFromHeader(line, books) == Found("Revelation")
  {
    RevelationClassify(HeaderLine(line), books);
  }

  lemma RevelationLetter(r: string)
    requires HasPrefixCI(r, "revelation")
    ensures r != [] && LowerChar(r[0]) == 'r'
  {
    assert LowerChar(r[0]) == Lower(r[..10])[0];
  }

  lemma RevelationClassify(l: string, books: set<string>)
    requires Word(l, "the").Some? && HasPrefixCI(Word(l, "the").value, "revelation")
    ensures Classify(l, books, EpistleMatch(l)) == Found("Revelation")
  {
    var r := Word(l, "the").value;
    RevelationLetter(r);
    RevelationLine(l, r);
    SuffixMentions(l, r, "revelation");
    ClassifyRevelation(l, books, EpistleMatch(l));
  }


  // ---------------------------------------------------------------------
  // Epistles to John and Peter
  // ---------------------------------------------------------------------

  function OrdinalIndex(o: string): nat {
    if o == "First" then 0 else if o == "Second" then 1 else 2
  }

  /** After "The " and an ordinal title, a text that begins with "Epistle"
      passes the patterns of lines 67-105 by. */
  lemma OrdinalNotMoses(o: string, w: string, d: string, b: string)
    requires OrdinalTriple(o, w, d) && b != [] && IsUpper(b[0]) && b[0] != 'B'
    ensures MosesOrdinalMatch(o + " " + b).None?
  {
    var i := OrdinalIndex(o);
    assert MOSES_TITLES[i] == o;
    MosesOrdinal(i, b);
    NoWord(b, "book", 0);
  }

  /** Line 90 fails once the word after its ordinal is not "Book". */
  lemma KingsNoBook(l: string, a: string, b: string)
    requires Word(l, "the") == Some(a) && b != [] && LowerChar(b[0]) != 'b'
    requires match Alternative(a, ["first", "second"])
             case None => true
             case Some(k) => Word(a, ["first", "second"][k]) == Some(b)
    ensures KingsMatch(l).None?
  {
    NoWord(b, "book", 0);
  }

  lemma KingsAlternative(a: string)
    ensures Alternative(a, ["first", "second"])
      == if Word(a, "first").Some? then Some(0) else if Word(a, "second").Some? then Some(1) else None
  {
    assert ["first", "second"][1..] == ["second"];
    assert ["second"][1..] == [];
  }

  /** Line 90's alternative on "First …": the first word, then the rest. */
  lemma FirstKingsWord(b: string)
    requires b != [] && !IsSpace(b[0])
    ensures var a := "First " + b;
      Alternative(a, ["first", "second"]) == Some(0) && Word(a, ["first", "second"][0]) == Some(b)
  {
    WordOn("First", "first", b);
    assert "First" + " " + b == "First " + b;
    KingsAlternative("First " + b);
  }

  lemma SecondKingsWord(b: string)
    requires b != [] && !IsSpace(b[0])
    ensures var a := "Second " + b;
      Alternative(a, ["first", "second"]) == Some(1) && Word(a, ["first", "second"][1]) == Some(b)
  {
    WordOn("Second", "second", b);
    assert "Second" + " " + b == "Second " + b;
    NoWord("Second " + b, "first", 0);
    KingsAlternative("Second " + b);
  }

  lemma ThirdKingsWord(b: string)
    ensures Alternative("Third " + b, ["first", "second"]) == None
  {
    NoWord("Third " + b, "first", 0);
    NoWord("Third " + b, "second", 0);
    KingsAlternative("Third " + b);
  }

  lemma FirstNotKings(l: string, b: string)
    requires b != [] && IsUpper(b[0]) && b[0] != 'B' && Word(l, "the") == Some("First " + b)
    ensures KingsMatch(l).None?
  {
    FirstKingsWord(b);
    KingsNoBook(l, "First " + b, b);
  }

  lemma SecondNotKings(l: string, b: string)
    requires b != [] && IsUpper(b[0]) && b[0] != 'B' && Word(l, "the") == Some("Second " + b)
    ensures KingsMatch(l).None?
  {
    SecondKingsWord(b);
    KingsNoBook(l, "Second " + b, b);
  }

  lemma ThirdNotKings(l: string, b: string)
    requires b != [] && IsUpper(b[0]) && b[0] != 'B' && Word(l, "the") == Some("Third " + b)
    ensures KingsMatch(l).None?
  {
    ThirdKingsWord(b);
    KingsNoBook(l, "Third " + b, b);
  }


  lemma OrdinalNotKings(o: string, w: string, d: string, l: string, b: string)
    requires OrdinalTriple(o, w, d) && b != [] && IsUpper(b[0]) && b[0] != 'B'
    requires Word(l, "the") == Some(o + " " + b)
    ensures KingsMatch(l).None?
  {
    if o == "First" {
      assert o + " " + b == "First " + b;
      FirstNotKings(l, b);
    } else if o == "Second" {
      assert o + " " + b == "Second " + b;
      SecondNotKings(l, b);
    } else {
      assert o + " " + b == "Third " + b;
      ThirdNotKings(l, b);
    }
  }

  lemma OrdinalNotSong(o: string, w: string, d: string, l: string, b: string)
    requires OrdinalTriple(o, w, d) && Word(l, "the") == Some(o + " " + b)
    ensures !Title(l, ["the", "song", "of"], "solomon")
  {
    var a := o + " " + b;
    assert a[0] == o[0] && a[1] == o[1];
    if o == "Second" {
      NoWord(a, "song", 1);
      WordsThen(l, "the", ["song", "of"], a);
    } else {
      SongNone(l, a);
    }
  }

  /** After "The " and an ordinal title, the patterns of lines 67-105 fail
      on any text that begins with a capital other than B. */
  lemma OrdinalReachesLate(o: string, w: string, d: string, l: string, b: string)
    requires OrdinalTriple(o, w, d) && b != [] && IsUpper(b[0]) && b[0] != 'B'
    requires Word(l, "the") == Some(o + " " + b)
    ensures ReachesLate(l) && !Title(l, ["the", "acts", "of", "the"], "apostles")
  {
    var a := o + " " + b;
    assert a[0] == o[0];
    OrdinalNotMoses(o, w, d, b);
    ProphetNone(l, a);
    ProverbsNone(l, a);
    OrdinalNotSong(o, w, d, l, b);
    LamentationsNone(l, a);
    OrdinalNotKings(o, w, d, l, b);
    GospelNone(l, a);
    ActsNone(l, a);
  }

  /** The length the ordinal group `(First|Second|Third)?` of line 108
      takes at the start of `a`. */
  function OrdinalLength(a: string): nat {
    if HasPrefixCI(a, "first") || HasPrefixCI(a, "third") then 5
    else if HasPrefixCI(a, "second") then 6
    else 0
  }

  lemma OrdinalLengthOf(o: string, w: string, d: string, b: string)
    requires OrdinalTriple(o, w, d)
    ensures OrdinalLength(o + " " + b) == |o|
    ensures (o + " " + b)[..|o|] == o && (o + " " + b)[|o|..] == " " + b
  {
    var a := o + " " + b;
    assert a[..|o|] == o && a[|o|..] == " " + b;
    assert HasPrefixCI(a, w);
    if o == "Second" {
      NoWord(a, "first", 0);
      NoWord(a, "third", 0);
    }
  }

  /** Line 108 up to `Epistle\s+` on "The <ordinal> Epistle <rest>". */
  lemma EpistleWord(t: string)
    requires t != [] && !IsSpace(t[0])
    ensures Word("Epistle " + t, "epistle") == Some(t)
  {
    assert "Epistle " + t == "Epistle" + " " + t;
    WordOn("Epistle", "epistle", t);
  }

  lemma EpistleAfterOrdinal(t: string)
    requires t != [] && !IsSpace(t[0])
    ensures Word(Strip(TrimStart(" " + ("Epistle " + t)), ["general"]), "epistle") == Some(t)
  {
    EpistleTrimmed(t);
    EpistleNotGeneral(t);
    EpistleWord(t);
  }

  lemma EpistleTrimmed(t: string)
    ensures TrimStart(" " + ("Epistle " + t)) == "Epistle " + t
  {
    assert ("Epistle " + t)[0] == 'E';
    TrimStartSpace("Epistle " + t);
  }

  lemma EpistleNotGeneral(t: string)
    ensures Strip("Epistle " + t, ["general"]) == "Epistle " + t
  {
    NoWord("Epistle " + t, "general", 0);
    StripOneIdle("Epistle " + t, "general");
  }

  lemma StripOneIdle(s: string, w: string)
    requires Word(s, w).None?
    ensures Strip(s, [w]) == s
  {
    WordsOne(s, w);
  }

  lemma EpistleHeadOn(o: string, w: string, d: string, l: string, t: string)
    requires OrdinalTriple(o, w, d) && t != [] && !IsSpace(t[0])
    requires Word(l, "the") == Some(o + " " + ("Epistle " + t))
    ensures EpistleHead(l) == Some((Some(o), t))
  {
    var b := "Epistle " + t;
    OrdinalLengthOf(o, w, d, b);
    EpistleAfterOrdinal(t);
  }


  /** The names the ordinal epistles are addressed to or written by. */
  predicate Apostle(who: string) {
    who == "John" || who == "Peter"
  }

  /** A run of letters has no whitespace at all. */
  lemma LetterRunNormalized(s: string)
    requires LetterRun(s)
    ensures Normalized(s) && BookRun(s)
  {
    assert forall i :: 0 <= i < |s| ==> !IsSpace(s[i]);
  }

  lemma ApostleLetters(who: string)
    requires Apostle(who)
    ensures LetterRun(who) && |who| >= 4
    ensures LowerChar(who[0]) != 't' && LowerChar(who[0]) != 'o' && LowerChar(who[0]) != 'g'
  {
  }

  lemma ApostleShape(who: string)
    requires Apostle(who)
    ensures LetterRun(who) && BookRun(who) && |who| >= 4 && Normalized(who)
    ensures LowerChar(who[0]) != 't' && LowerChar(who[0]) != 'o' && LowerChar(who[0]) != 'g'
    ensures Word(who, "paul").None? && !IsSpace(who[|who| - 3])
  {
    ApostleLetters(who);
    LetterRunNormalized(who);
    NoWord(who, "paul", if who == "John" then 0 else 1);
  }


  /** The rest of line 108 on "of John" or "of Peter": the name. */
  lemma TargetOf(who: string)
    requires Apostle(who)
    ensures EpistleTarget("of " + who) == Some(who)
  {
    ApostleShape(who);
    assert Strip("of " + who, ["of"]) == who by {
      assert "of" + " " + who == "of " + who;
      WordOn("of", "of", who);
    }
    assert Strip(who, ["paul"]) == who;
    assert Strip(who, ["the", "apostle"]) == who by {
      NoWord(who, "the", 0);
    }
    assert Strip(who, ["to"]) == who by {
      NoWord(who, "to", 0);
    }
    assert Strip(who, ["the"]) == who by {
      NoWord(who, "the", 0);
    }
  }

  /** The rest of line 108 on "General of John" or "General of Peter": the
      whole of it, since the pattern expects "General" before "Epistle"
      only. */
  lemma TargetGeneralOf(who: string)
    requires Apostle(who)
    ensures EpistleTarget("General of " + who) == Some("General of " + who)
  {
    ApostleShape(who);
    var e := "General of " + who;
    NoWord(e, "of", 0);
    NoWord(e, "paul", 0);
    NoWord(e, "the", 0);
    NoWord(e, "to", 0);
    assert e[|e| - 3] == who[|who| - 3];
    assert BookRun(e) by {
      forall i | 0 <= i < |e| ensures BookChar(e[i]) {
        if i >= 11 { assert e[i] == who[i - 11]; }
      }
    }
  }

  lemma ApostleClean(who: string)
    requires Apostle(who)
    ensures CleanBookName(who) == who
  {
    ApostleShape(who);
    assert Plain(who) by {
      NoWord(who, "the", 0);
      forall i | 0 <= i < |PREFIXES| ensures Words(who, PREFIXES[i]).None? {
        NoWord(who, PREFIXES[i][0], if who == "Peter" && PREFIXES[i][0] == "prophet" then 1 else 0);
      }
      NotVariant(who);
      NoWord(who, "first", 0);
      NoWord(who, "second", 0);
      NoWord(who, "third", 0);
    }
    CanonicalUnchanged(who);
  }

  lemma {:induction false} StripAllAppend(s: string, a: seq<seq<string>>, b: seq<seq<string>>)
    ensures StripAll(s, a + b) == StripAll(StripAll(s, a), b)
    decreases |a|
  {
    if a != [] {
      assert (a + b)[0] == a[0];
      assert (a + b)[1..] == a[1..] + b;
      StripAllAppend(Strip(s, a[0]), a[1..], b);
    } else {
      assert a + b == b;
    }
  }

  /** The chain split around its `i`th prefix. */
  lemma StripAllSplit(s: string, ps: seq<seq<string>>, i: nat)
    requires i < |ps|
    ensures StripAll(s, ps) == StripAll(Strip(StripAll(s, ps[..i]), ps[i]), ps[i + 1..])
  {
    var rest := [ps[i]] + ps[i + 1..];
    assert ps == ps[..i] + rest;
    StripAllAppend(s, ps[..i], rest);
    assert rest[1..] == ps[i + 1..];
  }

  lemma StripAllBefore(s: string, ps: seq<seq<string>>, i: nat)
    requires i <= |ps|
    requires forall j :: 0 <= j < i ==> Words(s, ps[j]).None?
    ensures StripAll(s, ps[..i]) == s
  {
    var before := ps[..i];
    forall j | 0 <= j < |before| ensures Words(s, before[j]).None? {
      assert before[j] == ps[j];
    }
    StripAllIdle(s, before);
  }

  lemma StripAllAfter(t: string, ps: seq<seq<string>>, i: nat)
    requires i < |ps|
    requires forall j :: i < j < |ps| ==> Words(t, ps[j]).None?
    ensures StripAll(t, ps[i + 1..]) == t
  {
    var rest := ps[i + 1..];
    forall j | 0 <= j < |rest| ensures Words(t, rest[j]).None? {
      assert rest[j] == ps[i + 1 + j];
    }
    StripAllIdle(t, rest);
  }

  /** The chain of prefixes when only the `i`th applies. */
  lemma StripAllAt(s: string, ps: seq<seq<string>>, i: nat, t: string)
    requires i < |ps| && Words(s, ps[i]) == Some(t)
    requires forall j :: 0 <= j < i ==> Words(s, ps[j]).None?
    requires forall j :: i < j < |ps| ==> Words(t, ps[j]).None?
    ensures StripAll(s, ps) == t
  {
    StripAllSplit(s, ps, i);
    StripAllBefore(s, ps, i);
    StripAllAfter(t, ps, i);
  }

  lemma OfNormalized(who: string)
    requires Normalized(who) && who != []
    ensures Normalized("of " + who)
  {
    assert LetterRun("of");
    LetterRunNormalized("of");
    NormalizedJoin("of", who);
    assert "of" + " " + who == "of " + who;
  }

  lemma GeneralOfNormalized(who: string)
    requires Normalized(who) && who != []
    ensures Normalized("General of " + who)
  {
    var t := "of " + who;
    OfNormalized(who);
    assert LetterRun("General");
    LetterRunNormalized("General");
    NormalizedJoin("General", t);
    assert "General" + " " + t == "General of " + who;
  }

  lemma GeneralWord(who: string)
    ensures Word("General of " + who, "general") == Some("of " + who)
  {
    var t := "of " + who;
    assert "General" + " " + t == "General of " + who;
    WordOn("General", "general", t);
  }

  lemma GeneralOfShape(who: string)
    requires Normalized(who) && who != [] && !IsSpace(who[0])
    ensures Normalized("of " + who) && Normalized("General of " + who)
    ensures Word("General of " + who, "general") == Some("of " + who)
  {
    OfNormalized(who);
    GeneralOfNormalized(who);
    GeneralWord(who);
  }


  /** Without a leading "The", stripping is the prefix chain alone. */
  lemma StrippedChain(s: string)
    requires Normalized(s) && s != [] && Word(s, "the").None?
    ensures Stripped(s) == StripAll(s, PREFIXES)
  {
    CollapseNormalized(s);
    NormalizedTrim(s);
  }

  lemma GeneralWords(who: string)
    ensures Words("General of " + who, PREFIXES[4]) == Some("of " + who)
  {
    GeneralWord(who);
    assert PREFIXES[4] == ["general"];
  }

  lemma GeneralPrefixes(who: string)
    requires who != []
    ensures forall j :: 0 <= j < 4 ==> Words("General of " + who, PREFIXES[j]).None?
    ensures forall j :: 4 < j < |PREFIXES| ==> Words("of " + who, PREFIXES[j]).None?
  {
    var s := "General of " + who;
    var t := "of " + who;
    forall j | 0 <= j < 4 ensures Words(s, PREFIXES[j]).None? {
      NoWord(s, PREFIXES[j][0], 0);
    }
    forall j | 4 < j < |PREFIXES| ensures Words(t, PREFIXES[j]).None? {
      NoWord(t, PREFIXES[j][0], 0);
    }
  }

  lemma GeneralOfStripped(who: string)
    requires Normalized(who) && who != [] && !IsSpace(who[0])
    ensures Stripped("General of " + who) == "of " + who
  {
    var s := "General of " + who;
    GeneralOfNormalized(who);
    NoWord(s, "the", 0);
    StrippedChain(s);
    GeneralWords(who);
    GeneralPrefixes(who);
    var t := "of " + who;
    var ps := PREFIXES;
    assert 4 < |ps| && Words(s, ps[4]) == Some(t);
    assert forall j :: 0 <= j < 4 ==> Words(s, ps[j]).None?;
    assert forall j :: 4 < j < |ps| ==> Words(t, ps[j]).None?;
    StripAllAt(s, ps, 4, t);
  }


  /** cleanBookName turns "General of John" into "of John": of the prefix
      chain only `^General\s+` applies. */
  /** "of …" is left alone by lines 54-60. */
  lemma OfPlain(who: string)
    requires Normalized(who) && who != [] && !IsSpace(who[0])
    ensures var t := "of " + who;
      t !in VARIANTS && Trim(DigitBookOf(Numbered(t))) == t
  {
    var t := "of " + who;
    assert t[0] == 'o' && t[1] == 'f';
    NotVariant(t);
    NoWord(t, "first", 0);
    NoWord(t, "second", 0);
    NoWord(t, "third", 0);
    assert Numbered(t) == t;
    assert !DigitBookOfApplies(t);
    GeneralOfShape(who);
    NormalizedTrim(t);
  }

  lemma GeneralOfClean(who: string)
    requires Normalized(who) && who != [] && !IsSpace(who[0])
    ensures CleanBookName("General of " + who) == "of " + who
  {
    GeneralOfStripped(who);
    OfPlain(who);
  }

  /** "The <ordinal> Epistle <t>" passes lines 67-105 by and reaches the
      epistle pattern of line 108 with the ordinal and `t`. */
  lemma EpistleLine(o: string, w: string, d: string, l: string, t: string)
    requires OrdinalTriple(o, w, d) && t != [] && !IsSpace(t[0])
    requires l == "The " + o + " Epistle " + t
    ensures ReachesLate(l) && !Title(l, ["the", "acts", "of", "the"], "apostles")
    ensures EpistleHead(l) == Some((Some(o), t))
  {
    var b := "Epistle " + t;
    var r := o + " " + b;
    assert l == "The " + r;
    assert r[0] == o[0];
    TheLine(r);
    OrdinalReachesLate(o, w, d, l, b);
    EpistleHeadOn(o, w, d, l, t);
  }

  lemma EpistleDigitOf(o: string, w: string, d: string)
    requires OrdinalTriple(o, w, d)
    ensures EpistleDigit(Some(o)) == d && d != ""
  {
  }

  /** Lines 108-118 once the earlier patterns have failed and the epistle
      pattern has captured an ordinal and a name. */
  lemma EpistleClassified(o: string, w: string, d: string, l: string, c: string, books: set<string>)
    requires OrdinalTriple(o, w, d)
    requires ReachesLate(l) && !Title(l, ["the", "acts", "of", "the"], "apostles")
    ensures Classify(l, books, Some((Some(o), c))) == EpistleName(books, d, CleanBookName(c))
  {
    var e := Some((Some(o), c));
    EpistleDigitOf(o, w, d);
    calc {
      Classify(l, books, e);
      { ClassifyReachesLate(l, books, e); }
      ClassifyLate(l, books, e);
      EpistleBook(books, Some(o), c);
    }
  }

  /** The result of lines 108-118 on such a line, given the name the
      pattern captures. */
  lemma EpistleLineClassify(o: string, w: string, d: string, l: string, t: string, c: string, books: set<string>)
    requires OrdinalTriple(o, w, d) && t != [] && !IsSpace(t[0])
    requires l == "The " + o + " Epistle " + t
    requires EpistleTarget(t) == Some(c)
    ensures Classify(l, books, EpistleMatch(l)) == EpistleName(books, d, CleanBookName(c))
  {
    EpistleLine(o, w, d, l, t);
    assert EpistleMatch(l) == Some((Some(o), c));
    EpistleClassified(o, w, d, l, c, books);
  }

  lemma EpistleLineBook(o: string, w: string, d: string, line: string, t: string, c: string, books: set<string>)
    requires OrdinalTriple(o, w, d) && t != [] && !IsSpace(t[0])
    requires HeaderLine(line) == "The " + o + " Epistle " + t
    requires EpistleTarget(t) == Some(c)
    ensures DetectBookFromHeader(line, books) == EpistleName(books, d, CleanBookName(c))
  {
    EpistleLineClassify(o, w, d, HeaderLine(line), t, c, books);
  }

  /** Lines 113-116 on the apostle's own name: the numbered book. */
  lemma ApostleName(books: set<string>, d: string, who: string)
    requires d != "" && Apostle(who)
    ensures EpistleName(books, d, who) == Known(books, d + " " + who)
  {
    if who == "John" {
      assert Lower(who) == "john";
      assert Contains(Lower(who), "john");
    } else {
      assert Lower(who) == "peter";
      MissingHead("peter", "john");
    }
  }

  lemma EpistleOfWords(l: string, p: string, who: string)
    requires l == p + " Epistle of " + who
    ensures l == p + " Epistle " + ("of " + who)
  {
  }

  lemma EpistleOfName(line: string, o: string, w: string, d: string, who: string, books: set<string>)
    requires OrdinalTriple(o, w, d)
    requires EpistleTarget("of " + who) == Some(who)
    requires HeaderLine(line) == "The " + o + " Epistle of " + who
    ensures DetectBookFromHeader(line, books) == EpistleName(books, d, CleanBookName(who))
  {
    OfStart(who);
    EpistleOfWords(HeaderLine(line), "The " + o, who);
    EpistleLineBook(o, w, d, line, "of " + who, who, books);
  }

  lemma OfStart(who: string)
    ensures "of " + who != [] && !IsSpace(("of " + who)[0])
  {
    assert ("of " + who)[0] == 'o';
  }

  /** Lines 108-118 on "The First Epistle of John" and the like: the
      numbered book of that apostle, when the table knows it. */
  lemma EpistleOfApostle(line: string, o: string, w: string, d: string, who: string, books: set<string>)
    requires OrdinalTriple(o, w, d) && Apostle(who)
    requires HeaderLine(line) == "The " + o + " Epistle of " + who
    ensures DetectBookFromHeader(line, books) == Known(books, d + " " + who)
  {
    TargetOf(who);
    ApostleClean(who);
    EpistleOfName(line, o, w, d, who, books);
    EpistleDigitOf(o, w, d);
    ApostleName(books, d, who);
  }

  // ---------------------------------------------------------------------
  // "The First Epistle General of Peter"
  // ---------------------------------------------------------------------

  lemma EpistleGeneralWords(l: string, p: string, who: string)
    requires l == p + " Epistle General of " + who
    ensures l == p + " Epistle " + ("General of " + who)
  {
  }


  lemma GeneralStart(who: string)
    ensures "General of " + who != [] && !IsSpace(("General of " + who)[0])
  {
  }

  lemma EpistleGeneralName(line: string, o: string, w: string, d: string, who: string, books: set<string>)
    requires OrdinalTriple(o, w, d)
    requires EpistleTarget("General of " + who) == Some("General of " + who)
    requires HeaderLine(line) == "The " + o + " Epistle General of " + who
    ensures DetectBookFromHeader(line, books) == EpistleName(books, d, CleanBookName("General of " + who))
  {
    EpistleGeneralWords(HeaderLine(line), "The " + o, who);
    GeneralStart(who);
    EpistleLineClassify(o, w, d, HeaderLine(line), "General of " + who, "General of " + who, books);
  }


  lemma OfNotApostle(books: set<string>, d: string, who: string)
    requires |who| >= 3
    ensures EpistleName(books, d, "of " + who) == Known(books, "of " + who)
  {
    assert !JohnOrPeter("of " + who);
  }

  /** Lines 108-118 as written on "The First Epistle General of Peter" and
      the like: `General` follows `Epistle`, so the name group captures
      "General of Peter", which cleanBookName turns into "of Peter"; that is
      neither John nor Peter, and no book of the table is called so. */
  lemma EpistleGeneralAsWritten(line: string, o: string, w: string, d: string, who: string, books: set<string>)
    requires OrdinalTriple(o, w, d) && Apostle(who)
    requires HeaderLine(line) == "The " + o + " Epistle General of " + who
    ensures DetectBookFromHeader(line, books) == Known(books, "of " + who)
    ensures "of " + who !in books ==> DetectBookFromHeader(line, books) == Null
  {
    ApostleShape(who);
    TargetGeneralOf(who);
    calc {
      DetectBookFromHeader(line, books);
      { EpistleGeneralName(line, o, w, d, who, books); }
      EpistleName(books, d, CleanBookName("General of " + who));
      { GeneralOfClean(who); }
      EpistleName(books, d, "of " + who);
      { OfNotApostle(books, d, who); }
      Known(books, "of " + who);
    }
  }

  /** The epistle pattern of line 108 with "General" also accepted after
      "Epistle", as the headings of 1 Peter and 1-3 John have it. */
  function EpistleMatchFixed(l: string): Option<(Option<string>, string)> {
    match EpistleHead(l)
    case None => None
    case Some((o, d)) =>
      match EpistleTarget(Strip(d, ["general"]))
      case None => None
      case Some(c) => Some((o, c))
  }

  /** detectBookFromHeader with the corrected epistle pattern. */
  function DetectBookFromHeaderFixed(line: string, books: set<string>): (r: Heading)
    ensures r.Found? ==> r.name in books || r.name in FIXED_NAMES
    ensures r == Undefined ==> MosesMatch(HeaderLine(line)).Some?
  {
    var l := HeaderLine(line);
    Classify(l, books, EpistleMatchFixed(l))
  }

  /** The correction changes nothing on a line where no "General" follows
      "Epistle". */
  lemma FixedAgrees(line: string, books: set<string>)
    requires var h := EpistleHead(HeaderLine(line)); h.None? || Word(h.value.1, "general").None?
    ensures DetectBookFromHeaderFixed(line, books) == DetectBookFromHeader(line, books)
  {
    var l := HeaderLine(line);
    assert EpistleMatchFixed(l) == EpistleMatch(l);
  }

  lemma StripGeneral(who: string)
    requires Normalized(who) && who != [] && !IsSpace(who[0])
    ensures Strip("General of " + who, ["general"]) == "of " + who
  {
    GeneralOfShape(who);
  }

  lemma FixedMatchOn(l: string, o: Option<string>, t: string, c: string)
    requires EpistleHead(l) == Some((o, t)) && EpistleTarget(Strip(t, ["general"])) == Some(c)
    ensures EpistleMatchFixed(l) == Some((o, c))
  {
  }

  /** Line 108 corrected, on "The <ordinal> Epistle General of <name>". */
  lemma EpistleGeneralMatched(o: string, w: string, d: string, l: string, who: string)
    requires OrdinalTriple(o, w, d)
    requires Normalized(who) && who != [] && !IsSpace(who[0])
    requires EpistleTarget("of " + who) == Some(who)
    requires l == "The " + o + " Epistle General of " + who
    ensures EpistleMatchFixed(l) == Some((Some(o), who))
    ensures ReachesLate(l) && !Title(l, ["the", "acts", "of", "the"], "apostles")
  {
    StripGeneral(who);
    EpistleGeneralWords(l, "The " + o, who);
    GeneralStart(who);
    EpistleLine(o, w, d, l, "General of " + who);
    FixedMatchOn(l, Some(o), "General of " + who, who);
  }

  /** The corrected pattern finds the numbered book on "The First Epistle
      General of Peter" and the like. */
  lemma EpistleGeneralFixed(line: string, o: string, w: string, d: string, who: string, books: set<string>)
    requires OrdinalTriple(o, w, d) && Apostle(who)
    requires HeaderLine(line) == "The " + o + " Epistle General of " + who
    ensures DetectBookFromHeaderFixed(line, books) == Known(books, d + " " + who)
  {
    var l := HeaderLine(line);
    ApostleShape(who);
    TargetOf(who);
    EpistleGeneralMatched(o, w, d, l, who);
    calc {
      DetectBookFromHeaderFixed(line, books);
      Classify(l, books, Some((Some(o), who)));
      { EpistleClassified(o, w, d, l, who, books); }
      EpistleName(books, d, CleanBookName(who));
      { ApostleClean(who); }
      EpistleName(books, d, who);
      { EpistleDigitOf(o, w, d);
        ApostleName(books, d, who); }
      Known(books, d + " " + who);
    }
  }

  // ---------------------------------------------------------------------
  // Names after "Book of", "Gospel" and "Epistle"
  // ---------------------------------------------------------------------

  /** A run of letters holds no whitespace, so no pattern `w\s+` matches at
      its start. */
  lemma LetterNoWord(x: string, w: string)
    requires LetterRun(x)
    ensures Word(x, w).None? && Words(x, [w]).None?
  {
    if |x| > |w| {
      assert IsLetter(x[|w|]);
    }
    WordsOne(x, w);
  }

  lemma LetterNoPrefix(x: string)
    requires LetterRun(x)
    ensures forall i :: 0 <= i < |PREFIXES| ==> Words(x, PREFIXES[i]).None?
  {
    forall i | 0 <= i < |PREFIXES| ensures Words(x, PREFIXES[i]).None? {
      PrefixHead(i);
      LetterNoWord(x, PREFIXES[i][0]);
      WordsFirstNone(x, PREFIXES[i]);
    }
  }

  /** A one-word name: cleanBookName leaves it as it is, unless it is one
      of the spellings of the variants table ("Psalm", "Psalms",
      "Proverbs"), which it replaces by the canonical name. */
  lemma LetterClean(x: string)
    requires LetterRun(x)
    ensures CleanBookName(x) == if x in VARIANTS then VARIANTS[x] else x
  {
    if x in VARIANTS {
      VariantsApplied(x);
    } else {
      LetterRunNormalized(x);
      LetterNoWord(x, "the");
      LetterNoPrefix(x);
      LetterNoWord(x, "first");
      LetterNoWord(x, "second");
      LetterNoWord(x, "third");
      assert !DigitBookOfApplies(x);
      assert Plain(x);
      CanonicalUnchanged(x);
    }
  }

  /** `w\s+` taken off by an optional group. */
  lemma StripWord(a: string, w: string, x: string)
    requires Lower(a) == w && x != [] && !IsSpace(x[0])
    ensures Strip(a + " " + x, [w]) == x
  {
    WordOn(a, w, x);
    WordsOne(a + " " + x, w);
  }

  // The gospels

  /** Two words, each followed by one space, before text that does not
      begin with whitespace. */
  lemma TwoWords(a: string, v: string, b: string, w: string, x: string)
    requires Lower(a) == v && Lower(b) == w && Solid(b) && Solid(x)
    ensures Words(a + " " + (b + " " + x), [v, w]) == Some(x)
  {
    var t := b + " " + x;
    SolidJoin(b, x);
    WordOn(a, v, t);
    WordsHead(a + " " + t, [v, w], t);
    WordOn(b, w, x);
    TwoWordsTail(t, v, w);
  }

  lemma TwoWordsTail(t: string, v: string, w: string)
    ensures Words(t, [v, w][1..]) == Word(t, w)
  {
    assert [v, w][1..] == [w];
    WordsOne(t, w);
  }

  function GospelLine(x: string): string {
    "The Gospel according to St. " + x
  }

  lemma GospelLineSplit(x: string)
    ensures GospelLine(x) == "The" + " " + ("Gospel" + " " + ("according" + " " + ("to" + " " + ("St." + " " + x))))
  {
  }

  lemma GospelLower()
    ensures Lower("The") == "the" && Lower("Gospel") == "gospel"
    ensures Lower("according") == "according" && Lower("to") == "to" && Lower("St.") == "st."
    ensures Solid("Gospel") && Solid("to")
  {
  }

  /** The pieces of line 98 on "The Gospel according to St. X". */
  lemma GospelPieces(x: string)
    requires Solid(x)
    ensures var c := "St." + " " + x; var a := "according" + " " + ("to" + " " + c);
      && Words(GospelLine(x), ["the", "gospel"]) == Some(a)
      && Words(a, ["according", "to"]) == Some(c)
      && Word(c, "st.") == Some(x)
  {
    var c := "St." + " " + x;
    var a := "according" + " " + ("to" + " " + c);
    GospelLower();
    assert Solid(a) && Solid(c);
    GospelLineSplit(x);
    TwoWords("The", "the", "Gospel", "gospel", a);
    TwoWords("according", "according", "to", "to", c);
    WordOn("St.", "st.", x);
  }

  lemma GospelMatchOn(l: string, a: string, c: string, x: string)
    requires Words(l, ["the", "gospel"]) == Some(a) && Words(a, ["according", "to"]) == Some(c)
    requires Evangelist(c) == Some(x)
    ensures GospelMatch(l) == Some(x)
  {
  }

  lemma EvangelistSaint(c: string, x: string)
    requires Word(c, "st.") == Some(x) && LetterRun(x)
    ensures Evangelist(c) == Some(x)
  {
  }

  lemma GospelMatched(x: string)
    requires LetterRun(x)
    ensures GospelMatch(GospelLine(x)) == Some(x)
  {
    var c := "St." + " " + x;
    GospelPieces(x);
    EvangelistSaint(c, x);
    GospelMatchOn(GospelLine(x), "according" + " " + ("to" + " " + c), c, x);
  }

  /** The patterns of lines 67-95 fail on a line "The G…". */
  lemma BeforeGospel(l: string, r: string)
    requires Word(l, "the") == Some(r) && r != [] && LowerChar(r[0]) == 'g'
    ensures MosesMatch(l).None? && ProphetMatch(l).None? && KingsMatch(l).None?
    ensures !Title(l, ["the"], "proverbs") && !Title(l, ["the", "song", "of"], "solomon")
    ensures !Title(l, ["the", "lamentations", "of"], "jeremiah")
  {
    MosesNone(l, r);
    ProphetNone(l, r);
    ProverbsNone(l, r);
    SongNone(l, r);
    LamentationsNone(l, r);
    KingsNone(l, r);
  }

  lemma GospelThe(x: string)
    ensures Word(GospelLine(x), "the") == Some("Gospel according to St. " + x)
  {
    var r := "Gospel according to St. " + x;
    assert GospelLine(x) == "The " + r;
    TheLine(r);
  }

  lemma ClassifyGospel(l: string, books: set<string>, x: string)
    requires MosesMatch(l).None? && ProphetMatch(l).None? && KingsMatch(l).None?
    requires !Title(l, ["the"], "proverbs") && !Title(l, ["the", "song", "of"], "solomon")
    requires !Title(l, ["the", "lamentations", "of"], "jeremiah")
    requires GospelMatch(l) == Some(x)
    ensures Classify(l, books, EpistleMatch(l)) == KnownClean(books, x)
  {
  }

  /** Lines 98-101: "The Gospel according to St. Matthew" and the like
      give the cleaned name of the evangelist when the table knows it, and
      `null` otherwise. */
  lemma GospelHeading(line: string, x: string, books: set<string>)
    requires LetterRun(x) && HeaderLine(line) == GospelLine(x)
    ensures DetectBookFromHeader(line, books) == KnownClean(books, x)
    ensures x !in VARIANTS ==> DetectBookFromHeader(line, books) == Known(books, x)
  {
    var l := HeaderLine(line);
    GospelThe(x);
    BeforeGospel(l, "Gospel according to St. " + x);
    GospelMatched(x);
    ClassifyGospel(l, books, x);
    LetterClean(x);
  }

  // The prophets and the other books "of" a name

  /** Three words, each followed by one space, before text that does not
      begin with whitespace. */
  lemma ThreeWords(a: string, u: string, b: string, v: string, c: string, w: string, x: string)
    requires Lower(a) == u && Lower(b) == v && Lower(c) == w && Solid(b) && Solid(c) && Solid(x)
    ensures Words(a + " " + (b + " " + (c + " " + x)), [u, v, w]) == Some(x)
  {
    var t := b + " " + (c + " " + x);
    SolidJoin(b, c + " " + x);
    WordOn(a, u, t);
    WordsHead(a + " " + t, [u, v, w], t);
    assert [u, v, w][1..] == [v, w];
    TwoWords(b, v, c, w, x);
  }

  function ProphetLine(x: string): string {
    "The Book of the Prophet " + x
  }

  function BookOfLine(x: string): string {
    "The Book of " + x
  }

  lemma ProphetLineSplit(x: string)
    ensures ProphetLine(x) == "The" + " " + ("Book" + " " + ("of" + " " + ("the" + " " + ("Prophet" + " " + x))))
  {
  }

  lemma BookOfLineSplit(x: string)
    ensures BookOfLine(x) == "The" + " " + ("Book" + " " + ("of" + " " + x))
  {
  }

  lemma BookLower()
    ensures Lower("The") == "the" && Lower("Book") == "book" && Lower("of") == "of"
    ensures Lower("the") == "the" && Lower("Prophet") == "prophet"
    ensures Solid("Book") && Solid("of") && Solid("Prophet")
  {
  }

  /** `The\s+Book\s+of\s+` and `the\s+Prophet\s+` on "The Book of the
      Prophet X". */
  lemma ProphetPieces(x: string)
    requires Solid(x)
    ensures var a := "the" + " " + ("Prophet" + " " + x);
      Words(ProphetLine(x), ["the", "book", "of"]) == Some(a) && Words(a, ["the", "prophet"]) == Some(x)
  {
    var a := "the" + " " + ("Prophet" + " " + x);
    BookLower();
    SolidJoin("the", "Prophet" + " " + x);
    ProphetLineSplit(x);
    ThreeWords("The", "the", "Book", "book", "of", "of", a);
    TwoWords("the", "the", "Prophet", "prophet", x);
  }

  lemma BookOfPieces(x: string)
    requires Solid(x)
    ensures Words(BookOfLine(x), ["the", "book", "of"]) == Some(x)
  {
    BookLower();
    BookOfLineSplit(x);
    ThreeWords("The", "the", "Book", "book", "of", "of", x);
  }

  lemma ProphetMatchOn(l: string, a: string, x: string)
    requires Words(l, ["the", "book", "of"]) == Some(a) && Words(a, ["the", "prophet"]) == Some(x) && BookRun(x)
    ensures ProphetMatch(l) == Some(x)
  {
  }

  lemma BookOfMatchOn(l: string, x: string)
    requires Words(l, ["the", "book", "of"]) == Some(x) && Words(x, ["the", "prophet"]).None? && BookRun(x)
    ensures ProphetMatch(l) == Some(x)
  {
  }

  /** `The\s+` before "Book…". */
  lemma TheBook(l: string, rest: string)
    requires l == "The" + " " + ("Book" + " " + rest)
    ensures Word(l, "the") == Some("Book" + " " + rest) && LowerChar(("Book" + " " + rest)[0]) == 'b'
  {
    var r := "Book" + " " + rest;
    assert r[0] == 'B';
    BookLower();
    WordOn("The", "the", r);
  }

  lemma ClassifyProphet(l: string, books: set<string>, x: string)
    requires MosesMatch(l).None? && ProphetMatch(l) == Some(x)
    ensures Classify(l, books, EpistleMatch(l)) == KnownClean(books, x)
  {
  }

  lemma ProphetMatched(x: string)
    requires LetterRun(x)
    ensures MosesMatch(ProphetLine(x)).None? && ProphetMatch(ProphetLine(x)) == Some(x)
  {
    var a := "the" + " " + ("Prophet" + " " + x);
    LetterRunNormalized(x);
    ProphetPieces(x);
    ProphetMatchOn(ProphetLine(x), a, x);
    ProphetLineSplit(x);
    TheBook(ProphetLine(x), "of" + " " + a);
    MosesNone(ProphetLine(x), "Book" + " " + ("of" + " " + a));
  }

  lemma BookOfMatched(x: string)
    requires LetterRun(x)
    ensures MosesMatch(BookOfLine(x)).None? && ProphetMatch(BookOfLine(x)) == Some(x)
  {
    LetterRunNormalized(x);
    BookOfPieces(x);
    LetterNoWord(x, "the");
    WordsFirstNone(x, ["the", "prophet"]);
    BookOfMatchOn(BookOfLine(x), x);
    BookOfLineSplit(x);
    TheBook(BookOfLine(x), "of" + " " + x);
    MosesNone(BookOfLine(x), "Book" + " " + ("of" + " " + x));
  }

  /** Lines 74-77: "The Book of the Prophet Isaiah" and the like give the
      cleaned name of the prophet when the table knows it, and `null`
      otherwise. */
  lemma ProphetHeading(line: string, x: string, books: set<string>)
    requires LetterRun(x) && HeaderLine(line) == ProphetLine(x)
    ensures DetectBookFromHeader(line, books) == KnownClean(books, x)
    ensures x !in VARIANTS ==> DetectBookFromHeader(line, books) == Known(books, x)
  {
    ProphetMatched(x);
    ClassifyProphet(HeaderLine(line), books, x);
    LetterClean(x);
  }

  /** Lines 74-77 without "the Prophet": "The Book of Ruth" and the like. */
  lemma BookOfHeading(line: string, x: string, books: set<string>)
    requires LetterRun(x) && HeaderLine(line) == BookOfLine(x)
    ensures DetectBookFromHeader(line, books) == KnownClean(books, x)
    ensures x !in VARIANTS ==> DetectBookFromHeader(line, books) == Known(books, x)
  {
    BookOfMatched(x);
    ClassifyProphet(HeaderLine(line), books, x);
    LetterClean(x);
  }

  // Samuel, Kings and Chronicles

  function KingsLine(o: string, x: string): string {
    "The " + o + " Book of the " + x
  }

  function KingsPlainLine(o: string, x: string): string {
    "The " + o + " Book of " + x
  }

  lemma KingsLineSplit(o: string, x: string)
    ensures KingsLine(o, x) == "The" + " " + (o + " " + ("Book" + " " + ("of" + " " + ("the" + " " + x))))
    ensures KingsPlainLine(o, x) == "The" + " " + (o + " " + ("Book" + " " + ("of" + " " + x)))
  {
  }

  /** Line 67 needs "Moses" and a comma or colon where this text has
      neither. */
  lemma NotCalled(c: string)
    requires (c != [] && LowerChar(c[0]) != 'm') || LetterRun(c)
    ensures !CalledTail(c)
  {
    if c != [] && LowerChar(c[0]) != 'm' {
      NoWord(c, "moses", 0);
    } else if |c| > 5 {
      assert IsLetter(c[5]);
    }
  }

  /** Line 67 fails on "First Book of …" and "Second Book of …" when what
      follows "Book of" is not "Moses," or "Moses:". */
  lemma KingsNotMoses(o: string, w: string, d: string, c: string)
    requires OrdinalTriple(o, w, d) && o != "Third" && Solid(c) && !CalledTail(c)
    ensures MosesOrdinalMatch(o + " " + ("Book" + " " + ("of" + " " + c))).None?
  {
    var b := "Book" + " " + ("of" + " " + c);
    var i := if o == "First" then 0 else 1;
    assert MOSES_TITLES[i] == o && b[0] == 'B';
    MosesOrdinal(i, b);
    BookLower();
    TwoWords("Book", "book", "of", "of", c);
  }

  /** Line 90's ordinal alternative on "First …" or "Second …". */
  lemma KingsOrdinal(o: string, w: string, d: string, b: string, k: nat)
    requires OrdinalTriple(o, w, d) && o != "Third" && Solid(b) && k == OrdinalIndex(o)
    ensures k < 2
      && Alternative(o + " " + b, ["first", "second"]) == Some(k)
      && Word(o + " " + b, ["first", "second"][k]) == Some(b)
      && (o + " " + b)[..|["first", "second"][k]|] == o
  {
    JoinHead(o, b);
    if o == "First" {
      assert o + " " + b == "First " + b;
      FirstKingsWord(b);
    } else {
      assert o + " " + b == "Second " + b;
      SecondKingsWord(b);
    }
  }

  lemma KingsMatchOn(l: string, r: string, k: nat, b: string, c: string, x: string)
    requires k < 2 && Word(l, "the") == Some(r)
    requires Alternative(r, ["first", "second"]) == Some(k) && Word(r, ["first", "second"][k]) == Some(b)
    requires Words(b, ["book", "of"]) == Some(c) && BookRun(x)
    requires Words(c, ["the"]) == Some(x) || (Words(c, ["the"]).None? && c == x)
    ensures KingsMatch(l) == Some((r[..|["first", "second"][k]|], x))
  {
  }

  /** Line 90 after `The\s+` on "First Book of …" and "Second Book of …". */
  lemma KingsAfterThe(o: string, w: string, d: string, c: string, k: nat)
    requires OrdinalTriple(o, w, d) && o != "Third" && Solid(c) && k == OrdinalIndex(o)
    ensures var b := "Book" + " " + ("of" + " " + c); var r := o + " " + b;
      && k < 2 && Alternative(r, ["first", "second"]) == Some(k)
      && Word(r, ["first", "second"][k]) == Some(b) && r[..|["first", "second"][k]|] == o
      && Words(b, ["book", "of"]) == Some(c)
  {
    var b := "Book" + " " + ("of" + " " + c);
    assert b[0] == 'B';
    KingsOrdinal(o, w, d, b, k);
    BookLower();
    TwoWords("Book", "book", "of", "of", c);
  }

  /** The pieces of line 90 on "The First Book of the X" and the like. */
  lemma KingsPieces(o: string, w: string, d: string, c: string, x: string)
    requires OrdinalTriple(o, w, d) && o != "Third" && Solid(c) && LetterRun(x)
    requires Words(c, ["the"]) == Some(x) || (Words(c, ["the"]).None? && c == x)
    ensures KingsMatch("The" + " " + (o + " " + ("Book" + " " + ("of" + " " + c)))) == Some((o, x))
  {
    var r := o + " " + ("Book" + " " + ("of" + " " + c));
    var k := OrdinalIndex(o);
    assert r[0] == o[0];
    TheWord(r);
    KingsAfterThe(o, w, d, c, k);
    LetterRunNormalized(x);
    KingsMatchOn("The" + " " + r, r, k, "Book" + " " + ("of" + " " + c), c, x);
  }

  lemma TheName(x: string)
    requires Solid(x)
    ensures Words("the" + " " + x, ["the"]) == Some(x)
  {
    BookLower();
    WordOn("the", "the", x);
    WordsOne("the" + " " + x, "the");
  }

  /** The patterns of lines 67-87 fail on "The First Book of …" and "The
      Second Book of …" when what follows "Book of" is not "Moses". */
  lemma BeforeKings(o: string, w: string, d: string, l: string, c: string)
    requires OrdinalTriple(o, w, d) && o != "Third" && Solid(c) && !CalledTail(c)
    requires l == "The" + " " + (o + " " + ("Book" + " " + ("of" + " " + c)))
    ensures MosesMatch(l).None? && ProphetMatch(l).None?
    ensures !Title(l, ["the"], "proverbs") && !Title(l, ["the", "song", "of"], "solomon")
    ensures !Title(l, ["the", "lamentations", "of"], "jeremiah")
  {
    var b := "Book" + " " + ("of" + " " + c);
    var r := o + " " + b;
    assert r[0] == o[0];
    TheWord(r);
    KingsNotMoses(o, w, d, c);
    ProphetNone(l, r);
    ProverbsNone(l, r);
    OrdinalNotSong(o, w, d, l, b);
    LamentationsNone(l, r);
  }

  lemma ClassifyKings(l: string, books: set<string>, o: string, x: string)
    requires MosesMatch(l).None? && ProphetMatch(l).None?
    requires !Title(l, ["the"], "proverbs") && !Title(l, ["the", "song", "of"], "solomon")
    requires !Title(l, ["the", "lamentations", "of"], "jeremiah")
    requires KingsMatch(l) == Some((o, x))
    ensures Classify(l, books, EpistleMatch(l)) == KingsBook(books, o, x)
  {
  }

  /** Lines 92-94 on a one-word name: the digit of the ordinal, a space and
      the name, cleaned and looked up. */
  lemma KingsBookOn(books: set<string>, o: string, w: string, d: string, x: string)
    requires OrdinalTriple(o, w, d) && o != "Third" && LetterRun(x)
    ensures KingsBook(books, o, x) == KnownClean(books, d + " " + x)
  {
    LetterNoWord(x, "the");
  }

  /** Lines 90-94: "The First Book of the Kings", "The Second Book of the
      Chronicles" and the like give the cleaned name of the numbered book,
      when the table knows it, and `null` otherwise. */
  lemma KingsHeading(line: string, o: string, w: string, d: string, x: string, books: set<string>)
    requires OrdinalTriple(o, w, d) && o != "Third" && LetterRun(x)
    requires HeaderLine(line) == KingsLine(o, x)
    ensures DetectBookFromHeader(line, books) == KnownClean(books, d + " " + x)
  {
    var c := "the" + " " + x;
    assert Solid(x) && Solid(c) && c[0] == 't';
    KingsLineSplit(o, x);
    NotCalled(c);
    BeforeKings(o, w, d, HeaderLine(line), c);
    TheName(x);
    KingsPieces(o, w, d, c, x);
    ClassifyKings(HeaderLine(line), books, o, x);
    KingsBookOn(books, o, w, d, x);
  }

  /** Lines 90-94 without "the": "The First Book of Samuel" and the like. */
  lemma KingsPlainHeading(line: string, o: string, w: string, d: string, x: string, books: set<string>)
    requires OrdinalTriple(o, w, d) && o != "Third" && LetterRun(x)
    requires HeaderLine(line) == KingsPlainLine(o, x)
    ensures DetectBookFromHeader(line, books) == KnownClean(books, d + " " + x)
  {
    assert Solid(x);
    KingsLineSplit(o, x);
    NotCalled(x);
    BeforeKings(o, w, d, HeaderLine(line), x);
    LetterNoWord(x, "the");
    KingsPieces(o, w, d, x, x);
    ClassifyKings(HeaderLine(line), books, o, x);
    KingsBookOn(books, o, w, d, x);
  }

  /** A digit, a space and a one-word name not in the variants table come
      out of cleanBookName unchanged. */
  lemma DigitLetterClean(d: string, x: string)
    requires |d| == 1 && IsDigit(d[0]) && LetterRun(x) && d + " " + x !in VARIANTS
    ensures CleanBookName(d + " " + x) == d + " " + x
  {
    DigitStripped(d, x);
    DigitNotNumbered(d, x);
    LetterRunNormalized(x);
    LetterNoWord(x, "book of");
    DigitBookOfOn(d, x);
    DigitJoinTrimmed(d, x);
  }

  lemma DigitStripped(d: string, x: string)
    requires |d| == 1 && IsDigit(d[0]) && LetterRun(x)
    ensures Stripped(d + " " + x) == d + " " + x
  {
    var s := d + " " + x;
    assert Normalized(d) && s[0] == d[0];
    LetterRunNormalized(x);
    NormalizedJoin(d, x);
    NoWord(s, "the", 0);
    StrippedStart(s);
  }

  lemma DigitNotNumbered(d: string, x: string)
    requires |d| == 1 && IsDigit(d[0])
    ensures Numbered(d + " " + x) == d + " " + x
  {
    var s := d + " " + x;
    assert s[0] == d[0];
    NoWord(s, "first", 0);
    NoWord(s, "second", 0);
    NoWord(s, "third", 0);
  }

  lemma KingsNotVariant(d: string)
    requires d == "1" || d == "2"
    ensures d + " Kings" !in VARIANTS && |d| == 1 && IsDigit(d[0]) && LetterRun("Kings")
    ensures d + " Kings" == d + " " + "Kings"
  {
    var k := d + " Kings";
    assert |k| == 7 && k[2] == 'K';
    assert forall j :: 0 <= j < |VARIANT_KEYS| ==> |VARIANT_KEYS[j]| != 7 || VARIANT_KEYS[j][2] != 'K';
    if k in VARIANTS {
      VariantKeysListed(k);
    }
    assert forall i :: 0 <= i < 5 ==> IsLetter("Kings"[i]);
  }

  lemma KnownDigit(books: set<string>, d: string, x: string)
    requires |d| == 1 && IsDigit(d[0]) && LetterRun(x) && d + " " + x !in VARIANTS
    ensures KnownClean(books, d + " " + x) == Known(books, d + " " + x)
  {
    DigitLetterClean(d, x);
  }

  /** "The First Book of the Kings" gives 1 Kings and "The Second Book of
      the Kings" gives 2 Kings, when the table knows them. */
  lemma KingsTitles(line: string, o: string, w: string, d: string, books: set<string>)
    requires OrdinalTriple(o, w, d) && o != "Third"
    requires HeaderLine(line) == KingsLine(o, "Kings")
    ensures DetectBookFromHeader(line, books) == Known(books, d + " Kings")
  {
    KingsNotVariant(d);
    KingsHeading(line, o, w, d, "Kings", books);
    KnownDigit(books, d, "Kings");
  }

  // The epistles of Paul

  /** What follows "Epistle" in "The Epistle of Paul the Apostle to the
      Romans" and the like. */
  function PaulTarget(x: string): string {
    "of Paul the Apostle to the " + x
  }

  lemma PaulTargetSplit(x: string)
    ensures PaulTarget(x) == "of" + " " + ("Paul" + " " + ApostleRest(x))
  {
  }

  lemma PaulLower()
    ensures Lower("of") == "of" && Lower("Paul") == "paul" && Lower("the") == "the"
    ensures Lower("Apostle") == "apostle" && Lower("to") == "to"
    ensures Solid("Apostle")
  {
  }

  /** The optional groups `of\s+` and `Paul\s+` of line 108. */
  lemma OfPaul(y: string)
    requires Solid(y)
    ensures Strip(Strip("of" + " " + ("Paul" + " " + y), ["of"]), ["paul"]) == y
  {
    PaulLower();
    SolidJoin("Paul", y);
    StripWord("of", "of", "Paul" + " " + y);
    StripWord("Paul", "paul", y);
  }

  /** The optional groups `the\s+Apostle\s+`, `to\s+` and `the\s+`. */
  lemma ApostleToThe(x: string)
    requires Solid(x)
    ensures Strip(Strip(Strip(ApostleRest(x), ["the", "apostle"]), ["to"]), ["the"]) == x
  {
    var z := "to" + " " + ("the" + " " + x);
    PaulLower();
    SolidJoin("to", "the" + " " + x);
    SolidJoin("the", x);
    TwoWords("the", "the", "Apostle", "apostle", z);
    StripWord("to", "to", "the" + " " + x);
    StripWord("the", "the", x);
  }

  lemma TargetOn(d: string, x: string)
    requires Strip(Strip(Strip(Strip(Strip(d, ["of"]), ["paul"]), ["the", "apostle"]), ["to"]), ["the"]) == x
    requires LetterRun(x)
    ensures EpistleTarget(d) == Some(x)
  {
    if |x| >= 3 {
      assert IsLetter(x[|x| - 3]);
    }
    LetterRunNormalized(x);
  }

  /** What follows "of Paul" in that text. */
  function ApostleRest(x: string): string {
    "the" + " " + ("Apostle" + " " + ("to" + " " + ("the" + " " + x)))
  }

  lemma PaulFront(x: string)
    ensures Strip(Strip(PaulTarget(x), ["of"]), ["paul"]) == ApostleRest(x)
    ensures Solid(PaulTarget(x))
  {
    var y := ApostleRest(x);
    assert y[0] == 't';
    PaulTargetSplit(x);
    OfPaul(y);
  }

  lemma PaulStrips(x: string)
    requires Solid(x)
    ensures Strip(Strip(Strip(Strip(Strip(PaulTarget(x), ["of"]), ["paul"]), ["the", "apostle"]), ["to"]), ["the"]) == x
    ensures Solid(PaulTarget(x))
  {
    PaulFront(x);
    ApostleToThe(x);
    StripChain(PaulTarget(x), ApostleRest(x), x);
  }

  lemma StripChain(d: string, y: string, x: string)
    requires Strip(Strip(d, ["of"]), ["paul"]) == y
    requires Strip(Strip(Strip(y, ["the", "apostle"]), ["to"]), ["the"]) == x
    ensures Strip(Strip(Strip(Strip(Strip(d, ["of"]), ["paul"]), ["the", "apostle"]), ["to"]), ["the"]) == x
  {
  }

  /** The rest of line 108 on "of Paul the Apostle to the X": the name. */
  lemma PaulTargetName(x: string)
    requires LetterRun(x)
    ensures EpistleTarget(PaulTarget(x)) == Some(x) && Solid(PaulTarget(x))
  {
    assert Solid(x);
    PaulStrips(x);
    TargetOn(PaulTarget(x), x);
  }

  function EpistleToLine(x: string): string {
    EpistleToLineOf(PaulTarget(x))
  }

  function OrdinalEpistleToLine(o: string, x: string): string {
    "The " + o + " Epistle " + PaulTarget(x)
  }

  /** `The\s+` before "Epistle …". */
  lemma TheEpistle(t: string)
    ensures Word(EpistleToLineOf(t), "the") == Some("Epistle " + t)
    ensures LowerChar(("Epistle " + t)[0]) == 'e'
  {
    var r := "Epistle " + t;
    assert EpistleToLineOf(t) == "The " + r && r[0] == 'E';
    TheLine(r);
  }

  function EpistleToLineOf(t: string): string {
    "The Epistle " + t
  }

  /** Line 108 up to `Epistle\s+` without an ordinal. */
  lemma EpistleHeadPlain(l: string, t: string)
    requires Word(l, "the") == Some("Epistle " + t) && Solid(t)
    ensures EpistleHead(l) == Some((None, t))
  {
    var r := "Epistle " + t;
    assert r[0] == 'E' && r[0..] == r;
    NoWord(r, "first", 0);
    NoWord(r, "second", 0);
    NoWord(r, "third", 0);
    EpistleNotGeneral(t);
    EpistleWord(t);
  }

  lemma ClassifyEpistle(l: string, books: set<string>, e: Option<(Option<string>, string)>)
    requires ReachesLate(l) && !Title(l, ["the", "acts", "of", "the"], "apostles") && e.Some?
    ensures Classify(l, books, e) == EpistleBook(books, e.value.0, e.value.1)
  {
    ClassifyReachesLate(l, books, e);
  }

  lemma EpistleMatchOn(l: string, o: Option<string>, t: string, c: string)
    requires EpistleHead(l) == Some((o, t)) && EpistleTarget(t) == Some(c)
    ensures EpistleMatch(l) == Some((o, c))
  {
  }

  /** "The Epistle of Paul the Apostle to the X" passes lines 67-105 by and
      matches line 108 with no ordinal and the name X. */
  lemma EpistleToMatched(x: string)
    requires LetterRun(x)
    ensures var l := EpistleToLine(x);
      ReachesLate(l) && !Title(l, ["the", "acts", "of", "the"], "apostles") && EpistleMatch(l) == Some((None, x))
  {
    var l := EpistleToLine(x);
    var t := PaulTarget(x);
    var r := "Epistle " + t;
    PaulTargetName(x);
    TheEpistle(t);
    LetterReachesLate(l, r);
    ActsNone(l, r);
    EpistleHeadPlain(l, t);
    EpistleMatchOn(l, None, t, x);
  }

  lemma EpistleNameEmpty(books: set<string>, who: string)
    ensures EpistleName(books, "", who) == Known(books, who)
  {
  }

  lemma EpistleBookPlain(books: set<string>, x: string)
    ensures EpistleBook(books, None, x) == KnownClean(books, x)
  {
    assert EpistleDigit(None) == "";
    EpistleNameEmpty(books, CleanBookName(x));
  }

  /** Lines 108-118 on "The Epistle of Paul the Apostle to the Romans"
      and the like, with no ordinal: the cleaned name of the addressees
      when the table knows it, and `null` otherwise. */
  lemma EpistleToHeading(line: string, x: string, books: set<string>)
    requires LetterRun(x) && HeaderLine(line) == EpistleToLine(x)
    ensures DetectBookFromHeader(line, books) == KnownClean(books, x)
    ensures x !in VARIANTS ==> DetectBookFromHeader(line, books) == Known(books, x)
  {
    var l := HeaderLine(line);
    EpistleToMatched(x);
    ClassifyEpistle(l, books, EpistleMatch(l));
    EpistleBookPlain(books, x);
    LetterClean(x);
  }

  /** Lines 113-118 on a name other than John or Peter: the name alone,
      whatever the ordinal. */
  lemma EpistleNameOther(books: set<string>, d: string, who: string)
    requires !JohnOrPeter(who)
    ensures EpistleName(books, d, who) == Known(books, who)
  {
  }

  /** Lines 108-118 as written on "The First Epistle of Paul the Apostle to
      the Corinthians" and the like: the ordinal is read but used only for
      John and Peter, so the heading looks up the bare name, and gives
      `null` when the table has only the numbered books. */
  lemma OrdinalEpistleAsWritten(line: string, o: string, w: string, d: string, x: string, books: set<string>)
    requires OrdinalTriple(o, w, d) && LetterRun(x) && x !in VARIANTS && !JohnOrPeter(x)
    requires HeaderLine(line) == OrdinalEpistleToLine(o, x)
    ensures DetectBookFromHeader(line, books) == Known(books, x)
    ensures x !in books ==> DetectBookFromHeader(line, books) == Null
  {
    PaulTargetName(x);
    EpistleLineBook(o, w, d, line, PaulTarget(x), x, books);
    LetterClean(x);
    EpistleNameOther(books, d, x);
  }

  /** Lines 113-118 corrected: the ordinal numbers every book, not only the
      letters of John and Peter. */
  function EpistleNameFixed(books: set<string>, digit: string, who: string): (r: Heading)
    ensures r.Found? ==> r.name in books
  {
    if digit == "" then Known(books, who)
    else if JohnOrPeter(who) then Known(books, digit + " " + (if Contains(Lower(who), "john") then "John" else "Peter"))
    else Known(books, digit + " " + who)
  }

  /** The correction only differs where a digit meets a name other than
      John or Peter. */
  lemma EpistleNameFixedAgrees(books: set<string>, digit: string, who: string)
    ensures digit == "" || JohnOrPeter(who) ==> EpistleNameFixed(books, digit, who) == EpistleName(books, digit, who)
    ensures digit != "" && !JohnOrPeter(who) ==> EpistleNameFixed(books, digit, who) == Known(books, digit + " " + who)
  {
  }

  /** detectBookFromHeader with the corrected lines 113-118. */
  function DetectBookFromHeaderNumbered(line: string, books: set<string>): (r: Heading)
    ensures r.Found? ==> r.name in books || r.name in FIXED_NAMES
  {
    var l := HeaderLine(line);
    var e := EpistleMatch(l);
    if ReachesLate(l) && !Title(l, ["the", "acts", "of", "the"], "apostles") && e.Some?
    then EpistleNameFixed(books, EpistleDigit(e.value.0), CleanBookName(e.value.1))
    else Classify(l, books, e)
  }

  /** The correction changes nothing on a line that reaches no epistle, or
      whose epistle has no ordinal or is by John or Peter. */
  lemma NumberedAgrees(line: string, books: set<string>)
    requires var e := EpistleMatch(HeaderLine(line));
      e.None? || EpistleDigit(e.value.0) == "" || JohnOrPeter(CleanBookName(e.value.1))
    ensures DetectBookFromHeaderNumbered(line, books) == DetectBookFromHeader(line, books)
  {
    var l := HeaderLine(line);
    var e := EpistleMatch(l);
    if ReachesLate(l) && !Title(l, ["the", "acts", "of", "the"], "apostles") && e.Some? {
      ClassifyEpistle(l, books, e);
      EpistleNameFixedAgrees(books, EpistleDigit(e.value.0), CleanBookName(e.value.1));
    }
  }

  /** "The First Epistle of Paul the Apostle to the X" and the like pass
      lines 67-105 by and match line 108 with the ordinal and the name X. */
  lemma OrdinalEpistleMatched(o: string, w: string, d: string, x: string)
    requires OrdinalTriple(o, w, d) && LetterRun(x)
    ensures var l := OrdinalEpistleToLine(o, x);
      ReachesLate(l) && !Title(l, ["the", "acts", "of", "the"], "apostles") && EpistleMatch(l) == Some((Some(o), x))
  {
    var l := OrdinalEpistleToLine(o, x);
    PaulTargetName(x);
    EpistleLine(o, w, d, l, PaulTarget(x));
    EpistleMatchOn(l, Some(o), PaulTarget(x), x);
  }

  lemma NumberedEpistle(line: string, books: set<string>, o: Option<string>, x: string)
    requires var l := HeaderLine(line);
      ReachesLate(l) && !Title(l, ["the", "acts", "of", "the"], "apostles") && EpistleMatch(l) == Some((o, x))
    ensures DetectBookFromHeaderNumbered(line, books) == EpistleNameFixed(books, EpistleDigit(o), CleanBookName(x))
  {
  }

  /** The corrected lines give the numbered book on "The First Epistle of
      Paul the Apostle to the Corinthians" and the like. */
  lemma OrdinalEpistleFixed(line: string, o: string, w: string, d: string, x: string, books: set<string>)
    requires OrdinalTriple(o, w, d) && LetterRun(x) && x !in VARIANTS && !JohnOrPeter(x)
    requires HeaderLine(line) == OrdinalEpistleToLine(o, x)
    ensures DetectBookFromHeaderNumbered(line, books) == Known(books, d + " " + x)
  {
    OrdinalEpistleMatched(o, w, d, x);
    NumberedEpistle(line, books, Some(o), x);
    EpistleDigitOf(o, w, d);
    LetterClean(x);
    EpistleNameFixedAgrees(books, d, x);
  }

  // The fallback

  /** No pattern that begins with "The" matches a line that does not. */
  lemma NoThe(l: string)
    requires Word(l, "the").None?
    ensures ReachesLate(l) && !Title(l, ["the", "acts", "of", "the"], "apostles")
    ensures EpistleMatch(l).None? && !RevelationTitle(l)
  {
    WordsFirstNone(l, ["the", "book", "of"]);
    WordsFirstNone(l, ["the"]);
    WordsFirstNone(l, ["the", "song", "of"]);
    WordsFirstNone(l, ["the", "lamentations", "of"]);
    WordsFirstNone(l, ["the", "gospel"]);
    WordsFirstNone(l, ["the", "acts", "of", "the"]);
  }

  lemma ClassifyFallback(l: string, books: set<string>)
    requires ReachesLate(l) && !Title(l, ["the", "acts", "of", "the"], "apostles")
    requires EpistleMatch(l).None? && !RevelationTitle(l) && !Contains(Lower(l), "revelation")
    ensures Classify(l, books, EpistleMatch(l)) == KnownClean(books, l)
  {
    ClassifyReachesLate(l, books, EpistleMatch(l));
  }

  /** Lines 127-128: a line that does not begin with "The" and does not
      mention Revelation is cleaned as a whole and looked up. */
  lemma FallbackHeading(line: string, books: set<string>)
    requires Word(HeaderLine(line), "the").None? && !Contains(Lower(HeaderLine(line)), "revelation")
    ensures DetectBookFromHeader(line, books) == KnownClean(books, HeaderLine(line))
  {
    NoThe(HeaderLine(line));
    ClassifyFallback(HeaderLine(line), books);
  }

  // ---------------------------------------------------------------------
  // "Book of the Prophet" in cleanBookName
  // ---------------------------------------------------------------------

  function BookOfProphet(x: string): string {
    "Book of the Prophet " + x
  }

  /** What line 10 leaves of "Book of the Prophet X". */
  function TheProphet(x: string): string {
    "the" + " " + ("Prophet" + " " + x)
  }

  lemma BookOfProphetSplit(x: string)
    ensures BookOfProphet(x) == "Book of " + TheProphet(x)
    ensures BookOfProphet(x) == "Book of the Prophet" + " " + x
  {
  }

  lemma TheProphetNormalized(x: string)
    requires Normalized(x) && x != []
    ensures Normalized(TheProphet(x)) && Normalized(BookOfProphet(x))
  {
    assert LetterRun("Prophet") && LetterRun("the");
    LetterRunNormalized("Prophet");
    LetterRunNormalized("the");
    NormalizedJoin("Prophet", x);
    NormalizedJoin("the", "Prophet" + " " + x);
    BookOfJoin(TheProphet(x));
    BookOfProphetSplit(x);
  }

  /** No prefix of the chain after the first applies to "the Prophet X". */
  lemma TheProphetIdle(x: string)
    ensures forall j :: 0 < j < |PREFIXES| ==> Words(TheProphet(x), PREFIXES[j]).None?
  {
    var a := TheProphet(x);
    assert a[0] == 't';
    forall j | 0 < j < |PREFIXES| ensures Words(a, PREFIXES[j]).None? {
      PrefixHead(j);
      NoWord(a, PREFIXES[j][0], 0);
      WordsFirstNone(a, PREFIXES[j]);
    }
  }

  /** Line 10 takes "Book of " off and lines 11-18 then find nothing. */
  lemma BookOfProphetPrefixes(x: string)
    ensures StripAll(BookOfProphet(x), PREFIXES) == TheProphet(x)
  {
    BookOfProphetSplit(x);
    BookOfWord(TheProphet(x));
    TheProphetIdle(x);
    StripAllAt(BookOfProphet(x), PREFIXES, 0, TheProphet(x));
  }

  lemma BookOfProphetStripped(x: string)
    requires LetterRun(x)
    ensures Stripped(BookOfProphet(x)) == TheProphet(x)
  {
    var s := BookOfProphet(x);
    LetterRunNormalized(x);
    TheProphetNormalized(x);
    assert s[0] == 'B';
    NoWord(s, "the", 0);
    StrippedChain(s);
    BookOfProphetPrefixes(x);
  }

  /** Lines 51-60 leave "the Prophet X" alone. */
  lemma TheProphetTail(x: string)
    requires LetterRun(x)
    ensures TheProphet(x) !in VARIANTS && Trim(DigitBookOf(Numbered(TheProphet(x)))) == TheProphet(x)
  {
    var a := TheProphet(x);
    assert a[0] == 't' && a[1] == 'h' && a[2] == 'e';
    NotVariant(a);
    NoWord(a, "first", 0);
    NoWord(a, "second", 0);
    NoWord(a, "third", 2);
    assert !DigitBookOfApplies(a);
    LetterRunNormalized(x);
    TheProphetNormalized(x);
    NormalizedTrim(a);
  }

  /** cleanBookName as written on "Book of the Prophet Isaiah": line 10
      removes "Book of " first, so the longer prefixes of lines 11 and 12
      never match, and "the Prophet Isaiah" is left. */
  lemma BookOfProphetAsWritten(x: string)
    requires LetterRun(x)
    ensures CleanBookName(BookOfProphet(x)) == TheProphet(x)
  {
    BookOfProphetStripped(x);
    TheProphetTail(x);
  }

  /** The prefix chain with the longer "Book of" forms first, as the
      comment of line 12 intends. */
  const PREFIXES_FIXED: seq<seq<string>> :=
    [["book of the prophet"], ["book of the"], ["book of"]] + PREFIXES[3..]

  /** cleanBookName with the corrected order of lines 10-12. */
  function CleanBookNameFixed(raw: string): string {
    var s := StripAll(Strip(Trim(CollapseSpaces(raw)), ["the"]), PREFIXES_FIXED);
    if s in VARIANTS then VARIANTS[s] else Trim(DigitBookOf(Numbered(s)))
  }

  lemma ProphetPrefixLower()
    ensures Lower("Book of the Prophet") == "book of the prophet"
  {
  }

  lemma LetterNoFixedPrefix(x: string)
    requires LetterRun(x)
    ensures forall j :: 0 < j < |PREFIXES_FIXED| ==> Words(x, PREFIXES_FIXED[j]).None?
  {
    forall j | 0 < j < |PREFIXES_FIXED| ensures Words(x, PREFIXES_FIXED[j]).None? {
      assert PREFIXES_FIXED[j] != [];
      LetterNoWord(x, PREFIXES_FIXED[j][0]);
      WordsFirstNone(x, PREFIXES_FIXED[j]);
    }
  }

  /** The corrected chain takes the whole of "Book of the Prophet " off. */
  lemma BookOfProphetChain(x: string)
    requires LetterRun(x)
    ensures StripAll(BookOfProphet(x), PREFIXES_FIXED) == x
  {
    var s := BookOfProphet(x);
    BookOfProphetSplit(x);
    ProphetPrefixLower();
    WordOn("Book of the Prophet", "book of the prophet", x);
    WordsOne(s, "book of the prophet");
    LetterNoFixedPrefix(x);
    StripAllAt(s, PREFIXES_FIXED, 0, x);
  }

  lemma BookOfProphetStart(x: string)
    requires LetterRun(x)
    ensures Strip(Trim(CollapseSpaces(BookOfProphet(x))), ["the"]) == BookOfProphet(x)
  {
    var s := BookOfProphet(x);
    LetterRunNormalized(x);
    TheProphetNormalized(x);
    CollapseNormalized(s);
    NormalizedTrim(s);
    assert s[0] == 'B';
    NoWord(s, "the", 0);
    StripOneIdle(s, "the");
  }

  /** The tail of cleanBookName on a one-word name not in the table. */
  lemma LetterTail(x: string)
    requires LetterRun(x) && x !in VARIANTS
    ensures Trim(DigitBookOf(Numbered(x))) == x
  {
    LetterNoWord(x, "first");
    LetterNoWord(x, "second");
    LetterNoWord(x, "third");
    assert !DigitBookOfApplies(x);
    LetterRunNormalized(x);
    NormalizedTrim(x);
  }

  /** The corrected cleanBookName turns "Book of the Prophet Isaiah" into
      what it makes of "Isaiah" alone. */
  lemma BookOfProphetFixed(x: string)
    requires LetterRun(x)
    ensures CleanBookNameFixed(BookOfProphet(x)) == CleanBookName(x)
    ensures x !in VARIANTS ==> CleanBookNameFixed(BookOfProphet(x)) == x
  {
    BookOfProphetStart(x);
    BookOfProphetChain(x);
    LetterClean(x);
    if x !in VARIANTS {
      LetterTail(x);
    }
  }

  /** The correction changes nothing on a name that none of the "Book of"
      prefixes begins. */
  lemma CleanBookNameFixedAgrees(raw: string)
    requires var s := Strip(Trim(CollapseSpaces(raw)), ["the"]);
      Words(s, ["book of"]).None? && Words(s, ["book of the"]).None? && Words(s, ["book of the prophet"]).None?
    ensures CleanBookNameFixed(raw) == CleanBookName(raw)
  {
    ChainsAgree(Strip(Trim(CollapseSpaces(raw)), ["the"]));
  }

  lemma ChainsAgree(s: string)
    requires Words(s, ["book of"]).None? && Words(s, ["book of the"]).None? && Words(s, ["book of the prophet"]).None?
    ensures StripAll(s, PREFIXES_FIXED) == StripAll(s, PREFIXES)
  {
    FixedChainShape();
    ChainFromThree(s, PREFIXES);
    ChainFromThree(s, PREFIXES_FIXED);
  }

  /** The two chains differ only in the order of their first three prefixes. */
  lemma FixedChainShape()
    ensures |PREFIXES| == |PREFIXES_FIXED| == 8 && PREFIXES_FIXED[3..] == PREFIXES[3..]
    ensures PREFIXES[0] == PREFIXES_FIXED[2] == ["book of"]
    ensures PREFIXES[1] == PREFIXES_FIXED[1] == ["book of the"]
    ensures PREFIXES[2] == PREFIXES_FIXED[0] == ["book of the prophet"]
  {
  }

  /** A chain whose first three prefixes do not apply. */
  lemma ChainFromThree(s: string, ps: seq<seq<string>>)
    requires |ps| >= 3 && Words(s, ps[0]).None? && Words(s, ps[1]).None? && Words(s, ps[2]).None?
    ensures StripAll(s, ps) == StripAll(s, ps[3..])
  {
    assert ps[1..][0] == ps[1] && ps[1..][1..] == ps[2..];
    assert ps[2..][0] == ps[2] && ps[2..][1..] == ps[3..];
    assert StripAll(s, ps) == StripAll(s, ps[1..]);
    assert StripAll(s, ps[1..]) == StripAll(s, ps[2..]);
  }
}
