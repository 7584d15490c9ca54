/** Strings as JavaScript sees them: the `\s`, `\d`, `\w` classes of its regular
    expressions, ASCII case mapping, `trim`, the global `replace(/\s+/g, " ")`,
    `includes`, `join` and decimal numerals. */
module Text {

  /** JavaScript's `\s`: the WhiteSpace and LineTerminator code points of
      ECMAScript, which is also the set `String.prototype.trim` removes. */
  predicate IsSpace(c: char) {
    c == '\t' || c == '\n' || c == '\U{000B}' || c == '\U{000C}' || c == '\r' || c == ' '
    || c == '\U{00A0}' || c == '\U{1680}' || ('\U{2000}' <= c <= '\U{200A}')
    || c == '\U{2028}' || c == '\U{2029}' || c == '\U{202F}' || c == '\U{205F}'
    || c == '\U{3000}' || c == '\U{FEFF}'
  }

  /** The characters a regular-expression `.` does not match. */
  predicate IsLineTerminator(c: char) {
    c == '\n' || c == '\r' || c == '\U{2028}' || c == '\U{2029}'
  }

  predicate IsUpper(c: char) { 'A' <= c <= 'Z' }
  predicate IsLower(c: char) { 'a' <= c <= 'z' }
  predicate IsLetter(c: char) { IsUpper(c) || IsLower(c) }
  predicate IsDigit(c: char) { '0' <= c <= '9' }
  /** JavaScript's `\w` (without the `u` flag). */
  predicate IsWordChar(c: char) { IsLetter(c) || IsDigit(c) || c == '_' }

  /** The regular-expression class `[A-Za-z ]`. */
  predicate BookChar(c: char) { IsLetter(c) || c == ' ' }

  /** `[A-Za-z ]+` */
  predicate BookRun(z: string) {
    z != [] && forall i :: 0 <= i < |z| ==> BookChar(z[i])
  }

  /** `[A-Za-z]+` */
  predicate LetterRun(z: string) {
    z != [] && forall i :: 0 <= i < |z| ==> IsLetter(z[i])
  }

  function LowerChar(c: char): (r: char)
    ensures !IsUpper(r)
    ensures IsLetter(c) <==> IsLetter(r)
    ensures IsSpace(c) <==> IsSpace(r)
    ensures !IsUpper(c) ==> r == c
  {
    if IsUpper(c) then (c as int + 32) as char else c
  }

  function UpperChar(c: char): (r: char)
    ensures !IsLower(r)
    ensures IsLetter(c) <==> IsLetter(r)
    ensures IsSpace(c) <==> IsSpace(r)
    ensures IsWordChar(c) <==> IsWordChar(r)
    ensures !IsLower(c) ==> r == c
  {
    if IsLower(c) then (c as int - 32) as char else c
  }

  /** `toLowerCase()` restricted to ASCII letters. */
  function Lower(s: string): (r: string)
    ensures |r| == |s|
    ensures forall i :: 0 <= i < |s| ==> r[i] == LowerChar(s[i])
  {
    seq(|s|, i requires 0 <= i < |s| => LowerChar(s[i]))
  }

  /** `toUpperCase()` restricted to ASCII letters. */
  function Upper(s: string): (r: string)
    ensures |r| == |s|
    ensures forall i :: 0 <= i < |s| ==> r[i] == UpperChar(s[i])
  {
    seq(|s|, i requires 0 <= i < |s| => UpperChar(s[i]))
  }

  /** `s` begins with `p`, ignoring ASCII case; `p` is written in lower case. */
  predicate HasPrefixCI(s: string, p: string) {
    |p| <= |s| && Lower(s[..|p|]) == p
  }

  /** `s` equals `p`, ignoring ASCII case; `p` is written in lower case. */
  predicate EqualsCI(s: string, p: string) {
    |s| == |p| && Lower(s) == p
  }

  /** `sub` occurs in `s` starting at index `i`. */
  predicate OccursAt(s: string, sub: string, i: int) {
    0 <= i && i + |sub| <= |s| && s[i..i + |sub|] == sub
  }

  /** `s.includes(sub)` */
  predicate Contains(s: string, sub: string)
    decreases |s|
  {
    sub <= s || (|s| > 0 && Contains(s[1..], sub))
  }

  lemma {:induction false} OccursAtContains(s: string, sub: string, i: int)
    requires OccursAt(s, sub, i)
    ensures Contains(s, sub)
    decreases i
  {
    if i > 0 {
      assert s[1..][i - 1..i - 1 + |sub|] == s[i..i + |sub|];
      OccursAtContains(s[1..], sub, i - 1);
    } else {
      assert sub == s[..|sub|];
    }
  }

  lemma {:induction false} ContainsOccurs(s: string, sub: string) returns (i: nat)
    requires Contains(s, sub)
    ensures OccursAt(s, sub, i)
    decreases |s|
  {
    if sub <= s {
      i := 0;
      assert s[..|sub|] == sub;
    } else {
      var j := ContainsOccurs(s[1..], sub);
      assert s[1..][j..j + |sub|] == s[j + 1..j + 1 + |sub|];
      i := j + 1;
    }
  }

  /** A substring whose first character `s` lacks does not occur in `s`. */
  lemma {:induction false} MissingHead(s: string, sub: string)
    requires sub != [] && forall i :: 0 <= i < |s| ==> s[i] != sub[0]
    ensures !Contains(s, sub)
    decreases |s|
  {
    if |s| > 0 {
      assert s[0] != sub[0];
      assert !(sub <= s);
      MissingHead(s[1..], sub);
    }
  }

  /** `includes` holds exactly when the substring occurs at some index. */
  lemma ContainsAt(s: string, sub: string)
    ensures Contains(s, sub) <==> exists i :: OccursAt(s, sub, i)
  {
    if Contains(s, sub) {
      var i := ContainsOccurs(s, sub);
    }
    if exists i :: OccursAt(s, sub, i) {
      var i :| OccursAt(s, sub, i);
      OccursAtContains(s, sub, i);
    }
  }

  /** Drops the leading run of `\s` characters. */
  function TrimStart(s: string): (r: string)
    ensures |r| <= |s| && r == s[|s| - |r|..]
    ensures r != [] ==> !IsSpace(r[0])
    ensures forall i :: 0 <= i < |s| - |r| ==> IsSpace(s[i])
  {
    if s != [] && IsSpace(s[0]) then TrimStart(s[1..]) else s
  }

  /** Drops the trailing run of `\s` characters. */
  function TrimEnd(s: string): (r: string)
    ensures |r| <= |s| && r == s[..|r|]
    ensures r != [] ==> !IsSpace(r[|r| - 1])
    ensures forall i :: |r| <= i < |s| ==> IsSpace(s[i])
  {
    if s != [] && IsSpace(s[|s| - 1]) then TrimEnd(s[..|s| - 1]) else s
  }

  /** `s` without leading and trailing whitespace. */
  function Trim(s: string): string {
    TrimEnd(TrimStart(s))
  }

  /** The string trims to nothing: it holds only whitespace. */
  predicate IsBlank(s: string) {
    Trim(s) == []
  }

  lemma {:induction false} AllSpaceTrimStart(s: string)
    requires forall i :: 0 <= i < |s| ==> IsSpace(s[i])
    ensures TrimStart(s) == []
    decreases |s|
  {
    if s != [] {
      AllSpaceTrimStart(s[1..]);
    }
  }

  lemma BlankIsAllSpace(s: string)
    ensures IsBlank(s) <==> forall i :: 0 <= i < |s| ==> IsSpace(s[i])
  {
    var t := TrimStart(s);
    if IsBlank(s) {
      assert TrimEnd(t) == [];
      forall i | 0 <= i < |s| ensures IsSpace(s[i]) {
        if i >= |s| - |t| {
          var k := i - (|s| - |t|);
          assert IsSpace(t[k]);
          assert s[i] == t[k];
        }
      }
    }
    if forall i :: 0 <= i < |s| ==> IsSpace(s[i]) {
      AllSpaceTrimStart(s);
    }
  }

  /** Every maximal run of whitespace becomes one space. */
  function CollapseSpaces(s: string): (r: string)
    ensures |r| <= |s|
    decreases |s|
  {
    if s == [] then []
    else if IsSpace(s[0]) then " " + CollapseSpaces(TrimStart(s))
    else [s[0]] + CollapseSpaces(s[1..])
  }

  /** Every whitespace character is a plain space and none follows another. */
  predicate SingleSpaced(s: string) {
    (forall i :: 0 <= i < |s| && IsSpace(s[i]) ==> s[i] == ' ')
    && (forall i, j :: 0 <= i < |s| && 0 <= j < |s| && j == i + 1 ==> !IsSpace(s[i]) || !IsSpace(s[j]))
  }

  /** The shape left by collapsing whitespace and trimming: single plain
      spaces between non-space characters. */
  predicate Normalized(s: string) {
    SingleSpaced(s) && (s != [] ==> !IsSpace(s[0]) && !IsSpace(s[|s| - 1]))
  }

  lemma {:induction false} CollapseSingleSpaced(s: string)
    ensures SingleSpaced(CollapseSpaces(s))
    ensures s != [] && !IsSpace(s[0]) ==> CollapseSpaces(s) != [] && CollapseSpaces(s)[0] == s[0]
    ensures s != [] && !IsSpace(s[|s| - 1]) ==> CollapseSpaces(s) != [] && !IsSpace(CollapseSpaces(s)[|CollapseSpaces(s)| - 1])
    decreases |s|
  {
    if s == [] {
    } else if IsSpace(s[0]) {
      var t := TrimStart(s);
      var r := CollapseSpaces(t);
      assert CollapseSpaces(s) == [' '] + r;
      CollapseSingleSpaced(t);
      if t != [] {
        ConsSingleSpaced(' ', r);
        if !IsSpace(s[|s| - 1]) {
          assert t[|t| - 1] == s[|s| - 1];
          assert ([' '] + r)[|r|] == r[|r| - 1];
        }
      } else {
        assert CollapseSpaces(s) == [' '];
      }
    } else {
      var r := CollapseSpaces(s[1..]);
      assert CollapseSpaces(s) == [s[0]] + r;
      CollapseSingleSpaced(s[1..]);
      ConsSingleSpaced(s[0], r);
      if |s| > 1 && !IsSpace(s[|s| - 1]) {
        assert s[1..][|s[1..]| - 1] == s[|s| - 1];
        assert ([s[0]] + r)[|r|] == r[|r| - 1];
      }
    }
  }

  /** A character before a single-spaced string, which may be a space only
      when a non-space follows. */
  lemma ConsSingleSpaced(c: char, r: string)
    requires SingleSpaced(r) && (IsSpace(c) ==> c == ' ' && (r == [] || !IsSpace(r[0])))
    ensures SingleSpaced([c] + r)
  {
    assert SingleSpaced([c]);
    SingleSpacedConcat([c], r);
  }

  lemma DropSingleSpaced(s: string, k: nat)
    requires SingleSpaced(s) && k <= |s|
    ensures SingleSpaced(s[k..])
  {
    var t := s[k..];
    assert forall i :: 0 <= i < |t| ==> t[i] == s[k + i];
  }

  lemma TakeSingleSpaced(s: string, k: nat)
    requires SingleSpaced(s) && k <= |s|
    ensures SingleSpaced(s[..k])
  {
    var t := s[..k];
    assert forall i :: 0 <= i < |t| ==> t[i] == s[i];
  }

  predicate IsSuffix(b: string, a: string) {
    |b| <= |a| && b == a[|a| - |b|..]
  }

  /** A suffix of a suffix is a suffix. */
  lemma SuffixOfSuffix(a: string, b: string, c: string)
    requires IsSuffix(b, a) && IsSuffix(c, b)
    ensures IsSuffix(c, a)
  {
    assert forall i :: 0 <= i < |c| ==> c[i] == a[|a| - |c| + i];
  }

  lemma SuffixSingleSpaced(s: string, r: string)
    requires SingleSpaced(s) && IsSuffix(r, s)
    ensures SingleSpaced(r)
  {
    DropSingleSpaced(s, |s| - |r|);
  }

  lemma TrimStartSingleSpaced(s: string)
    requires SingleSpaced(s)
    ensures SingleSpaced(TrimStart(s))
  {
    DropSingleSpaced(s, |s| - |TrimStart(s)|);
  }

  /** Two single-spaced pieces stay single-spaced when joined, unless a
      space meets a space. */
  lemma SingleSpacedConcat(a: string, b: string)
    requires SingleSpaced(a) && SingleSpaced(b)
    requires a == [] || b == [] || !IsSpace(a[|a| - 1]) || !IsSpace(b[0])
    ensures SingleSpaced(a + b)
  {
    var s := a + b;
    forall i | 0 <= i < |s| && IsSpace(s[i])
      ensures s[i] == ' ' && (i + 1 < |s| ==> !IsSpace(s[i + 1]))
    {
      if i < |a| {
        assert s[i] == a[i];
        if i + 1 < |a| { assert s[i + 1] == a[i + 1]; }
        else if i + 1 < |s| { assert s[i + 1] == b[0]; }
      } else {
        assert s[i] == b[i - |a|];
        if i + 1 < |s| { assert s[i + 1] == b[i + 1 - |a|]; }
      }
    }
  }

  /** Collapsing whitespace and then trimming leaves no leading, trailing or
      doubled whitespace. */
  lemma NormalizeCollapseTrim(s: string)
    ensures Normalized(Trim(CollapseSpaces(s)))
  {
    CollapseSingleSpaced(s);
    TrimSingleSpaced(CollapseSpaces(s));
  }

  lemma TrimSingleSpaced(c: string)
    requires SingleSpaced(c)
    ensures Normalized(Trim(c))
  {
    var a := TrimStart(c);
    DropSingleSpaced(c, |c| - |a|);
    var b := TrimEnd(a);
    TakeSingleSpaced(a, |b|);
    if b != [] {
      assert b[0] == a[0];
    }
  }

  /** So does trimming and then collapsing. */
  lemma NormalizeTrimCollapse(s: string)
    ensures Normalized(CollapseSpaces(Trim(s)))
  {
    var t := Trim(s);
    CollapseSingleSpaced(t);
    if t != [] {
      var u := TrimStart(s);
      assert t[0] == u[0];
    }
  }

  /** Collapsing whitespace changes nothing that is already single-spaced. */
  lemma {:induction false} CollapseNormalized(s: string)
    requires SingleSpaced(s)
    ensures CollapseSpaces(s) == s
    decreases |s|
  {
    if s != [] {
      DropSingleSpaced(s, 1);
      CollapseNormalized(s[1..]);
      if IsSpace(s[0]) {
        assert TrimStart(s) == s[1..] by {
          if |s| > 1 { assert !IsSpace(s[1]); }
        }
        assert s[0] == ' ' && CollapseSpaces(s) == [' '] + s[1..];
      } else {
        assert CollapseSpaces(s) == [s[0]] + s[1..];
      }
      assert s == [s[0]] + s[1..];
    }
  }

  lemma NormalizedTrim(s: string)
    requires Normalized(s)
    ensures Trim(s) == s
  {
  }

  /** After a normalized string's space, the rest is normalized again. */
  lemma NormalizedAfterSpace(s: string, k: nat)
    requires Normalized(s) && 0 < k <= |s| && s[k - 1] == ' '
    ensures Normalized(s[k..]) && s[k..] != []
  {
    DropSingleSpaced(s, k);
  }

  lemma NormalizedSuffix(s: string, k: nat)
    requires Normalized(s) && k <= |s| && (k == 0 || k == |s| || IsSpace(s[k - 1]) || !IsSpace(s[k]))
    ensures Normalized(s[k..])
  {
    DropSingleSpaced(s, k);
  }

  /** The parts with `sep` between neighbours. */
  function Join(parts: seq<string>, sep: string): string {
    if parts == [] then []
    else if |parts| == 1 then parts[0]
    else parts[0] + sep + Join(parts[1..], sep)
  }

  /** The ASCII digit of a value below ten. */
  function DigitChar(d: nat): (c: char)
    requires d < 10
    ensures IsDigit(c)
  {
    ('0' as int + d) as char
  }

  function DigitValue(c: char): (d: nat)
    requires IsDigit(c)
    ensures d < 10 && DigitChar(d) == c
  {
    c as int - '0' as int
  }

  /** `String(n)` for a non-negative integer. */
  function NatToString(n: nat): (r: string)
    ensures r != [] && forall i :: 0 <= i < |r| ==> IsDigit(r[i])
    decreases n
  {
    if n < 10 then [DigitChar(n)] else NatToString(n / 10) + [DigitChar(n % 10)]
  }

  /** `String(i)` for an integer. */
  function IntToString(i: int): string {
    if i < 0 then "-" + NatToString(-i) else NatToString(i)
  }

  /** `Number(ds)` for a string of decimal digits. */
  function DigitsValue(ds: string): nat
    requires forall i :: 0 <= i < |ds| ==> IsDigit(ds[i])
  {
    if ds == [] then 0 else DigitsValue(ds[..|ds| - 1]) * 10 + DigitValue(ds[|ds| - 1])
  }

  /** Reading back a numeral gives the number it was written from. */
  lemma {:induction false} DigitsValueOfNatToString(n: nat)
    ensures DigitsValue(NatToString(n)) == n
    decreases n
  {
    var r := NatToString(n);
    if n >= 10 {
      DigitsValueOfNatToString(n / 10);
      assert r[..|r| - 1] == NatToString(n / 10);
      assert DigitValue(r[|r| - 1]) == n % 10;
    } else {
      assert r[..0] == [];
    }
  }

  /** `s.split(c)` */
  function Split(s: string, c: char): (r: seq<string>)
    ensures r != []
  {
    if s == [] then [[]]
    else
      var t := Split(s[1..], c);
      if s[0] == c then [[]] + t else [[s[0]] + t[0]] + t[1..]
  }

  /** The index of the first newline, or the length when there is none. */
  function LineEnd(s: string): (r: nat)
    ensures r <= |s| && (r < |s| ==> s[r] == '\n')
    ensures forall i :: 0 <= i < r ==> s[i] != '\n'
  {
    if s == [] then 0 else if s[0] == '\n' then 0 else 1 + LineEnd(s[1..])
  }

  lemma {:induction false} SplitAppend(a: string, rest: string, c: char)
    requires c !in a
    ensures Split(a + rest, c) == [a + Split(rest, c)[0]] + Split(rest, c)[1..]
  {
    if a != [] {
      assert (a + rest)[1..] == a[1..] + rest;
      SplitAppend(a[1..], rest, c);
      assert [a[0]] + (a[1..] + Split(rest, c)[0]) == a + Split(rest, c)[0];
    } else {
      var t := Split(rest, c);
      assert a + rest == rest;
      assert t == [t[0]] + t[1..];
      assert a + t[0] == t[0];
    }
  }

  /** Splitting a list joined with a separator character it does not contain
      gives it back. */
  lemma {:induction false} SplitJoin(xs: seq<string>, c: char)
    requires xs != [] && forall i :: 0 <= i < |xs| ==> c !in xs[i]
    ensures Split(Join(xs, [c]), c) == xs
  {
    if |xs| == 1 {
      SplitAppend(xs[0], [], c);
      assert xs[0] + [] == xs[0];
    } else {
      var j := Join(xs[1..], [c]);
      SplitJoin(xs[1..], c);
      assert Join(xs, [c]) == xs[0] + ([c] + j);
      assert ([c] + j)[1..] == j;
      assert Split([c] + j, c) == [[]] + xs[1..];
      SplitAppend(xs[0], [c] + j, c);
      assert xs[0] + [] == xs[0];
      assert [xs[0]] + xs[1..] == xs;
    }
  }

  /** A character in neither the parts nor the separator is not in the join. */
  lemma {:induction false} JoinAvoids(parts: seq<string>, sep: string, c: char)
    requires c !in sep && forall i :: 0 <= i < |parts| ==> c !in parts[i]
    ensures c !in Join(parts, sep)
  {
    if |parts| > 1 {
      JoinAvoids(parts[1..], sep, c);
    }
  }

  /** The first newline of `a + "\n" + b` is the one after `a` when `a` has none. */
  lemma {:induction false} LineEndAt(a: string, b: string)
    requires '\n' !in a
    ensures LineEnd(a + "\n" + b) == |a|
  {
    if a != [] {
      assert (a + "\n" + b)[1..] == a[1..] + "\n" + b;
      LineEndAt(a[1..], b);
    }
  }
}
