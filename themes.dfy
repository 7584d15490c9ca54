/** Keyword theme tagging: a table maps each theme to trigger keywords, and a
    theme applies when the lower-cased text contains one of them. The engine's
    `THEME_MAP`/`detectThemes` (src/search/engine.ts) and the corpus builder's
    `autoThemes` (scripts/build-bible.js) are both tables of this kind. */
module Themes {
  import opened Text
  import opened Lists

  /** Entries of (theme, keywords), in the order results are reported. */
  type KeywordTable = seq<(string, seq<string>)>

  /** `keys.some(k => t.includes(k))` */
  predicate MentionsAny(t: string, keys: seq<string>) {
    keys != [] && (Contains(t, keys[0]) || MentionsAny(t, keys[1..]))
  }

  lemma {:induction false} MentionsAnyIff(t: string, keys: seq<string>)
    ensures MentionsAny(t, keys) <==> exists k :: k in keys && Contains(t, k)
  {
    if keys != [] {
      MentionsAnyIff(t, keys[1..]);
      if Contains(t, keys[0]) {
        assert keys[0] in keys;
      } else if MentionsAny(t, keys[1..]) {
        var k :| k in keys[1..] && Contains(t, k);
        assert k in keys;
      } else {
        forall k | k in keys ensures !Contains(t, k) {
          if k != keys[0] { assert k in keys[1..]; }
        }
      }
    }
  }

  function Names(table: KeywordTable): (r: seq<string>)
    ensures |r| == |table| && forall i :: 0 <= i < |table| ==> r[i] == table[i].0
  {
    seq(|table|, i requires 0 <= i < |table| => table[i].0)
  }

  /** The table's themes whose keywords occur in `t`, in table order. */
  function Matching(table: KeywordTable, t: string): seq<string> {
    if table == [] then []
    else (if MentionsAny(t, table[0].1) then [table[0].0] else []) + Matching(table[1..], t)
  }

  lemma MatchingCons(e: (string, seq<string>), rest: KeywordTable, t: string)
    ensures Matching([e] + rest, t) == (if MentionsAny(t, e.1) then [e.0] else []) + Matching(rest, t)
  {
    assert ([e] + rest)[1..] == rest;
  }

  /** A table of four entries, read entry by entry. */
  lemma MatchingFour(e0: (string, seq<string>), e1: (string, seq<string>), e2: (string, seq<string>),
                     e3: (string, seq<string>), t: string)
    ensures Matching([e0, e1, e2, e3], t) ==
      (if MentionsAny(t, e0.1) then [e0.0] else []) + (if MentionsAny(t, e1.1) then [e1.0] else []) +
      (if MentionsAny(t, e2.1) then [e2.0] else []) + (if MentionsAny(t, e3.1) then [e3.0] else [])
  {
    assert [e0, e1, e2, e3] == [e0] + [e1, e2, e3];
    assert [e1, e2, e3] == [e1] + [e2, e3];
    assert [e2, e3] == [e2] + [e3];
    assert [e3] == [e3] + [];
    MatchingCons(e3, [], t);
    MatchingCons(e2, [e3], t);
    MatchingCons(e1, [e2, e3], t);
    MatchingCons(e0, [e1, e2, e3], t);
  }

  /** The themes of the table, in table order, one of whose keywords occurs
      in the lower-cased text. */
  function Tagged(table: KeywordTable, text: string): seq<string> {
    Matching(table, Lower(text))
  }

  /** A theme is reported exactly when one of its keywords occurs in the
      lower-cased text. */
  lemma {:induction false} MatchingMembers(table: KeywordTable, t: string)
    ensures forall name :: name in Matching(table, t) <==>
      exists i :: 0 <= i < |table| && table[i].0 == name && MentionsAny(t, table[i].1)
  {
    if table != [] {
      var rest := table[1..];
      MatchingMembers(rest, t);
      forall name ensures name in Matching(table, t) <==>
        exists i :: 0 <= i < |table| && table[i].0 == name && MentionsAny(t, table[i].1)
      {
        if name in Matching(rest, t) {
          var i :| 0 <= i < |rest| && rest[i].0 == name && MentionsAny(t, rest[i].1);
          assert table[i + 1] == rest[i];
        }
        if exists i :: 0 <= i < |table| && table[i].0 == name && MentionsAny(t, table[i].1) {
          var i :| 0 <= i < |table| && table[i].0 == name && MentionsAny(t, table[i].1);
          if i > 0 { assert rest[i - 1] == table[i]; }
        }
      }
    }
  }

  /** Themes come out in table order. */
  lemma {:induction false} MatchingOrdered(table: KeywordTable, t: string)
    ensures IsSubsequence(Matching(table, t), Names(table))
  {
    if table != [] {
      var rest := table[1..];
      MatchingOrdered(rest, t);
      assert Names(table)[1..] == Names(rest);
      if !MentionsAny(t, table[0].1) {
        assert Matching(table, t) == Matching(rest, t);
        SubsequenceCons(Matching(rest, t), Names(table));
      } else {
        var m := Matching(table, t);
        assert m == [table[0].0] + Matching(rest, t);
        assert m[0] == Names(table)[0] && m[1..] == Matching(rest, t);
      }
    }
  }

  /** A table without repeated themes reports each theme at most once. */
  lemma {:induction false} MatchingDistinct(table: KeywordTable, t: string)
    requires Distinct(Names(table))
    ensures Distinct(Matching(table, t))
  {
    if table != [] {
      var rest := table[1..];
      assert Names(table) == [table[0].0] + Names(rest);
      assert Distinct(Names(rest));
      MatchingDistinct(rest, t);
      MatchingMembers(rest, t);
      forall i | 0 <= i < |rest| ensures rest[i].0 != table[0].0 {
        assert Names(table)[i + 1] == rest[i].0;
      }
      assert table[0].0 !in Matching(rest, t);
    }
  }

  /** The engine's table (src/search/engine.ts, `THEME_MAP`). */
  const THEME_MAP: KeywordTable := [
    ("anxiety", ["anxious", "worry", "fear", "troubled", "peace"]),
    ("forgiveness", ["forgive", "mercy", "grace"]),
    ("love", ["love", "beloved", "compassion", "charity"]),
    ("faith", ["faith", "believe", "trust"])
  ]

  /** `detectThemes(text)`: the query window's themes. */
  function DetectThemes(text: string): (r: seq<string>)
    ensures forall theme :: theme in r <==>
      exists i :: 0 <= i < |THEME_MAP| && THEME_MAP[i].0 == theme &&
        exists k :: k in THEME_MAP[i].1 && Contains(Lower(text), k)
    ensures IsSubsequence(r, ["anxiety", "forgiveness", "love", "faith"])
    ensures Distinct(r)
  {
    MatchingMembers(THEME_MAP, Lower(text));
    MatchingOrdered(THEME_MAP, Lower(text));
    MatchingDistinct(THEME_MAP, Lower(text));
    forall i | 0 <= i < |THEME_MAP| { MentionsAnyIff(Lower(text), THEME_MAP[i].1); }
    assert Names(THEME_MAP) == ["anxiety", "forgiveness", "love", "faith"];
    Tagged(THEME_MAP, text)
  }
}
