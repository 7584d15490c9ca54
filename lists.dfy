/** Sequence operations behind the engine's list pipelines: order-preserving
    de-duplication, taking a prefix, and the stable sort by descending score
    over entries that remember where they stood before sorting. */
module Lists {

  predicate Distinct<T(==)>(xs: seq<T>) {
    forall i, j :: 0 <= i < j < |xs| ==> xs[i] != xs[j]
  }

  /** Index of the first occurrence of `x`. */
  function FirstIndex<T(==)>(xs: seq<T>, x: T): (r: nat)
    requires x in xs
    ensures r < |xs| && xs[r] == x
    ensures forall k :: 0 <= k < r ==> xs[k] != x
  {
    if xs[0] == x then 0 else 1 + FirstIndex(xs[1..], x)
  }

  lemma FirstIndexUnique<T>(xs: seq<T>, x: T, r: nat)
    requires r < |xs| && xs[r] == x && forall k :: 0 <= k < r ==> xs[k] != x
    ensures FirstIndex(xs, x) == r
  {
  }

  /** `[...new Set(xs)]`: each element once, at its first occurrence. */
  function Dedup(xs: seq<string>): (r: seq<string>)
    ensures forall x :: x in r <==> x in xs
    ensures |r| <= |xs|
  {
    if xs == [] then []
    else
      var d := Dedup(xs[..|xs| - 1]);
      assert forall x :: x in xs <==> x in xs[..|xs| - 1] || x == xs[|xs| - 1];
      if xs[|xs| - 1] in d then d else d + [xs[|xs| - 1]]
  }

  /** The result has no repetitions and lists the elements in the order of
      their first occurrence in the input. */
  lemma {:induction false} DedupFirstSeen(xs: seq<string>)
    ensures Distinct(Dedup(xs))
    ensures forall i, j :: 0 <= i < j < |Dedup(xs)| ==>
      FirstIndex(xs, Dedup(xs)[i]) < FirstIndex(xs, Dedup(xs)[j])
    decreases |xs|
  {
    if xs != [] {
      var n := |xs| - 1;
      var p := xs[..n];
      DedupFirstSeen(p);
      var d := Dedup(p);
      forall x | x in p ensures FirstIndex(xs, x) == FirstIndex(p, x) {
        FirstIndexUnique(xs, x, FirstIndex(p, x));
      }
      if xs[n] !in d {
        FirstIndexUnique(xs, xs[n], n);
        var r := d + [xs[n]];
        assert r == Dedup(xs);
        forall i, j | 0 <= i < j < |r| ensures FirstIndex(xs, r[i]) < FirstIndex(xs, r[j]) {
          assert r[i] == d[i] && r[i] in p;
          if j < |d| {
            assert r[j] == d[j] && r[j] in p;
          } else {
            assert r[j] == xs[n];
          }
        }
      }
    }
  }

  /** The concatenation of the lists, in order. */
  function Flatten(lists: seq<seq<string>>): (r: seq<string>)
    ensures forall x :: x in r <==> exists i :: 0 <= i < |lists| && x in lists[i]
  {
    if lists == [] then []
    else
      var last := |lists| - 1;
      assert forall i :: 0 <= i < last ==> lists[..last][i] == lists[i];
      Flatten(lists[..last]) + lists[last]
  }

  /** The prefix up to `end`, where a negative `end` counts back from the
      end of the list, as JavaScript's `slice` reads it. */
  function SliceTo<T>(xs: seq<T>, end: int): (r: seq<T>)
    ensures r <= xs
    ensures 0 <= end ==> |r| == if end < |xs| then end else |xs|
    ensures end < 0 ==> |r| == if |xs| + end < 0 then 0 else |xs| + end
  {
    if end < 0 then (if |xs| + end < 0 then [] else xs[..|xs| + end])
    else if end < |xs| then xs[..end] else xs
  }

  /** An element of a sorted list: the original position `pos` is what a
      stable sort falls back on when two scores tie. */
  datatype Scored<T> = Scored(pos: nat, item: T, score: real)

  function Items<T>(xs: seq<Scored<T>>): (r: seq<T>)
    ensures |r| == |xs| && forall i :: 0 <= i < |xs| ==> r[i] == xs[i].item
  {
    seq(|xs|, i requires 0 <= i < |xs| => xs[i].item)
  }

  predicate PosIncreasing<T>(xs: seq<Scored<T>>) {
    forall i, j :: 0 <= i < j < |xs| ==> xs[i].pos < xs[j].pos
  }

  /** The order a stable descending sort produces: higher score first, and
      on equal scores the earlier original position first. */
  predicate Precedes<T>(a: Scored<T>, b: Scored<T>) {
    a.score > b.score || (a.score == b.score && a.pos < b.pos)
  }

  predicate SortedDesc<T>(xs: seq<Scored<T>>) {
    forall i, j :: 0 <= i < j < |xs| ==> Precedes(xs[i], xs[j])
  }

  /** Places `x` before the first element whose score does not exceed its own. */
  function Insert<T>(x: Scored<T>, ys: seq<Scored<T>>): (r: seq<Scored<T>>)
    ensures multiset(r) == multiset(ys) + multiset{x}
  {
    if ys == [] || x.score >= ys[0].score then [x] + ys
    else
      assert ys == [ys[0]] + ys[1..];
      [ys[0]] + Insert(x, ys[1..])
  }

  /** Insertion sort from the back of the list: stable, non-increasing. */
  function SortDesc<T>(xs: seq<Scored<T>>): (r: seq<Scored<T>>)
    ensures multiset(r) == multiset(xs)
    ensures |r| == |xs|
  {
    if xs == [] then []
    else
      assert xs == [xs[0]] + xs[1..];
      Insert(xs[0], SortDesc(xs[1..]))
  }

  lemma {:induction false} InsertSorted<T>(x: Scored<T>, ys: seq<Scored<T>>)
    requires SortedDesc(ys)
    requires forall y :: y in ys ==> x.pos < y.pos
    ensures SortedDesc(Insert(x, ys))
    decreases |ys|
  {
    if ys == [] || x.score >= ys[0].score {
      var r := [x] + ys;
      forall i, j | 0 <= i < j < |r| ensures Precedes(r[i], r[j]) {
        if i == 0 {
          assert r[j] in ys;
          if j > 1 { assert Precedes(ys[0], ys[j - 1]); }
        }
      }
    } else {
      InsertSorted(x, ys[1..]);
      var t := Insert(x, ys[1..]);
      var r := [ys[0]] + t;
      forall j | 0 <= j < |t| ensures Precedes(ys[0], t[j]) {
        assert t[j] in multiset(t);
        if t[j] != x {
          assert t[j] in ys[1..];
          var k :| 0 <= k < |ys[1..]| && ys[1..][k] == t[j];
          assert Precedes(ys[0], ys[k + 1]);
        }
      }
      forall i, j | 0 <= i < j < |r| ensures Precedes(r[i], r[j]) {
        if i > 0 { assert r[i] == t[i - 1] && r[j] == t[j - 1]; }
      }
    }
  }

  /** A stable sort: entries come out by non-increasing score, and entries
      with equal scores keep their original relative order. */
  lemma {:induction false} SortDescSorted<T>(xs: seq<Scored<T>>)
    requires PosIncreasing(xs)
    ensures SortedDesc(SortDesc(xs))
    decreases |xs|
  {
    if xs != [] {
      SortDescSorted(xs[1..]);
      var s := SortDesc(xs[1..]);
      forall y | y in s ensures xs[0].pos < y.pos {
        assert y in multiset(s);
        assert y in xs[1..];
      }
      InsertSorted(xs[0], s);
    }
  }

  /** The same entries with every score passed through `g`. */
  function Rescore<T>(xs: seq<Scored<T>>, g: real -> real): (r: seq<Scored<T>>)
    ensures |r| == |xs|
  {
    if xs == [] then [] else [xs[0].(score := g(xs[0].score))] + Rescore(xs[1..], g)
  }

  lemma {:induction false} RescoreAt<T>(xs: seq<Scored<T>>, g: real -> real)
    ensures forall i :: 0 <= i < |xs| ==> Rescore(xs, g)[i] == xs[i].(score := g(xs[i].score))
    decreases |xs|
  {
    if xs != [] {
      RescoreAt(xs[1..], g);
    }
  }

  ghost predicate StrictlyIncreasing(g: real -> real) {
    forall a: real, b: real :: a < b ==> g(a) < g(b)
  }

  /** Inserting commutes with rescoring when the new scores compare with the
      inserted entry's as the old ones did. */
  lemma {:induction false} InsertRescore<T>(x: Scored<T>, ys: seq<Scored<T>>, g: real -> real)
    requires forall y :: y in ys ==> (x.score >= y.score <==> g(x.score) >= g(y.score))
    ensures Insert(x.(score := g(x.score)), Rescore(ys, g)) == Rescore(Insert(x, ys), g)
    decreases |ys|
  {
    var x' := x.(score := g(x.score));
    if ys == [] || x.score >= ys[0].score {
      assert Insert(x, ys) == [x] + ys;
      RescoreCons(x, ys, g);
      assert ys == [] || Rescore(ys, g)[0] == ys[0].(score := g(ys[0].score));
    } else {
      var y := ys[0];
      var rs := Rescore(ys, g);
      assert rs == [y.(score := g(y.score))] + Rescore(ys[1..], g) by {
        assert ys == [y] + ys[1..];
        RescoreCons(y, ys[1..], g);
      }
      assert Insert(x', rs) == [rs[0]] + Insert(x', Rescore(ys[1..], g)) by {
        assert rs[1..] == Rescore(ys[1..], g);
      }
      InsertRescore(x, ys[1..], g);
      RescoreCons(y, Insert(x, ys[1..]), g);
    }
  }

  lemma Monotone(g: real -> real, a: real, b: real)
    requires StrictlyIncreasing(g)
    ensures a >= b <==> g(a) >= g(b)
  {
    if a > b { assert g(b) < g(a); }
    if a < b { assert g(a) < g(b); }
  }

  lemma ItemsRescore<T>(xs: seq<Scored<T>>, g: real -> real)
    ensures Items(Rescore(xs, g)) == Items(xs)
  {
    RescoreAt(xs, g);
  }

  lemma RescoreCons<T>(x: Scored<T>, ys: seq<Scored<T>>, g: real -> real)
    ensures Rescore([x] + ys, g) == [x.(score := g(x.score))] + Rescore(ys, g)
  {
    assert ([x] + ys)[1..] == ys;
  }

  /** The sort reads scores only through comparisons: any strictly
      increasing change of the scores leaves the order of the entries as it
      was. */
  lemma {:induction false} SortDescRescore<T>(xs: seq<Scored<T>>, g: real -> real)
    requires StrictlyIncreasing(g)
    ensures SortDesc(Rescore(xs, g)) == Rescore(SortDesc(xs), g)
    ensures Items(SortDesc(Rescore(xs, g))) == Items(SortDesc(xs))
    decreases |xs|
  {
    if xs != [] {
      assert Rescore(xs, g)[1..] == Rescore(xs[1..], g);
      SortDescRescore(xs[1..], g);
      forall y | y in SortDesc(xs[1..]) ensures xs[0].score >= y.score <==> g(xs[0].score) >= g(y.score) {
        Monotone(g, xs[0].score, y.score);
      }
      InsertRescore(xs[0], SortDesc(xs[1..]), g);
    }
    ItemsRescore(SortDesc(xs), g);
  }

  /** `a` can be obtained from `b` by deleting elements. */
  predicate IsSubsequence<T(==)>(a: seq<T>, b: seq<T>) {
    if a == [] then true
    else if b == [] then false
    else if a[0] == b[0] then IsSubsequence(a[1..], b[1..])
    else IsSubsequence(a, b[1..])
  }

  /** Deleting the first element of a subsequence keeps it a subsequence. */
  lemma {:induction false} SubsequenceDropHead<T>(a: seq<T>, b: seq<T>)
    requires a != [] && IsSubsequence(a, b)
    ensures IsSubsequence(a[1..], b)
    decreases |b|, 1
  {
    if a[0] == b[0] {
      SubsequenceCons(a[1..], b);
    } else {
      SubsequenceDropHead(a, b[1..]);
      SubsequenceCons(a[1..], b);
    }
  }

  /** A subsequence of the tail is a subsequence of the whole. */
  lemma {:induction false} SubsequenceCons<T>(a: seq<T>, b: seq<T>)
    requires b != [] && IsSubsequence(a, b[1..])
    ensures IsSubsequence(a, b)
    decreases |b|, 0
  {
    if a != [] && a[0] == b[0] {
      SubsequenceDropHead(a, b[1..]);
    }
  }

  lemma {:induction false} DistinctCount<T>(a: seq<T>)
    requires Distinct(a)
    ensures forall x :: multiset(a)[x] <= 1
  {
    if a != [] {
      assert a == [a[0]] + a[1..];
      assert Distinct(a[1..]);
      DistinctCount(a[1..]);
      assert a[0] !in a[1..];
    }
  }

  /** A permutation of a list without repetitions has none either. */
  lemma DistinctPermutation<T>(a: seq<T>, b: seq<T>)
    requires Distinct(a) && multiset(a) == multiset(b)
    ensures Distinct(b)
  {
    DistinctCount(a);
    forall i, j | 0 <= i < j < |b| ensures b[i] != b[j] {
      RepeatCount(b, i, j);
    }
  }

  lemma RepeatCount<T>(b: seq<T>, i: nat, j: nat)
    requires i < j < |b|
    ensures b[i] == b[j] ==> multiset(b)[b[i]] >= 2
  {
    assert b == b[..j] + [b[j]] + b[j + 1..];
    assert b[i] in b[..j];
  }

  lemma {:induction false} ItemsInsert<T>(x: Scored<T>, ys: seq<Scored<T>>)
    ensures multiset(Items(Insert(x, ys))) == multiset(Items(ys)) + multiset{x.item}
    decreases |ys|
  {
    if ys == [] || x.score >= ys[0].score {
      ItemsCons(x, ys);
    } else {
      ItemsInsert(x, ys[1..]);
      ItemsCons(ys[0], Insert(x, ys[1..]));
      ItemsCons(ys[0], ys[1..]);
      assert ys == [ys[0]] + ys[1..];
    }
  }

  lemma ItemsCons<T>(x: Scored<T>, ys: seq<Scored<T>>)
    ensures Items([x] + ys) == [x.item] + Items(ys)
  {
  }

  /** Sorting permutes the items. */
  lemma {:induction false} ItemsSortDesc<T>(xs: seq<Scored<T>>)
    ensures multiset(Items(SortDesc(xs))) == multiset(Items(xs))
    decreases |xs|
  {
    if xs != [] {
      var t := xs[1..];
      calc {
        multiset(Items(SortDesc(xs)));
        multiset(Items(Insert(xs[0], SortDesc(t))));
        { ItemsInsert(xs[0], SortDesc(t)); }
        multiset(Items(SortDesc(t))) + multiset{xs[0].item};
        { ItemsSortDesc(t); }
        multiset(Items(t)) + multiset{xs[0].item};
        multiset([xs[0].item] + Items(t));
        { assert xs == [xs[0]] + t; ItemsCons(xs[0], t); }
        multiset(Items(xs));
      }
    }
  }

  predicate NonIncreasing<T>(xs: seq<Scored<T>>) {
    forall i, j :: 0 <= i < j < |xs| ==> xs[i].score >= xs[j].score
  }

  /** An already ordered list is left as it is. */
  lemma {:induction false} SortDescOrdered<T>(xs: seq<Scored<T>>)
    requires NonIncreasing(xs)
    ensures SortDesc(xs) == xs
    decreases |xs|
  {
    if xs != [] {
      assert NonIncreasing(xs[1..]);
      SortDescOrdered(xs[1..]);
      assert xs == [xs[0]] + xs[1..];
    }
  }

  /** A list without repetitions is its own de-duplication. */
  lemma {:induction false} DedupDistinct(xs: seq<string>)
    requires Distinct(xs)
    ensures Dedup(xs) == xs
    decreases |xs|
  {
    if xs != [] {
      var n := |xs| - 1;
      assert Distinct(xs[..n]);
      DedupDistinct(xs[..n]);
      assert xs == xs[..n] + [xs[n]];
    }
  }

  lemma {:induction false} SubsequenceRefl<T>(xs: seq<T>)
    ensures IsSubsequence(xs, xs)
    decreases |xs|
  {
    if xs != [] { SubsequenceRefl(xs[1..]); }
  }

  /** Deleting one element leaves the others in their relative order. */
  lemma {:induction false} SubsequenceDelete<T>(xs: seq<T>, i: nat)
    requires i < |xs|
    ensures IsSubsequence(xs[..i] + xs[i + 1..], xs)
    decreases i
  {
    if i == 0 {
      assert xs[..0] + xs[1..] == xs[1..];
      SubsequenceRefl(xs[1..]);
      SubsequenceCons(xs[1..], xs);
    } else {
      var t := xs[1..];
      SubsequenceDelete(t, i - 1);
      var d := xs[..i] + xs[i + 1..];
      assert d[0] == xs[0];
      assert d[1..] == t[..i - 1] + t[i..];
    }
  }

  /** Moving the element at `i` to the front is a permutation. */
  lemma MoveToFront<T>(xs: seq<T>, i: nat)
    requires i < |xs|
    ensures multiset([xs[i]] + (xs[..i] + xs[i + 1..])) == multiset(xs)
  {
    var a, b := xs[..i], xs[i + 1..];
    assert xs == a + [xs[i]] + b;
    assert multiset(xs) == multiset(a) + multiset{xs[i]} + multiset(b);
  }

  /** An entry that survives a sort shows up among the sorted items. */
  lemma SortedItem<T>(xs: seq<Scored<T>>, e: Scored<T>)
    requires e in xs
    ensures exists i :: 0 <= i < |Items(SortDesc(xs))| && Items(SortDesc(xs))[i] == e.item
  {
    var s := SortDesc(xs);
    assert e in multiset(xs);
    assert e in multiset(s);
    var i :| 0 <= i < |s| && s[i] == e;
    assert Items(s)[i] == e.item;
  }

  /** The results of `f` on the elements of `xs`, concatenated in order. */
  function FlatMap<A, B>(xs: seq<A>, f: A -> seq<B>): seq<B> {
    if xs == [] then [] else FlatMap(xs[..|xs| - 1], f) + f(xs[|xs| - 1])
  }

  lemma {:induction false} FlatMapConcat<A, B>(a: seq<A>, b: seq<A>, f: A -> seq<B>)
    ensures FlatMap(a + b, f) == FlatMap(a, f) + FlatMap(b, f)
    decreases |b|
  {
    if b != [] {
      var ab := a + b;
      assert ab[..|ab| - 1] == a + b[..|b| - 1];
      assert ab[|ab| - 1] == b[|b| - 1];
      FlatMapConcat(a, b[..|b| - 1], f);
    } else {
      assert a + b == a;
    }
  }

  lemma {:induction false} FlatMapBound<A, B>(xs: seq<A>, f: A -> seq<B>)
    requires forall x :: |f(x)| <= 1
    ensures |FlatMap(xs, f)| <= |xs|
  {
    if xs != [] { FlatMapBound(xs[..|xs| - 1], f); }
  }

  lemma {:induction false} FlatMapMembers<A, B>(xs: seq<A>, f: A -> seq<B>, y: B)
    ensures y in FlatMap(xs, f) <==> exists i :: 0 <= i < |xs| && y in f(xs[i])
  {
    if xs != [] {
      var init := xs[..|xs| - 1];
      FlatMapMembers(init, f, y);
      assert FlatMap(xs, f) == FlatMap(init, f) + f(xs[|xs| - 1]);
      if y in FlatMap(init, f) {
        var i :| 0 <= i < |init| && y in f(init[i]);
        assert xs[i] == init[i];
      } else if y in f(xs[|xs| - 1]) {
      } else {
        forall i | 0 <= i < |xs| ensures y !in f(xs[i]) {
          if i < |init| { assert init[i] == xs[i]; }
        }
      }
    }
  }
}
