/**
  Scoring and ranking of the cloud (`_renderCloud`): per-string score sums,
  the descending sort, deduplication by string, truncation to `maxN` and
  normalisation by the total of the retained strings. The logarithm is
  abstract: `logBase(b, x)` stands for `_logBase(b, x)`.
 */
module Scoring {
  import Distill

  type Pair = Distill.Pair

  /** The score table of `_renderCloud`, from string to score. */
  type Scores = map<string, real>

  function Abs(x: real): (r: real)
    ensures r >= 0.0 && (r == x || r == -x)
  {
    if x < 0.0 then -x else x
  }

  /** `Math.abs(_logBase(10, p_value))`: the score one pair contributes. */
  function PairScore(p: Pair, logBase: (real, real) -> real): (r: real)
    ensures r >= 0.0
    ensures r == logBase(10.0, p.rec.pValue) || r == -logBase(10.0, p.rec.pValue)
  {
    Abs(logBase(10.0, p.rec.pValue))
  }

  /** The strings of a sequence of pairs. */
  function Texts(ps: seq<Pair>): set<string>
  {
    set i | 0 <= i < |ps| :: ps[i].text
  }

  /** Reference definition of a string's raw score: the sum over the pairs carrying it. */
  function SumFor(ps: seq<Pair>, t: string, logBase: (real, real) -> real): (r: real)
    ensures r >= 0.0
  {
    if |ps| == 0 then 0.0
    else (if ps[0].text == t then PairScore(ps[0], logBase) else 0.0) + SumFor(ps[1..], t, logBase)
  }

  /** The score table after the pairs have been visited in order, each adding its score to its string. */
  function Tally(ps: seq<Pair>, logBase: (real, real) -> real): (m: Scores)
    ensures m.Keys == Texts(ps)
    ensures forall t :: t in m ==> m[t] >= 0.0
  {
    if |ps| == 0 then map[]
    else
      var m := Tally(ps[..|ps| - 1], logBase);
      var p := ps[|ps| - 1];
      assert Texts(ps) == Texts(ps[..|ps| - 1]) + {p.text} by {
        assert forall i :: 0 <= i < |ps| - 1 ==> ps[..|ps| - 1][i] == ps[i];
      }
      m[p.text := (if p.text in m then m[p.text] else 0.0) + PairScore(p, logBase)]
  }

  /** One step of the tally: the last pair's score is added to its string's entry. */
  lemma TallySnoc(ps: seq<Pair>, p: Pair, logBase: (real, real) -> real)
    ensures Tally(ps + [p], logBase) == Tally(ps, logBase)[p.text := Key(Tally(ps, logBase), p) + PairScore(p, logBase)]
  {
    assert (ps + [p])[..|ps|] == ps;
  }

  lemma {:induction false} SumForSnoc(ps: seq<Pair>, x: Pair, t: string, logBase: (real, real) -> real)
    ensures SumFor(ps + [x], t, logBase) == SumFor(ps, t, logBase) + (if x.text == t then PairScore(x, logBase) else 0.0)
  {
    if |ps| == 0 {
      assert ([x])[1..] == [];
    } else {
      assert (ps + [x])[1..] == ps[1..] + [x];
      SumForSnoc(ps[1..], x, t, logBase);
    }
  }

  lemma {:induction false} SumForAbsent(ps: seq<Pair>, t: string, logBase: (real, real) -> real)
    requires t !in Texts(ps)
    ensures SumFor(ps, t, logBase) == 0.0
  {
    if |ps| > 0 {
      assert Texts(ps[1..]) <= Texts(ps) by {
        forall i | 0 <= i < |ps[1..]| ensures ps[1..][i].text in Texts(ps) {
          assert ps[1..][i] == ps[i + 1];
        }
      }
      assert ps[0].text in Texts(ps);
      SumForAbsent(ps[1..], t, logBase);
    }
  }

  /** Every string's entry in the score table is the sum of the scores of the pairs carrying it. */
  lemma {:induction false} TallyIsSumFor(ps: seq<Pair>, logBase: (real, real) -> real)
    ensures forall t :: t in Tally(ps, logBase) ==> Tally(ps, logBase)[t] == SumFor(ps, t, logBase)
  {
    if |ps| > 0 {
      var init := ps[..|ps| - 1];
      var p := ps[|ps| - 1];
      TallyIsSumFor(init, logBase);
      assert init + [p] == ps;
      forall t | t in Tally(ps, logBase)
        ensures Tally(ps, logBase)[t] == SumFor(ps, t, logBase)
      {
        SumForSnoc(init, p, t, logBase);
        if t == p.text && t !in Tally(init, logBase) {
          SumForAbsent(init, t, logBase);
        }
      }
    }
  }

  /** The score a pair is ranked by: the table entry of its string. */
  function Key(m: Scores, p: Pair): real
  {
    if p.text in m then m[p.text] else 0.0
  }

  /** Non-increasing by score. */
  predicate SortedDesc(xs: seq<Pair>, m: Scores)
  {
    forall i, j :: 0 <= i < j < |xs| ==> Key(m, xs[i]) >= Key(m, xs[j])
  }

  /** Places `x` before the first element that does not score above it. */
  function Insert(x: Pair, ys: seq<Pair>, m: Scores): (r: seq<Pair>)
    ensures |r| == |ys| + 1
    ensures multiset(r) == multiset(ys) + multiset{x}
    ensures r[0] == x || (|ys| > 0 && r[0] == ys[0])
  {
    if |ys| == 0 || Key(m, ys[0]) <= Key(m, x) then [x] + ys
    else
      assert ys == [ys[0]] + ys[1..];
      [ys[0]] + Insert(x, ys[1..], m)
  }

  /** Inserting into a descending sequence keeps it descending. */
  lemma {:induction false} InsertSorted(x: Pair, ys: seq<Pair>, m: Scores)
    requires SortedDesc(ys, m)
    ensures SortedDesc(Insert(x, ys, m), m)
  {
    if |ys| > 0 && Key(m, ys[0]) > Key(m, x) {
      var tail := ys[1..];
      assert SortedDesc(tail, m) by {
        forall i, j | 0 <= i < j < |tail| ensures Key(m, tail[i]) >= Key(m, tail[j]) {
          assert tail[i] == ys[i + 1] && tail[j] == ys[j + 1];
        }
      }
      InsertSorted(x, tail, m);
      var rest := Insert(x, tail, m);
      var r := [ys[0]] + rest;
      assert Key(m, ys[0]) >= Key(m, rest[0]);
      forall i, j | 0 <= i < j < |r| ensures Key(m, r[i]) >= Key(m, r[j]) {
        if i == 0 {
          assert r[j] == rest[j - 1];
          if j > 1 {
            assert Key(m, rest[0]) >= Key(m, rest[j - 1]);
          }
        } else {
          assert r[i] == rest[i - 1] && r[j] == rest[j - 1];
        }
      }
    }
  }

  /**
    The descending sort by score. The source passes a comparator that
    returns a boolean, so the order it gets depends on the JavaScript
    engine; the model takes a descending order and leaves the order among
    pairs of equal score unstated.
   */
  function SortDesc(xs: seq<Pair>, m: Scores): (r: seq<Pair>)
    ensures SortedDesc(r, m)
    ensures multiset(r) == multiset(xs)
  {
    if |xs| == 0 then []
    else
      assert xs == [xs[0]] + xs[1..];
      InsertSorted(xs[0], SortDesc(xs[1..], m), m);
      Insert(xs[0], SortDesc(xs[1..], m), m)
  }

  /** A permutation has the same strings. */
  lemma SameTexts(a: seq<Pair>, b: seq<Pair>)
    requires multiset(a) == multiset(b)
    ensures Texts(a) == Texts(b)
  {
    forall t | t in Texts(a) ensures t in Texts(b) {
      var i :| 0 <= i < |a| && a[i].text == t;
      assert a[i] in multiset(b);
      var j :| 0 <= j < |b| && b[j] == a[i];
    }
    forall t | t in Texts(b) ensures t in Texts(a) {
      var i :| 0 <= i < |b| && b[i].text == t;
      assert b[i] in multiset(a);
      var j :| 0 <= j < |a| && a[j] == b[i];
    }
  }

  /** No string occurs twice. */
  predicate DistinctTexts(xs: seq<Pair>)
  {
    forall i, j :: 0 <= i < j < |xs| ==> xs[i].text != xs[j].text
  }

  /** A sequence with distinct strings has as many strings as elements. */
  lemma {:induction false} DistinctCard(xs: seq<Pair>)
    requires DistinctTexts(xs)
    ensures |Texts(xs)| == |xs|
  {
    if |xs| > 0 {
      var init := xs[..|xs| - 1];
      var x := xs[|xs| - 1];
      assert DistinctTexts(init) by {
        assert forall i :: 0 <= i < |init| ==> init[i] == xs[i];
      }
      DistinctCard(init);
      assert init + [x] == xs;
      TextsSnoc(init, x);
      assert x.text !in Texts(init) by {
        forall i | 0 <= i < |init| ensures init[i].text != x.text {
          assert init[i] == xs[i];
        }
      }
    }
  }

  /** Appending a pair adds its string to the strings. */
  lemma TextsSnoc(xs: seq<Pair>, x: Pair)
    ensures Texts(xs + [x]) == Texts(xs) + {x.text}
  {
    assert forall i :: 0 <= i < |xs| ==> (xs + [x])[i] == xs[i];
    assert (xs + [x])[|xs|] == x;
  }

  /**
    `_.uniq(clels, false, x => x[0])`: the pairs visited in order, each kept
    unless an earlier kept pair carries the same string.
   */
  function Dedupe(xs: seq<Pair>): (r: seq<Pair>)
    ensures DistinctTexts(r)
    ensures Texts(r) == Texts(xs)
    ensures forall k :: 0 <= k < |r| ==> r[k] in xs
    ensures |r| <= |xs|
  {
    if |xs| == 0 then []
    else
      var init := xs[..|xs| - 1];
      var x := xs[|xs| - 1];
      var d := Dedupe(init);
      assert init + [x] == xs;
      TextsSnoc(init, x);
      assert forall k :: 0 <= k < |d| ==> d[k] in init ==> d[k] in xs;
      if x.text in Texts(d) then d
      else
        TextsSnoc(d, x);
        assert forall k :: 0 <= k < |d| ==> d[k].text in Texts(d);
        d + [x]
  }

  /** The first pair of `xs` carrying the string `t`. */
  function FirstWith(xs: seq<Pair>, t: string): (p: Pair)
    requires t in Texts(xs)
    ensures p in xs && p.text == t
  {
    if xs[0].text == t then xs[0]
    else
      assert t in Texts(xs[1..]) by {
        var i :| 0 <= i < |xs| && xs[i].text == t;
        assert xs[1..][i - 1] == xs[i];
      }
      FirstWith(xs[1..], t)
  }

  lemma {:induction false} FirstWithSnoc(xs: seq<Pair>, x: Pair, t: string)
    requires t in Texts(xs)
    ensures t in Texts(xs + [x])
    ensures FirstWith(xs + [x], t) == FirstWith(xs, t)
  {
    assert (xs + [x])[..|xs|] == xs;
    assert forall i :: 0 <= i < |xs| ==> (xs + [x])[i] == xs[i];
    if xs[0].text != t {
      assert (xs + [x])[1..] == xs[1..] + [x];
      assert t in Texts(xs[1..]) by {
        var i :| 0 <= i < |xs| && xs[i].text == t;
        assert xs[1..][i - 1] == xs[i];
      }
      FirstWithSnoc(xs[1..], x, t);
    }
  }

  lemma {:induction false} FirstWithNew(xs: seq<Pair>, x: Pair)
    requires x.text !in Texts(xs)
    ensures x.text in Texts(xs + [x])
    ensures FirstWith(xs + [x], x.text) == x
  {
    assert (xs + [x])[|xs|] == x;
    if |xs| > 0 {
      assert xs[0].text in Texts(xs);
      assert (xs + [x])[1..] == xs[1..] + [x];
      assert Texts(xs[1..]) <= Texts(xs) by {
        forall i | 0 <= i < |xs[1..]| ensures xs[1..][i].text in Texts(xs) {
          assert xs[1..][i] == xs[i + 1];
        }
      }
      FirstWithNew(xs[1..], x);
    }
  }

  /** Deduplication keeps, for each string, the first pair that carries it. */
  lemma {:induction false} DedupeKeepsFirst(xs: seq<Pair>)
    ensures forall k :: 0 <= k < |Dedupe(xs)| ==> Dedupe(xs)[k] == FirstWith(xs, Dedupe(xs)[k].text)
  {
    if |xs| > 0 {
      var init := xs[..|xs| - 1];
      var x := xs[|xs| - 1];
      assert init + [x] == xs;
      DedupeKeepsFirst(init);
      var d := Dedupe(init);
      forall k | 0 <= k < |Dedupe(xs)|
        ensures Dedupe(xs)[k] == FirstWith(xs, Dedupe(xs)[k].text)
      {
        if k < |d| {
          assert Dedupe(xs)[k] == d[k];
          assert d[k].text in Texts(d);
          FirstWithSnoc(init, x, d[k].text);
        } else {
          assert Dedupe(xs)[k] == x;
          FirstWithNew(init, x);
        }
      }
    }
  }

  /** The position of the first pair of `xs` carrying the string `t`. */
  function FirstIndex(xs: seq<Pair>, t: string): (i: nat)
    requires t in Texts(xs)
    ensures i < |xs| && xs[i].text == t
    ensures forall j :: 0 <= j < i ==> xs[j].text != t
  {
    if xs[0].text == t then 0
    else
      assert t in Texts(xs[1..]) by {
        var i :| 0 <= i < |xs| && xs[i].text == t;
        assert xs[1..][i - 1] == xs[i];
      }
      var i := FirstIndex(xs[1..], t);
      assert forall j :: 1 <= j <= i ==> xs[j] == xs[1..][j - 1];
      1 + i
  }

  lemma FirstIndexSnoc(xs: seq<Pair>, x: Pair, t: string)
    requires t in Texts(xs)
    ensures t in Texts(xs + [x])
    ensures FirstIndex(xs + [x], t) == FirstIndex(xs, t)
  {
    assert forall j :: 0 <= j < |xs| ==> (xs + [x])[j] == xs[j];
  }

  lemma FirstIndexNew(xs: seq<Pair>, x: Pair)
    requires x.text !in Texts(xs)
    ensures x.text in Texts(xs + [x])
    ensures FirstIndex(xs + [x], x.text) == |xs|
  {
    assert (xs + [x])[|xs|] == x;
    assert forall j :: 0 <= j < |xs| ==> (xs + [x])[j] == xs[j];
  }

  /**
    Deduplication keeps the strings in the order of their first occurrence
    in the input. With `DedupeKeepsFirst` and `Texts(Dedupe(xs)) == Texts(xs)`
    this fixes the result completely.
   */
  lemma {:induction false} DedupeFirstOccurrenceOrder(xs: seq<Pair>)
    ensures forall i, j :: 0 <= i < j < |Dedupe(xs)| ==>
      FirstIndex(xs, Dedupe(xs)[i].text) < FirstIndex(xs, Dedupe(xs)[j].text)
  {
    if |xs| > 0 {
      var init := xs[..|xs| - 1];
      var x := xs[|xs| - 1];
      assert init + [x] == xs;
      DedupeFirstOccurrenceOrder(init);
      var d := Dedupe(init);
      var r := Dedupe(xs);
      forall i, j | 0 <= i < j < |r|
        ensures FirstIndex(xs, r[i].text) < FirstIndex(xs, r[j].text)
      {
        assert r[i] == d[i];
        assert d[i].text in Texts(d);
        FirstIndexSnoc(init, x, d[i].text);
        if j < |d| {
          assert r[j] == d[j];
          assert d[j].text in Texts(d);
          FirstIndexSnoc(init, x, d[j].text);
        } else {
          assert r[j] == x;
          FirstIndexNew(init, x);
        }
      }
    }
  }

  /** Deduplication keeps a descending order. */
  lemma {:induction false} DedupeKeepsOrder(xs: seq<Pair>, m: Scores)
    requires SortedDesc(xs, m)
    ensures SortedDesc(Dedupe(xs), m)
  {
    if |xs| > 0 {
      var init := xs[..|xs| - 1];
      var x := xs[|xs| - 1];
      DedupeKeepsOrder(init, m);
      var d := Dedupe(init);
      forall k | 0 <= k < |d| ensures Key(m, d[k]) >= Key(m, x) {
        var i :| 0 <= i < |init| && init[i] == d[k];
        assert xs[i] == init[i];
      }
    }
  }

  /** Where JavaScript's `slice(0, n)` ends on a sequence of length `len`. */
  function SliceEnd(len: nat, n: int): (e: nat)
    ensures e <= len
    ensures n >= 0 ==> e == if n < len then n else len
    ensures n < 0 ==> e == if len + n > 0 then len + n else 0
  {
    if n >= 0 then (if n < len then n else len)
    else if len + n > 0 then len + n else 0
  }

  /** `if (maxN) clels = clels.slice(0, maxN)`: zero keeps everything. */
  function Truncate(xs: seq<Pair>, maxN: int): (r: seq<Pair>)
    ensures maxN == 0 ==> r == xs
    ensures |r| <= |xs| && r == xs[..|r|]
    ensures maxN > 0 ==> |r| == if maxN < |xs| then maxN else |xs|
    ensures maxN < 0 ==> |r| == if |xs| + maxN > 0 then |xs| + maxN else 0
  {
    if maxN != 0 then xs[..SliceEnd(|xs|, maxN)] else xs
  }

  /** Sum of the scores of the pairs' strings. */
  function SumKeys(xs: seq<Pair>, m: Scores): real
  {
    if |xs| == 0 then 0.0 else Key(m, xs[0]) + SumKeys(xs[1..], m)
  }

  lemma {:induction false} SumKeysNonNegative(xs: seq<Pair>, m: Scores)
    requires forall t :: t in m ==> m[t] >= 0.0
    ensures SumKeys(xs, m) >= 0.0
  {
    if |xs| > 0 {
      SumKeysNonNegative(xs[1..], m);
    }
  }

  /** Every score of the table divided by the total. */
  function Normalise(m: Scores, total: real): (n: Scores)
    requires total > 0.0
    ensures n.Keys == m.Keys
    ensures forall t :: t in m ==> n[t] * total == m[t]
  {
    map t | t in m :: m[t] / total
  }

  lemma DivideSum(a: real, b: real, total: real)
    requires total > 0.0
    ensures a / total + b / total == (a + b) / total
  {
  }

  lemma DivideSelf(total: real)
    requires total > 0.0
    ensures total / total == 1.0
  {
  }

  lemma KeyNormalised(m: Scores, total: real, p: Pair)
    requires total > 0.0
    ensures Key(Normalise(m, total), p) == Key(m, p) / total
  {
  }

  /** Summing normalised scores is dividing the sum of the raw scores by the total. */
  lemma {:induction false} SumNormalised(xs: seq<Pair>, m: Scores, total: real)
    requires total > 0.0
    ensures SumKeys(xs, Normalise(m, total)) == SumKeys(xs, m) / total
  {
    if |xs| > 0 {
      SumNormalised(xs[1..], m, total);
      KeyNormalised(m, total, xs[0]);
      DivideSum(Key(m, xs[0]), SumKeys(xs[1..], m), total);
    }
  }

  /** A prefix keeps distinctness, order and membership. */
  lemma PrefixKeeps(u: seq<Pair>, n: nat, m: Scores)
    requires n <= |u|
    ensures DistinctTexts(u) ==> DistinctTexts(u[..n])
    ensures SortedDesc(u, m) ==> SortedDesc(u[..n], m)
    ensures Texts(u[..n]) <= Texts(u)
    ensures forall k :: 0 <= k < n ==> u[..n][k] == u[k]
  {
    assert forall k :: 0 <= k < n ==> u[..n][k] == u[k];
  }

  /** An element of a permutation is an element of the original. */
  lemma InPermutation(a: seq<Pair>, b: seq<Pair>, x: Pair)
    requires multiset(a) == multiset(b)
    requires x in a
    ensures x in b
  {
    assert x in multiset(a);
  }

  /** The retained strings in rank order: sorted, deduplicated, truncated to `maxN`. */
  function Rank(ps: seq<Pair>, maxN: int, logBase: (real, real) -> real): (kept: seq<Pair>)
    ensures DistinctTexts(kept)
    ensures SortedDesc(kept, Tally(ps, logBase))
    ensures |kept| <= |Dedupe(SortDesc(ps, Tally(ps, logBase)))|
    ensures kept == Dedupe(SortDesc(ps, Tally(ps, logBase)))[..|kept|]
    ensures maxN > 0 ==> |kept| <= maxN
    ensures maxN > 0 ==> |kept| == if maxN < |Texts(ps)| then maxN else |Texts(ps)|
    ensures maxN < 0 ==> |kept| == if |Texts(ps)| + maxN > 0 then |Texts(ps)| + maxN else 0
    ensures maxN == 0 ==> Texts(kept) == Texts(ps)
    ensures Texts(kept) <= Texts(ps)
    ensures forall k :: 0 <= k < |kept| ==> kept[k] in ps
  {
    var m := Tally(ps, logBase);
    var sorted := SortDesc(ps, m);
    SameTexts(sorted, ps);
    DedupeKeepsOrder(sorted, m);
    var uniq := Dedupe(sorted);
    DistinctCard(uniq);
    var kept := Truncate(uniq, maxN);
    PrefixKeeps(uniq, |kept|, m);
    forall k | 0 <= k < |kept| ensures kept[k] in ps {
      InPermutation(sorted, ps, uniq[k]);
    }
    kept
  }

  /**
    Each retained pair is the first pair with its string in the sorted order,
    and carries that string's summed score.
   */
  lemma RankedScores(ps: seq<Pair>, maxN: int, logBase: (real, real) -> real)
    ensures var kept := Rank(ps, maxN, logBase);
      var sorted := SortDesc(ps, Tally(ps, logBase));
      forall k :: 0 <= k < |kept| ==>
        && kept[k] == FirstWith(sorted, kept[k].text)
        && Key(Tally(ps, logBase), kept[k]) == SumFor(ps, kept[k].text, logBase)
  {
    var m := Tally(ps, logBase);
    var sorted := SortDesc(ps, m);
    var kept := Rank(ps, maxN, logBase);
    DedupeKeepsFirst(sorted);
    TallyIsSumFor(ps, logBase);
    forall k | 0 <= k < |kept|
      ensures kept[k].text in m
    {
      assert kept[k] in ps;
      var i :| 0 <= i < |ps| && ps[i] == kept[k];
    }
  }

  /** Dividing by their own total makes a sequence's scores sum to exactly one. */
  lemma NormalisedByOwnTotal(xs: seq<Pair>, m: Scores)
    requires SumKeys(xs, m) > 0.0
    ensures SumKeys(xs, Normalise(m, SumKeys(xs, m))) == 1.0
  {
    var total := SumKeys(xs, m);
    SumNormalised(xs, m, total);
    DivideSelf(total);
  }

  /**
    Normalising by the total of the retained strings makes their scores sum
    to exactly one.
   */
  lemma RetainedScoresSumToOne(ps: seq<Pair>, maxN: int, logBase: (real, real) -> real)
    requires SumKeys(Rank(ps, maxN, logBase), Tally(ps, logBase)) > 0.0
    ensures var kept := Rank(ps, maxN, logBase);
      var total := SumKeys(kept, Tally(ps, logBase));
      SumKeys(kept, Normalise(Tally(ps, logBase), total)) == 1.0
  {
    NormalisedByOwnTotal(Rank(ps, maxN, logBase), Tally(ps, logBase));
  }
}
