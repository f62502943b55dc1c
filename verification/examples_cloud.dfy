/** Worked instances of the distillation and ranking rules. */
module CloudExamples {
  import opened Results
  import Strings
  import MiniParser
  import Distill
  import Scoring

  /** A GO record with the given name and p-value; the other fields are placeholders. */
  function GoRecord(name: string, p: real): MiniParser.Record
  {
    MiniParser.Record(true, p, 0, 0, 0, 0.0, 0.0, Some("GO:0007049"), Some("BP"), None, Some(name), None, [])
  }

  /** Whitespace tokens of a two-word term name. */
  lemma SplitCellCycle()
    ensures Strings.SplitWs("cell cycle") == ["cell", "cycle"]
  {
    Strings.LettersNoWs("cell");
    Strings.LettersNoWs("cycle");
    assert Strings.Join(["cell", "cycle"], " ") == "cell cycle" by {
      assert ["cell", "cycle"][1..] == ["cycle"];
    }
    Strings.SplitWsJoin(["cell", "cycle"]);
  }

  /** Upper-case tokens are acronyms and are kept as they are. */
  lemma AcronymKept()
    ensures Distill.NormalizeWord("CELL") == "CELL"
  {
    Distill.NormalizeKeepsAcronyms("CELL");
  }

  /** Other tokens are lower-cased and lose their punctuation. */
  lemma MixedCaseLowered()
    ensures Distill.NormalizeWord("Cell,") == "cell"
  {
    var w := "Cell,";
    assert w != Strings.ToUpper(w) by {
      assert Strings.ToUpper(w)[1] == 'E';
    }
    var lower := Strings.ToLower(w);
    assert lower == "cell," by {
      assert lower[0] == 'c' && lower[1] == 'e' && lower[2] == 'l' && lower[3] == 'l' && lower[4] == ',';
    }
    assert "cell," == "cell" + ",";
    RemovePunctuation("cell", ",");
    assert Distill.NormalizeWord(w) == Strings.RemoveAll(lower, Distill.Punctuation);
  }

  lemma RemovePunctuation(word: string, tail: string)
    requires forall i :: 0 <= i < |word| ==> 'a' <= word[i] <= 'z'
    requires forall i :: 0 <= i < |tail| ==> tail[i] == ','
    ensures Strings.RemoveAll(word + tail, Distill.Punctuation) == word
  {
    if |word| == 0 {
      assert word + tail == tail;
      AllRemoved(tail);
    } else {
      assert (word + tail)[0] == word[0];
      assert (word + tail)[1..] == word[1..] + tail;
      RemovePunctuation(word[1..], tail);
      assert [word[0]] + word[1..] == word;
    }
  }

  lemma AllRemoved(tail: string)
    requires forall i :: 0 <= i < |tail| ==> tail[i] == ','
    ensures Strings.RemoveAll(tail, Distill.Punctuation) == ""
  {
    if |tail| > 0 {
      AllRemoved(tail[1..]);
    }
  }

  /**
    The stopword test looks at the raw token: "The" survives the stopword
    "the" and is then normalised into "the".
   */
  lemma StopwordMatchesRawToken()
    ensures Distill.WordPairs(["The"], {"the"}, GoRecord("The", 0.5))
      == [Distill.Pair("the", GoRecord("The", 0.5))]
  {
    NormalizeThe();
    assert ["The"][1..] == [];
    assert "The" !in {"the"};
  }

  lemma NormalizeThe()
    ensures Distill.NormalizeWord("The") == "the"
  {
    assert Strings.ToUpper("The") != "The" by {
      assert Strings.ToUpper("The")[1] == 'H';
    }
    assert Strings.ToLower("The") == "the";
    Strings.RemoveAllAbsent("the", Distill.Punctuation);
  }

  /** A name longer than the limit keeps `maxTermLen - 1` characters and gains the marker. */
  lemma LongTermTruncated()
    ensures Distill.TruncateTerm("regulation of cell cycle", 10) == "regulatio" + Distill.Ellipsis
    ensures Distill.TruncateTerm("cell cycle", 10) == "cell cycle"
  {
  }

  /** The logarithm replaced by the identity, so that a pair scores its p-value. */
  function IdentityLog(b: real, x: real): real
  {
    x
  }

  function PairA(): Distill.Pair { Distill.Pair("a", GoRecord("a", 0.5)) }
  function PairB(): Distill.Pair { Distill.Pair("b", GoRecord("b", 0.3)) }
  function PairC(): Distill.Pair { Distill.Pair("c", GoRecord("c", 0.2)) }

  /** Three pairs with distinct strings whose scores strictly decrease from `a` to `c`. */
  predicate Descending(a: Distill.Pair, b: Distill.Pair, c: Distill.Pair, logBase: (real, real) -> real)
  {
    && a.text != b.text && b.text != c.text && a.text != c.text
    && Scoring.PairScore(a, logBase) > Scoring.PairScore(b, logBase) > Scoring.PairScore(c, logBase)
  }

  lemma TallyOfThree(a: Distill.Pair, b: Distill.Pair, c: Distill.Pair, logBase: (real, real) -> real)
    requires Descending(a, b, c, logBase)
    ensures var m := Scoring.Tally([c, a, b], logBase);
      && Scoring.Key(m, a) == Scoring.PairScore(a, logBase)
      && Scoring.Key(m, b) == Scoring.PairScore(b, logBase)
      && Scoring.Key(m, c) == Scoring.PairScore(c, logBase)
  {
    Scoring.TallySnoc([], c, logBase);
    assert [] + [c] == [c];
    Scoring.TallySnoc([c], a, logBase);
    assert [c] + [a] == [c, a];
    Scoring.TallySnoc([c, a], b, logBase);
    assert [c, a] + [b] == [c, a, b];
  }

  lemma InsertLast(x: Distill.Pair, ys: seq<Distill.Pair>, m: Scoring.Scores)
    requires forall i :: 0 <= i < |ys| ==> Scoring.Key(m, ys[i]) > Scoring.Key(m, x)
    ensures Scoring.Insert(x, ys, m) == ys + [x]
  {
    if |ys| > 0 {
      InsertLast(x, ys[1..], m);
      assert ys == [ys[0]] + ys[1..];
    }
  }

  lemma SortOfThree(a: Distill.Pair, b: Distill.Pair, c: Distill.Pair, m: Scoring.Scores)
    requires Scoring.Key(m, a) > Scoring.Key(m, b) > Scoring.Key(m, c)
    ensures Scoring.SortDesc([c, a, b], m) == [a, b, c]
  {
    assert [b][1..] == [];
    assert Scoring.SortDesc([b], m) == [b];
    assert [a, b][1..] == [b];
    assert Scoring.SortDesc([a, b], m) == [a, b];
    assert [c, a, b][1..] == [a, b];
    InsertLast(c, [a, b], m);
  }

  lemma SortedByTally(a: Distill.Pair, b: Distill.Pair, c: Distill.Pair, logBase: (real, real) -> real)
    requires Descending(a, b, c, logBase)
    ensures Scoring.SortDesc([c, a, b], Scoring.Tally([c, a, b], logBase)) == [a, b, c]
  {
    TallyOfThree(a, b, c, logBase);
    SortOfThree(a, b, c, Scoring.Tally([c, a, b], logBase));
  }

  /** Appending a pair with a new string to a duplicate-free sequence keeps it. */
  lemma DedupeSnocFresh(xs: seq<Distill.Pair>, x: Distill.Pair)
    requires Scoring.Dedupe(xs) == xs
    requires forall i :: 0 <= i < |xs| ==> xs[i].text != x.text
    ensures Scoring.Dedupe(xs + [x]) == xs + [x]
  {
    assert (xs + [x])[..|xs|] == xs;
    assert (xs + [x])[|xs|] == x;
    assert x.text !in Scoring.Texts(xs);
  }

  lemma DedupeOfOne(a: Distill.Pair)
    ensures Scoring.Dedupe([a]) == [a]
  {
    DedupeSnocFresh([], a);
    assert [] + [a] == [a];
  }

  lemma DedupeOfTwo(a: Distill.Pair, b: Distill.Pair)
    requires a.text != b.text
    ensures Scoring.Dedupe([a, b]) == [a, b]
  {
    DedupeOfOne(a);
    DedupeSnocFresh([a], b);
    assert [a] + [b] == [a, b];
  }

  lemma DedupeOfThree(a: Distill.Pair, b: Distill.Pair, c: Distill.Pair)
    requires a.text != b.text && b.text != c.text && a.text != c.text
    ensures Scoring.Dedupe([a, b, c]) == [a, b, c]
  {
    DedupeOfTwo(a, b);
    DedupeSnocFresh([a, b], c);
    assert [a, b] + [c] == [a, b, c];
  }

  lemma DedupedSorted(a: Distill.Pair, b: Distill.Pair, c: Distill.Pair, logBase: (real, real) -> real)
    requires Descending(a, b, c, logBase)
    ensures Scoring.Dedupe(Scoring.SortDesc([c, a, b], Scoring.Tally([c, a, b], logBase))) == [a, b, c]
  {
    SortedByTally(a, b, c, logBase);
    DedupeOfThree(a, b, c);
  }

  /** `Rank` with a positive `maxN` no longer than the deduplicated list keeps its first `maxN` pairs. */
  lemma RankOfDeduped(ps: seq<Distill.Pair>, maxN: int, logBase: (real, real) -> real, uniq: seq<Distill.Pair>)
    requires Scoring.Dedupe(Scoring.SortDesc(ps, Scoring.Tally(ps, logBase))) == uniq
    requires 0 < maxN <= |uniq|
    ensures Scoring.Rank(ps, maxN, logBase) == uniq[..maxN]
  {
  }

  /**
    Three strings with strictly decreasing scores, given in the order c, a, b,
    and `maxN = 2` keep the two best, best first.
   */
  lemma TopTwoOfThree(a: Distill.Pair, b: Distill.Pair, c: Distill.Pair, logBase: (real, real) -> real)
    requires Descending(a, b, c, logBase)
    ensures Scoring.Rank([c, a, b], 2, logBase) == [a, b]
  {
    DedupedSorted(a, b, c, logBase);
    TopTwoOfDeduped([c, a, b], a, b, c, logBase);
  }

  lemma TopTwoOfDeduped(ps: seq<Distill.Pair>, a: Distill.Pair, b: Distill.Pair, c: Distill.Pair,
                        logBase: (real, real) -> real)
    requires Scoring.Dedupe(Scoring.SortDesc(ps, Scoring.Tally(ps, logBase))) == [a, b, c]
    ensures Scoring.Rank(ps, 2, logBase) == [a, b]
  {
    RankOfDeduped(ps, 2, logBase, [a, b, c]);
    assert [a, b, c][..2] == [a, b];
  }

  /** With the logarithm replaced by the identity, p-values 0.5, 0.3 and 0.2 keep "a" and "b". */
  lemma TopTwoOfExample()
    ensures Scoring.Rank([PairC(), PairA(), PairB()], 2, IdentityLog) == [PairA(), PairB()]
  {
    TopTwoOfThree(PairA(), PairB(), PairC(), IdentityLog);
  }
}
