/**
  Distilling enrichment records into the strings of the cloud (`render` in
  the visualisation): either the single words of each GO term name, or the
  whole, possibly truncated, term name.
 */
module Distill {
  import opened Results
  import Strings
  import MiniParser

  /** A display string and the record it was taken from (a cloud element of `_renderCloud`). */
  datatype Pair = Pair(text: string, rec: MiniParser.Record)

  /** How records become strings: single words minus stopwords, or whole terms cut at a length. */
  datatype Mode = Words(stopwords: set<string>) | WholeTerms(maxTermLen: int)

  /** The marker appended to a truncated term name, kept as the three characters the source holds. */
  const Ellipsis: string := "\U{E2}\U{20AC}\U{A6}"

  /** The characters `normalizeWord` deletes. */
  const Punctuation: set<char> := {',', '.'}

  /**
    `normalizeWord`: a token equal to its upper-casing is kept as it is;
    any other token is lower-cased and loses every comma and period.
   */
  function NormalizeWord(w: string): (r: string)
    ensures Strings.ToUpper(w) == w ==> r == w
    ensures Strings.ToUpper(w) != w ==> Strings.NoUpper(r) && ',' !in r && '.' !in r
    ensures Strings.ToUpper(w) != w ==> forall c :: c in r <==> c in Strings.ToLower(w) && c != ',' && c != '.'
    ensures Strings.ToUpper(w) != w ==> r == Strings.RemoveAll(Strings.ToLower(w), Punctuation)
  {
    if w != Strings.ToUpper(w) then
      var lower := Strings.ToLower(w);
      var r := Strings.RemoveAll(lower, Punctuation);
      assert Strings.NoUpper(r) by {
        forall i | 0 <= i < |r| ensures !('A' <= r[i] <= 'Z') {
          assert r[i] in lower;
        }
      }
      r
    else w
  }

  /** A token holding no lower-case letter is an acronym and is passed through. */
  lemma NormalizeKeepsAcronyms(w: string)
    requires Strings.NoLower(w)
    ensures NormalizeWord(w) == w
  {
    Strings.UpperFixedIffNoLower(w);
  }

  /** Lower-casing leaves no upper-case letter and keeps every other character. */
  lemma LowerOfNoUpper(s: string)
    requires Strings.NoUpper(s)
    ensures Strings.ToLower(s) == s
  {
  }

  /** Normalising a word twice gives the same word as normalising it once. */
  lemma NormalizeIdempotent(w: string)
    ensures NormalizeWord(NormalizeWord(w)) == NormalizeWord(w)
  {
    var r := NormalizeWord(w);
    if Strings.ToUpper(w) != w {
      Strings.UpperFixedIffNoLower(r);
      if Strings.ToUpper(r) != r {
        LowerOfNoUpper(r);
        Strings.RemoveAllAbsent(r, Punctuation);
      }
    }
  }

  /** Whether a term id carries the `GO:` prefix. */
  predicate IsGoTerm(id: string)
  {
    Strings.StartsWith(id, "GO:")
  }

  /** Word mode: one pair per token whose raw form is not a stopword, in token order. */
  function WordPairs(tokens: seq<string>, stopwords: set<string>, rec: MiniParser.Record): (r: seq<Pair>)
    ensures |r| <= |tokens|
    ensures forall k :: 0 <= k < |r| ==> r[k].rec == rec
    decreases |tokens|
  {
    if |tokens| == 0 then []
    else
      (if tokens[0] in stopwords then [] else [Pair(NormalizeWord(tokens[0]), rec)])
        + WordPairs(tokens[1..], stopwords, rec)
  }

  /** A single token gives one pair, of its normalised form, unless the raw token is a stopword. */
  lemma WordPairsSingle(t: string, stopwords: set<string>, rec: MiniParser.Record)
    ensures WordPairs([t], stopwords, rec) == if t in stopwords then [] else [Pair(NormalizeWord(t), rec)]
  {
    assert [t][1..] == [];
  }

  /**
    Word mode works token by token: the pairs of a concatenation of token
    lists are the pairs of the first list followed by those of the second.
    With `WordPairsSingle` this fixes the result as one pair per kept token,
    in token order.
   */
  lemma {:induction false} WordPairsAppend(a: seq<string>, b: seq<string>, stopwords: set<string>, rec: MiniParser.Record)
    ensures WordPairs(a + b, stopwords, rec) == WordPairs(a, stopwords, rec) + WordPairs(b, stopwords, rec)
  {
    if |a| == 0 {
      assert a + b == b;
    } else {
      assert (a + b)[0] == a[0];
      assert (a + b)[1..] == a[1..] + b;
      WordPairsAppend(a[1..], b, stopwords, rec);
      var head := if a[0] in stopwords then [] else [Pair(NormalizeWord(a[0]), rec)];
      ConcatAssoc(head, WordPairs(a[1..], stopwords, rec), WordPairs(b, stopwords, rec));
    }
  }

  /** Number of tokens that are not stopwords. */
  function CountKept(tokens: seq<string>, stopwords: set<string>): nat
  {
    if |tokens| == 0 then 0
    else (if tokens[0] in stopwords then 0 else 1) + CountKept(tokens[1..], stopwords)
  }

  /**
    Word mode drops a token exactly when the raw token is a stopword: every
    other token contributes its normalised form, every pair comes from such a
    token, and there is one pair per kept token.
   */
  lemma {:induction false} WordPairsExact(tokens: seq<string>, stopwords: set<string>, rec: MiniParser.Record)
    ensures |WordPairs(tokens, stopwords, rec)| == CountKept(tokens, stopwords)
    ensures forall k :: 0 <= k < |tokens| && tokens[k] !in stopwords ==>
      Pair(NormalizeWord(tokens[k]), rec) in WordPairs(tokens, stopwords, rec)
    ensures forall p :: p in WordPairs(tokens, stopwords, rec) ==>
      exists k :: 0 <= k < |tokens| && tokens[k] !in stopwords && p == Pair(NormalizeWord(tokens[k]), rec)
  {
    if |tokens| > 0 {
      WordPairsExact(tokens[1..], stopwords, rec);
      var rest := WordPairs(tokens[1..], stopwords, rec);
      var head := if tokens[0] in stopwords then [] else [Pair(NormalizeWord(tokens[0]), rec)];
      assert WordPairs(tokens, stopwords, rec) == head + rest;
      forall k | 0 <= k < |tokens| && tokens[k] !in stopwords
        ensures Pair(NormalizeWord(tokens[k]), rec) in head + rest
      {
        if k > 0 {
          assert tokens[k] == tokens[1..][k - 1];
        }
      }
      forall p | p in head + rest
        ensures exists k :: 0 <= k < |tokens| && tokens[k] !in stopwords && p == Pair(NormalizeWord(tokens[k]), rec)
      {
        if p in rest {
          var j :| 0 <= j < |tokens[1..]| && tokens[1..][j] !in stopwords && p == Pair(NormalizeWord(tokens[1..][j]), rec);
          assert tokens[j + 1] == tokens[1..][j];
        } else {
          assert p == Pair(NormalizeWord(tokens[0]), rec);
        }
      }
    }
  }

  /**
    Whole-term mode: a name no longer than `maxLen` is kept; a longer one is
    cut to its first `maxLen - 1` characters (none when that is negative)
    and the marker is appended.
   */
  function TruncateTerm(name: string, maxLen: int): (r: string)
    ensures |name| <= maxLen ==> r == name
    ensures |name| > maxLen ==>
      var keep := if maxLen >= 1 then maxLen - 1 else 0;
      && keep <= |name|
      && |r| == keep + |Ellipsis|
      && Strings.StartsWith(r, name[..keep])
      && r[keep..] == Ellipsis
  {
    if |name| > maxLen then name[..if maxLen >= 1 then maxLen - 1 else 0] + Ellipsis else name
  }

  /** A truncated name never exceeds `maxLen - 1` characters of the original plus the marker. */
  lemma TruncateBound(name: string, maxLen: int)
    requires maxLen >= 1
    ensures |TruncateTerm(name, maxLen)| <= maxLen - 1 + |Ellipsis|
  {
  }

  /**
    The pairs of one record (`fetchfnWord` or `fetchfnWholeTerm`), or the
    TypeError the source throws when it reads an undefined field.
   */
  function DistillRecord(rec: MiniParser.Record, mode: Mode): (r: Result<seq<Pair>>)
    ensures rec.termId.None? <==> r == Err(UndefinedTermId)
    ensures rec.termId.Some? && !IsGoTerm(rec.termId.value) ==> r == Ok([])
    ensures rec.termId.Some? && IsGoTerm(rec.termId.value) && rec.termName.None? ==> r == Err(UndefinedTermName)
    ensures r.Ok? ==> forall k :: 0 <= k < |r.value| ==> r.value[k].rec == rec
    ensures r.Ok? && mode.WholeTerms? && IsGoTerm(rec.termId.value) ==>
      r.value == [Pair(TruncateTerm(rec.termName.value, mode.maxTermLen), rec)]
    ensures r.Ok? && mode.Words? && IsGoTerm(rec.termId.value) ==>
      r.value == WordPairs(Strings.SplitWs(rec.termName.value), mode.stopwords, rec)
  {
    match rec.termId
    case None => Err(UndefinedTermId)
    case Some(id) =>
      if !IsGoTerm(id) then Ok([])
      else
        match rec.termName
        case None => Err(UndefinedTermName)
        case Some(name) =>
          match mode
          case Words(stopwords) => Ok(WordPairs(Strings.SplitWs(name), stopwords, rec))
          case WholeTerms(maxLen) => Ok([Pair(TruncateTerm(name, maxLen), rec)])
  }

  /** Whether a record contributes to the cloud at all. */
  predicate IsGoRecord(rec: MiniParser.Record)
  {
    rec.termId.Some? && IsGoTerm(rec.termId.value)
  }

  /** Number of GO records. */
  function CountGo(recs: seq<MiniParser.Record>): nat
  {
    if |recs| == 0 then 0 else (if IsGoRecord(recs[0]) then 1 else 0) + CountGo(recs[1..])
  }

  /**
    `$.each(data, fetchfn)`: the pairs of every record, in record order; the
    first TypeError ends the walk.
   */
  function DistillAll(recs: seq<MiniParser.Record>, mode: Mode): (r: Result<seq<Pair>>)
    ensures r.Ok? ==> forall k :: 0 <= k < |r.value| ==> r.value[k].rec in recs && IsGoRecord(r.value[k].rec)
    ensures r.Ok? && mode.WholeTerms? ==> |r.value| == CountGo(recs)
    ensures r.Err? ==> exists k :: 0 <= k < |recs| && DistillRecord(recs[k], mode) == Err(r.error)
  {
    if |recs| == 0 then Ok([])
    else
      var head :- DistillRecord(recs[0], mode);
      var rest :- DistillAll(recs[1..], mode);
      assert forall k :: 0 <= k < |rest| ==> rest[k].rec in recs;
      Ok(head + rest)
  }

  /** One step of the walk: the first record's pairs followed by the pairs of the rest. */
  lemma DistillAllCons(recs: seq<MiniParser.Record>, mode: Mode)
    requires |recs| > 0
    ensures DistillAll(recs, mode).Ok? <==> DistillRecord(recs[0], mode).Ok? && DistillAll(recs[1..], mode).Ok?
    ensures DistillAll(recs, mode).Ok? ==>
      DistillAll(recs, mode).value == DistillRecord(recs[0], mode).value + DistillAll(recs[1..], mode).value
  {
  }

  /** Records without a `GO:` id contribute nothing in either mode. */
  lemma {:induction false} NonGoRecordsContributeNothing(recs: seq<MiniParser.Record>, mode: Mode)
    requires forall k :: 0 <= k < |recs| ==> recs[k].termId.Some? && !IsGoTerm(recs[k].termId.value)
    ensures DistillAll(recs, mode) == Ok([])
  {
    if |recs| > 0 {
      NonGoRecordsContributeNothing(recs[1..], mode);
      DistillAllCons(recs, mode);
      assert DistillRecord(recs[0], mode) == Ok([]);
    }
  }

  /** Distillation distributes over concatenation of the records. */
  lemma DistillAllAppend(a: seq<MiniParser.Record>, b: seq<MiniParser.Record>, mode: Mode)
    requires DistillAll(a, mode).Ok?
    ensures DistillAll(a + b, mode).Ok? <==> DistillAll(b, mode).Ok?
    ensures DistillAll(b, mode).Ok? ==> DistillAll(a + b, mode).value == DistillAll(a, mode).value + DistillAll(b, mode).value
  {
    AppendOk(a, b, mode);
    if DistillAll(b, mode).Ok? {
      AppendValue(a, b, mode);
    }
  }

  lemma {:induction false} AppendOk(a: seq<MiniParser.Record>, b: seq<MiniParser.Record>, mode: Mode)
    requires DistillAll(a, mode).Ok?
    ensures DistillAll(a + b, mode).Ok? <==> DistillAll(b, mode).Ok?
  {
    if |a| == 0 {
      assert a + b == b;
    } else {
      ConsOfAppend(a, b, mode);
      DistillAllCons(a, mode);
      AppendOk(a[1..], b, mode);
    }
  }

  lemma {:induction false} AppendValue(a: seq<MiniParser.Record>, b: seq<MiniParser.Record>, mode: Mode)
    requires DistillAll(a, mode).Ok? && DistillAll(b, mode).Ok?
    ensures DistillAll(a + b, mode) == Ok(DistillAll(a, mode).value + DistillAll(b, mode).value)
  {
    if |a| == 0 {
      assert a + b == b;
      assert DistillAll(a, mode).value == [];
      assert [] + DistillAll(b, mode).value == DistillAll(b, mode).value;
    } else {
      var h := DistillRecord(a[0], mode);
      var t := DistillAll(a[1..], mode);
      var u := DistillAll(b, mode).value;
      assert h.Ok? && t.Ok? && DistillAll(a, mode).value == h.value + t.value by {
        DistillAllCons(a, mode);
      }
      assert DistillAll(a[1..] + b, mode) == Ok(t.value + u) by {
        AppendValue(a[1..], b, mode);
      }
      assert DistillAll(a + b, mode) == Ok(h.value + (t.value + u)) by {
        ConsOfAppend(a, b, mode);
      }
      ConcatAssoc(h.value, t.value, u);
    }
  }

  lemma ConcatAssoc(x: seq<Pair>, y: seq<Pair>, z: seq<Pair>)
    ensures x + (y + z) == (x + y) + z
  {
  }

  /** One step of the walk over a concatenation. */
  lemma ConsOfAppend(a: seq<MiniParser.Record>, b: seq<MiniParser.Record>, mode: Mode)
    requires |a| > 0
    ensures DistillAll(a + b, mode).Ok? <==> DistillRecord(a[0], mode).Ok? && DistillAll(a[1..] + b, mode).Ok?
    ensures DistillAll(a + b, mode).Ok? ==>
      DistillAll(a + b, mode).value == DistillRecord(a[0], mode).value + DistillAll(a[1..] + b, mode).value
  {
    var ab := a + b;
    assert ab[0] == a[0];
    assert ab[1..] == a[1..] + b;
    DistillAllCons(ab, mode);
  }
}
