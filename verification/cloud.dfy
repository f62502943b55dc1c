/**
  Sizing of the cloud words and the whole render pipeline: records are
  distilled into pairs, ranked and normalised, and each retained string gets
  a font size from the sizer, clamped to the allowed range. The layout and
  the drawing are outside the model.
 */
module Cloud {
  import opened Results
  import MiniParser
  import Distill
  import Scoring

  /** A word handed to the layout: its text and its point size. */
  datatype Word = Word(text: string, size: real)

  /** The `sizer` attribute: the built-in log2 sizer, or a caller-supplied function of (score, scaling). */
  datatype Sizer = DefaultSizer | CustomSizer(f: (real, real) -> real)

  /** The visualisation's attributes that reach `_renderCloud`. */
  datatype CloudConfig = CloudConfig(width: real, height: real, maxN: int, sizer: Sizer)

  /** Smallest size a word is given. */
  const MinSize: real := 12.0

  /** `(w + h) / 2 / 600`: the scaling of a 600 by 600 cloud to the requested area. */
  function Scaling(width: real, height: real): (s: real)
    ensures s * 1200.0 == width + height
  {
    (width + height) / 2.0 / 600.0
  }

  /** Largest size a word is given, `72 * scaling`. */
  function MaxSize(scaling: real): real
  {
    72.0 * scaling
  }

  /** The size range is non-empty exactly when width plus height is at least 200. */
  lemma SizeRangeNonEmpty(width: real, height: real)
    ensures MinSize <= MaxSize(Scaling(width, height)) <==> width + height >= 200.0
  {
  }

  /** The sizer's raw result for a normalised score. */
  function RawSize(sizer: Sizer, score: real, scaling: real, logBase: (real, real) -> real): real
  {
    match sizer
    case DefaultSizer => logBase(2.0, score * 600.0 + 1.0) * 12.0 * scaling
    case CustomSizer(f) => f(score, scaling)
  }

  /**
    With a logarithm that grows with its argument, the built-in sizer never
    gives a higher non-negative score a smaller size.
   */
  lemma DefaultSizerMonotone(s1: real, s2: real, scaling: real, logBase: (real, real) -> real)
    requires 0.0 <= s1 <= s2 && scaling >= 0.0
    requires forall x, y :: 0.0 < x <= y ==> logBase(2.0, x) <= logBase(2.0, y)
    ensures RawSize(DefaultSizer, s1, scaling, logBase) <= RawSize(DefaultSizer, s2, scaling, logBase)
  {
  }

  /**
    The clamp of `_renderCloud`: below 12 becomes 12, otherwise above
    `72 * scaling` becomes `72 * scaling`.
   */
  function ClampSize(s: real, scaling: real): (r: real)
    ensures s < MinSize ==> r == MinSize
    ensures MinSize <= s <= MaxSize(scaling) ==> r == s
    ensures MinSize <= s && MaxSize(scaling) < s ==> r == MaxSize(scaling)
    ensures MinSize <= MaxSize(scaling) ==> MinSize <= r <= MaxSize(scaling)
    ensures r == s || r == MinSize || r == MaxSize(scaling)
  {
    if s < MinSize then MinSize
    else if s > MaxSize(scaling) then MaxSize(scaling)
    else s
  }

  /** On a non-empty range, clamping twice is clamping once. */
  lemma ClampIdempotent(s: real, scaling: real)
    requires MinSize <= MaxSize(scaling)
    ensures ClampSize(ClampSize(s, scaling), scaling) == ClampSize(s, scaling)
  {
  }

  /** On a non-empty range, clamping never reorders two sizes. */
  lemma ClampMonotone(s1: real, s2: real, scaling: real)
    requires MinSize <= MaxSize(scaling)
    requires s1 <= s2
    ensures ClampSize(s1, scaling) <= ClampSize(s2, scaling)
  {
  }

  /** The words for the retained pairs, one per pair, in rank order. */
  function Layout(kept: seq<Scoring.Pair>, norm: Scoring.Scores, scaling: real, sizer: Sizer,
                  logBase: (real, real) -> real): (ws: seq<Word>)
    ensures |ws| == |kept|
    ensures forall i :: 0 <= i < |ws| ==> ws[i].text == kept[i].text
    ensures forall i :: 0 <= i < |ws| ==>
      ws[i].size == ClampSize(RawSize(sizer, Scoring.Key(norm, kept[i]), scaling, logBase), scaling)
    ensures MinSize <= MaxSize(scaling) ==> forall i :: 0 <= i < |ws| ==> MinSize <= ws[i].size <= MaxSize(scaling)
    ensures Scoring.DistinctTexts(kept) ==> DistinctWords(ws)
  {
    seq(|kept|, i requires 0 <= i < |kept| =>
      Word(kept[i].text, ClampSize(RawSize(sizer, Scoring.Key(norm, kept[i]), scaling, logBase), scaling)))
  }

  /**
    A caller-supplied sizer replaces the built-in one: each word's size is
    the clamp of exactly what the caller's function returns, and the
    logarithm plays no part.
   */
  lemma CustomSizerOverrides(kept: seq<Scoring.Pair>, norm: Scoring.Scores, scaling: real,
                             f: (real, real) -> real, logBase1: (real, real) -> real, logBase2: (real, real) -> real)
    ensures Layout(kept, norm, scaling, CustomSizer(f), logBase1) == Layout(kept, norm, scaling, CustomSizer(f), logBase2)
    ensures forall i :: 0 <= i < |kept| ==>
      Layout(kept, norm, scaling, CustomSizer(f), logBase1)[i].size == ClampSize(f(Scoring.Key(norm, kept[i]), scaling), scaling)
  {
  }

  /**
    With the built-in sizer and a growing logarithm, words laid out from
    pairs in descending score order have non-increasing sizes.
   */
  lemma LayoutSizesDescending(kept: seq<Scoring.Pair>, norm: Scoring.Scores, scaling: real,
                              logBase: (real, real) -> real)
    requires Scoring.SortedDesc(kept, norm)
    requires forall t :: t in norm ==> norm[t] >= 0.0
    requires MinSize <= MaxSize(scaling)
    requires forall x, y :: 0.0 < x <= y ==> logBase(2.0, x) <= logBase(2.0, y)
    ensures var ws := Layout(kept, norm, scaling, DefaultSizer, logBase);
      forall i, j :: 0 <= i < j < |ws| ==> ws[i].size >= ws[j].size
  {
    var ws := Layout(kept, norm, scaling, DefaultSizer, logBase);
    forall i, j | 0 <= i < j < |ws| ensures ws[i].size >= ws[j].size {
      var hi := Scoring.Key(norm, kept[i]);
      var lo := Scoring.Key(norm, kept[j]);
      assert lo <= hi;
      DefaultSizerMonotone(lo, hi, scaling, logBase);
      ClampMonotone(RawSize(DefaultSizer, lo, scaling, logBase), RawSize(DefaultSizer, hi, scaling, logBase), scaling);
    }
  }

  /** Words carrying the retained strings in order have exactly those strings, each once. */
  lemma LayoutTexts(kept: seq<Scoring.Pair>, ws: seq<Word>)
    requires |ws| == |kept|
    requires forall i :: 0 <= i < |ws| ==> ws[i].text == kept[i].text
    requires Scoring.DistinctTexts(kept)
    ensures (set i | 0 <= i < |ws| :: ws[i].text) == Scoring.Texts(kept)
    ensures DistinctWords(ws)
  {
  }

  /** Whether the words carry distinct texts. */
  predicate DistinctWords(ws: seq<Word>)
  {
    forall i, j :: 0 <= i < j < |ws| ==> ws[i].text != ws[j].text
  }

  /**
    The sizing half of `_renderCloud`: the retained pairs' scores are
    divided by their total and every pair becomes a word, or
    `ZeroTotalScore` when strings are retained but all score zero, where the
    source would divide zero by zero.
   */
  function Place(kept: seq<Scoring.Pair>, scores: Scoring.Scores, cfg: CloudConfig,
                 logBase: (real, real) -> real): (r: Result<seq<Word>>)
    requires forall t :: t in scores ==> scores[t] >= 0.0
    ensures r.Err? <==> |kept| > 0 && Scoring.SumKeys(kept, scores) == 0.0
    ensures r.Err? ==> r.error == ZeroTotalScore
    ensures r.Ok? ==> |r.value| == |kept| && forall i :: 0 <= i < |r.value| ==> r.value[i].text == kept[i].text
    ensures r.Ok? && |kept| > 0 ==> Scoring.SumKeys(kept, scores) > 0.0 && forall i :: 0 <= i < |r.value| ==>
      r.value[i].size == ClampSize(RawSize(cfg.sizer,
        Scoring.Key(Scoring.Normalise(scores, Scoring.SumKeys(kept, scores)), kept[i]),
        Scaling(cfg.width, cfg.height), logBase), Scaling(cfg.width, cfg.height))
  {
    var total := Scoring.SumKeys(kept, scores);
    Scoring.SumKeysNonNegative(kept, scores);
    if |kept| == 0 then Ok([])
    else if total == 0.0 then Err(ZeroTotalScore)
    else Ok(Layout(kept, Scoring.Normalise(scores, total), Scaling(cfg.width, cfg.height), cfg.sizer, logBase))
  }

  /**
    `_renderCloud(clels)` up to the layout call: the pairs are ranked and
    the retained ones placed.
   */
  function RenderCloud(ps: seq<Scoring.Pair>, cfg: CloudConfig, logBase: (real, real) -> real): (r: Result<seq<Word>>)
    ensures r.Err? ==> r.error == ZeroTotalScore
    ensures r.Ok? ==> DistinctWords(r.value)
    ensures r.Ok? && cfg.maxN > 0 ==> |r.value| <= cfg.maxN
    ensures r.Ok? && cfg.maxN > 0 ==>
      |r.value| == if cfg.maxN < |Scoring.Texts(ps)| then cfg.maxN else |Scoring.Texts(ps)|
    ensures r.Ok? && cfg.maxN == 0 ==> (set i | 0 <= i < |r.value| :: r.value[i].text) == Scoring.Texts(ps)
    ensures r.Ok? && MinSize <= MaxSize(Scaling(cfg.width, cfg.height)) ==>
      forall i :: 0 <= i < |r.value| ==> MinSize <= r.value[i].size <= MaxSize(Scaling(cfg.width, cfg.height))
  {
    var kept := Scoring.Rank(ps, cfg.maxN, logBase);
    var r := Place(kept, Scoring.Tally(ps, logBase), cfg, logBase);
    if r.Ok? then
      LayoutTexts(kept, r.value);
      r
    else r
  }

  /** The render fails exactly when some string is retained and the retained strings all score zero. */
  lemma RenderCloudFails(ps: seq<Scoring.Pair>, cfg: CloudConfig, logBase: (real, real) -> real)
    ensures var kept := Scoring.Rank(ps, cfg.maxN, logBase);
      RenderCloud(ps, cfg, logBase).Err? <==> |kept| > 0 && Scoring.SumKeys(kept, Scoring.Tally(ps, logBase)) == 0.0
  {
  }

  /**
    The words of a successful render are, in order, the retained strings,
    and each one's size is the clamped sizer result for its normalised
    score; those normalised scores sum to exactly one.
   */
  lemma RenderCloudSizes(ps: seq<Scoring.Pair>, cfg: CloudConfig, logBase: (real, real) -> real)
    ensures var kept := Scoring.Rank(ps, cfg.maxN, logBase);
      var scores := Scoring.Tally(ps, logBase);
      var total := Scoring.SumKeys(kept, scores);
      var r := RenderCloud(ps, cfg, logBase);
      r.Ok? && |kept| > 0 ==>
        && total > 0.0
        && Scoring.SumKeys(kept, Scoring.Normalise(scores, total)) == 1.0
        && |r.value| == |kept|
        && forall i :: 0 <= i < |r.value| ==>
          && r.value[i].text == kept[i].text
          && r.value[i].size == ClampSize(RawSize(cfg.sizer,
               Scoring.Key(Scoring.Normalise(scores, total), kept[i]),
               Scaling(cfg.width, cfg.height), logBase), Scaling(cfg.width, cfg.height))
  {
    var kept := Scoring.Rank(ps, cfg.maxN, logBase);
    var scores := Scoring.Tally(ps, logBase);
    if RenderCloud(ps, cfg, logBase).Ok? && |kept| > 0 {
      Scoring.SumKeysNonNegative(kept, scores);
      Scoring.NormalisedByOwnTotal(kept, scores);
    }
  }

  /**
    `render`: the records delivered by the query are distilled in the
    configured mode, and the pairs are rendered into words.
   */
  function Render(recs: seq<MiniParser.Record>, mode: Distill.Mode, cfg: CloudConfig,
                  logBase: (real, real) -> real): (r: Result<seq<Word>>)
    ensures Distill.DistillAll(recs, mode).Err? ==> r == Err(Distill.DistillAll(recs, mode).error)
    ensures Distill.DistillAll(recs, mode).Ok? ==> r == RenderCloud(Distill.DistillAll(recs, mode).value, cfg, logBase)
    ensures r.Ok? ==> DistinctWords(r.value)
  {
    var ps :- Distill.DistillAll(recs, mode);
    RenderCloud(ps, cfg, logBase)
  }
}
