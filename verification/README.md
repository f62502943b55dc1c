# g:Profiler word cloud: query building, result parsing, distillation and ranking

This project models the data pipeline of biojs-vis-gprofiler in Dafny. The pipeline turns a gene-set
enrichment query against g:Profiler into the weighted words of a tag cloud. It has three parts.

- **Query building and parsing** (`lib/gprofiler.js`, module `Query` and module `MiniParser`).
  - The caller's attributes are merged over the defaults with jQuery's shallow `$.extend`.
  - `query` and `cb` are checked.
  - A non-array query is wrapped into a list.
  - The POST body is built: `organism`, `query` joined with spaces, `significant='1'` and `output='mini'`.
  - The tab-separated "mini" response is split into rows. Comment rows and rows shorter than 14
    characters are skipped. The other rows map to records by fixed column position.
- **Distillation** (`lib/biojsvisgprofiler.js`, module `Distill`). Each record whose `term_id` starts
  with `GO:` becomes display strings.
  - In word mode, the term name is split on whitespace runs. A raw token that is a stopword is
    dropped. Every other token is passed through `normalizeWord`.
  - In whole-term mode, the name is cut to `maxTermLen - 1` characters plus the ellipsis marker when
    it is longer than `maxTermLen`.
- **Scoring, ranking and sizing** (`_renderCloud`, modules `Scoring` and `Cloud`).
  - The per-pair scores `|log10 p|` are summed per string.
  - The pairs are sorted by descending score and deduplicated by string, keeping the first pair.
  - The list is truncated with `slice(0, maxN)` when `maxN` is non-zero.
  - Scores are normalised by the total of the retained strings.
  - Each word gets the sizer's result clamped to `[12, 72 * scaling]`.

Every stage is a pure function over immutable datatypes. Strings are `seq<char>` and scores are
`real`. Three things outside the model enter as function-valued parameters:

- the logarithm `_logBase(b, x)` (`logBase`);
- the conversions `parseFloat` and `parseInt` (`MiniParser.Conversions`);
- the formatting of numbers into strings (`numText`).

The HTTP exchange, the d3-cloud layout and the SVG drawing are not modelled. The model starts from
the response text and stops at the list of `{text, size}` words handed to the layout.

Notes on the source's own behaviour, which the model follows:

- `normalizeWord` removes every comma and period (`/[\,\.]+/g`), not only trailing ones.
- The stopword test looks at the raw token, before normalising. So "The" survives the stopword
  "the" and becomes "the".
- Scores are normalised by the total of the retained strings, after truncation. So the retained
  scores sum to exactly one.
- Only the tab-separated "mini" response format is parsed.
- An out-of-range p-value raises no error.
- The POST body ignores every attribute except `query` and `organism`. `significant` is always
  sent as `'1'`.

## Model

| member | source | states |
|---|---|---|
| `Query.Extend` | lib/gprofiler.js:78 | `$.extend`: every entry of the source object that is not undefined overrides the target. Every other target entry is kept. No other key appears. |
| `Query.Merge` | lib/gprofiler.js:78 | The merged object carries exactly the attributes that the defaults or the caller define. An attribute the caller sets to undefined does not erase its default. |
| `Query.MergeOverridesDefaults` | lib/gprofiler.js:58-78 | After the merge, a key reads as the caller's value when that value is defined. Otherwise it reads as its default. |
| `Query.MergeOfNothing` | lib/gprofiler.js:58-78 | With no caller attributes, every key reads as its default, e.g. organism `hsapiens` and significant `true`. `query` stays undefined. |
| `Query.QueryCheckSeesCallerQuery` | lib/gprofiler.js:78-81 | The `query` check after the merge passes exactly when the caller's own `query` is truthy, because the default `query` is undefined. |
| `Query.MergeIdempotent` | lib/gprofiler.js:78 | Merging the defaults into an already merged object changes nothing. |
| `Query.QueryItemsIdempotent` | lib/gprofiler.js:85-86 | Wrapping a query that is already wrapped changes nothing, because an array is never wrapped again. |
| `Query.WireQuery` | lib/gprofiler.js:85-91 | A query that is not an array is sent as its own text, as `join` writes a one-element list. Undefined and null give the empty text. |
| `Query.BuildRequest` | lib/gprofiler.js:55-94 | Fails with the query error exactly when `query` is falsy. Otherwise fails with the callback error exactly when `cb` is not a function. Otherwise the body has exactly the keys organism, query, significant and output: `significant='1'`, `output='mini'`, the caller's organism or `hsapiens`, and the wire query. |
| `Query.OnlyQueryAndOrganismAreSent` | lib/gprofiler.js:89-94 | Two attribute objects that agree on `query` and `organism` give the same request, whatever their other attributes hold. |
| `Query.WireQueryOfStrings` | lib/gprofiler.js:91 | For a list of string terms, the wire query is the terms joined with single spaces. |
| `Query.WireQueryOfSingleTerm` | lib/gprofiler.js:85-91 | A single non-array term is sent unchanged, because it is wrapped into a one-element list. |
| `Query.WireQueryRecoversTerms` | lib/gprofiler.js:91 | Splitting the wire query on spaces gives back the terms when no term holds a space. |
| `Strings.Split` | lib/gprofiler.js:97 | `split` on one character gives one more piece than there are separators. No piece holds the separator. |
| `Strings.SplitJoin` | lib/gprofiler.js:106 | Splitting a joined list gives the list back when no element holds the separator. |
| `Strings.JoinSplit` | lib/gprofiler.js:97 | Joining the pieces of a split with the separator gives the original text. |
| `Strings.SkipWs` | lib/biojsvisgprofiler.js:132 | Drops exactly the leading whitespace run. What remains is a suffix that starts with a non-whitespace character. |
| `Strings.SplitWs` | lib/biojsvisgprofiler.js:132 | `split(/\s+/)` gives at least one piece, and no piece holds whitespace. |
| `Strings.SplitWsLeading` | lib/biojsvisgprofiler.js:132 | A leading whitespace run of any length and any mix of whitespace characters gives one empty first piece, then the split of the rest. |
| `Strings.SplitWsAfterRun` | lib/biojsvisgprofiler.js:132 | A whitespace-free piece followed by a whitespace run of any length and mix is split off as one piece. With nothing after the run, the last piece is empty. |
| `Strings.SplitWsJoin` | lib/biojsvisgprofiler.js:132 | Splitting on whitespace undoes joining with single spaces, when the pieces are whitespace-free and no inner piece is empty. |
| `Strings.ToUpper` | lib/biojsvisgprofiler.js:120 | The upper-cased text has the same length and holds no lower-case letter. |
| `Strings.ToLower` | lib/biojsvisgprofiler.js:121 | The lower-cased text has the same length and holds no upper-case letter. |
| `Strings.LowerIdempotent` | lib/biojsvisgprofiler.js:121 | Lower-casing twice is lower-casing once. |
| `Strings.UpperIdempotent` | lib/biojsvisgprofiler.js:120 | Upper-casing twice is upper-casing once. |
| `Strings.CaseMapsAgree` | lib/biojsvisgprofiler.js:120-121 | Lower-casing first does not change the upper-cased text. Upper-casing first does not change the lower-cased text. |
| `Strings.UpperFixedIffNoLower` | lib/biojsvisgprofiler.js:120 | A string equals its upper-casing exactly when it holds no lower-case letter. |
| `Strings.RemoveAll` | lib/biojsvisgprofiler.js:122 | The result holds exactly the characters of the input that are not in the removed set, and it is no longer than the input. |
| `Strings.RemoveAllAppend` | lib/biojsvisgprofiler.js:122 | Removal works piecewise: removing from a concatenation gives the concatenation of the removals. |
| `Strings.RemoveAllChar` | lib/biojsvisgprofiler.js:122 | A single character is deleted when it is in the removed set and kept otherwise. With `RemoveAllAppend`, this fixes the result as the input minus the removed characters, in order. |
| `Strings.RemoveAllAbsent` | lib/biojsvisgprofiler.js:122 | Removing characters that do not occur leaves the string unchanged. |
| `MiniParser.KeptRows` | lib/gprofiler.js:104-105 | The kept rows are exactly the rows that are neither comment rows nor shorter than 14 characters. |
| `MiniParser.KeptRowsSingle` | lib/gprofiler.js:104-105 | A single row is kept exactly when it is neither a comment row nor shorter than 14 characters. |
| `MiniParser.KeptRowsAppend` | lib/gprofiler.js:99-105 | Filtering works row by row, so the kept rows keep input order and multiplicity. |
| `MiniParser.ParseRows` | lib/gprofiler.js:99-123 | One record per kept row. The k-th record is the parse of the k-th kept row. |
| `MiniParser.ParseSingleRow` | lib/gprofiler.js:104-122 | A skipped row yields no record. Any other row yields exactly its own record. |
| `MiniParser.ParseRowsAppend` | lib/gprofiler.js:99-123 | Parsing distributes over concatenation of the rows, so records keep input order. |
| `MiniParser.ParseMini` | lib/gprofiler.js:96-123 | A response yields at most one record per line. |
| `MiniParser.ParseMiniOfLines` | lib/gprofiler.js:97 | A response written as newline-free lines parses into the records of those lines. |
| `MiniParser.ParseFormattedRow` | lib/gprofiler.js:106-120 | A row of at least 14 tab-free columns, e.g. one ending in a tab, maps columns 1 to 13 to fixed fields. `significant` holds exactly when column 1 is non-empty. `intersection` is column 13 split on `,`, or empty. |
| `MiniParser.ColumnZeroIgnored` | lib/gprofiler.js:108-120 | Column 0 has no influence on the record. |
| `MiniParser.IntersectionRoundTrip` | lib/gprofiler.js:120 | A comma-joined gene list in column 13 comes back as the intersection. |
| `MiniParser.EmptyIntersection` | lib/gprofiler.js:120 | A missing or empty column 13 gives an empty intersection. |
| `Distill.NormalizeWord` | lib/biojsvisgprofiler.js:119-126 | A token equal to its upper-casing is returned unchanged. Any other token is its lower-casing with every `,` and `.` removed, so it holds no upper-case letter and no `,` or `.`. |
| `Distill.NormalizeKeepsAcronyms` | lib/biojsvisgprofiler.js:119-126 | A token with no lower-case letter is passed through. |
| `Distill.LowerOfNoUpper` | lib/biojsvisgprofiler.js:121 | Lower-casing a string without upper-case letters leaves it unchanged. |
| `Distill.NormalizeIdempotent` | lib/biojsvisgprofiler.js:119-126 | Normalising twice is normalising once. |
| `Distill.WordPairs` | lib/biojsvisgprofiler.js:132-135 | At most one pair per token, each carrying the record. |
| `Distill.WordPairsSingle` | lib/biojsvisgprofiler.js:132-135 | One token gives one pair with its normalised form, unless the raw token is a stopword, which gives none. |
| `Distill.WordPairsAppend` | lib/biojsvisgprofiler.js:132-135 | The pairs of concatenated token lists are the pairs of the first list followed by those of the second, so there is one pair per kept token, in token order. |
| `Distill.WordPairsExact` | lib/biojsvisgprofiler.js:132-135 | A token is dropped exactly when the raw token is a stopword. Every other token gives its normalised pair, every pair comes from such a token, and the number of pairs equals the number of kept tokens. |
| `Distill.TruncateTerm` | lib/biojsvisgprofiler.js:147-149 | A name of at most `maxTermLen` characters is unchanged. A longer one is its first `maxTermLen - 1` characters followed by the marker. |
| `Distill.TruncateBound` | lib/biojsvisgprofiler.js:147-149 | A truncated name is at most `maxTermLen - 1` characters plus the marker. |
| `Distill.DistillRecord` | lib/biojsvisgprofiler.js:128-151 | An undefined `term_id` is a TypeError. A non-GO record gives no pairs. A GO record with an undefined name is a TypeError. Otherwise word mode gives the word pairs of the whitespace tokens, and whole-term mode gives exactly one pair with the truncated name. |
| `Distill.DistillAll` | lib/biojsvisgprofiler.js:153-158 | Every pair comes from a GO record of the input. Whole-term mode gives one pair per GO record. A failure is the failure of some record. |
| `Distill.NonGoRecordsContributeNothing` | lib/biojsvisgprofiler.js:128-151 | Records without a `GO:` id contribute no pairs in either mode. |
| `Distill.DistillAllAppend` | lib/biojsvisgprofiler.js:158 | Distillation distributes over concatenation of the records, so pairs keep record order. |
| `Scoring.Abs` | lib/biojsvisgprofiler.js:193 | `Math.abs` is non-negative and is the value or its negation. |
| `Scoring.PairScore` | lib/biojsvisgprofiler.js:193 | A pair's score is non-negative and is plus or minus `log10` of its p-value. |
| `Scoring.SumFor` | lib/biojsvisgprofiler.js:190-198 | The reference sum of the scores of the pairs carrying a string is non-negative. |
| `Scoring.Tally` | lib/biojsvisgprofiler.js:190-198 | The score table has exactly the strings of the pairs as keys, and every score is non-negative. |
| `Scoring.TallyIsSumFor` | lib/biojsvisgprofiler.js:190-198 | Each string's table entry equals the reference sum over the pairs carrying that string. |
| `Scoring.Insert` | lib/biojsvisgprofiler.js:202-203 | Insertion adds exactly the new pair: the multiset grows by it. |
| `Scoring.InsertSorted` | lib/biojsvisgprofiler.js:202-203 | Insertion into a descending sequence keeps it descending. |
| `Scoring.SortDesc` | lib/biojsvisgprofiler.js:202-203 | The sort is a permutation of the pairs in non-increasing score order. |
| `Scoring.Dedupe` | lib/biojsvisgprofiler.js:204-205 | After `_.uniq` by string, no string occurs twice, the same strings remain, and every kept pair comes from the input. |
| `Scoring.FirstWith` | lib/biojsvisgprofiler.js:204-205 | The first pair with a given string is an element of the input carrying that string. |
| `Scoring.DedupeKeepsFirst` | lib/biojsvisgprofiler.js:204-205 | Each kept pair is the first pair of the input carrying its string. |
| `Scoring.DedupeFirstOccurrenceOrder` | lib/biojsvisgprofiler.js:204-205 | The kept strings appear in the order of their first occurrence in the input. |
| `Scoring.DedupeKeepsOrder` | lib/biojsvisgprofiler.js:202-205 | Deduplicating a descending sequence leaves it descending. |
| `Scoring.Truncate` | lib/biojsvisgprofiler.js:206-207 | The result is a prefix of the input. `maxN = 0` keeps everything. A positive `maxN` keeps `min(maxN, len)` elements. A negative `maxN` keeps `max(len + maxN, 0)` elements, as `slice` counts from the end. |
| `Scoring.SumKeysNonNegative` | lib/biojsvisgprofiler.js:211-212 | The total of the retained scores is non-negative. |
| `Scoring.Normalise` | lib/biojsvisgprofiler.js:213-214 | Every entry of the table is divided by the total. The keys are unchanged. |
| `Scoring.SumNormalised` | lib/biojsvisgprofiler.js:209-214 | The sum of normalised scores is the sum of raw scores divided by the total. |
| `Scoring.NormalisedByOwnTotal` | lib/biojsvisgprofiler.js:209-214 | Normalised by their own positive total, a sequence's scores sum to exactly one. |
| `Scoring.Rank` | lib/biojsvisgprofiler.js:200-207 | The retained pairs have distinct strings and are in descending order. They are a prefix of the sorted, deduplicated list. A positive `maxN` keeps exactly `min(maxN, number of distinct strings)` pairs. A negative `maxN` keeps `max(distinct strings + maxN, 0)`. With `maxN = 0` they cover every string. |
| `Scoring.RankedScores` | lib/biojsvisgprofiler.js:190-207 | Each retained pair is the first pair in sorted order with its string, and it ranks by that string's summed score. |
| `Scoring.RetainedScoresSumToOne` | lib/biojsvisgprofiler.js:209-214 | When the retained total is positive, the retained normalised scores sum to exactly one. |
| `Cloud.SizeRangeNonEmpty` | lib/biojsvisgprofiler.js:183 | With the scaling `(w + h) / 2 / 600`, `12 <= 72 * scaling` holds exactly when width plus height is at least 200. |
| `Cloud.ClampSize` | lib/biojsvisgprofiler.js:256-263 | Below 12 gives 12. Otherwise above `72 * scaling` gives `72 * scaling`. Otherwise the size is unchanged. On a non-empty range the result lies in it. |
| `Cloud.ClampIdempotent` | lib/biojsvisgprofiler.js:256-263 | On a non-empty range, clamping twice is clamping once. |
| `Cloud.ClampMonotone` | lib/biojsvisgprofiler.js:256-263 | On a non-empty range, clamping keeps the order of two sizes. |
| `Cloud.Layout` | lib/biojsvisgprofiler.js:247-264 | One word per retained pair, in rank order, sized by the clamped sizer on the normalised score. Every size lies in `[12, 72 * scaling]` when that range is non-empty. Distinct retained strings give words with distinct texts. |
| `Cloud.DefaultSizerMonotone` | lib/biojsvisgprofiler.js:247-249 | With a logarithm that grows with its argument, the built-in sizer never gives a higher non-negative score a smaller size, for a non-negative scaling. |
| `Cloud.CustomSizerOverrides` | lib/biojsvisgprofiler.js:247-264 | A caller-supplied sizer replaces the built-in one. Each size is the clamp of exactly what the caller's function returns for the normalised score and the scaling, and the logarithm plays no part. |
| `Cloud.LayoutSizesDescending` | lib/biojsvisgprofiler.js:247-264 | With the built-in sizer and a growing logarithm, words laid out in descending score order have non-increasing sizes. |
| `Cloud.Place` | lib/biojsvisgprofiler.js:209-264 | Fails with `ZeroTotalScore` exactly when some pair is retained and the retained scores total zero. Otherwise it gives one word per retained pair, in order. Each word's size is the clamped sizer result on its score divided by the positive retained total. |
| `Cloud.RenderCloud` | lib/biojsvisgprofiler.js:183-265 | A failure is always `ZeroTotalScore`. Success gives words with distinct texts, exactly `min(maxN, number of distinct strings)` of them when `maxN > 0`, covering every distilled string when `maxN = 0`. Every size lies in `[12, 72 * scaling]` when that range is non-empty. |
| `Cloud.RenderCloudFails` | lib/biojsvisgprofiler.js:209-214 | The render fails exactly when the ranking retains some string and the retained strings' summed scores total zero. |
| `Cloud.RenderCloudSizes` | lib/biojsvisgprofiler.js:209-264 | When a render succeeds with strings retained, their total is positive and their normalised scores sum to one. Word i carries the i-th retained string, sized by the clamped sizer on its normalised score. |
| `Cloud.Render` | lib/biojsvisgprofiler.js:153-160 | A distillation error is the render's error. Otherwise the render is the cloud of the distilled pairs, and its words have distinct texts. |
| `CloudExamples.SplitCellCycle` | lib/biojsvisgprofiler.js:132 | "cell cycle" splits into "cell" and "cycle". |
| `CloudExamples.AcronymKept` | lib/biojsvisgprofiler.js:119-126 | "CELL" is kept as it is. |
| `CloudExamples.MixedCaseLowered` | lib/biojsvisgprofiler.js:119-126 | "Cell," becomes "cell". |
| `CloudExamples.StopwordMatchesRawToken` | lib/biojsvisgprofiler.js:132-134 | With the stopword "the", the token "The" is still emitted, as "the". |
| `CloudExamples.LongTermTruncated` | lib/biojsvisgprofiler.js:147-149 | With `maxTermLen = 10`, "regulation of cell cycle" becomes "regulatio" plus the marker, and "cell cycle" is unchanged. |
| `CloudExamples.TopTwoOfThree` | lib/biojsvisgprofiler.js:200-207 | Three pairs with distinct strings and strictly decreasing scores, given in the order c, a, b, with `maxN = 2` keep a and b, best first. |
| `CloudExamples.TopTwoOfExample` | lib/biojsvisgprofiler.js:200-207 | P-values 0.5, 0.3 and 0.2, with the logarithm replaced by the identity and `maxN = 2`, keep the two best strings, best first. |

## Left out

- The HTTP transport is not modelled: `$.post`, the root URL, the asynchronous callback and the
  serialisation of the POST body by jQuery. `MiniParser.ParseMini` takes the response text directly.
- The layout and drawing are not modelled: the d3-cloud layout call, the SVG drawing, the
  `category20` fill and the `onrender` event. These are DOM work.
- The constructor's container check, the global `window.d3` assignment and module loading are not
  modelled. The stopword list is taken as a set.
- The glue in `render` is not modelled. It stores the callback in `attrs.cb` and calls
  `gp.query(attrs)` without a second argument. `Cloud.Render` starts from the records the callback
  receives.
- Floating point is not modelled. `_logBase`, `parseFloat`, `parseInt` and number-to-string
  formatting are parameters without properties. NaN and the infinities do not exist in the model.
  So a non-numeric p-value, and the `!clelScores[str]` reset of a NaN score, are not modelled.
- Scoring.SortDesc: the source's comparator returns a boolean instead of a signed number, so the
  order the engine produces is unspecified. The model assumes the intended sort by descending
  score. Which of two equal-scored pairs comes first is not stated.
- Scoring.Normalise: requires a positive total, instead of modelling division by zero.
- Cloud.Place: when strings are retained but their total is zero, the source divides zero by zero
  and hands NaN scores to the sizer. The built-in sizer then yields NaN sizes. A caller-supplied
  sizer may still return finite sizes and a normal cloud. The model reports `ZeroTotalScore` in
  both cases, and so does `Cloud.RenderCloud`.
- Strings.ToUpper: only ASCII letters change case. The Unicode case maps of `toUpperCase` are not
  modelled.
- Strings.ToLower: only ASCII letters change case. The Unicode case maps of `toLowerCase` are not
  modelled.
- Distill.TruncateTerm: string lengths count Unicode scalar values, not UTF-16 code units.
- MiniParser.Skipped: the 14-character threshold counts Unicode scalar values, not the UTF-16 code
  units of `row.length`. A row with characters outside the Basic Multilingual Plane can be kept by
  the source and skipped by the model.
- Distill.WordPairs: the stopword table is modelled as a set. The inherited properties of the
  source's plain-object table (`constructor`, `toString`, ...) would also count as stopwords there.
- Scoring.Tally: the score table is modelled as a map. Inherited object properties used as keys
  (a word such as `constructor`) are not modelled. Neither is a cloud string `length`. `$.each`
  over the score object can then take the object for an array-like; with a `length` score of 0
  it normalises no entry at all.
- The error texts thrown by `query` ("The query parameter is required" and the `cb` message) are
  not modelled. The failures are the constructors `QueryRequired` and `CallbackRequired`.
- Query.Value: plain objects are not modelled as attribute values. A query given as an object is
  truthy in the source and would be wrapped and sent as `[object Object]`.
- Query.Extend: jQuery's deep-copy mode and its self-reference guard are not modelled. Neither is
  used by this call.
- The record fields `termId`, `domain`, `subgraph`, `termName` and `depth` keep the column text.
  The source leaves them as strings too.
