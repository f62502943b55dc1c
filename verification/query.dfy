/**
  Building a g:Profiler request (`GProfiler.prototype.query`): the caller's
  attributes are merged over a table of defaults, the required arguments are
  checked, the query is wrapped into a list and the POST body is assembled.
  The HTTP exchange itself is outside the model.
 */
module Query {
  import opened Results
  import Strings

  /** The JavaScript values an attribute object can hold. */
  datatype Value =
    | Undefined
    | Null
    | Bool(b: bool)
    | Num(n: real)
    | Str(s: string)
    | Arr(items: seq<Value>)
    /** A function, carried with its source text (what `String(f)` yields). */
    | Func(source: string)

  /** An attribute object; a missing key reads as `undefined`. */
  type Attrs = map<string, Value>

  function Get(a: Attrs, k: string): Value
  {
    if k in a then a[k] else Undefined
  }

  /** JavaScript truthiness (NaN is not modelled). */
  predicate Truthy(v: Value)
  {
    match v
    case Undefined => false
    case Null => false
    case Bool(b) => b
    case Num(n) => n != 0.0
    case Str(s) => s != ""
    case Arr(_) => true
    case Func(_) => true
  }

  /** The defaults table of `query`; `query` and `numeric_ns` default to undefined. */
  const Defaults: Attrs := map[
    "query" := Undefined,
    "organism" := Str("hsapiens"),
    "significant" := Bool(true),
    "ordered" := Bool(false),
    "exclude_iea" := Bool(false),
    "region_query" := Bool(false),
    "underrep" := Bool(false),
    "hier_filtering" := Str("none"),
    "max_p_value" := Num(1.0),
    "min_set_size" := Num(0.0),
    "max_set_size" := Num(0.0),
    "correction_method" := Str("gSCS"),
    "domain_size" := Str("annotated"),
    "numeric_ns" := Undefined,
    "custom_bg" := Arr([]),
    "src_filter" := Arr([])
  ]

  /**
    jQuery's shallow `$.extend(target, src)`: every entry of `src` whose value
    is not undefined is copied over `target`; undefined entries are skipped.
   */
  function Extend(target: Attrs, src: Attrs): (r: Attrs)
    ensures forall k :: k in src && src[k] != Undefined ==> k in r && r[k] == src[k]
    ensures forall k :: k in target && (k !in src || src[k] == Undefined) ==> k in r && r[k] == target[k]
    ensures forall k :: k in r ==> k in target || (k in src && src[k] != Undefined)
  {
    map k | k in target.Keys + src.Keys && (k in target || src[k] != Undefined)
      :: if k in src && src[k] != Undefined then src[k] else target[k]
  }

  /**
    `$.extend({}, defaults, attrs)`: the merged object carries exactly the
    attributes that either the defaults or the caller define.
   */
  function Merge(attrs: Attrs): (r: Attrs)
    ensures forall k :: k in r <==> Get(Defaults, k) != Undefined || Get(attrs, k) != Undefined
  {
    Extend(Extend(map[], Defaults), attrs)
  }

  /**
    The merge lets every defined caller attribute win, and every attribute the
    caller leaves undefined reads as its default.
   */
  lemma MergeOverridesDefaults(attrs: Attrs, k: string)
    ensures Get(Merge(attrs), k) == if Get(attrs, k) != Undefined then Get(attrs, k) else Get(Defaults, k)
  {
  }

  lemma DefaultValues()
    ensures Get(Defaults, "organism") == Str("hsapiens")
    ensures Get(Defaults, "significant") == Bool(true)
    ensures Get(Defaults, "correction_method") == Str("gSCS")
    ensures Get(Defaults, "query") == Undefined
  {
  }

  /** A call with no attributes reads exactly the defaults, e.g. organism `hsapiens` and significant `true`. */
  lemma MergeOfNothing()
    ensures Get(Merge(map[]), "organism") == Str("hsapiens")
    ensures Get(Merge(map[]), "significant") == Bool(true)
    ensures Get(Merge(map[]), "correction_method") == Str("gSCS")
    ensures Get(Merge(map[]), "query") == Undefined
    ensures forall k :: Get(Merge(map[]), k) == Get(Defaults, k)
  {
    forall k ensures Get(Merge(map[]), k) == Get(Defaults, k) {
      MergeOverridesDefaults(map[], k);
    }
    DefaultValues();
  }

  /**
    The `query` check after the merge sees only the caller's value, since the
    default `query` is undefined: an empty string, `0`, `false` or `null`
    passed by the caller fails it just like a missing query.
   */
  lemma QueryCheckSeesCallerQuery(attrs: Attrs)
    ensures Truthy(Get(Merge(attrs), "query")) <==> Truthy(Get(attrs, "query"))
  {
    MergeOverridesDefaults(attrs, "query");
    DefaultValues();
  }

  /** Merging an already merged attribute object again changes nothing. */
  lemma MergeIdempotent(attrs: Attrs)
    ensures Merge(Merge(attrs)) == Merge(attrs)
  {
  }

  /** `String(v)` for the values the model carries; numbers are formatted by `numText`. */
  function ToText(v: Value, numText: real -> string): string
    decreases v, 1
  {
    match v
    case Undefined => "undefined"
    case Null => "null"
    case Bool(b) => if b then "true" else "false"
    case Num(n) => numText(n)
    case Str(s) => s
    case Arr(items) => Strings.Join(ElementTexts(items, v, numText), ",")
    case Func(src) => src
  }

  /** What `Array.prototype.join` writes for each element: undefined and null become "". */
  function ElementTexts(items: seq<Value>, ghost whole: Value, numText: real -> string): (r: seq<string>)
    requires forall i :: 0 <= i < |items| ==> items[i] < whole
    ensures |r| == |items|
    decreases whole, 0, |items|
  {
    if |items| == 0 then []
    else
      var v := items[0];
      [if v == Undefined || v == Null then "" else ToText(v, numText)]
        + ElementTexts(items[1..], whole, numText)
  }

  /** The query list after wrapping: an array is kept, any other value becomes a one-element array. */
  function QueryItems(q: Value): (r: seq<Value>)
    ensures q.Arr? ==> r == q.items
    ensures !q.Arr? ==> r == [q]
  {
    if q.Arr? then q.items else [q]
  }

  /** Wrapping a query that is already wrapped changes nothing. */
  lemma QueryItemsIdempotent(q: Value)
    ensures QueryItems(Arr(QueryItems(q))) == QueryItems(q)
  {
  }

  /**
    The wire value of `query`: the elements joined with single spaces. A
    value that is not an array is sent as its own text, as `join` writes it.
   */
  function WireQuery(q: Value, numText: real -> string): (r: string)
    ensures !q.Arr? ==> r == if q == Undefined || q == Null then "" else ToText(q, numText)
  {
    var items := QueryItems(q);
    assert !q.Arr? ==> ElementTexts(items[1..], Arr(items), numText) == [];
    Strings.Join(ElementTexts(items, Arr(items), numText), " ")
  }

  /** The organism a request is made for: the caller's, or `hsapiens` when the caller gives none. */
  function Organism(attrs: Attrs): Value
  {
    if Get(attrs, "organism") != Undefined then Get(attrs, "organism") else Str("hsapiens")
  }

  /** The keys the POST body carries. */
  const BodyKeys: set<string> := {"organism", "query", "significant", "output"}

  /**
    `query(attrs, cb)` up to the POST: the body sent to `index.cgi`, or the
    error thrown before any request is made.
   */
  function BuildRequest(attrs: Attrs, cb: Value, numText: real -> string): (r: Result<map<string, Value>>)
    ensures r == Err(QueryRequired) <==> !Truthy(Get(attrs, "query"))
    ensures r == Err(CallbackRequired) <==> Truthy(Get(attrs, "query")) && !cb.Func?
    ensures r.Ok? <==> Truthy(Get(attrs, "query")) && cb.Func?
    ensures r.Ok? ==> r.value.Keys == BodyKeys
    ensures r.Ok? ==> r.value["significant"] == Str("1") && r.value["output"] == Str("mini")
    ensures r.Ok? ==> r.value["organism"] == Organism(attrs)
    ensures r.Ok? ==> r.value["query"] == Str(WireQuery(Get(attrs, "query"), numText))
  {
    var merged := Merge(attrs);
    MergeOverridesDefaults(attrs, "query");
    MergeOverridesDefaults(attrs, "organism");
    DefaultValues();
    if !Truthy(Get(merged, "query")) then Err(QueryRequired)
    else if !(Truthy(cb) && cb.Func?) then Err(CallbackRequired)
    else
      Ok(map[
        "organism" := Get(merged, "organism"),
        "query" := Str(WireQuery(Get(merged, "query"), numText)),
        "significant" := Str("1"),
        "output" := Str("mini")
      ])
  }

  /**
    No attribute other than `query` and `organism` reaches the wire, whatever
    its value: two attribute objects that agree on those two build the same
    request.
   */
  lemma OnlyQueryAndOrganismAreSent(a1: Attrs, a2: Attrs, cb: Value, numText: real -> string)
    requires Get(a1, "query") == Get(a2, "query")
    requires Get(a1, "organism") == Get(a2, "organism")
    ensures BuildRequest(a1, cb, numText) == BuildRequest(a2, cb, numText)
  {
  }

  /** The wire text of a list of string terms is the terms joined with single spaces. */
  lemma {:induction false} WireQueryOfStrings(terms: seq<string>, numText: real -> string)
    ensures WireQuery(Arr(seq(|terms|, i requires 0 <= i < |terms| => Str(terms[i]))), numText)
      == Strings.Join(terms, " ")
  {
    var items := seq(|terms|, i requires 0 <= i < |terms| => Str(terms[i]));
    ElementTextsOfStrings(terms, items, Arr(items), numText);
  }

  lemma {:induction false} ElementTextsOfStrings(terms: seq<string>, items: seq<Value>, whole: Value, numText: real -> string)
    requires |items| == |terms|
    requires forall i :: 0 <= i < |items| ==> items[i] == Str(terms[i]) && items[i] < whole
    ensures ElementTexts(items, whole, numText) == terms
  {
    if |items| > 0 {
      ElementTextsOfStrings(terms[1..], items[1..], whole, numText);
    }
  }

  /** A single non-array query is sent as it is: it is wrapped into a one-element list. */
  lemma WireQueryOfSingleTerm(term: string, numText: real -> string)
    ensures WireQuery(Str(term), numText) == term
  {
    var items := [Str(term)];
    assert ElementTexts(items[1..], Arr(items), numText) == [];
    assert ElementTexts(items, Arr(items), numText) == [term];
  }

  /**
    The server can recover the query terms from the wire text: splitting it
    on single spaces gives back the terms when none of them holds a space.
   */
  lemma WireQueryRecoversTerms(terms: seq<string>, numText: real -> string)
    requires |terms| >= 1
    requires forall k :: 0 <= k < |terms| ==> ' ' !in terms[k]
    ensures Strings.Split(WireQuery(Arr(seq(|terms|, i requires 0 <= i < |terms| => Str(terms[i]))), numText), ' ')
      == terms
  {
    WireQueryOfStrings(terms, numText);
    Strings.SplitJoin(terms, ' ');
  }
}
