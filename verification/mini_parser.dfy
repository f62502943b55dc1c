/**
  Parsing the tab-separated "mini" response of g:Profiler (the `$.post`
  callback of `GProfiler.prototype.query`) into enrichment records. The
  numeric conversions `parseFloat` and `parseInt` are abstract.
 */
module MiniParser {
  import opened Results
  import Strings

  /** One enrichment result; a text field is `None` when its column is missing. */
  datatype Record = Record(
    significant: bool,
    pValue: real,
    termSize: int,
    querySize: int,
    overlapSize: int,
    precision: real,
    recall: real,
    termId: Option<string>,
    domain: Option<string>,
    subgraph: Option<string>,
    termName: Option<string>,
    depth: Option<string>,
    intersection: seq<string>
  )

  /** JavaScript's `parseFloat` and `parseInt`, left uninterpreted. */
  datatype Conversions = Conversions(parseFloat: string -> real, parseInt: string -> int)

  /** Rows shorter than this are skipped. */
  const MinRowLength: nat := 14

  /** `row[k]` after the tab split: `None` (undefined) past the last column. */
  function Column(cols: seq<string>, k: nat): (r: Option<string>)
    ensures r.Some? <==> k < |cols|
    ensures r.Some? ==> r.value == cols[k]
  {
    if k < |cols| then Some(cols[k]) else None
  }

  /** The text a conversion receives: JavaScript turns undefined into "undefined". */
  function Coerced(c: Option<string>): string
  {
    match c
    case Some(s) => s
    case None => "undefined"
  }

  /** `row.match(/\s*^#/) || row.length < 14`: a comment row or a short row. */
  predicate Skipped(row: string)
  {
    (|row| > 0 && row[0] == '#') || |row| < MinRowLength
  }

  /** The record built from the columns of one row; column 0 is not read. */
  function RecordOf(cols: seq<string>, conv: Conversions): Record
  {
    var c13 := Column(cols, 13);
    Record(
      significant := Column(cols, 1).Some? && Column(cols, 1).value != "",
      pValue := conv.parseFloat(Coerced(Column(cols, 2))),
      termSize := conv.parseInt(Coerced(Column(cols, 3))),
      querySize := conv.parseInt(Coerced(Column(cols, 4))),
      overlapSize := conv.parseInt(Coerced(Column(cols, 5))),
      precision := conv.parseFloat(Coerced(Column(cols, 6))),
      recall := conv.parseFloat(Coerced(Column(cols, 7))),
      termId := Column(cols, 8),
      domain := Column(cols, 9),
      subgraph := Column(cols, 10),
      termName := Column(cols, 11),
      depth := Column(cols, 12),
      intersection := if c13.Some? && c13.value != "" then Strings.Split(c13.value, ',') else []
    )
  }

  /** One row, split on tabs. */
  function ParseRow(row: string, conv: Conversions): Record
  {
    RecordOf(Strings.Split(row, '\t'), conv)
  }

  /** The rows the parser keeps, in input order. */
  function KeptRows(rows: seq<string>): (r: seq<string>)
    ensures |r| <= |rows|
    ensures forall k :: 0 <= k < |r| ==> !Skipped(r[k]) && r[k] in rows
    ensures forall k :: 0 <= k < |rows| && !Skipped(rows[k]) ==> rows[k] in r
  {
    if |rows| == 0 then []
    else (if Skipped(rows[0]) then [] else [rows[0]]) + KeptRows(rows[1..])
  }

  /** A single row is kept exactly when it is not skipped. */
  lemma KeptRowsSingle(row: string)
    ensures KeptRows([row]) == if Skipped(row) then [] else [row]
  {
    assert [row][1..] == [];
  }

  /**
    Filtering works row by row: the kept rows of a concatenation are the kept
    rows of the first part followed by those of the second. With
    `KeptRowsSingle` this fixes the result as the unskipped rows in input
    order, each as often as it occurs.
   */
  lemma {:induction false} KeptRowsAppend(a: seq<string>, b: seq<string>)
    ensures KeptRows(a + b) == KeptRows(a) + KeptRows(b)
  {
    if |a| == 0 {
      assert a + b == b;
    } else {
      assert (a + b)[0] == a[0];
      assert (a + b)[1..] == a[1..] + b;
      KeptRowsAppend(a[1..], b);
      var head := if Skipped(a[0]) then [] else [a[0]];
      assert head + (KeptRows(a[1..]) + KeptRows(b)) == (head + KeptRows(a[1..])) + KeptRows(b);
    }
  }

  /** The records of a sequence of rows: one per kept row, in the order of the rows. */
  function ParseRows(rows: seq<string>, conv: Conversions): (r: seq<Record>)
    ensures |r| == |KeptRows(rows)|
    ensures forall k :: 0 <= k < |r| ==> r[k] == ParseRow(KeptRows(rows)[k], conv)
  {
    if |rows| == 0 then []
    else (if Skipped(rows[0]) then [] else [ParseRow(rows[0], conv)]) + ParseRows(rows[1..], conv)
  }

  /** The whole response: split on `\n`, then parsed row by row. */
  function ParseMini(data: string, conv: Conversions): (r: seq<Record>)
    ensures |r| <= Strings.Count(data, '\n') + 1
  {
    ParseRows(Strings.Split(data, '\n'), conv)
  }

  /** A skipped row yields no record; any other row yields exactly its own record. */
  lemma ParseSingleRow(row: string, conv: Conversions)
    ensures Skipped(row) ==> ParseRows([row], conv) == []
    ensures !Skipped(row) ==> ParseRows([row], conv) == [ParseRow(row, conv)]
  {
    assert [row][1..] == [];
  }

  /** Parsing distributes over concatenation of the rows, so records keep input order. */
  lemma {:induction false} ParseRowsAppend(a: seq<string>, b: seq<string>, conv: Conversions)
    ensures ParseRows(a + b, conv) == ParseRows(a, conv) + ParseRows(b, conv)
  {
    if |a| == 0 {
      assert a + b == b;
    } else {
      assert (a + b)[1..] == a[1..] + b;
      ParseRowsAppend(a[1..], b, conv);
    }
  }

  /**
    A response written as lines parses into the records of those lines, when
    no line holds a newline.
   */
  lemma ParseMiniOfLines(rows: seq<string>, conv: Conversions)
    requires |rows| >= 1
    requires forall k :: 0 <= k < |rows| ==> '\n' !in rows[k]
    ensures ParseMini(Strings.Join(rows, "\n"), conv) == ParseRows(rows, conv)
  {
    Strings.SplitJoin(rows, '\n');
  }

  /**
    The fixed column layout: a row written from fourteen tab-free columns
    parses into the record whose fields are those columns, column 0 not
    being read at all.
   */
  lemma ParseFormattedRow(cols: seq<string>, conv: Conversions)
    requires |cols| >= 14
    requires forall k :: 0 <= k < |cols| ==> '\t' !in cols[k]
    ensures var r := ParseRow(Strings.Join(cols, "\t"), conv);
      && (r.significant <==> cols[1] != "")
      && r.pValue == conv.parseFloat(cols[2])
      && r.termSize == conv.parseInt(cols[3])
      && r.querySize == conv.parseInt(cols[4])
      && r.overlapSize == conv.parseInt(cols[5])
      && r.precision == conv.parseFloat(cols[6])
      && r.recall == conv.parseFloat(cols[7])
      && r.termId == Some(cols[8])
      && r.domain == Some(cols[9])
      && r.subgraph == Some(cols[10])
      && r.termName == Some(cols[11])
      && r.depth == Some(cols[12])
      && r.intersection == (if cols[13] == "" then [] else Strings.Split(cols[13], ','))
  {
    Strings.SplitJoin(cols, '\t');
  }

  /** Column 0 does not influence the record. */
  lemma ColumnZeroIgnored(cols: seq<string>, other: string, conv: Conversions)
    requires |cols| >= 1
    ensures RecordOf(cols[0 := other], conv) == RecordOf(cols, conv)
  {
  }

  /** A gene list written with commas comes back as the intersection. */
  lemma IntersectionRoundTrip(cols: seq<string>, genes: seq<string>, conv: Conversions)
    requires |cols| >= 14
    requires |genes| >= 1 && genes != [""]
    requires forall k :: 0 <= k < |genes| ==> ',' !in genes[k]
    requires cols[13] == Strings.Join(genes, ",")
    ensures RecordOf(cols, conv).intersection == genes
  {
    Strings.SplitJoin(genes, ',');
  }

  /** A missing or empty column 13 gives an empty intersection. */
  lemma EmptyIntersection(cols: seq<string>, conv: Conversions)
    requires |cols| <= 13 || cols[13] == ""
    ensures RecordOf(cols, conv).intersection == []
  {
  }
}
