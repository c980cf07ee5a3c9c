/** The standalone `/analyze` endpoint of app.py: one CSV upload and a free-text query. */
module StandaloneApp {
  import opened Strings
  import opened Data
  import opened Cascade

  datatype Route = MeanRoute | DescribeRoute | ColumnsRoute | NotUnderstood

  predicate AnyPresent(l: string, words: seq<string>) {
    exists w :: w in words && Contains(l, w)
  }

  /** The if/elif chain on `query.lower()`. */
  function RouteOf(query: string): (r: Route)
    ensures var l := Lower(query);
      && (r == MeanRoute <==> Contains(l, "mean") || Contains(l, "average"))
      && (r == DescribeRoute ==> Contains(l, "describe") || Contains(l, "summary"))
      && (r == ColumnsRoute ==> Contains(l, "columns"))
      && (r == NotUnderstood <==>
            !Contains(l, "mean") && !Contains(l, "average") && !Contains(l, "describe") && !Contains(l, "summary") && !Contains(l, "columns"))
  {
    var l := Lower(query);
    if Contains(l, "mean") || Contains(l, "average") then MeanRoute
    else if Contains(l, "describe") || Contains(l, "summary") then DescribeRoute
    else if Contains(l, "columns") then ColumnsRoute
    else NotUnderstood
  }

  /** The same chain as data: each rule needs any one of its words. */
  const Routes: seq<Rule<Route>> := [
    Rule(l => AnyPresent(l, ["mean", "average"]), MeanRoute),
    Rule(l => AnyPresent(l, ["describe", "summary"]), DescribeRoute),
    Rule(l => AnyPresent(l, ["columns"]), ColumnsRoute)
  ]

  lemma AnyPresentOfTwo(l: string, x: string, y: string)
    ensures AnyPresent(l, [x, y]) <==> Contains(l, x) || Contains(l, y)
  {
    assert x in [x, y] && y in [x, y];
  }

  lemma AnyPresentOfOne(l: string, x: string)
    ensures AnyPresent(l, [x]) <==> Contains(l, x)
  {
    assert x in [x];
  }

  /** The chain in the code is the rule table read top-down. */
  lemma RouteIsFirstMatch(query: string)
    ensures RouteOf(query) == FirstMatch(Routes, Lower(query), NotUnderstood)
  {
    var l := Lower(query);
    var r1, r2 := Routes[1..], Routes[2..];
    assert r1[1..] == r2 && r2[1..] == [];
    assert FirstMatch(r2, l, NotUnderstood) == if r2[0].fires(l) then ColumnsRoute else NotUnderstood;
    assert FirstMatch(r1, l, NotUnderstood) == if r1[0].fires(l) then DescribeRoute else FirstMatch(r2, l, NotUnderstood);
    assert FirstMatch(Routes, l, NotUnderstood) == if Routes[0].fires(l) then MeanRoute else FirstMatch(r1, l, NotUnderstood);
    AnyPresentOfTwo(l, "mean", "average");
    AnyPresentOfTwo(l, "describe", "summary");
    AnyPresentOfOne(l, "columns");
  }

  /** Matching ignores the case of the query. */
  lemma RouteIgnoresCase(query: string)
    ensures RouteOf(Lower(query)) == RouteOf(query)
  {
    LowerIdempotent(query);
  }

  const NotUnderstoodMessage := "Sorry, I didn\U{2019}t understand the query. Try asking for mean, summary, or column names."

  /** What `pd.read_csv` makes of the uploaded bytes: a table, or the text of its exception. */
  datatype CsvUpload = Parsed(table: Table) | Unreadable(error: string)

  /** The JSON reply. The mean and describe statistics are floating-point work of pandas and
      are kept as the table they are computed from. */
  datatype Reply =
    | Mean(of: Table)                  // df.mean(numeric_only=True).to_dict()
    | Describe(of: Table)              // df.describe().to_dict()
    | ColumnList(columns: seq<string>) // {"columns": df.columns.tolist()}
    | Message(message: string)         // {"message": ...}
    | ServerError(status: nat, error: string)

  /** `analyze(file, query)`. */
  function Analyze(upload: CsvUpload, query: string): (r: Reply)
    ensures upload.Unreadable? ==> r == ServerError(500, upload.error)
    ensures upload.Parsed? ==> match RouteOf(query)
      case MeanRoute => r == Mean(upload.table)
      case DescribeRoute => r == Describe(upload.table)
      case ColumnsRoute => r == ColumnList(upload.table.columns)
      case NotUnderstood => r == Message(NotUnderstoodMessage)
  {
    match upload
    case Unreadable(e) => ServerError(500, e)
    case Parsed(df) =>
      match RouteOf(query)
      case MeanRoute => Mean(df)
      case DescribeRoute => Describe(df)
      case ColumnsRoute => ColumnList(df.columns)
      case NotUnderstood => Message(NotUnderstoodMessage)
  }
}
