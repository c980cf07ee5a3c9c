/** `answer_questions` of app/analysis.py: split the question text into numbered lines,
    classify each line by a fixed cascade of phrases, and answer it from the table. */
module Analysis {
  import opened Wrappers
  import opened Strings
  import opened Numbers
  import opened Data
  import opened Cascade
  import opened Seqs

  // ---------------------------------------------------------------------------
  // Question lines
  // ---------------------------------------------------------------------------

  /** The number of ASCII digits `s` starts with. */
  function LeadingDigits(s: string): (k: nat)
    ensures k <= |s| && AllDigits(s[..k])
    ensures k == |s| || !IsDigit(s[k])
  {
    if |s| > 0 && IsDigit(s[0]) then
      var k := 1 + LeadingDigits(s[1..]);
      assert s[..k] == [s[0]] + s[1..][..k - 1];
      k
    else 0
  }

  /** `re.match(r'^\d+\.', s)` succeeds: the digit run is followed by a '.'. */
  predicate IsNumbered(s: string) {
    var k := LeadingDigits(s);
    1 <= k < |s| && s[k] == '.'
  }

  /** The regular-expression reading: some non-empty run of digits is followed by '.'. */
  lemma IsNumberedIff(s: string)
    ensures IsNumbered(s) <==> exists k :: 1 <= k < |s| && AllDigits(s[..k]) && s[k] == '.'
  {
    var n := LeadingDigits(s);
    assert forall j :: 0 <= j < n ==> IsDigit(s[j]) by {
      forall j | 0 <= j < n ensures IsDigit(s[j]) { assert s[..n][j] == s[j]; }
    }
    forall k | 1 <= k < |s| && AllDigits(s[..k]) && s[k] == '.' ensures k == n {
      assert forall j :: 0 <= j < k ==> IsDigit(s[j]) by {
        forall j | 0 <= j < k ensures IsDigit(s[j]) { assert s[..k][j] == s[j]; }
      }
    }
  }

  /** The stripped lines that start with a number and a '.', in their original order. */
  function NumberedLines(lines: seq<string>): (qs: seq<string>)
    ensures |qs| <= |lines|
    ensures forall q :: q in qs ==> IsNumbered(q)
  {
    if |lines| == 0 then []
    else
      Kept(lines[0]) + NumberedLines(lines[1..])
  }

  /** What one line contributes: its stripped form if that is numbered. */
  function Kept(line: string): seq<string> {
    var q := Strip(line);
    if IsNumbered(q) then [q] else []
  }

  /** A line is kept exactly when its stripped form is numbered, and every kept entry is the
      stripped form of some input line. */
  lemma NumberedLinesMembers(lines: seq<string>)
    ensures forall k :: 0 <= k < |lines| && IsNumbered(Strip(lines[k])) ==> Strip(lines[k]) in NumberedLines(lines)
    ensures forall q :: q in NumberedLines(lines) ==> exists k :: 0 <= k < |lines| && q == Strip(lines[k])
  {
    NumberedLinesKeep(lines);
    NumberedLinesFrom(lines);
    var all := StripAll(lines);
    forall q | q in NumberedLines(lines) ensures exists k :: 0 <= k < |lines| && q == Strip(lines[k]) {
      var k :| 0 <= k < |all| && all[k] == q;
    }
  }

  lemma {:induction false} NumberedLinesKeep(lines: seq<string>)
    ensures forall k :: 0 <= k < |lines| && IsNumbered(Strip(lines[k])) ==> Strip(lines[k]) in NumberedLines(lines)
  {
    if |lines| > 0 {
      var tail := lines[1..];
      NumberedLinesKeep(tail);
      NumberedLinesStep(lines);
      var rest := NumberedLines(tail);
      forall k | 0 <= k < |lines| && IsNumbered(Strip(lines[k])) ensures Strip(lines[k]) in NumberedLines(lines) {
        if k > 0 {
          assert lines[k] == tail[k - 1];
          assert Strip(lines[k]) in rest;
        }
      }
    }
  }

  /** Every line stripped, in order. */
  function StripAll(lines: seq<string>): (r: seq<string>)
    ensures |r| == |lines| && forall k :: 0 <= k < |lines| ==> r[k] == Strip(lines[k])
  {
    if |lines| == 0 then [] else [Strip(lines[0])] + StripAll(lines[1..])
  }

  lemma {:induction false} NumberedLinesFrom(lines: seq<string>)
    ensures forall q :: q in NumberedLines(lines) ==> q in StripAll(lines)
  {
    if |lines| > 0 {
      NumberedLinesFrom(lines[1..]);
      NumberedLinesStep(lines);
      assert StripAll(lines) == [Strip(lines[0])] + StripAll(lines[1..]);
    }
  }

  /** Filtering is done line by line, so it distributes over concatenation. */
  lemma {:induction false} NumberedLinesAppend(a: seq<string>, b: seq<string>)
    ensures NumberedLines(a + b) == NumberedLines(a) + NumberedLines(b)
  {
    if |a| > 0 {
      TailOfAppend(a, b);
      NumberedLinesAppend(a[1..], b);
      var h, x, y := Kept(a[0]), NumberedLines(a[1..]), NumberedLines(b);
      assert NumberedLines(a + b) == h + (x + y);
      assert h + (x + y) == (h + x) + y;
    } else {
      assert a + b == b;
    }
  }

  lemma NumberedLinesStep(lines: seq<string>)
    requires |lines| > 0
    ensures NumberedLines(lines) == Kept(lines[0]) + NumberedLines(lines[1..])
  {
  }

  /** The question list: the numbered lines of the text after `split('\n')` and `strip()`. */
  function Questions(text: string): (r: seq<string>)
    ensures |r| <= |SplitLines(text)|
    ensures forall q :: q in r <==>
      exists k :: 0 <= k < |SplitLines(text)| && q == Strip(SplitLines(text)[k]) && IsNumbered(q)
  {
    var lines := SplitLines(text);
    NumberedLinesMembers(lines);
    NumberedLines(lines)
  }

  /** A single line is a question exactly when its stripped form is numbered. */
  lemma QuestionsOfLine(line: string)
    requires '\n' !in line
    ensures Questions(line) == if IsNumbered(Strip(line)) then [Strip(line)] else []
  {
    OneLine(line);
  }

  lemma {:induction false} OneLine(s: string)
    requires '\n' !in s
    ensures SplitLines(s) == [s]
  {
    if |s| > 0 {
      assert '\n' !in s[1..] by {
        assert forall k :: 0 <= k < |s[1..]| ==> s[1..][k] == s[k + 1];
      }
      OneLine(s[1..]);
      assert [s[0]] + s[1..] == s;
    }
  }

  /** The questions of two texts joined by a newline are those of the first text followed by
      those of the second: questions keep their input order. */
  lemma QuestionsOfJoinedText(a: string, b: string)
    ensures Questions(a + "\n" + b) == Questions(a) + Questions(b)
  {
    SplitLinesAppend(a, b);
    NumberedLinesAppend(SplitLines(a), SplitLines(b));
  }

  // ---------------------------------------------------------------------------
  // Classification
  // ---------------------------------------------------------------------------

  datatype Intent = CountIntent | EarliestIntent | CorrelationIntent | ScatterIntent | Unrecognized

  /** The if/elif cascade on the lower-cased question. */
  function Classify(q: string): (r: Intent)
    ensures var l := Lower(q);
      && (r == CountIntent <==> Contains(l, "how many") && Contains(l, "$2 bn") && Contains(l, "before 2000"))
      && (r == EarliestIntent ==> Contains(l, "earliest film") && Contains(l, "1.5 bn"))
      && (r in {CorrelationIntent, ScatterIntent} ==> Contains(l, "rank") && Contains(l, "peak"))
      && (r == CorrelationIntent ==> Contains(l, "correlation"))
      && (r == ScatterIntent ==> Contains(l, "scatterplot"))
      && (r == Unrecognized <==>
            && !(Contains(l, "how many") && Contains(l, "$2 bn") && Contains(l, "before 2000"))
            && !(Contains(l, "earliest film") && Contains(l, "1.5 bn"))
            && !(Contains(l, "rank") && Contains(l, "peak") && (Contains(l, "correlation") || Contains(l, "scatterplot"))))
  {
    var l := Lower(q);
    if Contains(l, "how many") && Contains(l, "$2 bn") && Contains(l, "before 2000") then CountIntent
    else if Contains(l, "earliest film") && Contains(l, "1.5 bn") then EarliestIntent
    else if Contains(l, "correlation") && Contains(l, "rank") && Contains(l, "peak") then CorrelationIntent
    else if Contains(l, "scatterplot") && Contains(l, "rank") && Contains(l, "peak") then ScatterIntent
    else Unrecognized
  }

  predicate AllPresent(l: string, phrases: seq<string>) {
    forall p :: p in phrases ==> Contains(l, p)
  }

  /** The cascade as data, in priority order: each rule needs all of its phrases. */
  const Rules: seq<Rule<Intent>> := [
    Rule(l => AllPresent(l, ["how many", "$2 bn", "before 2000"]), CountIntent),
    Rule(l => AllPresent(l, ["earliest film", "1.5 bn"]), EarliestIntent),
    Rule(l => AllPresent(l, ["correlation", "rank", "peak"]), CorrelationIntent),
    Rule(l => AllPresent(l, ["scatterplot", "rank", "peak"]), ScatterIntent)
  ]

  /** The cascade in the code is the rule table read top-down. */
  lemma ClassifyIsFirstMatch(q: string)
    ensures Classify(q) == FirstMatch(Rules, Lower(q), Unrecognized)
  {
    var l := Lower(q);
    var r1, r2, r3 := Rules[1..], Rules[2..], Rules[3..];
    assert r1[1..] == r2 && r2[1..] == r3 && r3[1..] == [];
    assert FirstMatch(r3, l, Unrecognized) == if r3[0].fires(l) then ScatterIntent else Unrecognized;
    assert FirstMatch(r2, l, Unrecognized) == if r2[0].fires(l) then CorrelationIntent else FirstMatch(r3, l, Unrecognized);
    assert FirstMatch(r1, l, Unrecognized) == if r1[0].fires(l) then EarliestIntent else FirstMatch(r2, l, Unrecognized);
    assert FirstMatch(Rules, l, Unrecognized) == if Rules[0].fires(l) then CountIntent else FirstMatch(r1, l, Unrecognized);
    AllPresentOfThree(l, "how many", "$2 bn", "before 2000");
    AllPresentOfTwo(l, "earliest film", "1.5 bn");
    AllPresentOfThree(l, "correlation", "rank", "peak");
    AllPresentOfThree(l, "scatterplot", "rank", "peak");
  }

  lemma AllPresentOfTwo(l: string, x: string, y: string)
    ensures AllPresent(l, [x, y]) <==> Contains(l, x) && Contains(l, y)
  {
    assert x in [x, y] && y in [x, y];
  }

  lemma AllPresentOfThree(l: string, x: string, y: string, z: string)
    ensures AllPresent(l, [x, y, z]) <==> Contains(l, x) && Contains(l, y) && Contains(l, z)
  {
    assert x in [x, y, z] && y in [x, y, z] && z in [x, y, z];
  }

  /** Matching looks only at the lower-cased text: the case of the question does not matter. */
  lemma ClassifyIgnoresCase(q: string)
    ensures Classify(Lower(q)) == Classify(q)
  {
    LowerIdempotent(q);
  }

  // ---------------------------------------------------------------------------
  // Per-intent answers
  // ---------------------------------------------------------------------------

  const NotRecognized := "Question not recognized or data missing"

  /** The answer each intent gives when there is no table or a column it needs is missing. */
  function Default(intent: Intent): Answer {
    match intent
    case CountIntent => Count(0)
    case EarliestIntent => Str("")
    case CorrelationIntent => Float(0.0)
    case ScatterIntent => Str("")
    case Unrecognized => Str(NotRecognized)
  }

  /** `str(x).replace("$", "").replace(",", "")`: every other character is kept, in order. */
  function DropCurrency(s: string): (r: string)
    ensures '$' !in r && ',' !in r
    ensures |r| <= |s|
    ensures forall c :: c != '$' && c != ',' ==> multiset(r)[c] == multiset(s)[c]
    ensures ('$' !in s && ',' !in s) ==> r == s
  {
    if |s| == 0 then ""
    else
      var rest := DropCurrency(s[1..]);
      assert s == [s[0]] + s[1..];
      (if s[0] == '$' || s[0] == ',' then "" else [s[0]]) + rest
  }

  lemma DropCurrencyStep(s: string)
    requires |s| > 0
    ensures DropCurrency(s) == (if s[0] == '$' || s[0] == ',' then "" else [s[0]]) + DropCurrency(s[1..])
  {
  }

  /** Removal works character by character, so it distributes over concatenation; with the
      counts above, the result is the order-preserving subsequence of the other characters. */
  lemma {:induction false} DropCurrencyAppend(a: string, b: string)
    ensures DropCurrency(a + b) == DropCurrency(a) + DropCurrency(b)
  {
    if |a| > 0 {
      var h := if a[0] == '$' || a[0] == ',' then "" else [a[0]];
      var x, y := DropCurrency(a[1..]), DropCurrency(b);
      DropCurrencyAppend(a[1..], b);
      TailOfAppend(a, b);
      assert (a + b)[0] == a[0];
      DropCurrencyStep(a);
      DropCurrencyStep(a + b);
      assert DropCurrency(a + b) == h + (x + y);
      assert h + (x + y) == (h + x) + y;
    } else {
      assert a + b == b;
    }
  }

  /** `parse_gross` of the count branch, in currency units rather than billions: a NaN cell
      stays NaN (None), and a string `float` rejects becomes 0. */
  function LenientGross(c: Cell): (g: Option<real>)
    ensures g.None? <==> c.Missing?
    ensures c.Num? ==> g == Some(c.x)
    ensures c.Text? && ParseFloat(DropCurrency(c.s)).Some? ==> g == ParseFloat(DropCurrency(c.s))
    ensures c.Text? && ParseFloat(DropCurrency(c.s)).None? ==> g == Some(0.0)
  {
    match c
    case Missing => None
    case Num(x) => Some(x)
    case Text(s) =>
      match ParseFloat(DropCurrency(s))
      case Some(v) => Some(v)
      case None => Some(0.0)
  }

  /** "$" followed by the digits of `n` parses to `n`. */
  lemma LenientGrossOfDollars(n: nat)
    ensures LenientGross(Text("$" + NatToString(n))) == Some(n as real)
  {
    var digits := NatToString(n);
    DropCurrencyAppend("$", digits);
    assert DropCurrency("$") == "";
    assert DropCurrency("$" + digits) == digits;
    ParseFloatOfNat(n);
  }

  /** The lambda of the earliest branch: a falsy cell ("" or 0) gives 0, NaN stays NaN, and
      any other string must parse or the whole call raises ValueError. Where it does not
      raise it agrees with `parse_gross`, except that "" gives 0 in both. */
  function StrictGross(c: Cell): (r: Result<Option<real>>)
    ensures r.Raises? <==> c.Text? && c.s != "" && ParseFloat(DropCurrency(c.s)).None?
    ensures r.Raises? ==> r.exc == ValueError
    ensures r.Ok? ==> r.value == LenientGross(c)
  {
    match c
    case Missing => Ok(None)
    case Num(x) => Ok(Some(x))
    case Text(s) =>
      if s == "" then Ok(Some(0.0))
      else match ParseFloat(DropCurrency(s))
        case Some(v) => Ok(Some(v))
        case None => Raises(ValueError)
  }

  /** "$2 bn": `GrossNum >= 2` with GrossNum in billions. */
  const CountThreshold: real := 2000000000.0
  /** "before 2000": `Year < 2000`. */
  const YearCutoff: real := 2000.0
  /** "1.5 bn": `GrossNum > 1.5` with GrossNum in billions. */
  const EarliestThreshold: real := 1500000000.0

  /** A row the count includes. NaN compares false, so a NaN gross or Year never counts. */
  predicate CountedRow(gross: Cell, year: Cell) {
    var g := LenientGross(gross);
    g.Some? && g.value >= CountThreshold && year.Num? && year.x < YearCutoff
  }

  /** The count branch on a table with both columns. `Year < 2000` raises TypeError as soon
      as the Year column holds a string. */
  function CountRows(gross: seq<Cell>, year: seq<Cell>): (r: Result<Answer>)
    requires |gross| == |year|
    ensures r.Raises? <==> exists i :: 0 <= i < |year| && year[i].Text?
    ensures r.Ok? ==> r.value == Count(|set i | 0 <= i < |gross| && CountedRow(gross[i], year[i])|)
    ensures r.Raises? ==> r.exc == TypeError
  {
    if exists i :: 0 <= i < |year| && year[i].Text? then Raises(TypeError)
    else
      var flags := seq(|gross|, i requires 0 <= i < |gross| => CountedRow(gross[i], year[i]));
      assert (set i | 0 <= i < |flags| && flags[i]) == (set i | 0 <= i < |gross| && CountedRow(gross[i], year[i]));
      Ok(Count(CountTrue(flags)))
  }

  predicate Exceeds(g: Option<real>, bound: real) {
    g.Some? && g.value > bound
  }

  /** The indices `i >= from` of the values above `bound`: the rows of `df[GrossNum > bound]`. */
  function RowsAbove(g: seq<Option<real>>, bound: real, from: nat): (r: seq<nat>)
    ensures forall i :: i in r <==> from <= i < |g| && Exceeds(g[i], bound)
    decreases |g| - from
  {
    if from >= |g| then []
    else (if Exceeds(g[from], bound) then [from] else []) + RowsAbove(g, bound, from + 1)
  }

  /** Some row among `rows` has a numeric Year. */
  predicate SomeYear(rows: seq<nat>, year: seq<Cell>) {
    exists j :: j in rows && j < |year| && year[j].Num?
  }

  /** `rows` sorted by Year, first entry: the row with the least numeric Year, NaN sorting
      last. Among equal Years this picks the first, which pandas does not promise. */
  function EarliestOf(rows: seq<nat>, year: seq<Cell>): (k: nat)
    requires |rows| > 0 && forall j :: j in rows ==> j < |year|
    ensures k in rows
    ensures SomeYear(rows, year) ==> year[k].Num? && forall j :: j in rows && year[j].Num? ==> year[k].x <= year[j].x
  {
    if |rows| == 1 then rows[0]
    else
      var head := rows[0];
      assert head in rows;
      assert forall j :: j in rows ==> j == head || j in rows[1..];
      assert forall j :: j in rows[1..] ==> j in rows;
      var tail := EarliestOf(rows[1..], year);
      assert tail in rows;
      if year[head].Num? && (!year[tail].Num? || year[head].x <= year[tail].x) then head else tail
  }

  /** Row `i` passes the threshold, and no passing row has a smaller numeric Year; a row
      with a NaN Year is chosen only when every passing row has a NaN Year. */
  predicate IsEarliest(g: seq<Option<real>>, year: seq<Cell>, i: int)
    requires |g| == |year|
  {
    && 0 <= i < |g| && Exceeds(g[i], EarliestThreshold)
    && ((exists j :: 0 <= j < |g| && Exceeds(g[j], EarliestThreshold) && year[j].Num?) ==>
          year[i].Num? && forall j :: 0 <= j < |g| && Exceeds(g[j], EarliestThreshold) && year[j].Num? ==> year[i].x <= year[j].x)
  }

  /** The earliest branch once the gross values are known: "" when no row passes, TypeError
      when sorting meets a string Year, else the Title of an earliest passing row. */
  function EarliestTitle(g: seq<Option<real>>, year: seq<Cell>, title: seq<Cell>): (r: Result<Answer>)
    requires |g| == |year| == |title|
    ensures r == Ok(Str("")) <==> forall i :: 0 <= i < |g| ==> !Exceeds(g[i], EarliestThreshold)
    ensures r.Raises? <==> exists i :: 0 <= i < |g| && Exceeds(g[i], EarliestThreshold) && year[i].Text?
    ensures r.Ok? && r != Ok(Str("")) ==>
      r.value.Title? && exists i :: IsEarliest(g, year, i) && r.value.cell == title[i]
    ensures r.Raises? ==> r.exc == TypeError
  {
    var rows := RowsAbove(g, EarliestThreshold, 0);
    if |rows| == 0 then
      Ok(Str(""))
    else if exists j :: j in rows && year[j].Text? then
      Raises(TypeError)
    else
      var k := EarliestOf(rows, year);
      assert IsEarliest(g, year, k) by {
        if exists j :: 0 <= j < |g| && Exceeds(g[j], EarliestThreshold) && year[j].Num? {
          var j :| 0 <= j < |g| && Exceeds(g[j], EarliestThreshold) && year[j].Num?;
          assert j in rows;
        }
      }
      Ok(Title(title[k]))
  }

  const PngPrefix := "data:image/png;base64,"
  const MaxUriLength := 100000

  /** The data URI of the scatter branch, cut to its first 100000 characters when longer. */
  function DataUri(b64: string): (r: string)
    ensures StartsWith(PngPrefix + b64, r)
    ensures StartsWith(r, PngPrefix)
    ensures |r| <= MaxUriLength
    ensures |PngPrefix + b64| <= MaxUriLength ==> r == PngPrefix + b64
    ensures |PngPrefix + b64| > MaxUriLength ==> |r| == MaxUriLength
  {
    var full := PngPrefix + b64;
    var r := if |full| > MaxUriLength then full[..MaxUriLength] else full;
    assert r[..|PngPrefix|] == full[..|PngPrefix|];
    r
  }

  /** The base64 text of the PNG the plotting libraries would draw from the Rank and Peak
      columns, or the exception they raise (`linregress` rejects, for one, a Rank column
      whose values are all equal). */
  type Renderer = (seq<Cell>, seq<Cell>) -> Result<string>

  /** The answer to one question, or the exception its branch raises: the branch of
      `AnswerIntent` that the question's intent selects. */
  function AnswerOne(q: string, t: Option<Table>, render: Renderer): (r: Result<Answer>)
    ensures t.None? ==> r == Ok(Default(Classify(q)))
    ensures Classify(q) == Unrecognized ==> r == Ok(Str(NotRecognized))
    ensures r.Raises? ==> Classify(q) in {CountIntent, EarliestIntent, ScatterIntent}
  {
    AnswerIntent(Classify(q), t, render)
  }

  /** The branch of `answer_questions` taken for a question of the given intent. */
  function AnswerIntent(intent: Intent, t: Option<Table>, render: Renderer): (r: Result<Answer>)
    ensures t.None? ==> r == Ok(Default(intent))
    ensures intent == Unrecognized ==> r == Ok(Str(NotRecognized))
    ensures r.Raises? ==> intent in {CountIntent, EarliestIntent, ScatterIntent}
    ensures intent == CountIntent && t.Some? && !HasColumns(t.value, ["Gross", "Year"]) ==> r == Ok(Count(0))
    ensures intent == CountIntent && t.Some? && HasColumns(t.value, ["Gross", "Year"])
      ==> r == CountRows(Column(t.value, "Gross"), Column(t.value, "Year"))
    ensures intent == EarliestIntent && t.Some? && !HasColumns(t.value, ["Gross", "Year", "Title"]) ==> r == Ok(Str(""))
    ensures intent == EarliestIntent && t.Some? && HasColumns(t.value, ["Gross", "Year", "Title"]) ==>
      var g := Traverse(Column(t.value, "Gross"), StrictGross);
      && (g.Raises? ==> r == Raises(g.exc))
      && (g.Ok? ==> r == EarliestTitle(g.value, Column(t.value, "Year"), Column(t.value, "Title")))
    ensures intent in {CorrelationIntent, ScatterIntent} && t.Some? && !HasColumns(t.value, ["Rank", "Peak"])
      ==> r == Ok(Default(intent))
    ensures intent == CorrelationIntent && t.Some? && HasColumns(t.value, ["Rank", "Peak"])
      ==> r == Ok(Pearson(Column(t.value, "Rank"), Column(t.value, "Peak")))
    ensures intent == ScatterIntent && t.Some? && HasColumns(t.value, ["Rank", "Peak"]) ==>
      var image := render(Column(t.value, "Rank"), Column(t.value, "Peak"));
      && (image.Raises? ==> r == Raises(image.exc))
      && (image.Ok? ==> r == Ok(Str(DataUri(image.value))))
  {
    if t.None? then Ok(Default(intent))
    else
      var df := t.value;
      match intent
      case CountIntent => CountBranch(df)
      case EarliestIntent => EarliestBranch(df)
      case CorrelationIntent =>
        if HasColumns(df, ["Rank", "Peak"]) then Ok(Pearson(Column(df, "Rank"), Column(df, "Peak")))
        else Ok(Float(0.0))
      case ScatterIntent => ScatterBranch(df, render)
      case Unrecognized => Ok(Str(NotRecognized))
  }

  /** The count question: `GrossNum` over 2 bn and `Year` before 2000. */
  function CountBranch(df: Table): (r: Result<Answer>)
    ensures !HasColumns(df, ["Gross", "Year"]) ==> r == Ok(Count(0))
    ensures HasColumns(df, ["Gross", "Year"]) ==> r == CountRows(Column(df, "Gross"), Column(df, "Year"))
  {
    if HasColumns(df, ["Gross", "Year"]) then CountRows(Column(df, "Gross"), Column(df, "Year"))
    else Ok(Count(0))
  }

  /** The earliest-film question: every gross converted strictly, then the earliest title. */
  function EarliestBranch(df: Table): (r: Result<Answer>)
    ensures !HasColumns(df, ["Gross", "Year", "Title"]) ==> r == Ok(Str(""))
    ensures HasColumns(df, ["Gross", "Year", "Title"]) ==>
      var g := Traverse(Column(df, "Gross"), StrictGross);
      && (g.Raises? ==> r == Raises(g.exc))
      && (g.Ok? ==> r == EarliestTitle(g.value, Column(df, "Year"), Column(df, "Title")))
  {
    if HasColumns(df, ["Gross", "Year", "Title"]) then
      match Traverse(Column(df, "Gross"), StrictGross)
      case Raises(e) => Raises(e)
      case Ok(g) => EarliestTitle(g, Column(df, "Year"), Column(df, "Title"))
    else Ok(Str(""))
  }

  /** The scatterplot question: the drawn plot of Rank against Peak as a data URI. */
  function ScatterBranch(df: Table, render: Renderer): (r: Result<Answer>)
    ensures !HasColumns(df, ["Rank", "Peak"]) ==> r == Ok(Str(""))
    ensures HasColumns(df, ["Rank", "Peak"]) ==>
      var image := render(Column(df, "Rank"), Column(df, "Peak"));
      && (image.Raises? ==> r == Raises(image.exc))
      && (image.Ok? ==> r == Ok(Str(DataUri(image.value))))
  {
    if HasColumns(df, ["Rank", "Peak"]) then
      match render(Column(df, "Rank"), Column(df, "Peak"))
      case Raises(e) => Raises(e)
      case Ok(b64) => Ok(Str(DataUri(b64)))
    else Ok(Str(""))
  }

  /** `answer_questions(question_str, df)`. */
  function AnswerQuestions(text: string, t: Option<Table>, render: Renderer): (r: Result<seq<Answer>>)
    ensures r.Ok? ==> |r.value| == |Questions(text)|
    ensures r.Ok? ==> forall i :: 0 <= i < |r.value| ==> AnswerOne(Questions(text)[i], t, render) == Ok(r.value[i])
    ensures r.Ok? <==> forall i :: 0 <= i < |Questions(text)| ==> AnswerOne(Questions(text)[i], t, render).Ok?
    ensures r.Raises? ==> t.Some?
  {
    AnswerAll(Questions(text), t, render)
  }

  /** The loop of `answer_questions` over a list of questions. */
  function AnswerAll(qs: seq<string>, t: Option<Table>, render: Renderer): (r: Result<seq<Answer>>)
    ensures r.Ok? ==> |r.value| == |qs|
    ensures r.Ok? ==> forall i :: 0 <= i < |r.value| ==> AnswerOne(qs[i], t, render) == Ok(r.value[i])
    ensures r.Ok? <==> forall i :: 0 <= i < |qs| ==> AnswerOne(qs[i], t, render).Ok?
    ensures r.Raises? ==> t.Some?
  {
    Traverse(qs, AnswerWith(t, render))
  }

  /** The loop body of `answer_questions` as a function of the question. */
  function AnswerWith(t: Option<Table>, render: Renderer): string -> Result<Answer> {
    q => AnswerOne(q, t, render)
  }

  /** The default answer of each question, in order. */
  function Defaults(qs: seq<string>): (r: seq<Answer>)
    ensures |r| == |qs| && forall i :: 0 <= i < |qs| ==> r[i] == Default(Classify(qs[i]))
  {
    seq(|qs|, i requires 0 <= i < |qs| => Default(Classify(qs[i])))
  }

  /** With no table nothing raises, and every question gets its intent's default. */
  lemma NoTableGivesDefaults(text: string, render: Renderer)
    ensures AnswerQuestions(text, None, render) == Ok(Defaults(Questions(text)))
  {
    NoTableDefaults(Questions(text), render);
  }

  /** The same for any list of questions. */
  lemma NoTableDefaults(qs: seq<string>, render: Renderer)
    ensures Traverse(qs, AnswerWith(None, render)) == Ok(Defaults(qs))
  {
    var f := AnswerWith(None, render);
    var d := Defaults(qs);
    forall i | 0 <= i < |qs| ensures f(qs[i]) == Ok(d[i]) {
      NoTableAnswer(qs[i], render);
    }
    var r := Traverse(qs, f);
    assert r.Ok?;
    forall i | 0 <= i < |qs| ensures r.value[i] == d[i] {
      assert f(qs[i]) == Ok(r.value[i]);
    }
    assert r.value == d;
  }

  lemma NoTableAnswer(q: string, render: Renderer)
    ensures AnswerOne(q, None, render) == Ok(Default(Classify(q)))
  {
  }
}
