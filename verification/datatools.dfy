/** app/utils/data_tools.py: cleaning of a scraped Wikipedia table and the fixed four-answer
    request handler built on it. */
module DataTools {
  import opened Wrappers
  import opened Strings
  import opened Numbers
  import opened Data
  import Urls
  import Analysis
  import Seqs

  const GrossColumn := "Worldwide gross"

  // ---------------------------------------------------------------------------
  // Header normalisation
  // ---------------------------------------------------------------------------

  /** `[str(c).strip() for c in df.columns]`. */
  function StripHeaders(cols: seq<string>): (r: seq<string>)
    ensures |r| == |cols|
    ensures forall i :: 0 <= i < |r| ==> r[i] == Strip(cols[i])
    ensures forall i :: 0 <= i < |r| ==> r[i] == [] || (!IsSpace(r[i][0]) && !IsSpace(r[i][|r[i]| - 1]))
  {
    seq(|cols|, i requires 0 <= i < |cols| => Strip(cols[i]))
  }

  /** Header stripping is idempotent. */
  lemma StripHeadersIdempotent(cols: seq<string>)
    ensures StripHeaders(StripHeaders(cols)) == StripHeaders(cols)
  {
    var once := StripHeaders(cols);
    forall i | 0 <= i < |once| ensures Strip(once[i]) == once[i] {
      StripIdempotent(cols[i]);
    }
  }

  /** `df.rename(columns={"Film": "Title"})` when "Title" is absent and "Film" present. */
  function RenameFilm(cols: seq<string>): (r: seq<string>)
    ensures |r| == |cols|
    ensures "Title" in r <==> "Title" in cols || "Film" in cols
    ensures "Title" !in cols ==> "Film" !in r
    ensures forall i :: 0 <= i < |r| && r[i] != cols[i] ==> cols[i] == "Film" && r[i] == "Title" && "Title" !in cols
    ensures "Title" !in cols ==> forall i :: 0 <= i < |r| && cols[i] == "Film" ==> r[i] == "Title"
  {
    if "Title" !in cols && "Film" in cols then
      var r := seq(|cols|, i requires 0 <= i < |cols| => if cols[i] == "Film" then "Title" else cols[i]);
      assert r[IndexOf(cols, "Film")] == "Title";
      r
    else cols
  }

  /** Renaming twice is renaming once. */
  lemma RenameFilmIdempotent(cols: seq<string>)
    ensures RenameFilm(RenameFilm(cols)) == RenameFilm(cols)
  {
  }

  // ---------------------------------------------------------------------------
  // Cell cleaning
  // ---------------------------------------------------------------------------

  predicate IsNumericChar(c: char) {
    IsDigit(c) || c == '.'
  }

  /** `.str.replace(r"[^0-9.]", "", regex=True)`: keep digits and dots, in order. */
  function KeepNumeric(s: string): (r: string)
    ensures |r| <= |s|
    ensures forall i :: 0 <= i < |r| ==> IsNumericChar(r[i])
    ensures forall c :: IsNumericChar(c) ==> multiset(r)[c] == multiset(s)[c]
    ensures (forall i :: 0 <= i < |s| ==> IsNumericChar(s[i])) ==> r == s
  {
    if |s| == 0 then ""
    else
      var rest := KeepNumeric(s[1..]);
      assert s == [s[0]] + s[1..];
      (if IsNumericChar(s[0]) then [s[0]] else "") + rest
  }

  /** Filtering works character by character, so it distributes over concatenation; with the
      contract above, this pins the result down as the order-preserving subsequence. */
  lemma {:induction false} KeepNumericAppend(a: string, b: string)
    ensures KeepNumeric(a + b) == KeepNumeric(a) + KeepNumeric(b)
  {
    if |a| > 0 {
      KeepNumericAppend(a[1..], b);
      Seqs.TailOfAppend(a, b);
      KeepNumericStep(a);
      KeepNumericStep(a + b);
    } else {
      assert a + b == b;
    }
  }

  lemma KeepNumericStep(s: string)
    requires |s| > 0
    ensures KeepNumeric(s) == (if IsNumericChar(s[0]) then [s[0]] else "") + KeepNumeric(s[1..])
  {
  }

  /** On text made of digits and dots only, `float` sees no whitespace and no sign. */
  lemma FloatOfNumericText(s: string)
    requires forall i :: 0 <= i < |s| ==> IsNumericChar(s[i])
    ensures ParseFloat(s) == ParseUnsigned(s)
  {
    assert TrimmedFrom(s, s, 0);
    StripUnique(s, s, 0);
  }

  function Abs(x: real): real {
    if x < 0.0 then -x else x
  }

  /** One gross cell through `.astype(str)`, the filter and `.astype(float)`. A number loses
      only its sign ("-5.0" keeps "5.0"); NaN becomes "nan", filters to "", and raises. */
  function CleanGrossCell(c: Cell): (r: Result<Cell>)
    ensures r.Ok? ==> r.value.Num? && r.value.x >= 0.0
    ensures c.Missing? ==> r == Raises(ValueError)
    ensures c.Num? ==> r == Ok(Num(Abs(c.x)))
    ensures c.Text? ==> (r.Ok? <==> ParseFloat(KeepNumeric(c.s)).Some?)
    ensures c.Text? && r.Ok? ==> ParseUnsigned(KeepNumeric(c.s)) == Some(r.value.x)
    ensures r.Raises? ==> r.exc == ValueError
  {
    match c
    case Missing => Raises(ValueError)
    case Num(x) => Ok(Num(Abs(x)))
    case Text(s) =>
      var kept := KeepNumeric(s);
      FloatOfNumericText(kept);
      match ParseUnsigned(kept)
      case Some(v) => Ok(Num(v))
      case None => Raises(ValueError)
  }

  /** `pd.to_numeric(col, errors="coerce")` on one cell: numbers and NaN stay, a string
      becomes its number or NaN. It never raises. */
  function CoerceCell(c: Cell): (r: Cell)
    ensures r.Num? || r.Missing?
    ensures !c.Text? ==> r == c
    ensures c.Text? ==> (r.Num? <==> ParseFloat(c.s).Some?)
    ensures c.Text? && r.Num? ==> ParseFloat(c.s) == Some(r.x)
  {
    match c
    case Text(s) =>
      (match ParseFloat(s) case Some(v) => Num(v) case None => Missing)
    case _ => c
  }

  /** Coercion is idempotent: a coerced cell is left as it is. */
  lemma CoerceCellIdempotent(c: Cell)
    ensures CoerceCell(CoerceCell(c)) == CoerceCell(c)
  {
  }

  /** The text `str(n)` of a natural number coerces back to the number. */
  lemma CoerceNatText(n: nat)
    ensures CoerceCell(Text(NatToString(n))) == Num(n as real)
  {
    ParseFloatOfNat(n);
  }

  /** A gross written as a prefix without digits or dots (such as "$") followed by the digits
      of `n` cleans to `n`. */
  lemma CleanGrossOfNatText(prefix: string, n: nat)
    requires forall i :: 0 <= i < |prefix| ==> !IsNumericChar(prefix[i])
    ensures CleanGrossCell(Text(prefix + NatToString(n))) == Ok(Num(n as real))
  {
    var digits := NatToString(n);
    KeepNumericAppend(prefix, digits);
    KeepNumericNone(prefix);
    assert KeepNumeric(prefix + digits) == digits;
    ParseFloatOfNat(n);
    FloatOfNumericText(digits);
  }

  /** Text without digits or dots filters to nothing. */
  lemma {:induction false} KeepNumericNone(s: string)
    requires forall i :: 0 <= i < |s| ==> !IsNumericChar(s[i])
    ensures KeepNumeric(s) == ""
  {
    if |s| > 0 {
      KeepNumericNone(s[1..]);
      KeepNumericStep(s);
    }
  }

  predicate IsCoerced(name: string) {
    name == "Year" || name == "Peak" || name == "Rank"
  }

  /** The cleaning a cell under header `name` receives. */
  function CleanCell(name: string, c: Cell): (r: Result<Cell>)
    ensures r.Raises? ==> name == GrossColumn && r.exc == ValueError
    ensures name == GrossColumn && r.Ok? ==> r.value.Num?
    ensures IsCoerced(name) ==> r.Ok? && !r.value.Text? && (c.Text? ==> (r.value.Num? <==> ParseFloat(c.s).Some?))
    ensures name != GrossColumn && !IsCoerced(name) ==> r == Ok(c)
  {
    if name == GrossColumn then CleanGrossCell(c)
    else if IsCoerced(name) then Ok(CoerceCell(c))
    else Ok(c)
  }

  function NameAt(names: seq<string>, k: nat): string {
    if k < |names| then names[k] else ""
  }

  /** The number of cells a row has once pandas aligns it with `n` headers: a shorter row
      is padded with NaN, a longer one keeps its extra cells. */
  function Width(n: nat, row: seq<Cell>): nat {
    if |row| < n then n else |row|
  }

  /** One row cleaned position by position under the given headers, the NaN padding of a
      short row included. */
  function CleanRow(names: seq<string>, row: seq<Cell>): (r: Result<seq<Cell>>)
    ensures r.Ok? <==> forall k :: 0 <= k < Width(|names|, row) ==> CleanCell(NameAt(names, k), CellAt(row, k)).Ok?
    ensures r.Ok? ==> |r.value| == Width(|names|, row)
    ensures r.Ok? ==> forall k :: 0 <= k < Width(|names|, row) ==> CleanCell(NameAt(names, k), CellAt(row, k)) == Ok(r.value[k])
    ensures r.Raises? ==> r.exc == ValueError
  {
    var w := Width(|names|, row);
    var pairs := seq(w, k requires 0 <= k < w => (NameAt(names, k), CellAt(row, k)));
    var f := (p: (string, Cell)) => CleanCell(p.0, p.1);
    assert forall k :: 0 <= k < w ==> f(pairs[k]) == CleanCell(NameAt(names, k), CellAt(row, k));
    Traverse(pairs, f)
  }

  /** What cleaning guarantees of a table: the gross column holds numbers only, and Year,
      Peak and Rank hold numbers or NaN. */
  predicate Cleaned(t: Table) {
    forall i, k :: 0 <= i < |t.rows| && 0 <= k < |t.rows[i]| && k < |t.columns| ==>
      && (t.columns[k] == GrossColumn ==> t.rows[i][k].Num?)
      && (IsCoerced(t.columns[k]) ==> !t.rows[i][k].Text?)
  }

  /** The normalisation in `scrape_wikipedia_table`, applied to the table `pd.read_html` found.
      Every position of the aligned rows is cleaned, so a gross cell a short row lacks is NaN
      and raises ValueError like any other NaN gross. */
  function Normalise(t: Table): (r: Result<Table>)
    ensures r.Ok? ==> r.value.columns == RenameFilm(StripHeaders(t.columns))
    ensures r.Ok? ==> |r.value.rows| == |t.rows| && forall i :: 0 <= i < |t.rows| ==> |r.value.rows[i]| == Width(|t.columns|, t.rows[i])
    ensures r.Ok? ==> Cleaned(r.value)
    ensures r.Ok? ==> forall i, k :: (0 <= i < |t.rows| && 0 <= k < Width(|t.columns|, t.rows[i])
      && NameAt(r.value.columns, k) != GrossColumn && !IsCoerced(NameAt(r.value.columns, k))) ==> r.value.rows[i][k] == CellAt(t.rows[i], k)
    ensures r.Ok? ==> forall i, k :: 0 <= i < |t.rows| && 0 <= k < Width(|t.columns|, t.rows[i]) ==>
      CleanCell(NameAt(r.value.columns, k), CellAt(t.rows[i], k)) == Ok(r.value.rows[i][k])
    ensures r.Raises? <==> exists i, k :: (0 <= i < |t.rows| && 0 <= k < Width(|t.columns|, t.rows[i])
      && CleanCell(NameAt(RenameFilm(StripHeaders(t.columns)), k), CellAt(t.rows[i], k)).Raises?)
    ensures r.Raises? ==> r.exc == ValueError
  {
    var names := RenameFilm(StripHeaders(t.columns));
    var f := row => CleanRow(names, row);
    var res := Traverse(t.rows, f);
    assert forall i :: 0 <= i < |t.rows| ==> f(t.rows[i]) == CleanRow(names, t.rows[i]);
    match res
    case Raises(e) =>
      NormaliseRaises(t, names);
      Raises(e)
    case Ok(rows) =>
      NormaliseOk(t, names, rows);
      Ok(Table(names, rows))
  }

  lemma NormaliseOk(t: Table, names: seq<string>, rows: seq<seq<Cell>>)
    requires |names| == |t.columns| && |rows| == |t.rows|
    requires forall i :: 0 <= i < |t.rows| ==> CleanRow(names, t.rows[i]) == Ok(rows[i])
    ensures forall i :: 0 <= i < |t.rows| ==> |rows[i]| == Width(|t.columns|, t.rows[i])
    ensures Cleaned(Table(names, rows))
    ensures forall i, k :: (0 <= i < |t.rows| && 0 <= k < Width(|t.columns|, t.rows[i])
      && NameAt(names, k) != GrossColumn && !IsCoerced(NameAt(names, k))) ==> rows[i][k] == CellAt(t.rows[i], k)
    ensures forall i, k :: 0 <= i < |t.rows| && 0 <= k < Width(|t.columns|, t.rows[i]) ==>
      CleanCell(NameAt(names, k), CellAt(t.rows[i], k)) == Ok(rows[i][k])
  {
    forall i, k | 0 <= i < |t.rows| && 0 <= k < |rows[i]| && k < |names|
      ensures CleanCell(names[k], CellAt(t.rows[i], k)) == Ok(rows[i][k])
    {
      assert NameAt(names, k) == names[k];
    }
  }

  lemma NormaliseRaises(t: Table, names: seq<string>)
    requires |names| == |t.columns|
    ensures (exists i :: 0 <= i < |t.rows| && !CleanRow(names, t.rows[i]).Ok?) <==>
      exists i, k :: (0 <= i < |t.rows| && 0 <= k < Width(|t.columns|, t.rows[i])
        && CleanCell(NameAt(names, k), CellAt(t.rows[i], k)).Raises?)
  {
  }

  /** A row too short to reach the gross column: pandas reads the missing cell as NaN, whose
      `str()` "nan" has no digits, so cleaning raises ValueError. */
  lemma NormaliseShortGrossRow(t: Table, i: nat, k: nat)
    requires i < |t.rows| && k < |t.columns| && t.columns[k] == GrossColumn
    requires |t.rows[i]| <= k
    ensures Normalise(t) == Raises(ValueError)
  {
    GrossIsStripped();
    var names := RenameFilm(StripHeaders(t.columns));
    assert names[k] == GrossColumn;
    assert CleanCell(NameAt(names, k), CellAt(t.rows[i], k)).Raises?;
  }

  lemma GrossIsStripped()
    ensures Strip(GrossColumn) == GrossColumn
  {
    assert TrimmedFrom(GrossColumn, GrossColumn, 0);
    StripUnique(GrossColumn, GrossColumn, 0);
  }

  /** The normalised headers are settled: stripping and renaming them again changes nothing. */
  lemma HeadersSettled(cols: seq<string>)
    ensures var names := RenameFilm(StripHeaders(cols));
      RenameFilm(StripHeaders(names)) == names
  {
    var s := StripHeaders(cols);
    var names := RenameFilm(s);
    RenamedStaysStripped(cols);
    assert StripHeaders(names) == names;
    RenameFilmIdempotent(s);
  }

  /** Renaming after stripping leaves every header stripped. */
  lemma RenamedStaysStripped(cols: seq<string>)
    ensures var names := RenameFilm(StripHeaders(cols));
      forall i :: 0 <= i < |names| ==> Strip(names[i]) == names[i]
  {
    var s := StripHeaders(cols);
    var names := RenameFilm(s);
    TitleIsStripped();
    forall i | 0 <= i < |names| ensures Strip(names[i]) == names[i] {
      if names[i] == s[i] { StripIdempotent(cols[i]); }
    }
  }

  lemma TitleIsStripped()
    ensures Strip("Title") == "Title"
  {
    assert TrimmedFrom("Title", "Title", 0);
    StripUnique("Title", "Title", 0);
  }

  /** A cleaned cell is left as it is by a second cleaning under the same header. */
  lemma CleanCellSettled(name: string, c: Cell, c2: Cell)
    requires CleanCell(name, c) == Ok(c2)
    ensures CleanCell(name, c2) == Ok(c2)
  {
    if name != GrossColumn && IsCoerced(name) {
      CoerceCellIdempotent(c);
    }
  }

  /** A table whose headers and cells are already settled, and whose rows are as wide as its
      header, is its own normal form. */
  lemma NormaliseSettled(t: Table)
    requires RenameFilm(StripHeaders(t.columns)) == t.columns
    requires forall i :: 0 <= i < |t.rows| ==> |t.columns| <= |t.rows[i]|
    requires forall i, k :: 0 <= i < |t.rows| && 0 <= k < |t.rows[i]| ==>
      CleanCell(NameAt(t.columns, k), t.rows[i][k]) == Ok(t.rows[i][k])
    ensures Normalise(t) == Ok(t)
  {
    SettledCellsClean(t);
    var r := Normalise(t);
    forall i | 0 <= i < |t.rows| ensures r.value.rows[i] == t.rows[i] {
      SettledRowKept(t, i);
    }
    assert r.value.rows == t.rows;
  }

  lemma SettledRowKept(t: Table, i: nat)
    requires RenameFilm(StripHeaders(t.columns)) == t.columns
    requires i < |t.rows| && |t.columns| <= |t.rows[i]|
    requires forall k :: 0 <= k < |t.rows[i]| ==>
      CleanCell(NameAt(t.columns, k), t.rows[i][k]) == Ok(t.rows[i][k])
    requires Normalise(t).Ok?
    ensures Normalise(t).value.rows[i] == t.rows[i]
  {
    var row := Normalise(t).value.rows[i];
    assert |row| == |t.rows[i]|;
    forall k | 0 <= k < |t.rows[i]| ensures row[k] == t.rows[i][k] {
      assert CellAt(t.rows[i], k) == t.rows[i][k];
      assert CleanCell(NameAt(t.columns, k), t.rows[i][k]) == Ok(row[k]);
    }
  }

  lemma SettledCellsClean(t: Table)
    requires RenameFilm(StripHeaders(t.columns)) == t.columns
    requires forall i :: 0 <= i < |t.rows| ==> |t.columns| <= |t.rows[i]|
    requires forall i, k :: 0 <= i < |t.rows| && 0 <= k < |t.rows[i]| ==>
      CleanCell(NameAt(t.columns, k), t.rows[i][k]) == Ok(t.rows[i][k])
    ensures Normalise(t).Ok?
  {
    var names := RenameFilm(StripHeaders(t.columns));
    forall i, k | 0 <= i < |t.rows| && 0 <= k < Width(|t.columns|, t.rows[i])
      ensures !CleanCell(NameAt(names, k), CellAt(t.rows[i], k)).Raises?
    {
      assert CellAt(t.rows[i], k) == t.rows[i][k];
    }
  }

  /** Normalising a normalised table changes nothing. */
  lemma NormaliseIdempotent(t: Table)
    requires Normalise(t).Ok?
    ensures Normalise(Normalise(t).value) == Normalise(t)
  {
    NormalisedIsSettled(t);
    NormaliseSettled(Normalise(t).value);
  }

  /** A normalised table meets what `NormaliseSettled` asks for. */
  lemma NormalisedIsSettled(t: Table)
    requires Normalise(t).Ok?
    ensures var t1 := Normalise(t).value;
      && RenameFilm(StripHeaders(t1.columns)) == t1.columns
      && (forall i :: 0 <= i < |t1.rows| ==> |t1.columns| <= |t1.rows[i]|)
      && (forall i, k :: 0 <= i < |t1.rows| && 0 <= k < |t1.rows[i]| ==>
            CleanCell(NameAt(t1.columns, k), t1.rows[i][k]) == Ok(t1.rows[i][k]))
  {
    HeadersSettled(t.columns);
    NormalisedWide(t);
    NormalisedCellsSettled(t);
  }

  lemma NormalisedWide(t: Table)
    requires Normalise(t).Ok?
    ensures var t1 := Normalise(t).value;
      forall i :: 0 <= i < |t1.rows| ==> |t1.columns| <= |t1.rows[i]|
  {
    var t1 := Normalise(t).value;
    assert |t1.columns| == |t.columns|;
    forall i | 0 <= i < |t1.rows| ensures |t1.columns| <= |t1.rows[i]| {
      assert |t1.rows[i]| == Width(|t.columns|, t.rows[i]);
    }
  }

  lemma NormalisedCellsSettled(t: Table)
    requires Normalise(t).Ok?
    ensures var t1 := Normalise(t).value;
      forall i, k :: 0 <= i < |t1.rows| && 0 <= k < |t1.rows[i]| ==>
        CleanCell(NameAt(t1.columns, k), t1.rows[i][k]) == Ok(t1.rows[i][k])
  {
    var t1 := Normalise(t).value;
    forall i, k | 0 <= i < |t1.rows| && 0 <= k < |t1.rows[i]|
      ensures CleanCell(NameAt(t1.columns, k), t1.rows[i][k]) == Ok(t1.rows[i][k])
    {
      NormalisedCellSettled(t, i, k);
    }
  }

  /** A cell of a normalised table is settled under its header. */
  lemma NormalisedCellSettled(t: Table, i: nat, k: nat)
    requires Normalise(t).Ok?
    requires i < |Normalise(t).value.rows| && k < |Normalise(t).value.rows[i]|
    ensures var t1 := Normalise(t).value;
      CleanCell(NameAt(t1.columns, k), t1.rows[i][k]) == Ok(t1.rows[i][k])
  {
    var t1 := Normalise(t).value;
    assert k < Width(|t.columns|, t.rows[i]);
    CleanCellSettled(NameAt(t1.columns, k), CellAt(t.rows[i], k), t1.rows[i][k]);
  }

  // ---------------------------------------------------------------------------
  // handle_question_request
  // ---------------------------------------------------------------------------

  const NoUrlAnswers: seq<Answer> := [Str("No URL found"), Str(""), Float(0.0), Str("")]

  /** A cleaned gross or Year cell as a comparable value; NaN is None. */
  function NumValue(c: Cell): Option<real> {
    if c.Num? then Some(c.x) else None
  }

  /** Row `i` counts for Q1: gross strictly above 2 000 000 000 and Year before 2000. */
  predicate CountedRow(gross: Cell, year: Cell) {
    gross.Num? && gross.x > Analysis.CountThreshold && year.Num? && year.x < Analysis.YearCutoff
  }

  /** The gross column as comparable values. */
  function GrossValues(df: Table): (g: seq<Option<real>>)
    requires GrossColumn in df.columns
    ensures |g| == |df.rows|
  {
    var gross := Column(df, GrossColumn);
    seq(|df.rows|, i requires 0 <= i < |df.rows| => NumValue(gross[i]))
  }

  /** Q1: `df[(df["Worldwide gross"] > 2_000_000_000) & (df["Year"] < 2000)].shape[0]`. */
  function CountAnswer(df: Table): (n: nat)
    requires HasColumns(df, [GrossColumn, "Year"])
    ensures n == |set i | 0 <= i < |df.rows| && CountedRow(Column(df, GrossColumn)[i], Column(df, "Year")[i])|
  {
    var gross, year := Column(df, GrossColumn), Column(df, "Year");
    var flags := seq(|df.rows|, i requires 0 <= i < |df.rows| => CountedRow(gross[i], year[i]));
    assert (set i | 0 <= i < |flags| && flags[i]) == (set i | 0 <= i < |df.rows| && CountedRow(gross[i], year[i]));
    CountTrue(flags)
  }

  /** Q2: the Title of the first row of `df_high.sort_values("Year")`. An empty `df_high`
      raises IndexError, a missing Title column KeyError. */
  function EarliestAnswer(df: Table): (r: Result<Cell>)
    requires Cleaned(df) && HasColumns(df, [GrossColumn, "Year"])
    ensures r == Raises(IndexError) <==> forall i :: 0 <= i < |df.rows| ==> !Analysis.Exceeds(GrossValues(df)[i], Analysis.EarliestThreshold)
    ensures (exists i :: 0 <= i < |df.rows| && Analysis.Exceeds(GrossValues(df)[i], Analysis.EarliestThreshold)) ==>
      (r.Ok? <==> "Title" in df.columns) && (r.Raises? ==> r.exc == KeyError)
    ensures r.Ok? ==> "Title" in df.columns
    ensures r.Ok? ==> exists i :: Analysis.IsEarliest(GrossValues(df), Column(df, "Year"), i) && r.value == Column(df, "Title")[i]
  {
    var g, year := GrossValues(df), Column(df, "Year");
    var high := Analysis.RowsAbove(g, Analysis.EarliestThreshold, 0);
    if |high| == 0 then Raises(IndexError)
    else
      assert high[0] in high;
      if "Title" !in df.columns then Raises(KeyError)
      else
        var k := Analysis.EarliestOf(high, year);
        EarliestOfHigh(df, high, k);
        Ok(Column(df, "Title")[k])
  }

  /** The row `sort_values("Year")` puts first among the rows over the threshold is an
      earliest one in the sense of `Analysis.IsEarliest`. */
  lemma EarliestOfHigh(df: Table, high: seq<nat>, k: nat)
    requires Cleaned(df) && HasColumns(df, [GrossColumn, "Year"])
    requires high == Analysis.RowsAbove(GrossValues(df), Analysis.EarliestThreshold, 0) && |high| > 0
    requires k == Analysis.EarliestOf(high, Column(df, "Year"))
    ensures Analysis.IsEarliest(GrossValues(df), Column(df, "Year"), k)
  {
    var g, year := GrossValues(df), Column(df, "Year");
    YearsAreNumbers(df);
    assert high[0] in high;
    if exists j :: 0 <= j < |g| && Analysis.Exceeds(g[j], Analysis.EarliestThreshold) && year[j].Num? {
      var j :| 0 <= j < |g| && Analysis.Exceeds(g[j], Analysis.EarliestThreshold) && year[j].Num?;
      assert j in high;
    }
  }

  /** The four fixed answers computed from a cleaned table; a missing column raises KeyError.
      What the answers are is stated by `ScrapedAnswersOutcome` and `ScrapedAnswersValues`. */
  function ScrapedAnswers(df: Table, render: Analysis.Renderer): (r: Result<seq<Answer>>)
    requires Cleaned(df)
    ensures !HasColumns(df, [GrossColumn, "Year"]) ==> r == Raises(KeyError)
    ensures r.Ok? ==> |r.value| == 4
  {
    if !HasColumns(df, [GrossColumn, "Year"]) then Raises(KeyError)
    else AnswersAfterEarliest(df, CountAnswer(df), EarliestAnswer(df), render)
  }

  /** The answers once Q1 and Q2 are computed: a Q2 failure propagates, then Rank and Peak
      are looked up and the plot drawn. */
  function AnswersAfterEarliest(df: Table, q1: nat, earliest: Result<Cell>, render: Analysis.Renderer): (r: Result<seq<Answer>>)
    ensures r.Ok? ==> |r.value| == 4
  {
    match earliest
    case Raises(e) => Raises(e)
    case Ok(title) =>
      if !HasColumns(df, ["Rank", "Peak"]) then Raises(KeyError)
      else WithPlot(q1, title, Column(df, "Rank"), Column(df, "Peak"), render)
  }

  /** Which stage of the scraped answers fails, and with what: the earliest film, then the
      Rank/Peak lookup, then the drawing. */
  lemma ScrapedAnswersOutcome(df: Table, render: Analysis.Renderer)
    requires Cleaned(df) && HasColumns(df, [GrossColumn, "Year"])
    ensures EarliestAnswer(df).Raises? ==> ScrapedAnswers(df, render) == Raises(EarliestAnswer(df).exc)
    ensures EarliestAnswer(df).Ok? && !HasColumns(df, ["Rank", "Peak"]) ==> ScrapedAnswers(df, render) == Raises(KeyError)
    ensures EarliestAnswer(df).Ok? && HasColumns(df, ["Rank", "Peak"]) ==>
      var image := render(Column(df, "Rank"), Column(df, "Peak"));
      var r := ScrapedAnswers(df, render);
      (r.Ok? <==> image.Ok?) && (image.Raises? ==> r == Raises(image.exc))
  {
  }

  /** Successful scraped answers need all five columns and are exactly the count, the earliest
      title, the Rank/Peak correlation and the drawn plot. */
  lemma ScrapedAnswersValues(df: Table, render: Analysis.Renderer)
    requires Cleaned(df) && ScrapedAnswers(df, render).Ok?
    ensures HasColumns(df, [GrossColumn, "Year", "Title", "Rank", "Peak"])
    ensures var r := ScrapedAnswers(df, render);
      && |r.value| == 4
      && r.value[0] == Count(CountAnswer(df))
      && r.value[1] == Title(EarliestAnswer(df).value)
      && r.value[2] == Pearson(Column(df, "Rank"), Column(df, "Peak"))
      && r.value[3] == Str(Analysis.PngPrefix + render(Column(df, "Rank"), Column(df, "Peak")).value)
  {
    AllFiveColumns(df);
  }

  lemma AllFiveColumns(df: Table)
    requires HasColumns(df, [GrossColumn, "Year"]) && "Title" in df.columns && HasColumns(df, ["Rank", "Peak"])
    ensures HasColumns(df, [GrossColumn, "Year", "Title", "Rank", "Peak"])
  {
  }

  /** The four answers once the plot of Rank against Peak is drawn; a drawing failure propagates. */
  function WithPlot(q1: nat, title: Cell, rank: seq<Cell>, peak: seq<Cell>, render: Analysis.Renderer): (r: Result<seq<Answer>>)
    ensures (r.Ok? <==> render(rank, peak).Ok?) && (render(rank, peak).Raises? ==> r == Raises(render(rank, peak).exc))
    ensures r.Ok? ==> r.value == [Count(q1), Title(title), Pearson(rank, peak), Str(Analysis.PngPrefix + render(rank, peak).value)]
  {
    match render(rank, peak)
    case Raises(e) => Raises(e)
    case Ok(b64) => Ok([Count(q1), Title(title), Pearson(rank, peak), Str(Analysis.PngPrefix + b64)])
  }

  /** In a cleaned table the Year column holds no strings. */
  lemma YearsAreNumbers(df: Table)
    requires Cleaned(df) && "Year" in df.columns
    ensures forall i :: 0 <= i < |df.rows| ==> !Column(df, "Year")[i].Text?
  {
    var k := IndexOf(df.columns, "Year");
    assert IsCoerced(df.columns[k]);
  }

  /** The scrape of `scrape_wikipedia_table` up to the cleaning: requests + BeautifulSoup +
      `pd.read_html` on a URL give the raised exception, or the first wikitable, or None
      when the page has none. */
  type Fetcher = string -> Result<Option<Table>>

  /** `handle_question_request` once the question file is read: the first URL, whatever its
      host, is scraped. `pd.read_html(str(None))` finds no table in "None" and raises ValueError. */
  function HandleQuestionRequest(text: string, fetch: Fetcher, render: Analysis.Renderer): (r: Result<seq<Answer>>)
    ensures |Urls.ExtractUrls(text)| == 0 ==> r == Ok(NoUrlAnswers)
    ensures r.Ok? ==> |r.value| == 4
    ensures |Urls.ExtractUrls(text)| > 0 && fetch(Urls.ExtractUrls(text)[0]).Raises? ==>
      r == Raises(fetch(Urls.ExtractUrls(text)[0]).exc)
    ensures |Urls.ExtractUrls(text)| > 0 && fetch(Urls.ExtractUrls(text)[0]) == Ok(None) ==> r == Raises(ValueError)
    ensures |Urls.ExtractUrls(text)| > 0 && fetch(Urls.ExtractUrls(text)[0]).Ok? && fetch(Urls.ExtractUrls(text)[0]).value.Some? ==>
      var raw := fetch(Urls.ExtractUrls(text)[0]).value.value;
      && (Normalise(raw).Raises? ==> r == Raises(Normalise(raw).exc))
      && (Normalise(raw).Ok? ==> r == ScrapedAnswers(Normalise(raw).value, render))
  {
    var urls := Urls.ExtractUrls(text);
    if |urls| == 0 then Ok(NoUrlAnswers)
    else
      match fetch(urls[0])
      case Raises(e) => Raises(e)
      case Ok(None) => Raises(ValueError)
      case Ok(Some(raw)) =>
        match Normalise(raw)
        case Raises(e) => Raises(e)
        case Ok(df) => ScrapedAnswers(df, render)
  }

  /** Only the first URL is ever fetched: two fetchers that agree on it give the same result. */
  lemma OnlyFirstUrlFetched(text: string, f1: Fetcher, f2: Fetcher, render: Analysis.Renderer)
    requires |Urls.ExtractUrls(text)| > 0 ==> f1(Urls.ExtractUrls(text)[0]) == f2(Urls.ExtractUrls(text)[0])
    ensures HandleQuestionRequest(text, f1, render) == HandleQuestionRequest(text, f2, render)
  {
  }
}
