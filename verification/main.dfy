/** `analyze_data` of app/main.py: choose the table the questions are answered from. */
module Main {
  import opened Wrappers
  import opened Strings
  import opened Data
  import Urls
  import Analysis

  /** An uploaded file and what `pd.read_csv` makes of its bytes: None when it raises. */
  datatype Upload = Upload(filename: string, csv: Option<Table>)

  predicate IsCsv(u: Upload) {
    EndsWith(u.filename, ".csv")
  }

  /** The `dataframes` dict: (filename, table) entries in insertion order. */
  type Frames = seq<(string, Table)>

  /** Index `p` holds the first entry with key `k`. */
  predicate FirstKeyAt(d: Frames, k: string, p: int) {
    0 <= p < |d| && d[p].0 == k && forall j :: 0 <= j < p ==> d[j].0 != k
  }

  predicate KeyAbsent(d: Frames, k: string) {
    forall j :: 0 <= j < |d| ==> d[j].0 != k
  }

  /** `d[k] = v`: a key already present keeps its position and takes the new value; a new
      key is appended. */
  function Put(d: Frames, k: string, v: Table): (r: Frames)
    ensures |d| > 0 ==> |r| > 0 && r[0] == (if d[0].0 == k then (k, v) else d[0])
    ensures (k, v) in r
    ensures forall e :: e in d && e.0 != k ==> e in r
    ensures forall p :: FirstKeyAt(d, k, p) ==> r == d[..p] + [(k, v)] + d[p + 1..]
    ensures KeyAbsent(d, k) ==> r == d + [(k, v)]
  {
    if |d| == 0 then [(k, v)]
    else if d[0].0 == k then
      assert forall e :: e in d ==> e == d[0] || e in d[1..];
      assert forall p :: FirstKeyAt(d, k, p) ==> p == 0;
      [(k, v)] + d[1..]
    else
      var rest := Put(d[1..], k, v);
      PutPastHead(d, k, v, rest);
      [d[0]] + rest
  }

  /** Assigning past a first entry with another key leaves that entry in front. */
  lemma PutPastHead(d: Frames, k: string, v: Table, rest: Frames)
    requires |d| > 0 && d[0].0 != k
    requires forall e :: e in d[1..] && e.0 != k ==> e in rest
    requires forall p :: FirstKeyAt(d[1..], k, p) ==> rest == d[1..][..p] + [(k, v)] + d[1..][p + 1..]
    requires KeyAbsent(d[1..], k) ==> rest == d[1..] + [(k, v)]
    ensures forall e :: e in d && e.0 != k ==> e in [d[0]] + rest
    ensures forall p :: FirstKeyAt(d, k, p) ==> [d[0]] + rest == d[..p] + [(k, v)] + d[p + 1..]
    ensures KeyAbsent(d, k) ==> [d[0]] + rest == d + [(k, v)]
  {
    assert forall e :: e in d ==> e == d[0] || e in d[1..];
    forall p | FirstKeyAt(d, k, p) ensures [d[0]] + rest == d[..p] + [(k, v)] + d[p + 1..] {
      PutPastHeadAt(d, k, v, rest, p);
    }
    if KeyAbsent(d, k) {
      assert KeyAbsent(d[1..], k);
      assert d == [d[0]] + d[1..];
    }
  }

  lemma PutPastHeadAt(d: Frames, k: string, v: Table, rest: Frames, p: int)
    requires |d| > 0 && d[0].0 != k && FirstKeyAt(d, k, p)
    requires FirstKeyAt(d[1..], k, p - 1) ==> rest == d[1..][..p - 1] + [(k, v)] + d[1..][p..]
    ensures [d[0]] + rest == d[..p] + [(k, v)] + d[p + 1..]
  {
    assert FirstKeyAt(d[1..], k, p - 1);
    assert d[..p] == [d[0]] + d[1..][..p - 1];
    assert d[p + 1..] == d[1..][p..];
  }

  /** The loop over `files`: every ".csv" upload is read into the dict, and one that
      `read_csv` rejects makes the request raise. */
  function CsvFrames(uploads: seq<Upload>): (r: Result<Frames>)
    ensures r.Raises? <==> exists i :: 0 <= i < |uploads| && IsCsv(uploads[i]) && uploads[i].csv.None?
    ensures r.Raises? ==> r.exc == ParseError
  {
    if |uploads| == 0 then Ok([])
    else
      var n := |uploads| - 1;
      var front := uploads[..n];
      var u := uploads[n];
      assert forall i :: 0 <= i < n ==> uploads[i] == front[i];
      match CsvFrames(front)
      case Raises(e) => Raises(e)
      case Ok(d) =>
        if !IsCsv(u) then Ok(d)
        else if u.csv.None? then Raises(ParseError)
        else Ok(Put(d, u.filename, u.csv.value))
  }

  /** Index `i` is the first ".csv" upload. */
  predicate FirstCsv(uploads: seq<Upload>, i: int) {
    0 <= i < |uploads| && IsCsv(uploads[i]) && forall j :: 0 <= j < i ==> !IsCsv(uploads[j])
  }

  /** Index `j` is the last ".csv" upload named `name`. */
  predicate LastNamed(uploads: seq<Upload>, name: string, j: int) {
    && 0 <= j < |uploads| && IsCsv(uploads[j]) && uploads[j].filename == name
    && forall l :: j < l < |uploads| && IsCsv(uploads[l]) ==> uploads[l].filename != name
  }

  /** One more upload extends the dict read from the ones before it. */
  lemma CsvFramesSnoc(front: seq<Upload>, u: Upload)
    ensures CsvFrames(front + [u]) ==
      match CsvFrames(front)
      case Raises(e) => Raises(e)
      case Ok(d) =>
        if !IsCsv(u) then Ok(d)
        else if u.csv.None? then Raises(ParseError)
        else Ok(Put(d, u.filename, u.csv.value))
  {
    assert (front + [u])[..|front|] == front;
  }

  /** The dict is empty exactly when no upload is a ".csv". */
  lemma {:induction false} FramesEmpty(uploads: seq<Upload>)
    requires CsvFrames(uploads).Ok?
    ensures |CsvFrames(uploads).value| == 0 <==> forall i :: 0 <= i < |uploads| ==> !IsCsv(uploads[i])
  {
    if |uploads| > 0 {
      var n := |uploads| - 1;
      var front := uploads[..n];
      assert uploads == front + [uploads[n]];
      CsvFramesSnoc(front, uploads[n]);
      FramesEmpty(front);
      assert forall i :: 0 <= i < n ==> uploads[i] == front[i];
    }
  }

  /** `list(dataframes.values())[0]` carries the name of the first ".csv" upload. */
  lemma {:induction false} FirstFrameName(uploads: seq<Upload>)
    requires CsvFrames(uploads).Ok? && |CsvFrames(uploads).value| > 0
    ensures exists i :: FirstCsv(uploads, i) && CsvFrames(uploads).value[0].0 == uploads[i].filename
  {
    var n := |uploads| - 1;
    var front := uploads[..n];
    var u := uploads[n];
    assert uploads == front + [u];
    CsvFramesSnoc(front, u);
    FramesEmpty(front);
    assert forall i :: 0 <= i < n ==> uploads[i] == front[i];
    var d0 := CsvFrames(front).value;
    if |d0| == 0 {
      assert FirstCsv(uploads, n);
    } else {
      FirstFrameName(front);
      var i :| FirstCsv(front, i) && d0[0].0 == front[i].filename;
      assert FirstCsv(uploads, i);
    }
  }

  /** ... and the table read from the last ".csv" upload of that name. */
  lemma {:induction false} FirstFrameTable(uploads: seq<Upload>)
    requires CsvFrames(uploads).Ok? && |CsvFrames(uploads).value| > 0
    ensures var d := CsvFrames(uploads).value;
      exists j :: LastNamed(uploads, d[0].0, j) && uploads[j].csv == Some(d[0].1)
  {
    var n := |uploads| - 1;
    var front := uploads[..n];
    var u := uploads[n];
    assert uploads == front + [u];
    CsvFramesSnoc(front, u);
    var d0 := CsvFrames(front).value;
    var d := CsvFrames(uploads).value;
    assert forall i :: 0 <= i < n ==> uploads[i] == front[i];
    if IsCsv(u) && (|d0| == 0 || d0[0].0 == u.filename) {
      assert LastNamed(uploads, d[0].0, n);
    } else {
      assert d[0] == d0[0];
      FirstFrameTable(front);
      var j :| LastNamed(front, d0[0].0, j) && front[j].csv == Some(d0[0].1);
      assert LastNamed(uploads, d[0].0, j);
    }
  }

  /** Assigning keeps every other entry and adds `(k, v)`. */
  lemma {:induction false} PutEntries(d: Frames, k: string, v: Table)
    ensures forall e :: e in Put(d, k, v) ==> e == (k, v) || e in d
  {
    if |d| > 0 && d[0].0 != k {
      PutEntries(d[1..], k, v);
      assert forall e :: e in d[1..] ==> e in d;
    }
  }

  /** Only ".csv" uploads become entries: each entry is the name and table of one of them. */
  lemma {:induction false} FramesFromCsv(uploads: seq<Upload>)
    requires CsvFrames(uploads).Ok?
    ensures forall e :: e in CsvFrames(uploads).value ==>
      exists i :: 0 <= i < |uploads| && IsCsv(uploads[i]) && uploads[i].filename == e.0 && uploads[i].csv == Some(e.1)
  {
    if |uploads| > 0 {
      var n := |uploads| - 1;
      var front := uploads[..n];
      var u := uploads[n];
      assert uploads == front + [u];
      CsvFramesSnoc(front, u);
      FramesFromCsv(front);
      assert forall i :: 0 <= i < n ==> uploads[i] == front[i];
      if IsCsv(u) {
        PutEntries(CsvFrames(front).value, u.filename, u.csv.value);
      }
    }
  }

  /** `list(dataframes.values())[0]`, when the dict is not empty. */
  lemma FirstFrame(uploads: seq<Upload>)
    requires CsvFrames(uploads).Ok?
    ensures var d := CsvFrames(uploads).value;
      && (|d| == 0 <==> forall i :: 0 <= i < |uploads| ==> !IsCsv(uploads[i]))
      && (|d| > 0 ==> exists i :: FirstCsv(uploads, i) && d[0].0 == uploads[i].filename)
      && (|d| > 0 ==> exists j :: LastNamed(uploads, d[0].0, j) && uploads[j].csv == Some(d[0].1))
  {
    FramesEmpty(uploads);
    if |CsvFrames(uploads).value| > 0 {
      FirstFrameName(uploads);
      FirstFrameTable(uploads);
    }
  }

  const WikipediaHost := "wikipedia.org"

  /** The loop over `urls` that stops at the first one containing "wikipedia.org". */
  function FirstWikipediaUrl(urls: seq<string>): (r: Option<string>)
    ensures r.None? <==> forall i :: 0 <= i < |urls| ==> !Contains(urls[i], WikipediaHost)
    ensures r.Some? ==> exists i :: (
      && 0 <= i < |urls| && urls[i] == r.value && Contains(r.value, WikipediaHost)
      && forall j :: 0 <= j < i ==> !Contains(urls[j], WikipediaHost))
  {
    if |urls| == 0 then None
    else if Contains(urls[0], WikipediaHost) then Some(urls[0])
    else
      var r := FirstWikipediaUrl(urls[1..]);
      assert forall i :: 1 <= i < |urls| ==> urls[i] == urls[1..][i - 1];
      if r.Some? then
        var i :| 0 <= i < |urls[1..]| && urls[1..][i] == r.value && Contains(r.value, WikipediaHost)
          && forall j :: 0 <= j < i ==> !Contains(urls[1..][j], WikipediaHost);
        assert urls[i + 1] == r.value;
        r
      else
        r
  }

  /** `scraping.scrape_wikipedia_table(url)`: the exception the fetch raises, or the first
      wikitable of the page, None when it has none. */
  type Scraper = string -> Result<Option<Table>>

  /** The scraped table, or None when no URL mentions Wikipedia. */
  function Scraped(text: string, scrape: Scraper): Result<Option<Table>> {
    match FirstWikipediaUrl(Urls.ExtractUrls(text))
    case None => Ok(None)
    case Some(url) => scrape(url)
  }

  /** `df_to_use`: a scraped table wins over the uploads; otherwise the first CSV; otherwise None. */
  function ResolveSource(text: string, uploads: seq<Upload>, scrape: Scraper): (r: Result<Option<Table>>)
    ensures CsvFrames(uploads).Raises? ==> r == Raises(ParseError)
    ensures CsvFrames(uploads).Ok? && Scraped(text, scrape).Raises? ==> r == Raises(Scraped(text, scrape).exc)
    ensures CsvFrames(uploads).Ok? && Scraped(text, scrape).Ok? ==> r.Ok?
    ensures r.Ok? && Scraped(text, scrape) != Ok(None) ==> r == Scraped(text, scrape)
    ensures r.Ok? && Scraped(text, scrape) == Ok(None) ==>
      (r.value.None? <==> forall i :: 0 <= i < |uploads| ==> !IsCsv(uploads[i]))
    ensures r.Ok? && Scraped(text, scrape) == Ok(None) && r.value.Some? ==>
      exists i, j :: FirstCsv(uploads, i) && LastNamed(uploads, uploads[i].filename, j) && uploads[j].csv == r.value
  {
    match CsvFrames(uploads)
    case Raises(e) => Raises(e)
    case Ok(frames) =>
      FirstFrame(uploads);
      match Scraped(text, scrape)
      case Raises(e) => Raises(e)
      case Ok(wiki) =>
        if wiki.Some? then Ok(wiki)
        else if |frames| > 0 then Ok(Some(frames[0].1))
        else Ok(None)
  }

  /** Only the first Wikipedia URL is scraped: scrapers that agree on it resolve alike. */
  lemma OnlyFirstWikipediaUrlScraped(text: string, uploads: seq<Upload>, s1: Scraper, s2: Scraper)
    requires var w := FirstWikipediaUrl(Urls.ExtractUrls(text)); w.Some? ==> s1(w.value) == s2(w.value)
    ensures ResolveSource(text, uploads, s1) == ResolveSource(text, uploads, s2)
  {
  }

  /** The response of `analyze_data`: exactly the list `answer_questions` returns. */
  function AnalyzeData(text: string, uploads: seq<Upload>, scrape: Scraper, render: Analysis.Renderer): (r: Result<seq<Answer>>)
    ensures ResolveSource(text, uploads, scrape).Raises? ==> r == Raises(ResolveSource(text, uploads, scrape).exc)
    ensures ResolveSource(text, uploads, scrape).Ok? ==>
      r == Analysis.AnswerQuestions(text, ResolveSource(text, uploads, scrape).value, render)
  {
    match ResolveSource(text, uploads, scrape)
    case Raises(e) => Raises(e)
    case Ok(t) => Analysis.AnswerQuestions(text, t, render)
  }
}
