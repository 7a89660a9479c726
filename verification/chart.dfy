/** `get_top_100`: the chart page address for a date, and the pairing of the
    song and artist texts found on that page into chart entries. */
module Chart {
  import opened Base
  import opened Text
  import opened Decimal

  const CHART_URL_PREFIX: string := "https://www.billboard.com/charts/hot-100/"
  const CHART_URL_SUFFIX: string := "?rank=1"

  /** What the page fetched from a URL yields once parsed: the inner HTML of
      the nodes matched by the song selector and by the artist selector, each
      in document order. */
  datatype Page = Page(songs: seq<string>, artists: seq<string>)

  /** The address of the chart for `date`: year, month and day joined by
      `-`, month and day used exactly as given. */
  function ChartUrl(date: Date): (url: string)
    ensures |url| >= |CHART_URL_PREFIX| + |CHART_URL_SUFFIX|
    ensures url[..|CHART_URL_PREFIX|] == CHART_URL_PREFIX
    ensures url[|url| - |CHART_URL_SUFFIX|..] == CHART_URL_SUFFIX
  {
    var middle := IntToString(date.0 as int) + "-" + date.1 + "-" + date.2;
    Framed(CHART_URL_PREFIX, middle, CHART_URL_SUFFIX);
    CHART_URL_PREFIX + middle + CHART_URL_SUFFIX
  }

  /** Reads a chart address back into its year and its "month-day" text. */
  function DateOfChartUrl(url: string): Option<(int, string)>
  {
    var p, q := |CHART_URL_PREFIX|, |CHART_URL_SUFFIX|;
    if |url| >= p + q && url[..p] == CHART_URL_PREFIX && url[|url| - q..] == CHART_URL_SUFFIX
    then SplitLeadingInt(url[p..|url| - q], '-')
    else None
  }

  /** The chart address carries the year and the month and day text
      verbatim, in that order. */
  lemma ChartUrlRoundTrip(date: Date)
    ensures DateOfChartUrl(ChartUrl(date)) == Some((date.0 as int, date.1 + "-" + date.2))
  {
    var middle := IntToString(date.0 as int) + "-" + date.1 + "-" + date.2;
    assert ChartUrl(date) == CHART_URL_PREFIX + middle + CHART_URL_SUFFIX;
    Framed(CHART_URL_PREFIX, middle, CHART_URL_SUFFIX);
    SplitIntToString(date.0 as int, '-', date.1 + "-" + date.2);
    assert middle == IntToString(date.0 as int) + ['-'] + (date.1 + "-" + date.2);
  }

  /** Two dates whose month contains no `-` share a chart address exactly
      when they are the same date. */
  lemma ChartUrlInjective(d: Date, e: Date)
    requires '-' !in d.1 && '-' !in e.1
    ensures ChartUrl(d) == ChartUrl(e) <==> d == e
  {
    if ChartUrl(d) == ChartUrl(e) {
      ChartUrlRoundTrip(d);
      ChartUrlRoundTrip(e);
      assert d.1 + ['-'] + d.2 == e.1 + ['-'] + e.2;
      SplitAtSeparator(d.1, d.2, e.1, e.2, '-');
    }
  }

  /** The zip of the two match lists: entry `i` is song `i` and artist `i`,
      both trimmed; the longer list's surplus is dropped. */
  method PairEntries(songs: seq<string>, artists: seq<string>) returns (list: seq<Entry>)
    ensures |list| == Min(|songs|, |artists|)
    ensures forall i :: 0 <= i < |list| ==> list[i] == (Trim(songs[i]), Trim(artists[i]))
  {
    list := [];
    var n := Min(|songs|, |artists|);
    for i := 0 to n
      invariant |list| == i
      invariant forall j :: 0 <= j < i ==> list[j] == (Trim(songs[j]), Trim(artists[j]))
    {
      list := list + [(Trim(songs[i]), Trim(artists[i]))];
    }
  }

  /** `get_top_100`: fetch the chart page for `date`, pair its song and
      artist texts, and panic in `dbg!(&list[..10])` when fewer than ten
      pairs were found. `fetch` stands for the GET request and the parsing
      of its body; `None` is a failed request. */
  method GetTop100(date: Date, fetch: string -> Option<Page>) returns (r: Result<seq<Entry>, Panic>)
    ensures fetch(ChartUrl(date)).None? ==> r == Err(RequestFailed)
    ensures fetch(ChartUrl(date)).Some? ==>
              var page := fetch(ChartUrl(date)).value;
              var n := Min(|page.songs|, |page.artists|);
              && (r.Ok? <==> n >= 10)
              && (r.Err? ==> r.error == DebugSliceOutOfRange)
              && (r.Ok? ==> |r.value| == n)
              && (r.Ok? ==> forall i :: 0 <= i < n ==>
                              r.value[i] == (Trim(page.songs[i]), Trim(page.artists[i])))
  {
    var url := ChartUrl(date);
    var body := fetch(url);
    if body.None? {
      return Err(RequestFailed);
    }
    var list := PairEntries(body.value.songs, body.value.artists);
    if |list| < 10 {
      return Err(DebugSliceOutOfRange);
    }
    return Ok(list);
  }
}
