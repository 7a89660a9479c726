/** `get_songs_list`: one catalog search per chart entry, in chart order,
    keeping the id of the first hit and skipping entries without one. */
module Resolver {
  import opened Base
  import opened Decimal

  /** An opaque catalog track id. */
  type TrackId = string

  /** The reply to one track search: a page of tracks (each with an id or
      without one), a result of another kind, or an error. */
  datatype SearchOutcome =
    | Tracks(items: seq<Option<TrackId>>)
    | OtherResult
    | SearchFailed

  /** What the loop does with one reply. */
  datatype Decision = Append(id: TrackId) | Skip | MissingId

  /** The ±2-year window around `year`, or `None` when `year - 2` or
      `year + 2` leaves the `i32` range (a panic in a debug build). */
  function YearWindow(year: Int32): (w: Option<(Int32, Int32)>)
    ensures w.Some? <==> MIN_INT32 + 2 <= year as int <= MAX_INT32 - 2
    ensures w.Some? ==> w.value.1 as int - w.value.0 as int == 4
    ensures w.Some? ==> w.value.0 < year < w.value.1
    ensures w.Some? ==> year as int - w.value.0 as int == w.value.1 as int - year as int
  {
    if year as int - 2 < MIN_INT32 || year as int + 2 > MAX_INT32 then None
    else Some((year - 2, year + 2))
  }

  /** The search text for one entry: the title, then an artist filter, then
      a year-range filter. */
  function SearchQuery(entry: Entry, window: (Int32, Int32)): string
  {
    entry.0 + " artist:" + entry.1 + " year:"
      + IntToString(window.0 as int) + "-" + IntToString(window.1 as int)
  }

  /** The text after the last occurrence of `c` in `s` (all of `s` when `c`
      does not occur). */
  function AfterLast(s: string, c: char): (t: string)
    ensures c !in t
  {
    if s == [] then []
    else if s[|s| - 1] == c then []
    else AfterLast(s[..|s| - 1], c) + [s[|s| - 1]]
  }

  /** The text before the last occurrence of `c` in `s` (empty when `c`
      does not occur). */
  function BeforeLast(s: string, c: char): (t: string)
    ensures |t| < |s| || (t == [] && s == [])
  {
    if s == [] then []
    else if s[|s| - 1] == c then s[..|s| - 1]
    else BeforeLast(s[..|s| - 1], c)
  }

  /** Reads the year-range filter at the end of a search text. */
  function YearFilter(query: string): Option<(int, int)>
  {
    match SplitLeadingInt(AfterLast(query, ':'), '-')
    case None => None
    case Some((low, rest)) =>
      match ParseLeadingInt(rest)
      case Some((high, tail)) => if tail == [] then Some((low, high)) else None
      case None => None
  }

  lemma {:induction false} AfterLastOf(p: string, c: char, w: string)
    requires c !in w
    ensures AfterLast(p + [c] + w, c) == w
    decreases |w|
  {
    var s := p + [c] + w;
    if w == [] {
      assert s[|s| - 1] == c;
    } else {
      var v := w[..|w| - 1];
      assert s[..|s| - 1] == p + [c] + v;
      AfterLastOf(p, c, v);
      assert w == v + [w[|w| - 1]];
    }
  }

  lemma {:induction false} BeforeLastOf(p: string, c: char, w: string)
    requires c !in w
    ensures BeforeLast(p + [c] + w, c) == p
    decreases |w|
  {
    var s := p + [c] + w;
    if w == [] {
      assert s[|s| - 1] == c;
      assert s[..|s| - 1] == p;
    } else {
      var v := w[..|w| - 1];
      assert s[..|s| - 1] == p + [c] + v;
      BeforeLastOf(p, c, v);
    }
  }

  /** The year-range text of a search text holds no `:` (it follows from
      the contracts of `IntToString`). */
  lemma YearRangeHasNoColon(window: (Int32, Int32))
    ensures ':' !in IntToString(window.0 as int) + "-" + IntToString(window.1 as int)
  {
  }

  /** Everything before the year-range filter of an entry's search text is
      the title, the artist filter with the artist, and the filter word
      " year", whatever the title and artist contain. */
  lemma SearchQueryTitleArtist(entry: Entry, window: (Int32, Int32))
    ensures BeforeLast(SearchQuery(entry, window), ':') == entry.0 + " artist:" + entry.1 + " year"
  {
    var w := IntToString(window.0 as int) + "-" + IntToString(window.1 as int);
    var p := entry.0 + " artist:" + entry.1 + " year";
    assert SearchQuery(entry, window) == p + [':'] + w;
    YearRangeHasNoColon(window);
    BeforeLastOf(p, ':', w);
  }

  /** The year-range filter of an entry's search text is exactly the window,
      whatever the title and artist contain. */
  lemma SearchQueryYearFilter(entry: Entry, window: (Int32, Int32))
    ensures YearFilter(SearchQuery(entry, window)) == Some((window.0 as int, window.1 as int))
  {
    var lo, hi := IntToString(window.0 as int), IntToString(window.1 as int);
    var w := lo + "-" + hi;
    var p := entry.0 + " artist:" + entry.1 + " year";
    assert SearchQuery(entry, window) == p + [':'] + w;
    YearRangeHasNoColon(window);
    AfterLastOf(p, ':', w);
    SplitIntToString(window.0 as int, '-', hi);
    ParseIntToString(window.1 as int, []);
    assert hi + [] == hi;
    assert w == lo + ['-'] + hi;
  }

  /** The loop body's `match` on one reply. */
  function Decide(outcome: SearchOutcome): Decision
  {
    match outcome
    case Tracks(items) =>
      if |items| == 0 then Skip
      else if items[0].Some? then Append(items[0].value)
      else MissingId
    case _ => Skip
  }

  /** The decision for every entry, given the year window. */
  function Decisions(entries: seq<Entry>, window: (Int32, Int32), search: string -> SearchOutcome): (ds: seq<Decision>)
    ensures |ds| == |entries|
    ensures forall i :: 0 <= i < |entries| ==> ds[i] == Decide(search(SearchQuery(entries[i], window)))
  {
    seq(|entries|, i requires 0 <= i < |entries| => Decide(search(SearchQuery(entries[i], window))))
  }

  /** The accumulated track list after a run of decisions, entry by entry:
      an id is appended, a skip adds nothing, a missing id panics. */
  function Collect(ds: seq<Decision>): Result<seq<TrackId>, Panic>
  {
    if ds == [] then Ok([])
    else
      match Collect(ds[..|ds| - 1])
      case Err(e) => Err(e)
      case Ok(ids) =>
        match ds[|ds| - 1]
        case Append(id) => Ok(ids + [id])
        case Skip => Ok(ids)
        case MissingId => Err(IdNotFound)
  }

  /** The result of resolving every chart entry of a chart dated in `year`.
      `search` stands for the catalog search (market US, at most 3 results). */
  function Resolve(entries: seq<Entry>, year: Int32, search: string -> SearchOutcome): Result<seq<TrackId>, Panic>
  {
    if entries == [] then Ok([])
    else
      match YearWindow(year)
      case None => Err(YearOverflow)
      case Some(w) => Collect(Decisions(entries, w, search))
  }

  /** Once the run has panicked, later entries change nothing. */
  lemma {:induction false} CollectErrPrefix(ds: seq<Decision>, k: nat)
    requires k <= |ds|
    requires Collect(ds[..k]).Err?
    ensures Collect(ds) == Collect(ds[..k])
    decreases |ds| - k
  {
    if k < |ds| {
      assert ds[..k + 1][..k] == ds[..k];
      CollectErrPrefix(ds, k + 1);
    } else {
      assert ds[..k] == ds;
    }
  }

  /** `get_songs_list`. */
  method GetSongsList(entries: seq<Entry>, year: Int32, search: string -> SearchOutcome)
    returns (r: Result<seq<TrackId>, Panic>)
    ensures r == Resolve(entries, year, search)
  {
    ghost var ds := if YearWindow(year).Some? then Decisions(entries, YearWindow(year).value, search) else [];
    var allTracks: seq<TrackId> := [];
    for i := 0 to |entries|
      invariant i > 0 ==> YearWindow(year).Some?
      invariant YearWindow(year).Some? ==> Collect(ds[..i]) == Ok(allTracks)
      invariant YearWindow(year).None? ==> allTracks == []
    {
      if year as int - 2 < MIN_INT32 || year as int + 2 > MAX_INT32 {
        return Err(YearOverflow);
      }
      var startDate := year - 2;
      var endDate := year + 2;
      var query := SearchQuery(entries[i], (startDate, endDate));
      var found := search(query);
      assert ds[i] == Decide(found);
      CollectStep(ds, i);
      match found {
        case Tracks(items) =>
          if |items| > 0 {
            match items[0] {
              case Some(id) =>
                allTracks := allTracks + [id];
              case None =>
                CollectErrPrefix(ds, i + 1);
                return Err(IdNotFound);
            }
          }
        case _ =>
      }
    }
    if entries != [] {
      assert ds[..|entries|] == ds;
    }
    r := Ok(allTracks);
  }

  /** One step of the accumulation. */
  lemma CollectStep(ds: seq<Decision>, i: nat)
    requires i < |ds|
    ensures Collect(ds[..i + 1]) ==
              match Collect(ds[..i])
              case Err(e) => Err(e)
              case Ok(ids) =>
                match ds[i]
                case Append(id) => Ok(ids + [id])
                case Skip => Ok(ids)
                case MissingId => Err(IdNotFound)
  {
    assert ds[..i + 1][..i] == ds[..i];
  }

  /** The reply holds at least one track and the first one has an id. */
  predicate FirstHitIs(outcome: SearchOutcome, id: TrackId) {
    outcome.Tracks? && |outcome.items| > 0 && outcome.items[0] == Some(id)
  }

  /** The reply holds no track: an empty page, another kind of result, or
      an error. */
  predicate NoHit(outcome: SearchOutcome) {
    !(outcome.Tracks? && |outcome.items| > 0)
  }

  /** The reply's first track has no id. */
  predicate HitWithoutId(outcome: SearchOutcome) {
    outcome.Tracks? && |outcome.items| > 0 && outcome.items[0].None?
  }

  /** Positions of the decisions that append an id, in increasing order. */
  function AppendPositions(ds: seq<Decision>): (idx: seq<nat>)
    ensures |idx| <= |ds|
    ensures forall k :: 0 <= k < |idx| ==> idx[k] < |ds| && ds[idx[k]].Append?
    ensures forall k, l :: 0 <= k < l < |idx| ==> idx[k] < idx[l]
    ensures forall i :: 0 <= i < |ds| && ds[i].Append? ==> i in idx
  {
    if ds == [] then []
    else
      var rest := AppendPositions(ds[..|ds| - 1]);
      if ds[|ds| - 1].Append? then rest + [|ds| - 1] else rest
  }

  /** A run that does not panic yields exactly the appended ids, in order;
      it does not panic exactly when no decision is a missing id. */
  lemma {:induction false} CollectAppended(ds: seq<Decision>)
    ensures Collect(ds).Ok? <==> forall i :: 0 <= i < |ds| ==> !ds[i].MissingId?
    ensures Collect(ds).Ok? ==>
              var ids, idx := Collect(ds).value, AppendPositions(ds);
              |ids| == |idx| && forall k :: 0 <= k < |idx| ==> ds[idx[k]] == Append(ids[k])
    decreases |ds|
  {
    if ds != [] {
      var init := ds[..|ds| - 1];
      CollectAppended(init);
      assert forall i :: 0 <= i < |init| ==> init[i] == ds[i];
    }
  }

  /** Collecting two runs one after the other. */
  lemma {:induction false} CollectConcat(p: seq<Decision>, q: seq<Decision>)
    ensures Collect(p + q) ==
              match Collect(p)
              case Err(e) => Err(e)
              case Ok(a) =>
                match Collect(q)
                case Err(e) => Err(e)
                case Ok(b) => Ok(a + b)
    decreases |q|
  {
    if q == [] {
      assert p + q == p;
      if Collect(p).Ok? {
        assert Collect(p).value + [] == Collect(p).value;
      }
    } else {
      var q' := q[..|q| - 1];
      assert (p + q)[..|p + q| - 1] == p + q';
      assert (p + q)[|p + q| - 1] == q[|q| - 1];
      CollectConcat(p, q');
      if Collect(p).Ok? && Collect(q').Ok? && q[|q| - 1].Append? {
        assert Collect(p).value + Collect(q').value + [q[|q| - 1].id]
            == Collect(p).value + (Collect(q').value + [q[|q| - 1].id]);
      }
    }
  }

  /** One more entry at the end of the chart: its first hit's id is
      appended after all earlier ids, a reply without tracks adds nothing,
      and a first hit without an id panics. */
  lemma ResolveAppendEntry(entries: seq<Entry>, entry: Entry, year: Int32, search: string -> SearchOutcome)
    requires YearWindow(year).Some?
    ensures var outcome := search(SearchQuery(entry, YearWindow(year).value));
            Resolve(entries + [entry], year, search) ==
              match Resolve(entries, year, search)
              case Err(e) => Err(e)
              case Ok(ids) =>
                if NoHit(outcome) then Ok(ids)
                else if HitWithoutId(outcome) then Err(IdNotFound)
                else Ok(ids + [outcome.items[0].value])
  {
    var w := YearWindow(year).value;
    var d0 := Decisions(entries, w, search);
    var d := Decide(search(SearchQuery(entry, w)));
    DecisionsConcat(entries, [entry], w, search);
    assert Decisions([entry], w, search) == [d];
    assert Resolve(entries, year, search) == Collect(d0);
    assert Resolve(entries + [entry], year, search) == Collect(d0 + [d]);
    CollectStep(d0 + [d], |d0|);
    assert (d0 + [d])[..|d0|] == d0;
    assert (d0 + [d])[..|d0| + 1] == d0 + [d];
  }

  /** The decisions for two runs of entries, one after the other. */
  lemma DecisionsConcat(a: seq<Entry>, b: seq<Entry>, w: (Int32, Int32), search: string -> SearchOutcome)
    ensures Decisions(a + b, w, search) == Decisions(a, w, search) + Decisions(b, w, search)
  {
    var ab := a + b;
    assert forall j :: 0 <= j < |a| ==> ab[j] == a[j];
    assert forall j :: |a| <= j < |ab| ==> ab[j] == b[j - |a|];
  }

  /** An entry whose search brings no track can be removed from the chart
      without changing the result: it neither adds an id nor shifts one. */
  lemma SkippedEntryContributesNothing(entries: seq<Entry>, i: nat, year: Int32, search: string -> SearchOutcome)
    requires i < |entries|
    requires YearWindow(year).Some?
    requires NoHit(search(SearchQuery(entries[i], YearWindow(year).value)))
    ensures Resolve(entries, year, search) == Resolve(entries[..i] + entries[i + 1..], year, search)
  {
    var w := YearWindow(year).value;
    var d := Decide(search(SearchQuery(entries[i], w)));
    var dp, dq := Decisions(entries[..i], w, search), Decisions(entries[i + 1..], w, search);
    DecisionsAround(entries, i, w, search);
    CollectDropSkip(dp, dq);
    if entries[..i] + entries[i + 1..] == [] {
      assert dp + dq == [];
    }
  }

  /** The decisions of a chart split around entry `i`, with and without it. */
  lemma DecisionsAround(entries: seq<Entry>, i: nat, w: (Int32, Int32), search: string -> SearchOutcome)
    requires i < |entries|
    ensures var dp, dq := Decisions(entries[..i], w, search), Decisions(entries[i + 1..], w, search);
            && Decisions(entries, w, search) == dp + [Decide(search(SearchQuery(entries[i], w)))] + dq
            && Decisions(entries[..i] + entries[i + 1..], w, search) == dp + dq
  {
    var p, q := entries[..i], entries[i + 1..];
    assert entries == p + [entries[i]] + q;
    DecisionsConcat(p, [entries[i]], w, search);
    DecisionsConcat(p + [entries[i]], q, w, search);
    DecisionsConcat(p, q, w, search);
  }

  /** A skip anywhere in a run of decisions changes nothing. */
  lemma CollectDropSkip(p: seq<Decision>, q: seq<Decision>)
    ensures Collect(p + [Skip] + q) == Collect(p + q)
  {
    CollectConcat(p, [Skip]);
    assert Collect([Skip]) == Ok([]);
    CollectConcat(p + [Skip], q);
    CollectConcat(p, q);
    if Collect(p).Ok? {
      assert Collect(p).value + [] == Collect(p).value;
    }
  }

  /** The resolved list is the chart's first-hit ids in chart order: entry
      positions `idx` rise strictly, the k-th id is the first hit of entry
      `idx[k]`, and every entry outside `idx` got a reply without tracks. */
  lemma ResolvedInChartOrder(entries: seq<Entry>, year: Int32, search: string -> SearchOutcome)
    requires YearWindow(year).Some?
    requires Resolve(entries, year, search).Ok?
    ensures var ids := Resolve(entries, year, search).value;
            var w := YearWindow(year).value;
            var idx := AppendPositions(Decisions(entries, w, search));
            && |ids| == |idx| <= |entries|
            && (forall k, l :: 0 <= k < l < |idx| ==> idx[k] < idx[l])
            && (forall k :: 0 <= k < |idx| ==>
                  idx[k] < |entries| && FirstHitIs(search(SearchQuery(entries[idx[k]], w)), ids[k]))
            && (forall i :: 0 <= i < |entries| && i !in idx ==>
                  NoHit(search(SearchQuery(entries[i], w))))
  {
    var w := YearWindow(year).value;
    var ds := Decisions(entries, w, search);
    CollectAppended(ds);
    if entries == [] {
      assert Resolve(entries, year, search).value == [];
    }
  }

  /** The run ends without a panic exactly when no entry's first hit lacks
      an id. */
  lemma ResolveSucceedsIff(entries: seq<Entry>, year: Int32, search: string -> SearchOutcome)
    requires YearWindow(year).Some?
    ensures Resolve(entries, year, search).Ok? <==>
              forall i :: 0 <= i < |entries| ==>
                !HitWithoutId(search(SearchQuery(entries[i], YearWindow(year).value)))
  {
    CollectAppended(Decisions(entries, YearWindow(year).value, search));
  }

  /** A search service for the example below: it finds one track for the
      query of "Song A" by "Artist X" in 2018-2022 and nothing otherwise. */
  function ExampleSearch(query: string): SearchOutcome {
    if query == SearchQuery(("Song A", "Artist X"), (2018, 2022)) then Tracks([Some("idA")]) else Tracks([])
  }

  /** Example: for a chart dated 2020 the year filter of every query reads
      "2018-2022" (Dafny evaluates the formatting of the literals itself). */
  lemma ExampleQuery(entry: Entry)
    ensures SearchQuery(entry, (2018, 2022)) == entry.0 + " artist:" + entry.1 + " year:2018-2022"
  {
  }

  /** The example service finds nothing for the second example entry: its
      query differs in the sixth character. */
  lemma ExampleReplyB()
    ensures ExampleSearch(SearchQuery(("Song B", "Artist Y"), (2018, 2022))) == Tracks([])
  {
    var a, b, w := ("Song A", "Artist X"), ("Song B", "Artist Y"), (2018, 2022);
    var tail := " artist:" + b.1 + " year:" + IntToString(2018) + "-" + IntToString(2022);
    var tailA := " artist:" + a.1 + " year:" + IntToString(2018) + "-" + IntToString(2022);
    assert SearchQuery(b, w) == b.0 + tail;
    assert SearchQuery(a, w) == a.0 + tailA;
    assert (b.0 + tail)[5] == 'B';
    assert (a.0 + tailA)[5] == 'A';
  }

  /** A two-entry chart for 2020 whose first search finds one track and
      whose second finds none resolves to that one track. */
  lemma ExampleResolution()
    ensures Resolve([("Song A", "Artist X"), ("Song B", "Artist Y")], 2020, ExampleSearch) == Ok(["idA"])
  {
    var a, b := ("Song A", "Artist X"), ("Song B", "Artist Y");
    assert YearWindow(2020) == Some((2018, 2022));
    ExampleReplyB();
    assert Resolve([], 2020, ExampleSearch) == Ok([]);
    ResolveAppendEntry([], a, 2020, ExampleSearch);
    assert [] + [a] == [a];
    assert [] + ["idA"] == ["idA"];
    assert Resolve([a], 2020, ExampleSearch) == Ok(["idA"]);
    ResolveAppendEntry([a], b, 2020, ExampleSearch);
    assert [a] + [b] == [a, b];
  }
}
