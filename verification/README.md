# Billboard Hot 100 to playlist: a verified model of the resolution core

The program asks for a date, scrapes the Billboard Hot 100 chart of that
date, looks every (song, artist) pair up in the Spotify catalog and puts the
tracks it finds into a new playlist. Almost all of it is I/O. This project
models the deterministic parts of `src/main.rs` and proves their properties:

- `get_top_100` (module `Chart`): the chart address built from the date, and
  the zip of the song texts with the artist texts, each trimmed, followed by
  the `dbg!(&list[..10])` that panics on fewer than ten pairs. The HTTP
  request and the HTML parsing are a parameter `fetch: string -> Option<Page>`
  that gives, for a URL, the inner HTML of the nodes matched by the song and
  artist selectors (`None` when the request fails, which panics).
- Rust's `str::trim` (module `Text`), with `char::is_whitespace` written out
  as the Unicode White_Space set.
- Rust's `{}` formatting of an `i32` (module `Decimal`), with a reader that
  takes the text back, used to show that each formatted string carries its
  year (or year window) and the month/day text unambiguously, and the whole
  date when the month holds no separator.
- `get_songs_list` (module `Resolver`): for every chart entry in order, the
  ±2-year window, the search text, one search, and the `match` that appends
  the id of the first track, skips the entry when the reply holds no track
  (an empty page, a non-track result or an error) and panics when the first
  track has no id. The search is a parameter
  `search: string -> SearchOutcome`. The method is proved equal to a
  specification function `Resolve`; the lemmas show the result is the
  entries' first-hit ids in chart order.
- The playlist name in `create_playlist` (module `Playlist`).

The year is Rust's `i32` (`Base.Int32`). `year - 2` and `year + 2` are
checked as in a debug build: leaving the `i32` range panics
(`Panic.YearOverflow`). Every panic of the modelled code is returned as
`Err(Panic)`, since a panic ends the run.

The model follows the code as written:
- entries with an empty title or artist are kept, not dropped;
- a page on which the selectors match nothing is not a parse error of its own;
  it yields fewer than ten pairs and panics in the `dbg!` slice;
- a failed search is skipped like a search without results, not fatal;
- a first hit without an id panics, it is not skipped;
- the date goes into the URL as typed, with no zero padding;
- the track ids are added to the playlist in one call, with no chunking.

## Model

| member | source | states |
|---|---|---|
| `Chart.ChartUrl` | src/main.rs:55-58 | the chart address starts with the Hot 100 chart path and ends with `?rank=1` |
| `Chart.ChartUrlRoundTrip` | src/main.rs:55-58 | reading the address back gives the year and the text `month-day`, month and day verbatim without padding |
| `Chart.ChartUrlInjective` | src/main.rs:55-58 | for months without `-`, two dates share an address exactly when they are equal |
| `Chart.PairEntries` | src/main.rs:69-80 | the zip yields exactly `min(|songs|, |artists|)` entries, entry i being trimmed song i with trimmed artist i |
| `Chart.GetTop100` | src/main.rs:50-83 | a failed request panics; otherwise the result is the trimmed positional pairing of the page served at the chart address, and it panics exactly when fewer than ten pairs exist |
| `Text.Trim` | src/main.rs:76-77 | the trimmed text is the slice of the input between its first and last non-white-space characters: it starts and ends with non-white-space and every non-white-space character of the input lies inside it |
| `Text.TrimPadded` | src/main.rs:76-77 | trimming a trimmed text padded with white space on both sides returns that text unchanged |
| `Text.TrimIdempotent` | src/main.rs:76-77 | trimming twice equals trimming once |
| `Decimal.ParseIntToString` | src/main.rs:134-137 | the decimal text of an integer reads back as that integer and leaves the following text untouched |
| `Resolver.YearWindow` | src/main.rs:131-132 | the window exists exactly when `year ± 2` stays in `i32`; then its bounds are 4 apart, bracket the year strictly and are centred on it |
| `Resolver.SearchQueryTitleArtist` | src/main.rs:134-137 | everything before the last `:` of the search text is the title, ` artist:` and the artist, then ` year`, whatever the title and artist contain |
| `Resolver.SearchQueryYearFilter` | src/main.rs:134-137 | the year filter at the end of the search text reads back as exactly the window, whatever the title and artist contain |
| `Resolver.GetSongsList` | src/main.rs:120-170 | the loop returns `Resolve` of the entries: the panic or the accumulated id list |
| `Resolver.CollectAppended` | src/main.rs:126-169 | the accumulation ends without a panic exactly when no decision is a missing id, and then holds the appended ids in order |
| `Resolver.ResolveAppendEntry` | src/main.rs:152-166 | one more entry appends its first track's id after all earlier ids, adds nothing when the reply holds no track, and panics when that track has no id |
| `Resolver.SkippedEntryContributesNothing` | src/main.rs:152-166 | removing an entry whose reply holds no track (empty page, other result, error) leaves the result unchanged |
| `Resolver.ResolvedInChartOrder` | src/main.rs:126-169 | the resolved ids are the first-hit ids of strictly increasing entry positions, at most one per entry, and every entry not used got a reply without tracks |
| `Resolver.ResolveSucceedsIff` | src/main.rs:155-158 | the run ends without a panic exactly when no entry's first track lacks an id |
| `Resolver.ExampleQuery` | src/main.rs:131-137 | for a chart dated 2020 every search text ends in `year:2018-2022` |
| `Resolver.ExampleResolution` | src/main.rs:129-169 | a two-entry chart whose first search finds a track and whose second finds none resolves to that one id |
| `Playlist.PlaylistTitle` | src/main.rs:183 | the playlist name starts with `Top 100 from ` |
| `Playlist.PlaylistTitleRoundTrip` | src/main.rs:183 | reading the name back gives the year and the text `month day` verbatim |
| `Playlist.PlaylistTitleInjective` | src/main.rs:183 | for months without a space, two dates give the same name exactly when they are equal |

## Left out

- `main`, `get_date` and the reading of `src/.env`: console input, `i32`
  parsing by `unwrap` and configuration loading are I/O.
- `spot_login`: OAuth, token caching and the interactive prompt are library
  and network work.
- The GET request, `Html::parse_document` and the CSS selectors: the model
  takes the selectors' matches as given text (`Chart.Page`); HTML entities in
  the inner HTML are not decoded, as in the code. The panics of
  `Selector::parse` and of a missing configuration key are not modelled.
- The search call itself: `Resolver.GetSongsList` receives it as a function
  of the search text, which stands for a search with market US and at most
  three results; it assumes one run gets the same reply for the same text.
- `create_playlist`'s calls `user_playlist_create` (private, description
  "test list") and `playlist_add_items`: foreign network calls. Only the
  playlist name is modelled; the ids are passed on as the resolver returns
  them.
- Console output (`println!`, `dbg!`) and async scheduling; the loop is
  sequential.
- `Resolver.YearWindow`: models the debug-build overflow panic of
  `year - 2` and `year + 2`; a release build would wrap around instead.
