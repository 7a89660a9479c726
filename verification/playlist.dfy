/** The name `create_playlist` gives the new playlist. */
module Playlist {
  import opened Base
  import opened Text
  import opened Decimal

  const TITLE_PREFIX: string := "Top 100 from "

  /** The playlist name for `date`: year, month and day separated by single
      spaces, month and day used exactly as given. */
  function PlaylistTitle(date: Date): (title: string)
    ensures |title| > |TITLE_PREFIX| && title[..|TITLE_PREFIX|] == TITLE_PREFIX
  {
    var rest := IntToString(date.0 as int) + " " + date.1 + " " + date.2;
    Framed(TITLE_PREFIX, rest, []);
    TITLE_PREFIX + rest
  }

  /** Reads a playlist name back into its year and its "month day" text. */
  function DateOfPlaylistTitle(title: string): Option<(int, string)>
  {
    var p := |TITLE_PREFIX|;
    if |title| >= p && title[..p] == TITLE_PREFIX then SplitLeadingInt(title[p..], ' ')
    else None
  }

  /** The playlist name carries the year and the month and day text
      verbatim, in that order. */
  lemma PlaylistTitleRoundTrip(date: Date)
    ensures DateOfPlaylistTitle(PlaylistTitle(date)) == Some((date.0 as int, date.1 + " " + date.2))
  {
    var rest := IntToString(date.0 as int) + " " + date.1 + " " + date.2;
    assert PlaylistTitle(date) == TITLE_PREFIX + rest;
    Framed(TITLE_PREFIX, rest, []);
    assert TITLE_PREFIX + rest + [] == TITLE_PREFIX + rest;
    SplitIntToString(date.0 as int, ' ', date.1 + " " + date.2);
    assert rest == IntToString(date.0 as int) + [' '] + (date.1 + " " + date.2);
  }

  /** Runs for two dates whose month contains no space get the same
      playlist name exactly when the dates are the same. */
  lemma PlaylistTitleInjective(d: Date, e: Date)
    requires ' ' !in d.1 && ' ' !in e.1
    ensures PlaylistTitle(d) == PlaylistTitle(e) <==> d == e
  {
    if PlaylistTitle(d) == PlaylistTitle(e) {
      PlaylistTitleRoundTrip(d);
      PlaylistTitleRoundTrip(e);
      assert d.1 + [' '] + d.2 == e.1 + [' '] + e.2;
      SplitAtSeparator(d.1, d.2, e.1, e.2, ' ');
    }
  }
}
