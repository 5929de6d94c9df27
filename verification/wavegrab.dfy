/**
 * The decision logic of main.py: where an artist's songs are stored, the
 * search directive handed to the downloader, the duplicate check against the
 * artist folder, and the loop in `main` that splits the search results into
 * skipped duplicates and URLs to download, followed by the single download
 * call.
 *
 * The downloader library and the filesystem are not modelled; they appear as
 * parameters: the home directory, a function giving the names present in a
 * folder, and a function giving the entries a search directive returns.
 */
module Wavegrab {
  import opened Wrappers
  import opened PyStr

  const DownloadsDir := "Downloads"
  const BaseDir := "Wavegrab Downloads"
  const SearchPrefix := "ytsearch"
  const QuerySuffix := " songs"
  const Mp3Extension := ".mp3"
  const UnknownTitle := "unknown"
  const DefaultMaxVideos := 10

  // ---------------------------------------------------------------------------
  // Folder layout (create_artist_folder)
  // ---------------------------------------------------------------------------

  /**
   * `os.path.join(a, b)` on a POSIX host: an absolute `b` replaces `a`;
   * otherwise `b` is appended, with a `/` in between unless `a` is empty or
   * already ends with one.
   */
  function JoinPath(a: string, b: string): (r: string)
    ensures |b| > 0 && b[0] == '/' ==> r == b
    ensures (|b| == 0 || b[0] != '/') ==> |a| <= |r| && r[..|a|] == a
    ensures |b| <= |r| && r[|r| - |b|..] == b
    ensures (|b| == 0 || b[0] != '/') ==>
      |r| == |a| + |b| + (if a == [] || a[|a| - 1] == '/' then 0 else 1)
    ensures (|b| == 0 || b[0] != '/') && a != [] && a[|a| - 1] != '/' ==> r[|a|] == '/'
  {
    if |b| > 0 && b[0] == '/' then b
    else if a == [] || a[|a| - 1] == '/' then a + b
    else a + "/" + b
  }

  /** The artist's folder name: the artist name with every space replaced by `_`. */
  function FolderName(artistName: string): (r: string)
    ensures |r| == |artistName|
    ensures forall i :: 0 <= i < |r| ==> r[i] == if artistName[i] == ' ' then '_' else artistName[i]
    ensures forall i :: 0 <= i < |r| ==> r[i] != ' '
  {
    ReplaceChar(artistName, ' ', '_')
  }

  /** The path `create_artist_folder` returns for `artistName`, given the home directory. */
  function ArtistFolder(home: string, artistName: string): (r: string)
    ensures |FolderName(artistName)| <= |r| && r[|r| - |artistName|..] == FolderName(artistName)
    ensures artistName == [] || artistName[0] != '/' ==>
      |home| < |r| && r[..|home|] == home
  {
    JoinPath(JoinPath(JoinPath(home, DownloadsDir), BaseDir), FolderName(artistName))
  }

  /**
   * For a home directory without a trailing `/` and an artist name that does
   * not start with `/`, the artist folder is
   * `<home>/Downloads/Wavegrab Downloads/<folder name>`.
   */
  lemma ArtistFolderLayout(home: string, artistName: string)
    requires home != [] && home[|home| - 1] != '/'
    requires artistName == [] || artistName[0] != '/'
    ensures ArtistFolder(home, artistName)
            == home + "/" + DownloadsDir + "/" + BaseDir + "/" + FolderName(artistName)
  {
  }

  /** An artist name starting with `/` is an absolute path and replaces the whole base folder. */
  lemma ArtistFolderAbsoluteName(home: string, artistName: string)
    requires artistName != [] && artistName[0] == '/'
    ensures ArtistFolder(home, artistName) == FolderName(artistName)
  {
  }

  /** Two artist names that differ only in spaces versus underscores share a folder. */
  lemma FolderNameMerges(a: string, b: string)
    requires |a| == |b|
    requires forall i :: 0 <= i < |a| ==> a[i] == b[i] || (a[i] in {' ', '_'} && b[i] in {' ', '_'})
    ensures FolderName(a) == FolderName(b)
  {
  }

  // ---------------------------------------------------------------------------
  // Search directive (build_search_query)
  // ---------------------------------------------------------------------------

  /** `ytsearch<maxVideos>:<artistName> songs`, with `maxVideos` written by Python's `str`. */
  function BuildSearchQuery(artistName: string, maxVideos: int): (q: string)
    ensures |q| == |SearchPrefix| + |IntToDecimal(maxVideos)| + 1 + |artistName| + |QuerySuffix|
    ensures q[..|SearchPrefix|] == SearchPrefix
    ensures q[|q| - |QuerySuffix| - |artistName|..] == artistName + QuerySuffix
  {
    var query := artistName + QuerySuffix;
    SearchPrefix + IntToDecimal(maxVideos) + ":" + query
  }

  /** What a search directive asks for: how many results, and for which search terms. */
  datatype SearchDirective = SearchDirective(count: int, terms: string)

  /** Reads a `ytsearch<count>:<terms> songs` directive back; `None` for any other string. */
  function ParseSearchQuery(q: string): Option<SearchDirective> {
    if |q| < |SearchPrefix| || q[..|SearchPrefix|] != SearchPrefix then None
    else
      var rest := q[|SearchPrefix|..];
      var colon := IndexOf(rest, ':');
      if colon == |rest| then None
      else
        var tail := rest[colon + 1..];
        if |tail| < |QuerySuffix| || tail[|tail| - |QuerySuffix|..] != QuerySuffix then None
        else
          match ParseDecimal(rest[..colon])
          case None => None
          case Some(n) => Some(SearchDirective(n, tail[..|tail| - |QuerySuffix|]))
  }

  /**
   * The directive carries the count and the artist name unchanged: any
   * integer count (zero and negative ones included, as nothing checks it) and
   * any artist name, colons and spaces included.
   */
  lemma SearchQueryRoundTrip(artistName: string, maxVideos: int)
    ensures ParseSearchQuery(BuildSearchQuery(artistName, maxVideos))
            == Some(SearchDirective(maxVideos, artistName))
  {
    var q := BuildSearchQuery(artistName, maxVideos);
    var numeral := IntToDecimal(maxVideos);
    var rest := q[|SearchPrefix|..];
    assert rest == numeral + ":" + artistName + QuerySuffix;
    assert rest[|numeral|] == ':';
    assert IndexOf(rest, ':') == |numeral|;
    assert rest[..|numeral|] == numeral;
    var tail := rest[|numeral| + 1..];
    assert tail == artistName + QuerySuffix;
    assert tail[..|tail| - |QuerySuffix|] == artistName;
    DecimalRoundTrip(maxVideos);
  }

  /** Distinct (artist, count) pairs give distinct directives. */
  lemma SearchQueryInjective(a: string, n: int, b: string, m: int)
    requires BuildSearchQuery(a, n) == BuildSearchQuery(b, m)
    ensures a == b && n == m
  {
    SearchQueryRoundTrip(a, n);
    SearchQueryRoundTrip(b, m);
  }

  /** The count `main` uses: the parsed integer, or 10 when `int()` raised `ValueError`. */
  function MaxVideos(parsed: Option<int>): (n: int)
    ensures parsed.None? ==> n == DefaultMaxVideos
    ensures parsed.Some? ==> n == parsed.value
  {
    parsed.GetOr(DefaultMaxVideos)
  }

  // ---------------------------------------------------------------------------
  // Duplicate check (file_exists_for_song)
  // ---------------------------------------------------------------------------

  /** The file name the post-processor gives a song with this title. */
  function Mp3Name(title: string): (r: string)
    ensures |r| == |title| + 4
    ensures r[..|title|] == title && r[|title|..] == ".mp3"
  {
    title + Mp3Extension
  }

  /**
   * Whether the folder, given as the set of names it holds, already has
   * `<title>.mp3`: some name in it is exactly the title followed by `.mp3`.
   */
  predicate FileExistsForSong(title: string, names: set<string>) {
    Mp3Name(title) in names
  }

  /** The check holds exactly when some name in the folder is the title followed by `.mp3`. */
  lemma FileExistsForSongMeans(title: string, names: set<string>)
    ensures FileExistsForSong(title, names) <==>
      exists n :: n in names && |n| == |title| + 4 && n[..|title|] == title && n[|title|..] == ".mp3"
  {
    forall n | |n| == |title| + 4 && n[..|title|] == title && n[|title|..] == ".mp3" ensures n == Mp3Name(title) {
      assert n == n[..|title|] + n[|title|..];
    }
  }

  /**
   * Matching is exact: against a folder holding one song, the check succeeds
   * for that song's title and for no other string (no case folding, no
   * normalisation).
   */
  lemma FileExistsIsExact(title: string, stored: string)
    ensures FileExistsForSong(title, {Mp3Name(stored)}) <==> title == stored
  {
  }

  // ---------------------------------------------------------------------------
  // The filter loop in main
  // ---------------------------------------------------------------------------

  /** One search result: its `title` and `webpage_url` keys, either of which may be absent. */
  datatype Entry = Entry(title: Option<string>, webpageUrl: Option<string>)

  /** The entries as pending download URLs and the titles of skipped duplicates, in order. */
  datatype Split = Split(pending: seq<string>, skipped: seq<string>)

  /** `video["webpage_url"]` raised `KeyError` at this index of the entries. */
  datatype FilterError = MissingWebpageUrl(index: nat)

  /** `info.get("entries", [])`. */
  function EntriesOf(info: Option<seq<Entry>>): (r: seq<Entry>)
    ensures info.None? ==> r == []
    ensures info.Some? ==> r == info.value
  {
    info.GetOr([])
  }

  /** The title an entry is matched by: its `title`, or `unknown` when absent, stripped. */
  function EntryKey(e: Entry): (k: string)
    ensures e.title.None? ==> k == UnknownTitle
    ensures e.title.Some? ==> k == Strip(e.title.value)
    ensures k == [] || (!IsSpace(k[0]) && !IsSpace(k[|k| - 1]))
  {
    var t := e.title.GetOr(UnknownTitle);
    StripKeepsTrimmed(UnknownTitle);
    Strip(t)
  }

  predicate IsDuplicate(e: Entry, names: set<string>) {
    FileExistsForSong(EntryKey(e), names)
  }

  /** One iteration of the loop: the entry at `index` is skipped or queued, or raises `KeyError`. */
  function FilterStep(acc: Split, e: Entry, index: nat, names: set<string>): Result<Split, FilterError> {
    if IsDuplicate(e, names) then Ok(Split(acc.pending, acc.skipped + [EntryKey(e)]))
    else match e.webpageUrl
      case None => Err(MissingWebpageUrl(index))
      case Some(url) => Ok(Split(acc.pending + [url], acc.skipped))
  }

  /**
   * One step raises exactly for a non-duplicate without a `webpage_url`;
   * otherwise it appends the entry's title to the skipped list (duplicate) or
   * its URL to the pending list (not a duplicate), and leaves the other list alone.
   */
  lemma FilterStepOutcome(acc: Split, e: Entry, index: nat, names: set<string>)
    ensures var r := FilterStep(acc, e, index, names);
      && (r.Err? <==> !IsDuplicate(e, names) && e.webpageUrl.None?)
      && (r.Err? ==> r.error.index == index)
      && (r.Ok? && IsDuplicate(e, names) ==>
            r.value.pending == acc.pending && r.value.skipped == acc.skipped + [EntryKey(e)])
      && (r.Ok? && !IsDuplicate(e, names) ==>
            r.value.pending == acc.pending + [e.webpageUrl.value] && r.value.skipped == acc.skipped)
  {
  }

  /** The state after the loop has run over all of `entries`, or the error that ended it. */
  function Filter(entries: seq<Entry>, names: set<string>): (r: Result<Split, FilterError>)
    ensures r.Err? ==> r.error.index < |entries|
    ensures r.Ok? ==> |r.value.pending| + |r.value.skipped| == |entries|
    decreases |entries|
  {
    if entries == [] then Ok(Split([], []))
    else
      var n := |entries| - 1;
      match Filter(entries[..n], names)
      case Err(err) => Err(err)
      case Ok(acc) =>
        FilterStepOutcome(acc, entries[n], n, names);
        FilterStep(acc, entries[n], n, names)
  }

  /** Once the loop has raised, the entries after that point change nothing. */
  lemma {:induction false} FilterErrorPersists(entries: seq<Entry>, j: nat, names: set<string>)
    requires j <= |entries|
    requires Filter(entries[..j], names).Err?
    ensures Filter(entries, names) == Filter(entries[..j], names)
    decreases |entries|
  {
    if j < |entries| {
      var n := |entries| - 1;
      var prefix := entries[..n];
      assert Filter(prefix, names) == Filter(entries[..j], names) by {
        assert prefix[..j] == entries[..j];
        FilterErrorPersists(prefix, j, names);
      }
    } else {
      assert entries[..j] == entries;
    }
  }

  /** Lines 91-99 of main.py: the loop over the entries, appending to the pending list step by step. */
  method FilterEntries(entries: seq<Entry>, names: set<string>) returns (outcome: Result<Split, FilterError>)
    ensures outcome == Filter(entries, names)
  {
    var pending: seq<string> := [];
    var skipped: seq<string> := [];
    var i := 0;
    while i < |entries|
      invariant 0 <= i <= |entries|
      invariant Filter(entries[..i], names) == Ok(Split(pending, skipped))
    {
      var video := entries[i];
      var title := Strip(video.title.GetOr(UnknownTitle));
      assert entries[..i + 1][..i] == entries[..i];
      if FileExistsForSong(title, names) {
        skipped := skipped + [title];
      } else {
        match video.webpageUrl
        case None =>
          outcome := Err(MissingWebpageUrl(i));
          assert Filter(entries[..i + 1], names) == outcome;
          FilterErrorPersists(entries, i + 1, names);
          return;
        case Some(url) =>
          pending := pending + [url];
      }
      i := i + 1;
    }
    assert entries[..i] == entries;
    outcome := Ok(Split(pending, skipped));
  }

  // ---------------------------------------------------------------------------
  // What the loop computes, stated without the loop
  // ---------------------------------------------------------------------------

  /** The indices of the entries whose duplicate status is `dup`, in increasing order. */
  function Indices(entries: seq<Entry>, names: set<string>, dup: bool): seq<nat>
    decreases |entries|
  {
    if entries == [] then []
    else
      var n := |entries| - 1;
      Indices(entries[..n], names, dup) + (if IsDuplicate(entries[n], names) == dup then [n] else [])
  }

  /** `ix` lists, in strictly increasing order, exactly the indices of `entries` whose duplicate status is `dup`. */
  ghost predicate ListsExactly(ix: seq<nat>, entries: seq<Entry>, names: set<string>, dup: bool) {
    && (forall k :: 0 <= k < |ix| ==> ix[k] < |entries| && IsDuplicate(entries[ix[k]], names) == dup)
    && (forall k, l :: 0 <= k < l < |ix| ==> ix[k] < ix[l])
    && (forall i :: 0 <= i < |entries| && IsDuplicate(entries[i], names) == dup ==> i in ix)
  }

  /** Each listed index is in range and has the requested duplicate status. */
  lemma {:induction false} IndicesSound(entries: seq<Entry>, names: set<string>, dup: bool)
    ensures forall k :: 0 <= k < |Indices(entries, names, dup)| ==>
      Indices(entries, names, dup)[k] < |entries| &&
      IsDuplicate(entries[Indices(entries, names, dup)[k]], names) == dup
    decreases |entries|
  {
    if entries != [] {
      var n := |entries| - 1;
      var prefix := entries[..n];
      IndicesSound(prefix, names, dup);
      var px := Indices(prefix, names, dup);
      var ix := Indices(entries, names, dup);
      assert ix == px + (if IsDuplicate(entries[n], names) == dup then [n] else []);
      forall k | 0 <= k < |ix|
        ensures ix[k] < |entries| && IsDuplicate(entries[ix[k]], names) == dup
      {
        if k < |px| {
          assert ix[k] == px[k] && prefix[px[k]] == entries[px[k]];
        }
      }
    }
  }

  /** The listed indices are strictly increasing and below `|entries|`. */
  lemma {:induction false} IndicesSorted(entries: seq<Entry>, names: set<string>, dup: bool)
    ensures forall k, l :: 0 <= k < l < |Indices(entries, names, dup)| ==>
      Indices(entries, names, dup)[k] < Indices(entries, names, dup)[l]
    decreases |entries|
  {
    if entries != [] {
      var n := |entries| - 1;
      IndicesSorted(entries[..n], names, dup);
      IndicesSound(entries[..n], names, dup);
      var px := Indices(entries[..n], names, dup);
      var ix := Indices(entries, names, dup);
      assert ix == px + (if IsDuplicate(entries[n], names) == dup then [n] else []);
    }
  }

  /** Every index with the requested duplicate status is listed. */
  lemma {:induction false} IndicesComplete(entries: seq<Entry>, names: set<string>, dup: bool)
    ensures forall i :: 0 <= i < |entries| && IsDuplicate(entries[i], names) == dup ==>
      i in Indices(entries, names, dup)
    decreases |entries|
  {
    if entries != [] {
      var n := |entries| - 1;
      var prefix := entries[..n];
      IndicesComplete(prefix, names, dup);
      var px := Indices(prefix, names, dup);
      var ix := Indices(entries, names, dup);
      forall i | 0 <= i < |entries| && IsDuplicate(entries[i], names) == dup ensures i in ix {
        if i < n {
          assert prefix[i] == entries[i];
          assert i in px;
        } else {
          assert ix[|px|] == n;
        }
      }
    }
  }

  lemma IndicesListsExactly(entries: seq<Entry>, names: set<string>, dup: bool)
    ensures ListsExactly(Indices(entries, names, dup), entries, names, dup)
  {
    IndicesSound(entries, names, dup);
    IndicesSorted(entries, names, dup);
    IndicesComplete(entries, names, dup);
  }

  /** Every entry is in exactly one of the two index lists. */
  lemma {:induction false} IndicesPartition(entries: seq<Entry>, names: set<string>)
    ensures |Indices(entries, names, false)| + |Indices(entries, names, true)| == |entries|
    decreases |entries|
  {
    if entries != [] {
      IndicesPartition(entries[..|entries| - 1], names);
    }
  }

  /** Every entry that would be queued has a `webpage_url`. */
  ghost predicate QueuedHaveUrls(entries: seq<Entry>, names: set<string>) {
    forall i :: 0 <= i < |entries| && !IsDuplicate(entries[i], names) ==> entries[i].webpageUrl.Some?
  }

  /** `QueuedHaveUrls` over a non-empty list: over all but the last entry, and for the last one. */
  lemma QueuedHaveUrlsSnoc(entries: seq<Entry>, names: set<string>)
    requires entries != []
    ensures var n := |entries| - 1;
      QueuedHaveUrls(entries, names) <==>
        QueuedHaveUrls(entries[..n], names) && (IsDuplicate(entries[n], names) || entries[n].webpageUrl.Some?)
  {
  }

  /** The loop finishes exactly when every entry that is not a duplicate has a `webpage_url`. */
  lemma {:induction false} FilterSucceedsIffUrls(entries: seq<Entry>, names: set<string>)
    ensures Filter(entries, names).Ok? <==> QueuedHaveUrls(entries, names)
    decreases |entries|
  {
    if entries != [] {
      var n := |entries| - 1;
      FilterSucceedsIffUrls(entries[..n], names);
      QueuedHaveUrlsSnoc(entries, names);
    }
  }

  /**
   * When the loop raises, it does so at a non-duplicate entry without a
   * `webpage_url`, and every non-duplicate entry before it had one: it stops
   * at the first such entry.
   */
  lemma {:induction false} FilterFailsAtFirstMissingUrl(entries: seq<Entry>, names: set<string>)
    requires Filter(entries, names).Err?
    ensures Filter(entries, names).error.index < |entries|
    ensures !IsDuplicate(entries[Filter(entries, names).error.index], names)
    ensures entries[Filter(entries, names).error.index].webpageUrl.None?
    ensures QueuedHaveUrls(entries[..Filter(entries, names).error.index], names)
    decreases |entries|
  {
    var n := |entries| - 1;
    var prefix := entries[..n];
    if Filter(prefix, names).Err? {
      FilterFailsAtFirstMissingUrl(prefix, names);
      var i := Filter(prefix, names).error.index;
      assert prefix[..i] == entries[..i];
      assert prefix[i] == entries[i];
    } else {
      FilterSucceedsIffUrls(prefix, names);
      assert entries[..n] == prefix;
    }
  }

  /**
   * When the loop finishes, the pending list holds the `webpage_url` of each
   * entry that is not a duplicate, in the order of the entries.
   */
  lemma {:induction false} PendingAreQueuedUrls(entries: seq<Entry>, names: set<string>)
    requires Filter(entries, names).Ok?
    ensures |Filter(entries, names).value.pending| == |Indices(entries, names, false)|
    ensures forall k :: 0 <= k < |Indices(entries, names, false)| ==>
      Indices(entries, names, false)[k] < |entries| &&
      entries[Indices(entries, names, false)[k]].webpageUrl == Some(Filter(entries, names).value.pending[k])
    decreases |entries|
  {
    if entries != [] {
      var n := |entries| - 1;
      var prefix := entries[..n];
      PendingAreQueuedUrls(prefix, names);
      IndicesSound(prefix, names, false);
      var px := Indices(prefix, names, false);
      var ix := Indices(entries, names, false);
      var pp := Filter(prefix, names).value.pending;
      var p := Filter(entries, names).value.pending;
      assert ix == px + (if !IsDuplicate(entries[n], names) then [n] else []);
      assert p == pp + (if !IsDuplicate(entries[n], names) then [entries[n].webpageUrl.value] else []);
      forall k | 0 <= k < |ix| ensures ix[k] < |entries| && entries[ix[k]].webpageUrl == Some(p[k]) {
        if k < |px| {
          assert ix[k] == px[k] && p[k] == pp[k] && prefix[px[k]] == entries[px[k]];
        }
      }
    }
  }

  /**
   * When the loop finishes, the skipped list holds the stripped title of each
   * duplicate entry, in the order of the entries.
   */
  lemma {:induction false} SkippedAreDuplicateTitles(entries: seq<Entry>, names: set<string>)
    requires Filter(entries, names).Ok?
    ensures |Filter(entries, names).value.skipped| == |Indices(entries, names, true)|
    ensures forall k :: 0 <= k < |Indices(entries, names, true)| ==>
      Indices(entries, names, true)[k] < |entries| &&
      Filter(entries, names).value.skipped[k] == EntryKey(entries[Indices(entries, names, true)[k]])
    decreases |entries|
  {
    if entries != [] {
      var n := |entries| - 1;
      var prefix := entries[..n];
      SkippedAreDuplicateTitles(prefix, names);
      IndicesSound(prefix, names, true);
      var dx := Indices(prefix, names, true);
      var ix := Indices(entries, names, true);
      var ps := Filter(prefix, names).value.skipped;
      var sk := Filter(entries, names).value.skipped;
      assert ix == dx + (if IsDuplicate(entries[n], names) then [n] else []);
      assert sk == ps + (if IsDuplicate(entries[n], names) then [EntryKey(entries[n])] else []);
      forall k | 0 <= k < |ix| ensures ix[k] < |entries| && sk[k] == EntryKey(entries[ix[k]]) {
        if k < |dx| {
          assert ix[k] == dx[k] && sk[k] == ps[k] && prefix[dx[k]] == entries[dx[k]];
        }
      }
    }
  }

  // ---------------------------------------------------------------------------
  // main: the artist-search flow
  // ---------------------------------------------------------------------------

  /** What one run of `main` decided. */
  datatype Run = Run(
    folder: string,                           // the artist folder
    query: string,                            // the search directive
    outcome: Result<Split, FilterError>,      // the filter loop's result
    downloads: seq<seq<string>>)              // the URL lists `download_music` was called with

  /**
   * `main` for one artist. `parsedCount` is the result of `int()` on the
   * count typed in (`None` for `ValueError`); `search` gives the `entries` of
   * the metadata query for a directive (`None` when the key is absent);
   * `listing` gives the names present in a folder.
   */
  method ArtistSearch(
    home: string, artistName: string, parsedCount: Option<int>,
    search: string -> Option<seq<Entry>>, listing: string -> set<string>)
    returns (r: Run)
    ensures r.folder == ArtistFolder(home, artistName)
    ensures r.query == BuildSearchQuery(artistName, MaxVideos(parsedCount))
    ensures ParseSearchQuery(r.query) == Some(SearchDirective(MaxVideos(parsedCount), artistName))
    ensures r.outcome == Filter(EntriesOf(search(r.query)), listing(r.folder))
    ensures |r.downloads| <= 1
    ensures r.downloads != [] <==> r.outcome.Ok? && r.outcome.value.pending != []
    ensures r.downloads != [] ==> r.downloads[0] == r.outcome.value.pending
  {
    var maxVideos := MaxVideos(parsedCount);
    var folder := ArtistFolder(home, artistName);
    var query := BuildSearchQuery(artistName, maxVideos);
    SearchQueryRoundTrip(artistName, maxVideos);
    var entries := EntriesOf(search(query));
    var outcome := FilterEntries(entries, listing(folder));
    var downloads: seq<seq<string>> := [];
    if outcome.Ok? && outcome.value.pending != [] {
      downloads := downloads + [outcome.value.pending];
    }
    r := Run(folder, query, outcome, downloads);
  }
}
