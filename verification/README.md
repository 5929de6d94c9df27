# Wavegrab downloader: a Dafny model of its decision logic

Wavegrab is a small command-line tool. It asks for an artist name and a number of videos, and
then searches YouTube for `<artist> songs` through the `yt_dlp` library. It downloads every
result whose title does not yet have an `.mp3` in the artist's folder under
`~/Downloads/Wavegrab Downloads/`. Everything it does beyond that is done by `yt_dlp`
(search, download, conversion to mp3 by ffmpeg) and by the operating system (folders, file
existence).

This project models the locally written logic of `main.py`:

- **Folder layout** (`create_artist_folder`). The artist folder is `<home>/Downloads/Wavegrab Downloads/<name>`,
  where `<name>` is the artist name with spaces turned into `_`. The path is joined the way
  POSIX `os.path.join` does it, so an artist name starting with `/` replaces the whole base path.
- **Search directive** (`build_search_query`). The directive is `ytsearch<n>:<artist> songs`,
  with `<n>` written the way Python's `str` writes an integer. A parser recovers `n` and the artist
  name from it, for every integer `n` and every artist name.
- **Count input** (`main`, lines 76-80). If `int()` fails, the count is 10. Any integer that
  parses is used as it is: nothing checks that it is positive.
- **Duplicate check** (`file_exists_for_song`). The folder is a set of file names. A song counts as
  present exactly when `<title>.mp3` is in that set. The match is exact.
- **Filter loop and download decision** (`main`, lines 90-105). A method with a `while` loop walks
  the search entries. It matches each entry by its stripped title, or by `unknown` when the title is
  missing. Duplicates are recorded as skipped. The `webpage_url` of every other entry is appended to
  the pending list. The download is called once, with the whole pending list, exactly when that
  list is not empty. An entry that is not a duplicate and has no `webpage_url` raises `KeyError`
  in the source. The model records this as an error at that index, and no download takes place.

Python's `str.strip()`, `str.replace` and `str(int)` are written out in module `PyStr`
(`pystr.dfy`). `Option` and `Result` live in `Wrappers` (`wrappers.dfy`). The model of `main.py`
is module `Wavegrab` (`wavegrab.dfy`).

`main.py` has only this artist-search flow: one artist, one search, at most one download. It never
checks that the count is positive, and the search directive always starts with the literal `ytsearch`.

## Model

| member | source | states |
|---|---|---|
| PyStr.SkipSpaceForward | main.py:94 | the left scan of `strip()` passes only whitespace and stops at the first non-whitespace character or at the end |
| PyStr.SkipSpaceBackward | main.py:94 | the right scan of `strip()` passes only whitespace, never crosses the left end, and stops just after the last non-whitespace character |
| PyStr.Strip | main.py:94 | `strip()` returns a contiguous slice of the input; everything outside it is whitespace, and the slice is empty or neither starts nor ends with whitespace |
| PyStr.StripKeepsTrimmed | main.py:94 | a string that neither starts nor ends with whitespace is returned unchanged by `strip()` |
| PyStr.StripIdempotent | main.py:94 | stripping twice is the same as stripping once |
| PyStr.StripAllSpace | main.py:94 | a title made only of whitespace becomes the empty string (so the check looks for `.mp3`) |
| PyStr.ReplaceChar | main.py:14 | `replace` keeps the length, turns each occurrence of the old character into the new one, and leaves every other character alone |
| PyStr.NatToDecimal | main.py:24 | `str(n)` for `n >= 0` is a non-empty string of digits with no leading zero; the only numeral starting with `0` is `0` itself |
| PyStr.NatToDecimalValue | main.py:24 | the digits `str(n)` produces denote `n` |
| PyStr.IntToDecimal | main.py:24 | `str(n)` starts with `-` exactly when `n < 0`, every other character is a digit, and it is canonical: no leading zero after the sign, and `0` only as the whole numeral `0` |
| PyStr.DecimalRoundTrip | main.py:24 | parsing `str(n)` back gives `n`, for every integer `n` |
| Wavegrab.JoinPath | main.py:9-14 | `os.path.join(a, b)` ends with `b` and is `b` itself when `b` is absolute; otherwise it starts with `a`, and between the two there is exactly one `/`, or nothing when `a` is empty or already ends with `/` |
| Wavegrab.FolderName | main.py:14 | the folder name has the artist name's length, each space becomes `_`, every other character is unchanged, and it holds no space |
| Wavegrab.ArtistFolder | main.py:5-16 | the artist folder path always ends with the folder name, and starts with the home path unless the artist name starts with `/` |
| Wavegrab.ArtistFolderLayout | main.py:5-16 | for a home path without a trailing `/` and a relative artist name, the folder is exactly `<home>/Downloads/Wavegrab Downloads/<folder name>` |
| Wavegrab.ArtistFolderAbsoluteName | main.py:14 | an artist name starting with `/` makes the folder that name (spaces replaced), outside the base folder |
| Wavegrab.FolderNameMerges | main.py:14 | artist names that differ only by spaces versus underscores get the same folder |
| Wavegrab.BuildSearchQuery | main.py:19-24 | the directive starts with `ytsearch`, ends with the artist name followed by ` songs`, and has exactly the length of its parts |
| Wavegrab.SearchQueryRoundTrip | main.py:19-24 | reading the directive back gives the count and the artist name unchanged, for any integer count and any name |
| Wavegrab.SearchQueryInjective | main.py:19-24 | different (artist, count) pairs never produce the same directive |
| Wavegrab.MaxVideos | main.py:76-80 | a failed `int()` gives 10, a parsed integer is used as given (zero and negatives included) |
| Wavegrab.Mp3Name | main.py:65 | the expected file name is the title followed by exactly `.mp3`, four characters longer than the title |
| Wavegrab.FileExistsForSongMeans | main.py:60-66 | the check holds exactly when some name in the folder is the title followed by `.mp3` |
| Wavegrab.FileExistsIsExact | main.py:60-66 | against a folder holding `<stored>.mp3`, the check is true exactly when the title equals `stored`, with no case folding or normalisation |
| Wavegrab.EntriesOf | main.py:90 | a result without an `entries` key gives no entries; otherwise its entries are used as they are |
| Wavegrab.EntryKey | main.py:94 | a missing title is matched as `unknown`, a present title as that title stripped; every key is free of surrounding whitespace |
| Wavegrab.FilterStepOutcome | main.py:94-99 | one iteration raises exactly for a non-duplicate without a `webpage_url`; otherwise a duplicate's title is appended to the skipped list, or a non-duplicate's URL to the pending list, and the other list is unchanged |
| Wavegrab.Filter | main.py:91-99 | the loop over all entries either raises at an index inside the list or ends with the lengths of the pending and skipped lists adding up to the number of entries |
| Wavegrab.FilterErrorPersists | main.py:93-99 | once an entry has raised `KeyError`, the later entries do not change the outcome |
| Wavegrab.FilterEntries | main.py:91-99 | the loop's pending and skipped lists, or the `KeyError` that stops it, are those of the step-by-step filter over all entries |
| Wavegrab.IndicesSound | main.py:93-99 | each listed index is in range and has the requested duplicate status |
| Wavegrab.IndicesSorted | main.py:93-99 | the listed indices are strictly increasing, so they follow the order of the entries |
| Wavegrab.IndicesComplete | main.py:93-99 | every index with the requested duplicate status is listed |
| Wavegrab.IndicesListsExactly | main.py:93-99 | the index list is exactly the increasing list of indices of the duplicates (or of the non-duplicates) |
| Wavegrab.IndicesPartition | main.py:93-99 | every entry is either a duplicate or not: the two index lists together have one index per entry |
| Wavegrab.QueuedHaveUrlsSnoc | main.py:93-99 | the non-duplicate entries of a list all have a `webpage_url` exactly when those of all but the last entry do and the last one is a duplicate or has one |
| Wavegrab.FilterSucceedsIffUrls | main.py:93-99 | the loop completes, in both directions, exactly when every non-duplicate entry has a `webpage_url` |
| Wavegrab.FilterFailsAtFirstMissingUrl | main.py:93-99 | when the loop raises `KeyError`, it does so at a non-duplicate entry without a `webpage_url`, and every non-duplicate entry before it has one: it stops at the first such entry |
| Wavegrab.PendingAreQueuedUrls | main.py:91-99 | the pending list is the `webpage_url` of each non-duplicate entry, in the entries' order (an order-preserving subsequence) |
| Wavegrab.SkippedAreDuplicateTitles | main.py:93-97 | the skipped list is the stripped title of each duplicate entry, in the entries' order |
| Wavegrab.ArtistSearch | main.py:69-105 | one run uses the artist folder and exactly the directive `build_search_query` makes, which carries the artist name and the (default 10) count; it filters the entries the search returned for that directive against that folder; and it calls the download at most once, with the whole pending list, exactly when that list is non-empty |

## Left out

- The `yt_dlp` calls (`YoutubeDL`, `extract_info`, `download`) are not modelled. Searching is a function parameter from a directive to the optional `entries` list. A download call is recorded as the list of URLs it was given.
- `build_ydl_options` and `download_music` are not modelled. They build a fixed configuration for `yt_dlp` and hand it over, with no decision logic.
- `os.makedirs` is not modelled, so neither is the creation of the base and artist folders. The folder's contents are a function parameter from a path to a set of names.
- `os.path.expanduser("~")` is a parameter (the home directory).
- JoinPath follows POSIX `os.path.join`. The Windows rules (drive letters, `\` separators) are not modelled.
- FileExistsForSong: the file name `<title>.mp3` is treated as one opaque name inside the folder. A title that starts with `/` would make `os.path.join` check an absolute path instead. A title containing `/` would name a nested path. Neither case is modelled.
- The string parsing that `int()` does is not modelled. The count input is an `Option<int>`, with `None` for `ValueError`.
- Console prompts and messages are not modelled. The "Skipping duplicate" notices are the skipped list; the completion and "No new songs" messages are not modelled.
- A `title` key that is present but not a string would make `.strip()` raise. This is not modelled: a title is either a string or absent.
- Three inputs that Python handles differently are not modelled:
  - When `webpage_url` raises `KeyError`, the "Skipping duplicate" notices already printed are not kept: the outcome is only the error.
  - A `webpage_url` that is present but `None` is appended as `None` in Python. The model has no such value.
  - An `entries` value of `None` makes the `for` loop raise `TypeError`. An absent key gives an empty list, but a present `None` is not modelled.
- Exceptions raised by `yt_dlp` or the filesystem are not modelled. The one exception modelled is the `KeyError` for a missing `webpage_url`.
