# image-messie: classification core in Dafny

image-messie copies photographs into a tree sorted by the date they were taken and
the camera that took them: `<destination>/<year>/<MM>_<MonthName>/<MODEL>/<file>`.
Files that cannot be classified go to `<destination>/UNKNOWN/<file>`. This project
models the decision logic of `messie.py`, the only part of the program with real
decisions in it, and proves what it does:

- `get_metadata` scans one image's EXIF tag map. The scan is the `GetMetadata` method,
  a loop that reassigns five optional variables. `Extract` is the function that
  specifies it, and `ExtractByLookup` restates that function as a lookup of the last
  `DateTime` (tag 306) and `Model` (tag 272) entries (TIFF Revision 6.0, Section 8).
- The date check goes through Python's `int()` (`PyInt.ParseInt`, with the base-10
  grammar for ASCII digits: surrounding whitespace, a sign and single underscores) and the range check of the `datetime`
  constructor (`Calendar`, with the Gregorian leap rule and years 1 to 9999). The month
  name comes from the English `%B` table.
- The classification (`Classifier.Classify`) and the target folder
  (`Classifier.TargetPath`). The folder is built with POSIX `os.path.join` semantics
  (`PosixPath.Join`, where an absolute part discards what came before it).
- NUL removal from the target path (`CopyRun.StripNul`).
- The main loop: the `RunStatistics` class holds the three counters, `ProcessFile` handles
  one file, and `Run` processes a sequence of file records.

What the fallback does: on an invalid date the code replaces only the month NAME, with
"January" (the name of the month of 2000-01-01). The year, month and day pieces stay as
the raw substrings, so `2023:13:05 10:00:00` lands in `dest/2023/13_January/MODEL`
(`Classifier.ExampleInvalidDate`). The warning the program prints at messie.py:86 says
the date is set to 2000-01-01. The model follows the code.
In the same way, a value of `DateTime` or `Model` that is not text does not become "unset".
A number under either tag fails at the slice or at `.upper()`, a tuple under `DateTime`
fails in `int()` with a `TypeError` that the `except ValueError` does not catch, and
undecodable bytes under `Model` fail in `.replace(' ', '_')`. `get_metadata` raises in each
case, and the bare `except` around the file catches that. The model has this as the
`Raised` outcome, which sends the file to `UNKNOWN`. Undecodable bytes under `DateTime`
are different: `get_metadata` returns normally, and the file still ends in `UNKNOWN` (see
`ExifMetadata.Value` under "## Left out").

## Model

| member | source | states |
|---|---|---|
| `PyStrings.Slice` | messie.py:79-81 | Python slicing with clamped bounds: the length is the clamped range and each character is the source character at that offset; short strings give short or empty pieces, never an error |
| `PyStrings.RemoveChar` | messie.py:154 | deleting a character leaves none of it and never lengthens the string |
| `PyStrings.RemoveCharKeeps` | messie.py:154 | only that character is deleted: every other character occurs as often as before |
| `PyStrings.RemoveCharConcat` | messie.py:154 | deletion distributes over concatenation, so kept characters stay in order |
| `PyStrings.RemoveCharIdempotent` | messie.py:154 | deleting twice equals deleting once |
| `PyInt.ParseStripped` | messie.py:84 | `int()` after stripping: an optional sign and digit groups; the value has no more digits than the text has characters |
| `PyInt.ParseInt` | messie.py:84 | `int()` of a string never yields a number with more digits than the string has characters, so a 4-character year and 2-character month and day stay far inside the `datetime` argument range |
| `PyInt.ParseIntAccepts` | messie.py:84 | whitespace as `int()` strips it (`str.isspace` without U+001C to U+001F), an optional `+` or `-`, digit groups with single underscores between digits, whitespace: `int()` accepts every such string and returns the signed value of the digits |
| `PyInt.SeparatorNotStripped` | messie.py:84 | U+001C followed by `5` is refused, because `int()` does not strip U+001C to U+001F |
| `PyInt.ParseIntShape` | messie.py:84 | conversely, every string `int()` accepts has that shape, and the value is the signed value of its digits |
| `PyInt.ParseIntDecimal` | messie.py:84 | `int()` of a zero-padded decimal rendering gives the number back |
| `Calendar.DaysInMonth` | messie.py:84 | each month has 28 to 31 days: 29 exactly for February of a leap year, 30 exactly for April, June, September and November, 31 exactly for the seven long months, so 28 for February of a common year |
| `Calendar.IsValidDate` | messie.py:84 | the arguments `datetime(y, m, d)` accepts: years 1 to 9999, months 1 to 12, days up to the month's length |
| `Calendar.LeapDay` | messie.py:84 | February 29 is a valid date exactly in leap years, and February 30 never |
| `Calendar.MonthName` | messie.py:89 | the `%B` name of a month is one of the twelve English month names |
| `Calendar.MonthNameInjective` | messie.py:89 | different months have different names |
| `ExifMetadata.MakeDate` | messie.py:84-87 | a date is produced exactly when `int()` accepts the three pieces and the numbers form a valid Gregorian date in years 1 to 9999, and it is made of those numbers |
| `ExifMetadata.DateOf` | messie.py:79-89 | the pieces are at most 4, 2 and 2 characters long, and the month name is one of the twelve English names |
| `ExifMetadata.DateOfPieces` | messie.py:79-81 | year, month and day are the characters at positions 0-3, 5-6 and 8-9, as far as the value reaches; they are never replaced |
| `ExifMetadata.DateOfMonthName` | messie.py:83-89 | when `int()` accepts all three pieces and they form a valid date, the month name is that of the parsed month; when `int()` or `datetime` raises `ValueError`, it is "January" |
| `ExifMetadata.DateOfFormatted` | messie.py:78-89 | a `YYYY:MM:DD` prefix of a valid date, followed by anything, yields the zero-padded pieces and that month's name |
| `ExifMetadata.NormalizeModel` | messie.py:93 | `upper()` followed by `replace(' ', '_')`; its properties are stated by the next three lemmas |
| `PyStrings.Upper` | messie.py:93 | `str.upper` keeps the length and upper-cases each character in place |
| `PyStrings.ReplaceChar` | messie.py:93 | `str.replace` of one character by another keeps the length and changes exactly the occurrences of that character |
| `ExifMetadata.NormalizeModelChars` | messie.py:91-93 | the normalised model keeps the length; each space becomes `_` and every other character is upper-cased; no space or lower-case letter remains |
| `ExifMetadata.NormalizeModelIdempotent` | messie.py:93 | normalising twice equals normalising once |
| `ExifMetadata.NormalizeModelExample` | messie.py:93 | "Canon EOS 5D" normalises to "CANON_EOS_5D" |
| `ExifMetadata.Absorb` | messie.py:70-93 | one turn of the loop raises exactly on a non-text `DateTime` or `Model` value; any other tag changes nothing; only `Model` changes the model and only `DateTime` changes the date fields |
| `ExifMetadata.Extract` | messie.py:65-94 | the loop over the tag map in iteration order, stopping at the first exception; `ExtractByLookup` states what it computes |
| `ExifMetadata.GetMetadata` | messie.py:61-94 | the loop over the tag map returns what `Extract` specifies, including the exception a non-text `DateTime` or `Model` value causes |
| `ExifMetadata.ExtractRaisedStays` | messie.py:70-93 | once an exception escapes, no later entry changes the outcome |
| `ExifMetadata.ExtractCongruent` | messie.py:70-93 | entries that follow two prefixes with equal outcomes lead to equal outcomes |
| `ExifMetadata.OtherTagIgnored` | messie.py:70-93 | an entry whose tag is neither `DateTime` nor `Model` changes nothing, wherever it appears |
| `ExifMetadata.SwapDistinctTags` | messie.py:70-93 | two entries with different tags give the same outcome in either order, so the iteration order of the tag map does not matter |
| `ExifMetadata.ExtractByLookup` | messie.py:65-94 | the scan raises exactly when a `DateTime` or `Model` value is not text; otherwise it returns the pieces and month name of the last `DateTime` text and the normalised last `Model` text |
| `ExifMetadata.DateFieldsTogether` | messie.py:65-93 | year, month, day and month name are all set or all unset, and they are set exactly when a `DateTime` text exists; the model is set exactly when a `Model` text exists |
| `ExifMetadata.AbsentTagsStayUnset` | messie.py:65-94 | without a `DateTime` tag the four date variables stay `None`; without a `Model` tag the model stays `None` |
| `PosixPath.JoinOne` | messie.py:142 | one step of `os.path.join`; its properties are stated by the lemmas below |
| `PosixPath.Join` | messie.py:142 | `os.path.join(a, *parts)` as left-to-right steps; its properties are stated by the lemmas below |
| `PosixPath.JoinEndsWithLastPart` | messie.py:142 | a joined path always ends with its last part |
| `PosixPath.JoinAppend` | messie.py:142 | joining in two steps equals joining once |
| `PosixPath.AbsolutePartResets` | messie.py:142 | a part that starts with `/` discards everything joined before it |
| `PosixPath.JoinOnePlain` | messie.py:142 | a plain part after a path without a trailing `/` gets exactly one `/` |
| `PosixPath.JoinPlain` | messie.py:142 | from a non-empty root without a trailing `/`, plain parts are appended in order, one `/` before each |
| `Classifier.Classify` | messie.py:130-141 | an unreadable file is never classified, and a classified file is a readable image whose scan raised nothing |
| `Classifier.TargetPath` | messie.py:128-142 | the `UNKNOWN` target or the dated target under the destination; `ClassifiedLayout` and `UnknownLayout` spell both out |
| `Classifier.ClassifyByTags` | messie.py:130-142 | a readable image is classified exactly when both a `DateTime` and a `Model` text are present and no such value is non-text; its folder comes from the last of each |
| `Classifier.ClassifyFormatted` | messie.py:134-142 | a valid `YYYY:MM:DD ...` date and a model classify the image under the zero-padded date, the month's name and the normalised model, in either tag order |
| `Classifier.TwoTagsLookup` | messie.py:70-93 | a tag map of one `DateTime` text and one `Model` text, in either order, raises nothing and yields both texts |
| `Classifier.ClassifiedLayout` | messie.py:142 | when year, `month_MonthName` and model are non-empty and contain no `/`, the target is year, `month_MonthName`, model, joined by `/`, directly under an empty or slash-terminated destination and after one `/` under any other |
| `Classifier.UnknownLayout` | messie.py:128 | the unclassified target is `UNKNOWN` directly under the destination, for empty, slash-terminated and plain destinations |
| `Classifier.ExampleValidDate` | messie.py:78-142 | `2023:07:15 10:00:00` and "Canon EOS 5D" give `dest/2023/07_July/CANON_EOS_5D` |
| `Classifier.ExampleInvalidDate` | messie.py:83-142 | `2023:13:05 10:00:00` gives `dest/2023/13_January/MODEL`: the pieces are kept and only the name falls back |
| `CopyRun.StripNul` | messie.py:154 | the cleaned path has no NUL and is no longer than the path |
| `CopyRun.StripNulClean` | messie.py:154 | the stripped path contains no NUL; a path without NUL is unchanged; stripping is idempotent |
| `CopyRun.StripNulDeletes` | messie.py:154 | an embedded NUL is simply removed: nothing after it is truncated |
| `CopyRun.PlacementOf` | messie.py:128-159 | a file is only reported in dry run and only copied outside it, and a copied file's folder has no NUL |
| `CopyRun.PlacementFolder` | messie.py:128-159 | unreadable or incomplete files go to `UNKNOWN`; the NUL strip happens only outside dry run; a copied file's folder has no NUL and the copy is `folder/name` |
| `CopyRun.PlacementsOfIndex` | messie.py:121-159 | the placements of a run are, position by position, the placements of its files |
| `CopyRun.CopiedFoldersClean` | messie.py:154 | outside dry run, no folder of the run holds a NUL |
| `CopyRun.TotalSize` | messie.py:123-124 | the sum of the sizes; `TotalsAdditive` and `TotalSizeIgnoresContent` state its properties |
| `CopyRun.CountClassified` | messie.py:137-145 | no more files are counted as images than there are files |
| `CopyRun.TotalsAdditive` | messie.py:124 | byte total and image count add up over consecutive runs of files |
| `CopyRun.TotalSizeIgnoresContent` | messie.py:123-124 | the byte total depends only on the sizes, whatever each file turned out to be |
| `CopyRun.RunStatistics.constructor` | messie.py:116-118 | all three counters start at zero |
| `CopyRun.RunStatistics.ProcessFile` | messie.py:121-159 | the size is always added; exactly one counter goes up, images for a classified file and non-images otherwise; the placement is the one `PlacementOf` gives |
| `CopyRun.Run` | messie.py:116-159 | after all files, the byte total is the sum of the sizes, the image count is the number of classified files, images plus non-images equals the file count, the placements are `PlacementsOf` the files, each file is placed as `PlacementOf` says, and outside dry run no folder has a NUL |

## Left out

- `parse_arguments` (messie.py:16-32): argument parsing is left out, including the usage text and the exit status 0 on bad arguments. `destination` and the dry-run flag are parameters.
- `read_files` (messie.py:35-42): the directory walk is left out. Its order comes from the operating system, so `Run` takes the files as a sequence in whatever order the walk gives.
- Pillow (`register_heif_opener`, `Image.open`, `getexif`): these are foreign calls. Their result is the input `Content`: either `OpenFailed` or a tag map, as a sequence of entries in the map's iteration order.
- `get_lat_lon` (messie.py:45-59): its result is never used. An exception it raises counts as part of `OpenFailed`, because the same `except` catches it.
- `ExifMetadata.Value`: a value is either decoded text or `NonText`. Bytes that do not decode stay `bytes` in the program. For `DateTime`, Python slices them and passes the byte pieces to `int()`. If `int()` raises `ValueError`, line 85 catches it and the month name falls back. If a `Model` text is also present, the later `os.path.join` raises after `total_images` was already incremented, so the file is counted as an image and as a non-image. Without a `Model` text, line 137 sends the file to `UNKNOWN` with a single count, as the model does. The model collapses every non-text `DateTime` or `Model` value into the `Raised` outcome. A non-text value of any other tag has no effect, as in the program.
- Tag names: Pillow's `TAGS` table is used only for its two entries `DateTime` (306) and `Model` (272). No other id is assumed to carry those names.
- `PyStrings.UpperChar`: `str.upper` is modelled for ASCII letters only. Unicode case mapping is not modelled, including mappings that change the length (such as `ß` to `SS`).
- `PyInt.ParseInt`: non-ASCII decimal digits (for example Arabic-Indic digits), which Python's `int()` also accepts, are not modelled. Neither is the limit of 4300 digits above which `int()` raises `ValueError`; the pieces here have at most 4 characters. The whitespace it strips is that of `int()`: `str.isspace` without U+001C to U+001F.
- `Calendar.MonthName`: `strftime("%B")` depends on the locale. It is modelled as the English (C locale) table.
- The filesystem is left out: `os.path.getsize` (which sits outside the `try` and can end the run), `mkdir`, `shutil.copy` and overwriting files with the same name. `Placement` records what would be created and copied.
- Console output, verbosity and the summary table are left out. So is the megabyte figure `round(bytes / 1048576, 2)`, which is floating point with round-half-even. `Summary` carries the exact byte total.
