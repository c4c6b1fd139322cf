# sort-media-on-date, modelled in Dafny

`sort-media-on-date.py` walks an input folder. For every image it finds, it works out
the day the picture was taken and moves the file to `out_dir/YYYY/MM/DD/<name>`.

**Choosing the date**
- The date comes from the `Create Date` line that exiftool prints.
- If no such line exists, a fuzzy parse of the filename is used. That date is accepted only
  when its `YYYYMMDD` rendering appears literally in the name.
- Files dated after "now" are skipped.

**Moving the file**
- A move onto an existing file is refused.
- When the refused move's two files have equal SHA-1 digests, the source is deleted as a duplicate.
- When the digests differ, both files are left in place.

This project models that core as one Dafny module per concern:

| module | models |
|---|---|
| `Wrappers` | `Option`, used for every "may fail" result |
| `Text` | the Python `str` operations the script relies on: `in`, `split`, `strip`, `isspace`, and ASCII digit tests |
| `Dates` | naive and offset-aware datetimes; the `datetime` constructor's validity rules; naive comparison; zero-padded `%Y%m%d` and `%Y/%m/%d` renderings |
| `ExifDate` | `get_exif_creation_date` (see below) |
| `Resolve` | the body of `main` up to the choice of a date, with the image test, the fuzzy parser and the clock as inputs |
| `Placement` | `os.path.join` with `/` as separator; the destination folder and destination path |
| `FsModel` | the file system as a value (a map from path to bytes, plus a set of directories); the directory chain, the move and the 1024-byte read sequence as functions of it |
| `Fs` | classes `FileReader`, `Hasher` and `FileSystem`, whose methods update fields in place |
| `Pipeline` | one iteration of the main loop: `Process` specifies it, `ProcessFile` runs it on a `FileSystem` |

`ExifDate` covers `get_exif_creation_date`:
- the scan for the first tagged line;
- the `" : "` split and `strip()`;
- the two `strptime` formats, written as CPython's regular expressions, followed by the
  `datetime` constructor's checks.

The methods `GetHash` (chunked read loop), `CreateDirIfNotExist` (prefix loop) and `MoveFile`
(refusing rename, then compare digests) are each proved equal to a function in `FsModel`. The
lemmas about those functions state what the script promises.

Four behaviours of the script are kept as they are, not corrected:

- **A line containing `Create Date` but no `" : "`.** It raises IndexError. The script catches
  it in `main`, so the file ends as an error.
- **A timestamp with a `%z` suffix.** It parses to an offset-aware datetime. Comparing that
  with the naive `datetime.now()` raises TypeError, so such a file also ends as an error,
  never placed (`ExifDate.ZoneSuffixedParses`, `Resolve.ZoneSuffixedMetadataErrors`).
- **A failing `os.mkdir`.** It raises, for example when a file already holds the name. The
  directories created before it stay, and the file is not moved.
- **A vanished source file.** Its rename raises FileNotFoundError, which `move_file` does
  not catch, so the file ends as an error.

## Model

| member | source | states |
|---|---|---|
| Text.Find | sort-media-on-date.py:61 | the result is the first position where the searched text starts; no position at all when it occurs nowhere |
| Text.ContainsIff | sort-media-on-date.py:61 | `tag in line` holds exactly when some position of the line starts an occurrence of the tag |
| Text.SplitJoin | sort-media-on-date.py:65 | joining the pieces of `line.split(sep)` with `sep` gives back the line |
| Text.SplitPiecesFree | sort-media-on-date.py:65 | no piece of a split contains the separator |
| Text.SplitAfterFree | sort-media-on-date.py:65 | if a text has no separator, then the text, one separator and a rest split into that text followed by the pieces of the rest |
| Text.SplitLast | sort-media-on-date.py:28 | appending one `/` and a slash-free name to a path adds exactly one last piece to its split |
| Text.StripLeft | sort-media-on-date.py:65 | the result is a suffix of the input; it does not start with whitespace; everything removed is whitespace |
| Text.StripRight | sort-media-on-date.py:65 | the result is a prefix of the input; it does not end with whitespace; everything removed is whitespace |
| Text.StripPadded | sort-media-on-date.py:65 | `strip()` recovers any text with non-blank ends from whitespace padding on either side |
| Dates.LaterThanIsStrictTotalOrder | sort-media-on-date.py:126 | `>` on datetimes is irreflexive, asymmetric and transitive; two datetimes are ordered one way or the other, or denote the same instant |
| Dates.Pad2 | sort-media-on-date.py:18 | `%m`, `%d`, `%H`, `%M` and `%S` render as exactly two decimal digits denoting the field |
| Dates.Pad4 | sort-media-on-date.py:18 | `%Y` renders as exactly four decimal digits denoting the year |
| Dates.CompactDateSameDay | sort-media-on-date.py:119 | two datetimes have the same `%Y%m%d` rendering exactly when they fall on the same day |
| Dates.FolderDateSameDay | sort-media-on-date.py:18 | two datetimes have the same `%Y/%m/%d` rendering exactly when they fall on the same day |
| ExifDate.FirstTagged | sort-media-on-date.py:60-63 | the chosen line contains `Create Date`; no earlier line does; when there is no result, no line does |
| ExifDate.FirstTaggedIgnoresLater | sort-media-on-date.py:60-63 | once a tagged line exists, appending more lines does not change which line is chosen |
| ExifDate.LaterLinesIgnored | sort-media-on-date.py:60-71 | lines after a tagged line, such as Track Create Date or Media Create Date, never change the result |
| ExifDate.LinesNoDateIff | sort-media-on-date.py:60-71 | the scan of the output lines returns no date exactly when no line carries the tag |
| ExifDate.NoDateIff | sort-media-on-date.py:56-71 | the result is absent exactly when the output could not be decoded or no line carries the tag; every other case yields a date or raises |
| ExifDate.Year | sort-media-on-date.py:52 | `%Y` accepts exactly when four digits come first and no fifth digit follows; it reads them as the year they show and leaves the text after them |
| ExifDate.Number | sort-media-on-date.py:52 | a numeric field takes one or two leading digits, never followed by a further digit; its value is the number those digits show and lies in the field's range |
| ExifDate.Day | sort-media-on-date.py:52 | `%d` takes either a space and one digit 1-9, read as that digit, or one or two digits whose number lies in 1..31; no digit follows |
| ExifDate.Spaces | sort-media-on-date.py:52 | the space of the format accepts exactly when whitespace comes first, and takes the whole run of whitespace |
| ExifDate.YearReads | sort-media-on-date.py:52 | four digits followed by a non-digit or the end read as the number they show, leaving what follows |
| ExifDate.NumberReads | sort-media-on-date.py:52 | one or two digits in range, padded or not, followed by a non-digit or the end, read as the number they show |
| ExifDate.DayReads | sort-media-on-date.py:52 | a day written as one or two digits or as a space and a digit (such as `" 5"`) reads as the day it shows |
| ExifDate.SpacesRead | sort-media-on-date.py:52 | any non-empty run of whitespace is taken whole by the format's space |
| ExifDate.ScanDateReads | sort-media-on-date.py:52 | `%Y:%m:%d` reads a date with any accepted spelling of its fields back as those fields |
| ExifDate.ScanClockReads | sort-media-on-date.py:52 | `%H:%M:%S` reads a time with padded or unpadded fields back as those fields |
| ExifDate.ScanTimeReads | sort-media-on-date.py:52 | a whitespace run of any length and then a time read back as that time |
| ExifDate.ScanFieldsReads | sort-media-on-date.py:52-53 | every timestamp written with fields in range, padded or not and with any whitespace run before the time, reads back field by field and leaves exactly the text after the seconds |
| ExifDate.StrptimePlainReads | sort-media-on-date.py:68 | the plain format parses such a timestamp to the naive datetime of its fields exactly when the fields make a valid datetime, and fails otherwise |
| ExifDate.StrptimePlainRefusesSuffix | sort-media-on-date.py:68 | a timestamp followed by text that does not start with a digit fails the plain format: the text is left unconverted |
| ExifDate.StrptimeZoneReads | sort-media-on-date.py:71 | a timestamp followed by a zone parses under the `%z` format to the datetime of its fields with the offset the zone denotes, or fails when the zone or the date is invalid |
| ExifDate.ParseZone | sort-media-on-date.py:53 | an accepted `%z` offset is less than one day in size, and an accepted zone other than `Z` is at least five characters long and ends in a digit, so text after the zone (a lone `:`, say) is refused |
| ExifDate.ZoneSeconds | sort-media-on-date.py:53 | the optional seconds and fraction of `%z` come to less than a minute, and any accepted seconds text ends in a digit |
| ExifDate.FractionMicros | sort-media-on-date.py:53 | 1 to 6 fraction digits, padded on the right to microseconds, come to less than a second |
| ExifDate.ZoneTrailingColonRefused | sort-media-on-date.py:67-71 | a rendered timestamp followed by `+HH:MM:` parses under neither format |
| ExifDate.ZoneRendered | sort-media-on-date.py:53 | `+HHMM`, `+HH:MM` and their `-` forms read as the signed offset they show |
| ExifDate.ZoneSuffixedParses | sort-media-on-date.py:67-71 | a rendered timestamp followed by `+HH:MM` fails the plain format and parses with the `%z` one to the same wall-clock time, offset-aware, with that offset |
| ExifDate.ScanFields | sort-media-on-date.py:52-53 | the text left after the fields both formats share is strictly shorter than the input |
| ExifDate.Strptime | sort-media-on-date.py:67-71 | a parsed datetime has no microseconds; it is offset-aware exactly when the `%z` format was used |
| ExifDate.FormatsDisjoint | sort-media-on-date.py:67-71 | no string is accepted by both formats |
| ExifDate.AwareOnlyAfterPlainFails | sort-media-on-date.py:67-71 | a parsed date is offset-aware exactly when the plain format failed first |
| ExifDate.ParseRendered | sort-media-on-date.py:68 | round trip: parsing the `YYYY:MM:DD HH:MM:SS` rendering of a naive datetime gives back that datetime |
| ExifDate.NoSeparatorInExifText | sort-media-on-date.py:65 | a rendered timestamp, followed by any text without spaces, contains no `" : "` |
| ExifDate.SplitLabelValue | sort-media-on-date.py:65 | `caption : value` splits on `" : "` into exactly the caption and the value |
| ExifDate.TaggedLineDate | sort-media-on-date.py:64-68 | a line `caption : YYYY:MM:DD HH:MM:SS` yields exactly the datetime it shows |
| ExifDate.TaggedZoneLineDate | sort-media-on-date.py:64-71 | a line `caption : YYYY:MM:DD HH:MM:SS+HH:MM` yields the offset-aware datetime it shows |
| ExifDate.ZoneSuffixedOutputDate | sort-media-on-date.py:50-71 | exiftool output whose one line is a Create Date with a `+HH:MM` zone makes `get_exif_creation_date` return that offset-aware datetime |
| ExifDate.CreateDateLineExample | sort-media-on-date.py:64 | the line `Create Date                     : 2010:10:10 10:10:10` yields 2010-10-10 10:10:10 |
| Resolve.AcceptedOccursInName | sort-media-on-date.py:116-120 | an accepted filename date is the fuzzy parser's date, and its 8-character `%Y%m%d` rendering occurs at some position of the filename |
| Resolve.PlacedIff | sort-media-on-date.py:112-128 | a file is placed at date d exactly when it is an image, d is naive and not after now, and d is either the metadata date or, with no metadata date, the accepted filename date |
| Resolve.MetadataWins | sort-media-on-date.py:113-114 | with a metadata date the verdict does not depend on the filename or the fuzzy parser |
| Resolve.GateBoundary | sort-media-on-date.py:126-128 | a date equal to now is placed; a date after now is skipped |
| Resolve.AwareDateErrors | sort-media-on-date.py:126 | an offset-aware date, from the metadata or from the filename, ends in the naive/aware comparison error |
| Resolve.ZoneSuffixedMetadataErrors | sort-media-on-date.py:113-140 | an image whose exiftool output is a Create Date line with a `+HH:MM` zone is never placed: the comparison with the naive now raises, and the file ends as an error |
| Resolve.FilenameExample | sort-media-on-date.py:117-120 | `IMG_20230615_beach.jpg`, with no metadata date and a fuzzy date of 2023-06-15 not after now, is placed at that date |
| Placement.FolderShape | sort-media-on-date.py:131 | the folder is `out_dir`, a `/` unless `out_dir` already ends with one, and the zero-padded `YYYY/MM/DD` |
| Placement.PathShape | sort-media-on-date.py:136 | the destination is the folder, `/` and the unchanged filename, and its last `/`-separated component is the filename |
| Placement.SameFolderIffSameDay | sort-media-on-date.py:131 | two files get the same folder exactly when their dates fall on the same day |
| Placement.DestinationExample | sort-media-on-date.py:131-136 | `photo.jpg` dated 2010-10-10 with `out_dir` `out/` goes to folder `out/2010/10/10` and path `out/2010/10/10/photo.jpg` |
| FsModel.MakeDirs | sort-media-on-date.py:29-32 | files are untouched; existing directories stay; only candidates are added |
| FsModel.CandidatesChain | sort-media-on-date.py:28-30 | every candidate ends with `/`; each is a proper prefix of the next; the last is the whole path followed by `/` |
| FsModel.CandidatesArePrefixes | sort-media-on-date.py:30 | every candidate is a prefix of the path followed by `/` |
| FsModel.MakeDirsOkIff | sort-media-on-date.py:31-32 | the chain succeeds exactly when every missing candidate is not blocked by a file of the same name |
| FsModel.MakeDirsCreatesAll | sort-media-on-date.py:29-32 | after a successful chain the directories are exactly the old ones plus every candidate |
| FsModel.MakeDirsIdempotent | sort-media-on-date.py:26-33 | a second call on the same path changes nothing and reports the same result |
| FsModel.MakeDirsNothingMissing | sort-media-on-date.py:31 | when every candidate exists, nothing is created and the call succeeds |
| FsModel.MoveEffect | sort-media-on-date.py:91-98 | a successful rename moves the content and removes the source, and a rename onto the file's own path changes nothing; on equal digests the source is removed and the destination kept; on different digests or a missing source nothing changes; no other path changes in any case |
| FsModel.MoveKeepsContents | sort-media-on-date.py:91-98 | when equal digests of the source and the destination mean equal contents, every content present before the move is still present after it |
| FsModel.MoveOntoItself | sort-media-on-date.py:93 | a move onto the file's own path succeeds and leaves every file as it was |
| FsModel.SameContentSecondRemoved | sort-media-on-date.py:93-97 | of two same-content files moved to one destination, the first is renamed there and the second is deleted |
| FsModel.DifferentContentBothKept | sort-media-on-date.py:93-96 | of two files whose digests differ, moved to one destination, the first is renamed there and the second stays at its own path |
| FsModel.ReadChunksSpec | sort-media-on-date.py:83-87 | the reads reassemble the content; each holds at most 1024 bytes; all but the last two hold exactly 1024; only the last is empty; there is one read per started kilobyte, plus the final empty one |
| Fs.FileReader.Read | sort-media-on-date.py:86 | `read(1024)` returns the next at most 1024 bytes and advances the position |
| Fs.Hasher.Update | sort-media-on-date.py:87 | the hasher has been fed the old bytes followed by the chunk |
| Fs.Hasher.HexDigest | sort-media-on-date.py:89 | the digest is the digest function applied to all bytes fed |
| Fs.FileSystem.IsDir | sort-media-on-date.py:31 | true exactly for existing directories |
| Fs.FileSystem.MakeDir | sort-media-on-date.py:32 | `mkdir` succeeds exactly when the name is neither a directory nor blocked by a file, and adds only that directory |
| Fs.FileSystem.Open | sort-media-on-date.py:80 | opening fails exactly for a missing file; otherwise the reader holds the file's bytes at position 0 |
| Fs.FileSystem.GetHash | sort-media-on-date.py:74-89 | the digest is the digest function of the whole file; the reads made are exactly ReadChunks of the content |
| Fs.ReadInvariantStep | sort-media-on-date.py:84-87 | one read keeps the loop's account: the bytes hashed are the bytes read, and the reads made plus the reads to come are all the reads |
| Fs.FileSystem.Rename | sort-media-on-date.py:93 | a rename onto another existing path is refused; a missing source is reported; otherwise the content moves, and a rename onto the file's own path changes nothing |
| Fs.FileSystem.Remove | sort-media-on-date.py:97 | only the named file disappears |
| Fs.FileSystem.CreateDirIfNotExist | sort-media-on-date.py:26-33 | the new state and the result are those of MakeDirs over the path's candidates |
| Fs.FileSystem.MoveFile | sort-media-on-date.py:91-98 | the outcome and the new files are those of MoveOutcomeOf and AfterMove, and the directories do not change |
| Pipeline.ProcessFile | sort-media-on-date.py:108-141 | the new state and the outcome of one loop iteration are those of Process |
| Pipeline.PlaceFile | sort-media-on-date.py:131-137 | creating the folder and moving the file give the state and outcome of PlaceInto |
| Pipeline.UnplacedChangesNothing | sort-media-on-date.py:112-128 | a file that is not placed leaves the file system unchanged |
| Pipeline.PlacedDirectories | sort-media-on-date.py:134 | placing a file only adds directories, and only the folder's candidates |
| Pipeline.PlacedFiles | sort-media-on-date.py:136-137 | placing a file changes no path except the file and its destination; a moved file lands at the destination with its content |
| Pipeline.SameDayCreatesNoMoreDirectories | sort-media-on-date.py:131-134 | after one file's folder chain was created, a second file of the same day creates no directory and does not fail |
| Pipeline.PlacedIntoFreeDestination | sort-media-on-date.py:112-137 | a placed file with a creatable folder and a free destination is renamed there, and no other file changes |
| Pipeline.PlacedFileLands | sort-media-on-date.py:131-137 | a file placed at d either lands at `out_dir/YYYY/MM/DD/<name>` with its content and leaves its old path, or is removed as a duplicate of a same-digest file already there, or no file changes because the destination holds another file, the folder could not be made or the source vanished; the directories gained are only the folder's chain, and the whole chain unless a `mkdir` failed |
| Pipeline.PhotoEndToEnd | sort-media-on-date.py:109-137 | `in/photo.jpg` with metadata date 2010:10:10 10:10:10 and `out_dir` `out/` ends up as the only file, `out/2010/10/10/photo.jpg`, with its content |
| ExifDate.OutputLines | sort-media-on-date.py:44-47 | defines the output's lines: the decoded text split at `\n`, or none when decoding fails |
| ExifDate.TagValue | sort-media-on-date.py:65 | defines the value of a tagged line: the second `" : "` piece, stripped, or the IndexError of a line without one |
| ExifDate.LineDate | sort-media-on-date.py:64-71 | defines the result of the first tagged line: its parsed datetime, or the IndexError or ValueError it raises |
| ExifDate.LinesDate | sort-media-on-date.py:60-71 | defines the line scan: the first tagged line decides, and no tagged line means no date |
| ExifDate.ExifCreationDate | sort-media-on-date.py:50-71 | defines `get_exif_creation_date` on the tool's output |
| ExifDate.ParseTimestamp | sort-media-on-date.py:67-71 | defines the two `strptime` attempts: the plain format, and the `%z` format only when the plain one fails |
| Text.Split | sort-media-on-date.py:65 | defines `str.split` with a literal separator |
| Text.Strip | sort-media-on-date.py:65 | defines `str.strip()` |
| Text.Contains | sort-media-on-date.py:61 | defines the `in` test on strings |
| Resolve.FilenameDate | sort-media-on-date.py:116-123 | defines the filename fallback: the fuzzy date, kept only when its `%Y%m%d` rendering occurs in the name |
| Resolve.Gate | sort-media-on-date.py:126-128 | defines `creation_date > datetime.now()`: an aware date raises, a later one is skipped |
| Resolve.ResolveDate | sort-media-on-date.py:112-128 | defines the choice of a date for one walked file |
| Dates.LaterThan | sort-media-on-date.py:126 | defines `>` on naive datetimes, field by field |
| Dates.CompactDate | sort-media-on-date.py:119 | defines `strftime(d, '%Y%m%d')` |
| Dates.FolderDate | sort-media-on-date.py:131 | defines `strftime(d, FOLDER_FORMAT)` |
| Placement.JoinPath | sort-media-on-date.py:136 | defines `os.path.join` on two POSIX paths |
| Placement.DestinationFolder | sort-media-on-date.py:131 | defines `selected_folder` |
| Placement.DestinationPath | sort-media-on-date.py:136 | defines `f_new` |
| FsModel.SlashJoined | sort-media-on-date.py:30 | defines `''.join(f"{dir}/" for dir in ...)` |
| FsModel.MoveOutcomeOf | sort-media-on-date.py:91-98 | defines how `move_file` ends: moved, duplicate removed, collision kept, or the uncaught FileNotFoundError |
| FsModel.AfterMove | sort-media-on-date.py:91-98 | defines the files after each ending of `move_file` |
| FsModel.ReadChunks | sort-media-on-date.py:83-87 | defines the sequence of `read(1024)` results until the empty read |
| Pipeline.Process | sort-media-on-date.py:108-141 | defines one iteration of the main loop on the file-system state |
| Pipeline.PlaceInto | sort-media-on-date.py:131-137 | defines creating the folder chain and moving the file into it |

## Left out

- The `input()` prompts for the input and output folders (lines 15-16) are not modelled. Both folders are parameters, and the prompts' defaults are not modelled.
- The `os.walk` traversal and the unused subdirectory loop (lines 102-106) are not modelled. The model handles one walked file, given its directory and name. So running the whole sorter twice is not modelled: only each single file's effect is.
- Spawning exiftool and reading its output (lines 37-41) are not modelled. The output is an input: either a decoded text or undecodable.
- `filetype.is_image` is an input boolean. The fuzzy `dateutil` parser is an input function, which either raises or returns a datetime. `datetime.now()` is an input naive datetime.
- SHA-1 is an input function from bytes to a digest string. The hasher's state is the bytes fed so far.
- `printerr`, the console messages and the `errors.txt` write (lines 22-24 and 144-146) are not modelled. `error_log += ...` only rebinds a parameter, so the log file is always empty.
- Text.IsDigit and ExifDate.DigitRun: the model's `\d` covers only ASCII digits; Python's also matches other Unicode decimal digits.
- Placement.JoinPath: `os.path.join` is the POSIX version. The script's Windows defaults (`media\`, `out\`) and Windows path rules are not modelled. Paths are not normalised, so `a//b` and `a/b` are different paths.
- Fs.FileSystem.Rename: `os.rename` is assumed to refuse another existing destination, as on Windows. On POSIX it overwrites silently, and the duplicate check never runs. A rename of a file onto its own path succeeds and changes nothing, as POSIX `rename` does.
- FsModel.MakeDirs: a directory is identified by its path followed by `/`, which is how the candidates name it. Two cases are not modelled: an existing directory recorded under another spelling, and the root `/` always existing for an absolute `out_dir`.
- Fs.FileSystem.Rename: a rename onto an existing directory, and a missing parent directory of the destination, are not modelled.
- Dates.Pad4: `%Y` is rendered with four digits. For years below 1000 the C library's `strftime` may not pad, depending on the platform.
- Resolve.FilenameDate: the fuzzy parser's result is taken as given. The model does not say which filenames yield which dates.
- ExifDate.ParseZone: `%z` also accepts seconds and fractions (`+HHMM[SS[.ffffff]]`). The model follows them, but only the `HHMM` and `HH:MM` forms are proved to read correctly (ExifDate.ZoneRendered).
- ExifDate.Strptime: the read lemmas cover timestamps written in the shape the formats accept. That every other text is refused is stated only directive by directive, in the contracts of Year, Number, Day, Spaces and Literal.
- Fs.FileSystem.GetHash: an I/O error while reading is not modelled. Opening a missing file yields no digest.
