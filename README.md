# ft.dk_video in Dafny

`ft.dk_video.py` downloads a video served as an HLS media playlist (RFC 8216). It works in five steps:

1. It fetches the playlist.
2. It parses the playlist into segment entries: a URL and the duration from the `#EXTINF:` tag before it.
3. It downloads the segments that overlap an optional `--start`/`--end` window, given as `HH:MM:SS`.
4. It writes a list of the downloaded files for ffmpeg's concat demuxer.
5. It has ffmpeg join them into one MP4.

This project models the deterministic logic in those steps and proves what it does.

The model has six modules:

- **`Wrappers`** (`wrappers.dfy`): `Option`, `Result` and `Outcome`, plus one `Error` per way the program fails. The failures are:
  - a bad `#EXTINF:` value (`ValueError` from `float`);
  - an entry without a duration (`KeyError` at the `sum`);
  - a badly formed time (`ValueError`);
  - a URL without the `.m3u8` suffix.
- **`Text`** (`text.dfy`): the Python string methods the program uses: `startswith`, `endswith`, `strip`, `split`. It also defines `Join`, and lemmas that relate the two: split and join are inverse, and the number of pieces is one more than the number of separators.
- **`Playlist`** (`playlist.dfy`): `validate_m3u8_url`, and `parse_m3u8_file`.
  - The parser is a method with a loop, proved equal to a line-by-line scan (`Parse`).
  - The scan is also described independently: one entry per line that does not start with `#`, carrying the duration of the pending `#EXTINF:` tag.
- **`Timecode`** (`timecode.dfy`): `convert_time_to_seconds`.
- **`Segments`** (`segments.dfy`): the local file name of a segment, and `download_segments`.
  - The defaults, the skip rule and the stop rule are modelled.
  - The loop is a method proved against a recursive description of the walk (`Walk`).
  - The selected segments are characterised by the window they overlap.
- **`Concat`** (`concat.dfy`): `create_concat_file` as a method with a loop. Beside it sits a model of how ffmpeg's concat demuxer reads a `file` line back, which shows what the written list means.

`float()` and `os.path.abspath` are parameters of the model: `toNumber: string -> Option<real>` and `abspath: string -> string`. Durations and times are `real`.

## Model

| member | source | states |
|---|---|---|
| Playlist.ValidateM3u8Url | ft.dk_video.py:19-20 | passes exactly when the URL ends with ".m3u8"; otherwise fails with InvalidUrl of that URL |
| Playlist.ValidateExamples | ft.dk_video.py:19-20 | any URL with ".m3u8" appended passes; the one URL `https://cdn.example/live/index.m3u8?token=1` is refused, because its query follows the suffix |
| Playlist.TagLineIsNotUrlLine | ft.dk_video.py:58-61 | a line that starts with "#EXTINF:" is never taken as a URL line |
| Playlist.DurationFieldSpec | ft.dk_video.py:59 | the duration text is what follows "#EXTINF:" up to the first ':' or ',' (or the line's end); it holds neither character |
| Playlist.DurationFieldOfTag | ft.dk_video.py:59 | on "#EXTINF:<value>,<title>" with no ':' or ',' in the value, the duration text is the value |
| Playlist.ParseM3u8 | ft.dk_video.py:44-66 | the loop returns what the line-by-line scan gives: the entries, or the ValueError of the first bad tag |
| Playlist.ScanStopsAtError | ft.dk_video.py:57-60 | once the scan has raised on some line, the result of the whole scan is that error |
| Playlist.PendingTagSpec | ft.dk_video.py:55-64 | the pending tag is the last tag line, with only other '#' lines after it; with no pending tag, every tag line is followed by a URL line |
| Playlist.ScanCounters | ft.dk_video.py:55-64 | after any prefix of lines, the scan holds one entry per URL line, and the pending duration is that of the pending tag |
| Playlist.ScanEntryAt | ft.dk_video.py:57-64 | the entry for the URL line at i sits at the number of URL lines before i; it holds that line stripped and the pending duration |
| Playlist.ParseEntries | ft.dk_video.py:54-66 | the result has one entry per line not starting with '#' (blank lines included), in order; each is the line stripped with the pending tag's duration or none |
| Playlist.ParseFailure | ft.dk_video.py:57-60 | parsing fails if and only if some #EXTINF: value does not convert; the error names the first such line |
| Playlist.TrailingTagDropped | ft.dk_video.py:57-66 | a valid #EXTINF: line at the end adds no entry |
| Playlist.LastTagWins | ft.dk_video.py:58-63 | of two #EXTINF: lines before a URL line, the second gives the entry's duration |
| Playlist.UntaggedUrl | ft.dk_video.py:61-64 | a URL line at the start or right after another URL line gets no duration |
| Text.StripSpec | ft.dk_video.py:62 | strip removes exactly the leading and trailing whitespace: what it keeps is a slice of the line that neither starts nor ends with whitespace |
| Timecode.TimeToSeconds | ft.dk_video.py:178-179 | every failure is InvalidTimeFormat of the given string |
| Timecode.TwoSeparators | ft.dk_video.py:178 | a time is accepted only if it holds exactly two ':'; any other count is refused |
| Timecode.TimeOfFields | ft.dk_video.py:178-179 | "h:m:s" is accepted if and only if all three fields convert, and then its value is h*3600 + m*60 + s |
| Timecode.AcceptedShape | ft.dk_video.py:178-179 | an accepted time is three ':'-free fields joined by ':', and its value is computed from those fields |
| Timecode.TimeExamples | ft.dk_video.py:168-179 | "01:02:03" is 3723 seconds and "00:00:00" is 0 |
| Timecode.TwoFieldsRefused | ft.dk_video.py:178 | "a:b" is refused whatever its fields hold |
| Timecode.ExtraFieldRefused | ft.dk_video.py:178 | four fields are refused whatever they hold |
| Segments.LastPathPartSpec | ft.dk_video.py:100 | the last '/'-component holds no '/'; it is the whole URL when the URL holds no '/' |
| Segments.BaseNameSpec | ft.dk_video.py:100 | the base name is the last component up to its first '?': it holds neither '/' nor '?', and it is followed by '?' or by nothing |
| Segments.LastPathPartAfterSlash | ft.dk_video.py:100 | the last component of "dir/rest" is rest when rest holds no '/' |
| Segments.SegmentNameOfUrl | ft.dk_video.py:100 | "dir/name?query" is saved as "segments/name" when the query holds no '/' (and name holds neither '/' nor '?') |
| Segments.NameAfterLastSlash | ft.dk_video.py:100 | the name is whatever follows the URL's last '/' when that part holds no '?', even when that '/' is inside the query string |
| Segments.QuerySlashCollision | ft.dk_video.py:100 | every segment URL ending in "?acl=/x" is saved as "segments/x", whatever its path |
| Segments.PathSegmentNameOfUrl | ft.dk_video.py:100 | with the query cut off first, "dir/name?query" is saved as "segments/name" whatever the query holds |
| Segments.PathSegmentNameAgrees | ft.dk_video.py:100 | when the query holds no '/', the corrected name equals the name line 100 computes |
| Segments.Durations | ft.dk_video.py:81 | when all durations are there, there is one per entry |
| Segments.DurationsSpec | ft.dk_video.py:81 | the durations are there if and only if every entry has one, and they come in entry order; otherwise the KeyError names the first entry without one |
| Segments.PrefixSumMonotone | ft.dk_video.py:102-103 | with no negative duration, the running time never decreases |
| Segments.SumAtAll | ft.dk_video.py:122-123 | progress updates for every segment, in order, add up to the total duration |
| Segments.WalkSound | ft.dk_video.py:97-122 | until the loop breaks, current_time is the sum of all durations seen, skipped or not; every downloaded segment overlaps the window; segments are downloaded in playlist order |
| Segments.WalkStaysStopped | ft.dk_video.py:105-106 | after the break, later segments change nothing |
| Segments.WalkStopsLate | ft.dk_video.py:102-106 | with no negative duration, the loop breaks only after the running time has passed the end |
| Segments.WalkComplete | ft.dk_video.py:97-122 | with no negative duration, every segment that overlaps the window is downloaded |
| Segments.Selection | ft.dk_video.py:97-125 | with no negative duration, segment i is downloaded if and only if (time before i) + d_i >= start and (time before i) <= end; downloads follow playlist order |
| Segments.Contiguous | ft.dk_video.py:97-125 | with no negative duration, the downloaded segments are consecutive in the playlist |
| Segments.DefaultsSelectAll | ft.dk_video.py:84-122 | start 0 and end equal to the total, with no negative duration: every segment is downloaded in order and the loop never breaks |
| Segments.WindowExample | ft.dk_video.py:97-122 | for durations 4,4,4: window 5..9 downloads segments 1 and 2 (0-based); window 5..7 downloads segment 1 and then breaks |
| Segments.NamesOfSpec | ft.dk_video.py:100-108 | the k-th file name is the name of the k-th downloaded segment |
| Segments.DownloadSegments | ft.dk_video.py:80-125 | returns what the specification Plan gives: the KeyError, the start and end conversion errors, or the files, end - start, and the progress sum |
| Segments.FetchSegments | ft.dk_video.py:97-125 | the loop returns the names of exactly the segments the walk selects, and the sum of their durations as progress |
| Segments.DefaultsDownloadAll | ft.dk_video.py:80-125 | with every duration present and none negative, a --start and an --end that are each missing or empty take the defaults: every entry is fetched in order, and the progress reaches the bar's total |
| Segments.DownloadWindow | ft.dk_video.py:80-125 | with every duration present and none negative, the files are the names of exactly the entries that overlap the window, in order and consecutive |
| Concat.ConcatTextSnoc | ft.dk_video.py:139-140 | writing one more file appends its line to the list |
| Concat.CreateConcatFile | ft.dk_video.py:137-141 | returns "segments.txt" and the text with one file line per segment, in order |
| Concat.ConcatLineCount | ft.dk_video.py:139-140 | the list holds exactly one newline per file, when no path holds a newline |
| Concat.ReadConcatStep | ft.dk_video.py:140 | ffmpeg reads a list line by line: a line with no newline, carriage return or NUL, ended by a newline, gives the first path |
| Concat.ParseWrittenLine | ft.dk_video.py:140 | a written line is read back as its path when the path holds no single quote |
| Concat.AbsPathsAt | ft.dk_video.py:140 | the k-th path read back is the absolute path of the k-th file |
| Concat.ReadConcatText | ft.dk_video.py:137-141 | when no path holds a newline, a carriage return, a NUL or a single quote, ffmpeg reads back every file's absolute path, in order |
| Concat.MisreadLine | ft.dk_video.py:140 | the line written for "/a'b" is read as "/ab" |
| Concat.QuoteInPathMisread | ft.dk_video.py:140 | the list written for a file whose absolute path is "/a'b" makes ffmpeg open "/ab" |
| Concat.QuotedLineAgrees | ft.dk_video.py:140 | for a path without single quotes, the quoted line is the line create_concat_file writes |
| Concat.UnquoteQuote | ft.dk_video.py:140 | ffmpeg reads back every quoted path exactly |
| Concat.ReadQuotedConcatText | ft.dk_video.py:139-140 | with quoted paths, ffmpeg reads back every file's absolute path in order, whatever the paths hold other than newlines, carriage returns and NULs |
| Concat.CarriageReturnSplitsLine | ft.dk_video.py:139-140 | a path holding a carriage return is cut into two lines, so even the quoted list for "/a\rb" is not read |

## Left out

- The HTTP fetch of the playlist and of each segment, with `raise_for_status` and `sys.exit` (lines 36-42 and 110-115). These are network I/O.
- Writing segment chunks (lines 117-120), creating the directory (line 24), and cleanup with `rmtree`/`remove` (lines 165-166). These are filesystem effects. The concat list is modelled as the text it would write.
- The ffmpeg call (lines 151-155): an external program. Only how its concat demuxer reads a `file` line is modelled.
- The tqdm bar's rendering and the argparse front end. Only the bar's total and the sum of its updates are modelled.
- `download_video` (lines 181-208). It only chains the steps above around the I/O.
- `float()` and IEEE arithmetic. Conversion is the parameter `toNumber`; durations, times and sums are exact `real`s with no rounding.
- `str.splitlines`: the playlist is taken as its list of lines.
- `os.path.abspath`: the parameter `abspath`.
- `os.path.join('segments', name)` is modelled as "segments/" + name, which is what it gives on POSIX for a name without '/'.
- Paths that hold a newline, a carriage return or a NUL: ffmpeg's line reader ends a line at each of them, so no form of the list carries such a path. Concat.CarriageReturnSplitsLine shows one case; the model promises nothing about a list that holds them.
- Concat.ParseLine and Concat.ReadConcat accept only what the writer produces: "file ", then one token, on a line ended by a line end. A last line ended by the end of the file and empty lines, both of which ffmpeg accepts, are refused. ffmpeg's other directives, leading blanks, comments and text after the token are not modelled.
- The loops of download_segments and create_concat_file keep the name and the line format as the program writes them. The corrected Segments.PathSegmentName and Concat.Quote of "## Findings" stand beside them, with their properties proved, and are not substituted into the loops.
- Segments.WalkComplete, Segments.Selection, Segments.Contiguous, Segments.DefaultsSelectAll, Segments.DownloadWindow and Segments.DefaultsDownloadAll require no negative duration. The program does not check this. With a negative duration the loop can break before a later segment that would overlap the window.
- Segments.DefaultsDownloadAll and Segments.DownloadWindow also require every entry to carry a duration. Without one the program raises KeyError at the `sum`, as Segments.DurationsSpec states.

## Findings

| source | as written | input that shows it | evidently intended | confidence | as-written member | corrected member |
|---|---|---|---|---|---|---|
| ft.dk_video.py:100 | the file name is the text after the URL's last '/', cut at '?'; a '/' inside the query string is taken as a path separator | two segments `.../seg1.ts?acl=/x` and `.../seg2.ts?acl=/x` (as in signed CDN URLs) are both saved as `segments/x`; the second overwrites the first and the concat list names that file twice | each segment is saved under the last component of its URL's path, the query cut off first | not executed | Segments.QuerySlashCollision | Segments.PathSegmentNameOfUrl |
| ft.dk_video.py:140 | the absolute path is put between single quotes without escaping the quotes it holds | a segment whose absolute path is `/a'b`: ffmpeg's concat demuxer reads `file '/a'b'` as the path `/ab` | ffmpeg opens the file that was downloaded, whatever its path holds other than line ends (newline, carriage return, NUL); writing each `'` as `'\''` (Concat.Quote) does this | not executed | Concat.QuoteInPathMisread | Concat.ReadQuotedConcatText |
