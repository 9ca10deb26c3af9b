/** The playlist side of the downloader: the (disabled) URL check and the scan of an HLS media
    playlist (RFC 8216) into segment entries. */
module Playlist {
  import opened Wrappers
  import opened Text

  /** One playlist entry: the stripped URL line and, when a #EXTINF: tag preceded it, that tag's
      duration. The source keeps each entry as a dict that may lack the 'duration' key. */
  datatype Segment = Segment(url: string, duration: Option<real>)

  /** The tag of section 4.3.2.1 of RFC 8216 that carries a segment's duration. */
  const ExtinfTag: string := "#EXTINF:"

  predicate IsTagLine(line: string) {
    StartsWith(line, ExtinfTag)
  }

  /** Every line that does not start with '#' is taken as a URL, blank lines included. */
  predicate IsUrlLine(line: string) {
    line == [] || line[0] != '#'
  }

  /** A tag line is a '#' line. */
  lemma TagLineIsNotUrlLine(line: string)
    ensures IsTagLine(line) ==> !IsUrlLine(line)
  {
    if IsTagLine(line) {
      assert line[0] == line[..|ExtinfTag|][0];
    }
  }

  /** validate_m3u8_url: the URL must end with ".m3u8". The downloader no longer calls it. */
  function ValidateM3u8Url(url: string): (r: Outcome)
    ensures r.Pass? <==> |url| >= 5 && url[|url| - 5..] == ".m3u8"
    ensures r.Fail? ==> r.error == InvalidUrl(url)
  {
    if EndsWith(url, ".m3u8") then Pass else Fail(InvalidUrl(url))
  }

  /** The suffix check accepts every URL that ends in ".m3u8" and refuses one that carries a query string. */
  lemma ValidateExamples(u: string)
    ensures ValidateM3u8Url(u + ".m3u8").Pass?
    ensures ValidateM3u8Url("https://cdn.example/live/index.m3u8?token=1").Fail?
  {
    assert (u + ".m3u8")[|u + ".m3u8"| - 5..] == ".m3u8";
  }

  /** line.split(':')[1].split(',')[0] on a line that starts with the tag. */
  function DurationField(line: string): (r: string)
    requires IsTagLine(line)
  {
    var rest := line[|ExtinfTag|..];
    assert line == "#EXTINF" + [':'] + rest;
    SplitAround("#EXTINF", rest, ':');
    Split(Split(line, ':')[1], ',')[0]
  }

  /** The duration text is what follows the tag's colon, up to the next ':' or ',' or the end
      of the line: it holds neither character and is followed by one of them or by nothing. */
  lemma DurationFieldSpec(line: string)
    requires IsTagLine(line)
    ensures var field := DurationField(line); var rest := line[|ExtinfTag|..];
            && ':' !in field && ',' !in field
            && |field| <= |rest| && rest[..|field|] == field
            && (|field| == |rest| || rest[|field|] == ':' || rest[|field|] == ',')
  {
    var rest := line[|ExtinfTag|..];
    var between := Split(rest, ':')[0];
    var field := Split(between, ',')[0];
    assert DurationField(line) == field by {
      assert line == "#EXTINF" + [':'] + rest;
      SplitAround("#EXTINF", rest, ':');
    }
    SplitFirst(rest, ':');
    SplitFirst(between, ',');
    PrefixOfPrefix(rest, between, field, ':');
  }

  /** On a well-formed tag line "#EXTINF:<value>,<title>" the field is the value. */
  lemma DurationFieldOfTag(value: string, title: string)
    requires ':' !in value && ',' !in value
    ensures IsTagLine(ExtinfTag + value + "," + title)
    ensures DurationField(ExtinfTag + value + "," + title) == value
  {
    var line := ExtinfTag + value + "," + title;
    var n := |ExtinfTag|;
    assert line[..n] == ExtinfTag;
    var rest := value + "," + title;
    assert line[n..] == rest;
    DurationFieldSpec(line);
    var field := DurationField(line);
    assert forall k :: 0 <= k < |value| ==> rest[k] == value[k];
    assert forall k :: 0 <= k < |field| ==> field[k] == rest[k];
    assert rest[|value|] == ',';
    assert field == rest[..|value|];
  }

  /** The float() conversion of a tag line fails. */
  predicate BadTag(line: string, toNumber: string -> Option<real>) {
    IsTagLine(line) && toNumber(DurationField(line)).None?
  }

  /** The parser's state between lines: the entries emitted so far and the duration held in
      current_segment, which holds at most a 'duration' key between iterations. */
  datatype Scan = Scan(entries: seq<Segment>, pending: Option<real>)

  /** One iteration of the loop of parse_m3u8_file, on the line at `index`. */
  function Step(st: Scan, line: string, index: nat, toNumber: string -> Option<real>): (r: Result<Scan>) {
    if IsTagLine(line) then
      match toNumber(DurationField(line))
      case None => Err(InvalidDuration(index))
      case Some(d) => Ok(Scan(st.entries, Some(d)))
    else if IsUrlLine(line) then
      Ok(Scan(st.entries + [Segment(Strip(line), st.pending)], None))
    else
      Ok(st)
  }

  /** The state after the loop has run over `lines`, or the ValueError that stopped it. */
  function ScanLines(lines: seq<string>, toNumber: string -> Option<real>): (r: Result<Scan>) {
    if lines == [] then Ok(Scan([], None))
    else
      match ScanLines(lines[..|lines| - 1], toNumber)
      case Err(e) => Err(e)
      case Ok(st) => Step(st, lines[|lines| - 1], |lines| - 1, toNumber)
  }

  /** What parse_m3u8_file returns on the playlist's lines. */
  function Parse(lines: seq<string>, toNumber: string -> Option<real>): (r: Result<seq<Segment>>) {
    match ScanLines(lines, toNumber)
    case Err(e) => Err(e)
    case Ok(st) => Ok(st.entries)
  }

  /** parse_m3u8_file, on the lines str.splitlines() gives. */
  method ParseM3u8(lines: seq<string>, toNumber: string -> Option<real>) returns (r: Result<seq<Segment>>)
    ensures r == Parse(lines, toNumber)
  {
    var segmentUrls: seq<Segment> := [];
    var pendingDuration: Option<real> := None;
    for i := 0 to |lines|
      invariant ScanLines(lines[..i], toNumber) == Ok(Scan(segmentUrls, pendingDuration))
    {
      var line := lines[i];
      assert lines[..i + 1][..i] == lines[..i];
      if IsTagLine(line) {
        var duration := toNumber(DurationField(line));
        if duration.None? {
          ScanStopsAtError(lines, i + 1, toNumber);
          return Err(InvalidDuration(i));
        }
        pendingDuration := duration;
      } else if IsUrlLine(line) {
        segmentUrls := segmentUrls + [Segment(Strip(line), pendingDuration)];
        pendingDuration := None;
      }
    }
    assert lines[..|lines|] == lines;
    r := Ok(segmentUrls);
  }

  /** Once the scan of a prefix has failed, the scan of the whole input fails the same way. */
  lemma {:induction false} ScanStopsAtError(lines: seq<string>, i: nat, toNumber: string -> Option<real>)
    requires i <= |lines| && ScanLines(lines[..i], toNumber).Err?
    ensures ScanLines(lines, toNumber) == ScanLines(lines[..i], toNumber)
    decreases |lines|
  {
    if i < |lines| {
      var pre := lines[..|lines| - 1];
      assert pre[..i] == lines[..i];
      ScanStopsAtError(pre, i, toNumber);
    } else {
      assert lines[..i] == lines;
    }
  }

  // ---------------------------------------------------------------------------------------------
  // An independent description of the result, line by line.

  /** How many lines of `lines` are URL lines. */
  function UrlLineCount(lines: seq<string>): (r: nat) {
    if lines == [] then 0
    else UrlLineCount(lines[..|lines| - 1]) + (if IsUrlLine(lines[|lines| - 1]) then 1 else 0)
  }

  /** The #EXTINF: line whose duration is still pending at the end of `lines`, found by
      scanning backwards from the end: the nearest tag line, unless a URL line comes first. */
  function PendingTag(lines: seq<string>): (j: Option<nat>)
    ensures j.Some? ==> j.value < |lines| && IsTagLine(lines[j.value])
  {
    if lines == [] then None
    else if IsTagLine(lines[|lines| - 1]) then Some(|lines| - 1)
    else if IsUrlLine(lines[|lines| - 1]) then None
    else PendingTag(lines[..|lines| - 1])
  }

  /** The pending tag is the last tag line and only comment lines follow it; when there is
      none, every tag line has a URL line after it. */
  lemma {:induction false} PendingTagSpec(lines: seq<string>)
    ensures var j := PendingTag(lines);
            && (j.Some? ==> forall k :: j.value < k < |lines| ==> !IsTagLine(lines[k]) && !IsUrlLine(lines[k]))
            && (j.None? ==> forall k :: 0 <= k < |lines| && IsTagLine(lines[k]) ==>
                              exists m :: k < m < |lines| && IsUrlLine(lines[m]))
  {
    if lines != [] {
      var n := |lines|;
      var pre := lines[..n - 1];
      if !IsTagLine(lines[n - 1]) && !IsUrlLine(lines[n - 1]) {
        PendingTagSpec(pre);
        assert forall k :: 0 <= k < n - 1 ==> pre[k] == lines[k];
      }
    }
  }

  /** The duration the next URL line would receive after `lines`. */
  function PendingDuration(lines: seq<string>, toNumber: string -> Option<real>): (r: Option<real>) {
    match PendingTag(lines)
    case None => None
    case Some(j) => toNumber(DurationField(lines[j]))
  }

  /** The loop's counters, described by the lines read so far: one entry per URL line, and the
      pending duration is that of the pending tag. */
  lemma {:induction false} ScanCounters(lines: seq<string>, toNumber: string -> Option<real>)
    requires ScanLines(lines, toNumber).Ok?
    ensures var st := ScanLines(lines, toNumber).value;
            |st.entries| == UrlLineCount(lines) && st.pending == PendingDuration(lines, toNumber)
  {
    if lines != [] {
      var n := |lines|;
      var pre := lines[..n - 1];
      ScanCounters(pre, toNumber);
      TagLineIsNotUrlLine(lines[n - 1]);
      if !IsTagLine(lines[n - 1]) && !IsUrlLine(lines[n - 1]) {
        assert PendingTag(lines) == PendingTag(pre);
        if PendingTag(pre).Some? {
          assert lines[PendingTag(pre).value] == pre[PendingTag(pre).value];
        }
      }
    }
  }

  /** The entry emitted for the URL line at index i sits at position UrlLineCount(lines[..i]). */
  lemma {:induction false} ScanEntryAt(lines: seq<string>, i: nat, toNumber: string -> Option<real>)
    requires ScanLines(lines, toNumber).Ok? && i < |lines| && IsUrlLine(lines[i])
    ensures var st := ScanLines(lines, toNumber).value;
            UrlLineCount(lines[..i]) < |st.entries|
            && st.entries[UrlLineCount(lines[..i])] == Segment(Strip(lines[i]), PendingDuration(lines[..i], toNumber))
    decreases |lines|
  {
    var n := |lines|;
    var pre := lines[..n - 1];
    var before := ScanLines(pre, toNumber).value;
    var st := ScanLines(lines, toNumber).value;
    ScanCounters(pre, toNumber);
    TagLineIsNotUrlLine(lines[n - 1]);
    if i == n - 1 {
      assert lines[..i] == pre;
      assert st.entries == before.entries + [Segment(Strip(lines[i]), before.pending)];
    } else {
      assert lines[..i] == pre[..i];
      ScanEntryAt(pre, i, toNumber);
      assert st.entries[..|before.entries|] == before.entries;
    }
  }

  /** parse_m3u8_file emits one entry per line that does not start with '#', in line order: the
      line stripped, with the duration of the last #EXTINF: line since the previous URL line, or
      none when there is no such tag. A trailing tag line emits nothing. */
  lemma ParseEntries(lines: seq<string>, toNumber: string -> Option<real>)
    requires Parse(lines, toNumber).Ok?
    ensures var entries := Parse(lines, toNumber).value;
            && |entries| == UrlLineCount(lines)
            && forall i :: 0 <= i < |lines| && IsUrlLine(lines[i]) ==>
                 UrlLineCount(lines[..i]) < |entries|
                 && entries[UrlLineCount(lines[..i])] == Segment(Strip(lines[i]), PendingDuration(lines[..i], toNumber))
  {
    ScanCounters(lines, toNumber);
    forall i | 0 <= i < |lines| && IsUrlLine(lines[i])
      ensures UrlLineCount(lines[..i]) < |Parse(lines, toNumber).value|
      ensures Parse(lines, toNumber).value[UrlLineCount(lines[..i])]
              == Segment(Strip(lines[i]), PendingDuration(lines[..i], toNumber))
    {
      ScanEntryAt(lines, i, toNumber);
    }
  }

  /** The parse fails exactly when some #EXTINF: value does not convert, and it reports the first
      such line; other lines never make it fail. */
  lemma {:induction false} ParseFailure(lines: seq<string>, toNumber: string -> Option<real>)
    ensures Parse(lines, toNumber).Err? <==> exists k :: 0 <= k < |lines| && BadTag(lines[k], toNumber)
    ensures Parse(lines, toNumber).Err? ==>
              var e := Parse(lines, toNumber).error;
              && e.InvalidDuration? && e.line < |lines| && BadTag(lines[e.line], toNumber)
              && forall k :: 0 <= k < e.line ==> !BadTag(lines[k], toNumber)
  {
    if lines != [] {
      var n := |lines|;
      var pre := lines[..n - 1];
      ParseFailure(pre, toNumber);
      assert forall k :: 0 <= k < n - 1 ==> pre[k] == lines[k];
      if ScanLines(pre, toNumber).Ok? && !BadTag(lines[n - 1], toNumber) {
        assert forall k :: 0 <= k < n ==> !BadTag(lines[k], toNumber);
      }
    }
  }

  /** A trailing #EXTINF: line with a valid value adds no entry. */
  lemma TrailingTagDropped(lines: seq<string>, tag: string, toNumber: string -> Option<real>)
    requires IsTagLine(tag) && toNumber(DurationField(tag)).Some?
    ensures Parse(lines + [tag], toNumber) == Parse(lines, toNumber)
  {
    assert (lines + [tag])[..|lines|] == lines;
  }

  /** The scan of one more line is one more Step. */
  lemma ScanSnoc(lines: seq<string>, line: string, toNumber: string -> Option<real>)
    ensures ScanLines(lines + [line], toNumber) ==
              match ScanLines(lines, toNumber)
              case Err(e) => Err(e)
              case Ok(st) => Step(st, line, |lines|, toNumber)
  {
    assert (lines + [line])[..|lines|] == lines;
  }

  /** When several #EXTINF: lines precede a URL line, the last one gives its duration. */
  lemma LastTagWins(lines: seq<string>, first: string, second: string, url: string, toNumber: string -> Option<real>)
    requires IsTagLine(first) && IsTagLine(second) && IsUrlLine(url)
    requires Parse(lines + [first, second, url], toNumber).Ok?
    ensures Parse(lines, toNumber).Ok?
    ensures Parse(lines + [first, second, url], toNumber).value
            == Parse(lines, toNumber).value + [Segment(Strip(url), toNumber(DurationField(second)))]
  {
    var l1 := lines + [first];
    var l2 := l1 + [second];
    assert l2 + [url] == lines + [first, second, url];
    TagLineIsNotUrlLine(url);
    ScanSnoc(l2, url, toNumber);
    assert ScanLines(l2, toNumber).Ok?;
    ScanSnoc(l1, second, toNumber);
    assert ScanLines(l1, toNumber).Ok?;
    ScanSnoc(lines, first, toNumber);
    assert ScanLines(l1, toNumber).value.entries == ScanLines(lines, toNumber).value.entries;
    assert ScanLines(l2, toNumber).value.entries == ScanLines(lines, toNumber).value.entries;
    assert ScanLines(l2, toNumber).value.pending == toNumber(DurationField(second));
  }

  /** A URL line right after another URL line, or at the very start, gets no duration. */
  lemma UntaggedUrl(lines: seq<string>, url: string, toNumber: string -> Option<real>)
    requires IsUrlLine(url)
    requires lines == [] || IsUrlLine(lines[|lines| - 1])
    requires Parse(lines + [url], toNumber).Ok?
    ensures Parse(lines, toNumber).Ok?
    ensures Parse(lines + [url], toNumber).value == Parse(lines, toNumber).value + [Segment(Strip(url), None)]
  {
    ScanSnoc(lines, url, toNumber);
    assert ScanLines(lines, toNumber).Ok?;
    assert ScanLines(lines, toNumber).value.pending == None by {
      if lines != [] {
        TagLineIsNotUrlLine(lines[|lines| - 1]);
      }
    }
    TagLineIsNotUrlLine(url);
  }
}
