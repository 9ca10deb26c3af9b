/** download_segments: which playlist entries are fetched for a --start/--end window, the local
    file name each one is saved under, and what the progress bar is told. */
module Segments {
  import opened Wrappers
  import opened Text
  import opened Playlist
  import opened Timecode

  // ---------------------------------------------------------------------------------------------
  // Local file names.

  /** The last '/'-separated part of a URL. */
  function LastPathPart(url: string): (r: string) {
    var parts := Split(url, '/');
    parts[|parts| - 1]
  }

  /** segment_url.split('/')[-1].split('?')[0] */
  function BaseName(url: string): (r: string) {
    Split(LastPathPart(url), '?')[0]
  }

  /** os.path.join('segments', name) on a POSIX system: the base name never holds a '/'. */
  function SegmentName(url: string): (r: string) {
    "segments/" + BaseName(url)
  }

  /** The last part holds no '/', and it is the whole URL when the URL holds none. */
  lemma LastPathPartSpec(url: string)
    ensures '/' !in LastPathPart(url)
    ensures '/' !in url ==> LastPathPart(url) == url
  {
    SplitPiecesFree(url, '/');
  }

  /** The base name is the start of the last part up to its first '?': it holds neither '/' nor
      '?', and it is the whole last part or is followed there by a '?'. */
  lemma BaseNameSpec(url: string)
    ensures var t := LastPathPart(url); var b := BaseName(url);
            && |b| <= |t| && t[..|b|] == b
            && '/' !in b && '?' !in b
            && (|b| == |t| || t[|b|] == '?')
  {
    var t := LastPathPart(url);
    LastPathPartSpec(url);
    SplitFirst(t, '?');
    PrefixOfPrefix(t, t, BaseName(url), '/');
  }

  /** The last part of "<dir>/<rest>" is <rest> when <rest> holds no '/'. */
  lemma LastPathPartAfterSlash(dir: string, rest: string)
    requires '/' !in rest
    ensures LastPathPart(dir + "/" + rest) == rest
  {
    SplitLastAfter(dir, rest, '/');
  }

  /** A segment "<dir>/<name>?<query>" is saved as segments/<name>. */
  lemma SegmentNameOfUrl(dir: string, name: string, query: string)
    requires '/' !in name && '?' !in name && '/' !in query
    ensures SegmentName(dir + "/" + name + "?" + query) == "segments/" + name
  {
    var rest := name + "?" + query;
    assert dir + "/" + name + "?" + query == dir + "/" + rest;
    LastPathPartAfterSlash(dir, rest);
    SplitAround(name, query, '?');
  }

  /** Whatever comes before the URL's last '/', the name is what follows it, even when that
      '/' sits in the query string. */
  lemma NameAfterLastSlash(front: string, tail: string)
    requires '/' !in tail && '?' !in tail
    ensures SegmentName(front + "/" + tail) == "segments/" + tail
  {
    LastPathPartAfterSlash(front, tail);
    SplitNone(tail, '?');
  }

  /** A '/' in the query string moves the name into the query: any two segments of a URL signed
      with "acl=/x", such as ".../seg1.ts?acl=/x" and ".../seg2.ts?acl=/x", are both saved as
      segments/x, and each download overwrites the one before. */
  lemma QuerySlashCollision(seg1: string, seg2: string)
    ensures SegmentName(seg1 + "?acl=/x") == "segments/x"
    ensures SegmentName(seg2 + "?acl=/x") == "segments/x"
  {
    assert seg1 + "?acl=/x" == (seg1 + "?acl=") + "/" + "x";
    NameAfterLastSlash(seg1 + "?acl=", "x");
    assert seg2 + "?acl=/x" == (seg2 + "?acl=") + "/" + "x";
    NameAfterLastSlash(seg2 + "?acl=", "x");
  }

  /** The file name taken from the URL's path alone: the query is cut off before the last '/'
      component is taken. */
  function PathSegmentName(url: string): (r: string) {
    "segments/" + LastPathPart(Split(url, '?')[0])
  }

  /** A segment "<dir>/<name>?<query>" is saved as segments/<name> whatever its query holds, so
      segments with different names get different files. */
  lemma PathSegmentNameOfUrl(dir: string, name: string, query: string)
    requires '?' !in dir && '/' !in name && '?' !in name
    ensures PathSegmentName(dir + "/" + name + "?" + query) == "segments/" + name
  {
    var path := dir + "/" + name;
    assert '?' !in path;
    assert dir + "/" + name + "?" + query == path + ['?'] + query;
    SplitAround(path, query, '?');
    LastPathPartAfterSlash(dir, name);
  }

  /** For a query without '/' the corrected name is the name the downloader uses. */
  lemma PathSegmentNameAgrees(dir: string, name: string, query: string)
    requires '?' !in dir && '/' !in name && '?' !in name && '/' !in query
    ensures PathSegmentName(dir + "/" + name + "?" + query) == SegmentName(dir + "/" + name + "?" + query)
  {
    PathSegmentNameOfUrl(dir, name, query);
    SegmentNameOfUrl(dir, name, query);
  }

  // ---------------------------------------------------------------------------------------------
  // Durations and their running sums.

  /** sum(): the durations added from the first to the last. */
  function Sum(ds: seq<real>): (r: real) {
    if ds == [] then 0.0 else Sum(ds[..|ds| - 1]) + ds[|ds| - 1]
  }

  predicate NonNegative(ds: seq<real>) {
    forall k :: 0 <= k < |ds| ==> ds[k] >= 0.0
  }

  /** The running sum grows by one duration per segment. */
  lemma PrefixSumStep(ds: seq<real>, i: nat)
    requires i < |ds|
    ensures Sum(ds[..i + 1]) == Sum(ds[..i]) + ds[i]
  {
    assert ds[..i + 1][..i] == ds[..i];
  }

  /** With no negative duration, later segments start no earlier. */
  lemma {:induction false} PrefixSumMonotone(ds: seq<real>, i: nat, j: nat)
    requires NonNegative(ds) && i <= j <= |ds|
    ensures Sum(ds[..i]) <= Sum(ds[..j])
    decreases j - i
  {
    if i < j {
      PrefixSumStep(ds, j - 1);
      PrefixSumMonotone(ds, i, j - 1);
    }
  }

  /** [segment['duration'] for segment in segment_urls]: the first entry without a duration
      raises KeyError. */
  function Durations(segments: seq<Segment>): (r: Result<seq<real>>)
    ensures r.Ok? ==> |r.value| == |segments|
  {
    if segments == [] then Ok([])
    else
      match Durations(segments[..|segments| - 1])
      case Err(e) => Err(e)
      case Ok(ds) =>
        var last := segments[|segments| - 1];
        if last.duration.None? then Err(MissingDuration(|segments| - 1)) else Ok(ds + [last.duration.value])
  }

  /** The durations are all there exactly when every entry has one, and then they are the
      entries' durations in order; otherwise the error names the first entry without one. */
  lemma {:induction false} DurationsSpec(segments: seq<Segment>)
    ensures Durations(segments).Ok? <==> forall k :: 0 <= k < |segments| ==> segments[k].duration.Some?
    ensures Durations(segments).Ok? ==>
              forall k :: 0 <= k < |segments| ==> Durations(segments).value[k] == segments[k].duration.value
    ensures Durations(segments).Err? ==>
              var e := Durations(segments).error;
              && e.MissingDuration? && e.segment < |segments| && segments[e.segment].duration.None?
              && forall k :: 0 <= k < e.segment ==> segments[k].duration.Some?
  {
    if segments != [] {
      var pre := segments[..|segments| - 1];
      DurationsSpec(pre);
      assert forall k :: 0 <= k < |pre| ==> pre[k] == segments[k];
    }
  }

  /** Sum of the durations of the picked segments, in the order they were picked. */
  function SumAt(ds: seq<real>, picked: seq<nat>): (r: real)
    requires forall k :: 0 <= k < |picked| ==> picked[k] < |ds|
  {
    if picked == [] then 0.0 else SumAt(ds, picked[..|picked| - 1]) + ds[picked[|picked| - 1]]
  }

  /** 0, 1, ..., n - 1 */
  function Indices(n: nat): (r: seq<nat>)
    ensures |r| == n && forall k :: 0 <= k < n ==> r[k] == k
  {
    seq(n, k => k)
  }

  /** Picking every segment once, in order, adds up to the total duration. */
  lemma {:induction false} SumAtAll(ds: seq<real>, n: nat)
    requires n <= |ds|
    ensures SumAt(ds, Indices(n)) == Sum(ds[..n])
  {
    if n > 0 {
      assert Indices(n)[..n - 1] == Indices(n - 1);
      SumAtAll(ds, n - 1);
      PrefixSumStep(ds, n - 1);
    }
  }

  // ---------------------------------------------------------------------------------------------
  // The selection loop.

  /** The loop's state: current_time, the indices of the segments appended to segment_files,
      and whether the loop has hit its break. */
  datatype Cursor = Cursor(time: real, chosen: seq<nat>, stopped: bool)

  /** The loop of download_segments over the first n durations: a segment that ends before the
      start is skipped, the first one that starts after the end stops the loop, any other is
      downloaded. Both skipping and downloading advance the clock by the segment's duration. */
  function Walk(ds: seq<real>, start: real, end: real, n: nat): (c: Cursor)
    requires n <= |ds|
    ensures forall k :: 0 <= k < |c.chosen| ==> c.chosen[k] < n
  {
    if n == 0 then Cursor(0.0, [], false)
    else
      var c := Walk(ds, start, end, n - 1);
      var d := ds[n - 1];
      if c.stopped then c
      else if c.time + d < start then Cursor(c.time + d, c.chosen, false)
      else if c.time > end then Cursor(c.time, c.chosen, true)
      else Cursor(c.time + d, c.chosen + [n - 1], false)
  }

  /** Segment i overlaps the window: it ends at or after the start and starts at or before the
      end, its start being the sum of the durations before it. */
  predicate InWindow(ds: seq<real>, start: real, end: real, i: nat)
    requires i < |ds|
  {
    Sum(ds[..i]) + ds[i] >= start && Sum(ds[..i]) <= end
  }

  /** Whatever the durations: the clock is the running sum of the durations until the loop
      stops, and every downloaded segment overlaps the window and comes after the ones
      downloaded before it. */
  lemma {:induction false} WalkSound(ds: seq<real>, start: real, end: real, n: nat)
    requires n <= |ds|
    ensures var c := Walk(ds, start, end, n);
            && (!c.stopped ==> c.time == Sum(ds[..n]))
            && (forall k :: 0 <= k < |c.chosen| ==> InWindow(ds, start, end, c.chosen[k]))
            && (forall a, b :: 0 <= a < b < |c.chosen| ==> c.chosen[a] < c.chosen[b])
  {
    if n > 0 {
      WalkSound(ds, start, end, n - 1);
      PrefixSumStep(ds, n - 1);
    }
  }

  /** Once the loop has stopped, later segments change nothing. */
  lemma {:induction false} WalkStaysStopped(ds: seq<real>, start: real, end: real, i: nat, n: nat)
    requires i <= n <= |ds| && Walk(ds, start, end, i).stopped
    ensures Walk(ds, start, end, n) == Walk(ds, start, end, i)
    decreases n - i
  {
    if i < n {
      WalkStaysStopped(ds, start, end, i, n - 1);
    }
  }

  /** With no negative duration, the loop only stops once the clock is past the end. */
  lemma {:induction false} WalkStopsLate(ds: seq<real>, start: real, end: real, n: nat)
    requires n <= |ds| && NonNegative(ds)
    ensures Walk(ds, start, end, n).stopped ==> Sum(ds[..n]) > end
  {
    if n > 0 {
      WalkStopsLate(ds, start, end, n - 1);
      WalkSound(ds, start, end, n - 1);
      PrefixSumStep(ds, n - 1);
    }
  }

  /** With no negative duration, every segment that overlaps the window is downloaded. */
  lemma {:induction false} WalkComplete(ds: seq<real>, start: real, end: real, n: nat)
    requires n <= |ds| && NonNegative(ds)
    ensures forall i: nat :: i < n && InWindow(ds, start, end, i) ==> i in Walk(ds, start, end, n).chosen
  {
    if n > 0 {
      var before := Walk(ds, start, end, n - 1);
      var after := Walk(ds, start, end, n);
      WalkComplete(ds, start, end, n - 1);
      assert forall i: nat :: i in before.chosen ==> i in after.chosen;
      if InWindow(ds, start, end, n - 1) {
        WalkStopsLate(ds, start, end, n - 1);
        WalkSound(ds, start, end, n - 1);
        assert after.chosen == before.chosen + [n - 1];
      }
    }
  }

  /** The indices of the segments the whole loop downloads. */
  function Selected(ds: seq<real>, start: real, end: real): (chosen: seq<nat>)
    ensures forall k :: 0 <= k < |chosen| ==> chosen[k] < |ds|
  {
    Walk(ds, start, end, |ds|).chosen
  }

  /** With no negative duration, the downloaded segments are exactly those that overlap the
      window, in playlist order. */
  lemma Selection(ds: seq<real>, start: real, end: real)
    requires NonNegative(ds)
    ensures forall i: nat :: i in Selected(ds, start, end) <==> i < |ds| && InWindow(ds, start, end, i)
    ensures forall a, b :: 0 <= a < b < |Selected(ds, start, end)| ==>
              Selected(ds, start, end)[a] < Selected(ds, start, end)[b]
  {
    WalkSound(ds, start, end, |ds|);
    WalkComplete(ds, start, end, |ds|);
  }

  /** In a strictly increasing sequence, the value right after chosen[a] can only sit at a + 1. */
  lemma NoGap(chosen: seq<nat>, a: nat, m: nat)
    requires forall x, y :: 0 <= x < y < |chosen| ==> chosen[x] < chosen[y]
    requires a + 1 < |chosen| && m < |chosen| && chosen[m] == chosen[a] + 1
    ensures m == a + 1
  {
    var at, next, found := chosen[a], chosen[a + 1], chosen[m];
    assert at < next;
    assert m <= a ==> found <= at;
    assert m > a + 1 ==> next < found;
  }

  /** With no negative duration, the downloaded segments are consecutive in the playlist. */
  lemma Contiguous(ds: seq<real>, start: real, end: real)
    requires NonNegative(ds)
    ensures forall a :: 0 <= a < |Selected(ds, start, end)| - 1 ==>
              Selected(ds, start, end)[a + 1] == Selected(ds, start, end)[a] + 1
  {
    var chosen := Selected(ds, start, end);
    Selection(ds, start, end);
    forall a | 0 <= a < |chosen| - 1
      ensures chosen[a + 1] == chosen[a] + 1
    {
      var lo, hi := chosen[a], chosen[a + 1];
      assert lo in chosen && hi in chosen && lo < hi;
      PrefixSumStep(ds, lo);
      PrefixSumStep(ds, lo + 1);
      PrefixSumMonotone(ds, lo + 1, hi);
      assert InWindow(ds, start, end, lo + 1);
      assert lo + 1 in chosen;
      var m :| 0 <= m < |chosen| && chosen[m] == lo + 1;
      NoGap(chosen, a, m);
    }
  }

  /** Without --start and --end (start 0, end the total duration) and with no negative
      duration, every segment is downloaded. */
  lemma {:induction false} DefaultsSelectAll(ds: seq<real>, n: nat)
    requires NonNegative(ds) && n <= |ds|
    ensures Walk(ds, 0.0, Sum(ds), n) == Cursor(Sum(ds[..n]), Indices(n), false)
  {
    if n > 0 {
      DefaultsSelectAll(ds, n - 1);
      PrefixSumStep(ds, n - 1);
      PrefixSumMonotone(ds, 0, n);
      PrefixSumMonotone(ds, n - 1, |ds|);
      assert ds[..|ds|] == ds;
      assert Indices(n - 1) + [n - 1] == Indices(n);
    }
  }

  /** Segments of 4 s each with the window 5 s to 9 s: the first one ends at 4 s and is skipped,
      the second (4 s to 8 s) and the third (8 s to 12 s) are downloaded. With the end at 7 s the
      third starts past the end and stops the loop. */
  lemma WindowExample()
    ensures Walk([4.0, 4.0, 4.0], 5.0, 9.0, 3).chosen == [1, 2]
    ensures Walk([4.0, 4.0, 4.0], 5.0, 7.0, 3) == Cursor(8.0, [1], true)
  {
    var ds := [4.0, 4.0, 4.0];
    assert Walk(ds, 5.0, 9.0, 1) == Cursor(4.0, [], false);
    assert Walk(ds, 5.0, 9.0, 2) == Cursor(8.0, [1], false);
    assert Walk(ds, 5.0, 7.0, 1) == Cursor(4.0, [], false);
    assert Walk(ds, 5.0, 7.0, 2) == Cursor(8.0, [1], false);
  }

  // ---------------------------------------------------------------------------------------------
  // The whole of download_segments.

  /** The segment files it returns, the total it gives the progress bar (end - start), and the
      sum of the progress bar's updates. */
  datatype Download = Download(files: seq<string>, planned: real, progress: real)

  /** `if start_time:`: a missing or empty value takes the default, any other is converted. */
  function ResolveTime(arg: Option<string>, default: real, toNumber: string -> Option<real>): (r: Result<real>) {
    if arg.None? || arg.value == [] then Ok(default) else TimeToSeconds(arg.value, toNumber)
  }

  /** The file names of the picked entries, in the order they were picked. */
  function NamesOf(segments: seq<Segment>, picked: seq<nat>): (names: seq<string>)
    requires forall k :: 0 <= k < |picked| ==> picked[k] < |segments|
    ensures |names| == |picked|
  {
    if picked == [] then []
    else NamesOf(segments, picked[..|picked| - 1]) + [SegmentName(segments[picked[|picked| - 1]].url)]
  }

  /** The k-th name is that of the k-th picked entry. */
  lemma {:induction false} NamesOfSpec(segments: seq<Segment>, picked: seq<nat>)
    requires forall k :: 0 <= k < |picked| ==> picked[k] < |segments|
    ensures forall k :: 0 <= k < |picked| ==> NamesOf(segments, picked)[k] == SegmentName(segments[picked[k]].url)
  {
    if picked != [] {
      var pre := picked[..|picked| - 1];
      NamesOfSpec(segments, pre);
    }
  }

  /** Picking one more entry adds its name at the end and its duration to the progress. */
  lemma PickOneMore(segments: seq<Segment>, ds: seq<real>, picked: seq<nat>, i: nat)
    requires |ds| == |segments| && i < |segments|
    requires forall k :: 0 <= k < |picked| ==> picked[k] < |segments|
    ensures NamesOf(segments, picked + [i]) == NamesOf(segments, picked) + [SegmentName(segments[i].url)]
    ensures SumAt(ds, picked + [i]) == SumAt(ds, picked) + ds[i]
  {
    assert (picked + [i])[..|picked|] == picked;
  }

  /** What download_segments returns, or the error that stops it: the durations are summed
      first, then --start and then --end are converted. */
  function Plan(segments: seq<Segment>, startArg: Option<string>, endArg: Option<string>,
                toNumber: string -> Option<real>): (r: Result<Download>)
  {
    match Durations(segments)
    case Err(e) => Err(e)
    case Ok(ds) =>
      match ResolveTime(startArg, 0.0, toNumber)
      case Err(e) => Err(e)
      case Ok(start) =>
        match ResolveTime(endArg, Sum(ds), toNumber)
        case Err(e) => Err(e)
        case Ok(end) =>
          var picked := Selected(ds, start, end);
          Ok(Download(NamesOf(segments, picked), end - start, SumAt(ds, picked)))
  }

  /** download_segments, with the fetch and the write of each segment left out: the durations
      are summed, --start and --end resolved, and then the segments walked. */
  method DownloadSegments(segments: seq<Segment>, startArg: Option<string>, endArg: Option<string>,
                          toNumber: string -> Option<real>) returns (r: Result<Download>)
    ensures r == Plan(segments, startArg, endArg, toNumber)
  {
    match Durations(segments)
    case Err(e) => r := Err(e);
    case Ok(ds) =>
      var totalDuration := Sum(ds);
      match ResolveTime(startArg, 0.0, toNumber)
      case Err(e) => r := Err(e);
      case Ok(startTime) =>
        match ResolveTime(endArg, totalDuration, toNumber)
        case Err(e) => r := Err(e);
        case Ok(endTime) =>
          var durationToDownload := endTime - startTime;
          var segmentFiles, progress := FetchSegments(segments, ds, startTime, endTime);
          r := Ok(Download(segmentFiles, durationToDownload, progress));
  }

  /** The `for segment in segment_urls` loop of download_segments, with segment i lasting ds[i]:
      it returns the file names of the segments it downloads and the sum of its progress-bar
      updates. */
  method FetchSegments(segments: seq<Segment>, ds: seq<real>, startTime: real, endTime: real)
    returns (segmentFiles: seq<string>, progress: real)
    requires |ds| == |segments|
    ensures segmentFiles == NamesOf(segments, Selected(ds, startTime, endTime))
    ensures progress == SumAt(ds, Selected(ds, startTime, endTime))
  {
    var currentTime := 0.0;
    segmentFiles := [];
    progress := 0.0;
    ghost var chosen: seq<nat> := [];
    var i := 0;
    while i < |segments|
      invariant i <= |segments|
      invariant Walk(ds, startTime, endTime, i) == Cursor(currentTime, chosen, false)
      invariant forall k :: 0 <= k < |chosen| ==> chosen[k] < i
      invariant segmentFiles == NamesOf(segments, chosen)
      invariant progress == SumAt(ds, chosen)
    {
      var segmentDuration := ds[i];
      var segmentName := SegmentName(segments[i].url);
      if currentTime + segmentDuration < startTime {
        assert Walk(ds, startTime, endTime, i + 1) == Cursor(currentTime + segmentDuration, chosen, false);
        currentTime := currentTime + segmentDuration;
        i := i + 1;
        continue;
      }
      if currentTime > endTime {
        WalkStaysStopped(ds, startTime, endTime, i + 1, |ds|);
        break;
      }
      assert Walk(ds, startTime, endTime, i + 1) == Cursor(currentTime + segmentDuration, chosen + [i], false);
      PickOneMore(segments, ds, chosen, i);
      segmentFiles := segmentFiles + [segmentName];
      chosen := chosen + [i];
      currentTime := currentTime + segmentDuration;
      progress := progress + segmentDuration;
      i := i + 1;
    }
    assert Walk(ds, startTime, endTime, |ds|).chosen == chosen;
  }

  /** With all durations present and none negative, a download whose --start and --end are each
      missing or empty fetches every entry, in playlist order, and the progress bar's updates add
      up to its total. */
  lemma DefaultsDownloadAll(segments: seq<Segment>, startArg: Option<string>, endArg: Option<string>,
                            toNumber: string -> Option<real>)
    requires forall k :: 0 <= k < |segments| ==> segments[k].duration.Some? && segments[k].duration.value >= 0.0
    requires startArg == None || startArg == Some("")
    requires endArg == None || endArg == Some("")
    ensures var r := Plan(segments, startArg, endArg, toNumber);
            && r.Ok?
            && |r.value.files| == |segments|
            && (forall k :: 0 <= k < |segments| ==> r.value.files[k] == SegmentName(segments[k].url))
            && r.value.progress == r.value.planned
  {
    DurationsSpec(segments);
    var ds := Durations(segments).value;
    DefaultsSelectAll(ds, |ds|);
    SumAtAll(ds, |ds|);
    NamesOfSpec(segments, Indices(|ds|));
    assert ds[..|ds|] == ds;
  }

  /** With every duration present and none negative, the files are the names of exactly the
      entries that overlap the window, in playlist order, and they are consecutive entries. */
  lemma DownloadWindow(segments: seq<Segment>, startArg: Option<string>, endArg: Option<string>,
                       toNumber: string -> Option<real>)
    requires forall k :: 0 <= k < |segments| ==> segments[k].duration.Some? && segments[k].duration.value >= 0.0
    requires Plan(segments, startArg, endArg, toNumber).Ok?
    ensures var ds := Durations(segments).value;
            var start := ResolveTime(startArg, 0.0, toNumber).value;
            var end := ResolveTime(endArg, Sum(ds), toNumber).value;
            && Plan(segments, startArg, endArg, toNumber).value.files == NamesOf(segments, Selected(ds, start, end))
            && (forall i: nat :: i in Selected(ds, start, end) <==> i < |ds| && InWindow(ds, start, end, i))
            && (forall a :: 0 <= a < |Selected(ds, start, end)| - 1 ==>
                  Selected(ds, start, end)[a + 1] == Selected(ds, start, end)[a] + 1)
  {
    DurationsSpec(segments);
    var ds := Durations(segments).value;
    var start := ResolveTime(startArg, 0.0, toNumber).value;
    var end := ResolveTime(endArg, Sum(ds), toNumber).value;
    Selection(ds, start, end);
    Contiguous(ds, start, end);
  }
}
