/** convert_time_to_seconds: the --start and --end values, "HH:MM:SS", as a number of seconds. */
module Timecode {
  import opened Wrappers
  import opened Text

  /** Seconds of the clock reading h:m:s. */
  function Seconds(h: real, m: real, s: real): (r: real) {
    h * 3600.0 + m * 60.0 + s
  }

  /** time_str.split(':') must give exactly three fields and float() must accept each of them;
      otherwise the unpacking or float() raises ValueError. `toNumber` stands for float(). */
  function TimeToSeconds(timeStr: string, toNumber: string -> Option<real>): (r: Result<real>)
    ensures r.Err? ==> r.error == InvalidTimeFormat(timeStr)
  {
    var fields := Split(timeStr, ':');
    if |fields| != 3 then Err(InvalidTimeFormat(timeStr))
    else
      var h, m, s := toNumber(fields[0]), toNumber(fields[1]), toNumber(fields[2]);
      if h.None? || m.None? || s.None? then Err(InvalidTimeFormat(timeStr))
      else Ok(Seconds(h.value, m.value, s.value))
  }

  /** A value is accepted only when it holds exactly two ':' separators. */
  lemma TwoSeparators(timeStr: string, toNumber: string -> Option<real>)
    ensures TimeToSeconds(timeStr, toNumber).Ok? ==> CountChar(timeStr, ':') == 2
    ensures CountChar(timeStr, ':') != 2 ==> TimeToSeconds(timeStr, toNumber) == Err(InvalidTimeFormat(timeStr))
  {
    SplitCount(timeStr, ':');
  }

  /** "<h>:<m>:<s>" is h * 3600 + m * 60 + s when all three fields are numbers, and an error
      as soon as one of them is not. */
  lemma TimeOfFields(hs: string, ms: string, ss: string, toNumber: string -> Option<real>)
    requires ':' !in hs && ':' !in ms && ':' !in ss
    ensures var r := TimeToSeconds(hs + ":" + ms + ":" + ss, toNumber);
            && (r.Ok? <==> toNumber(hs).Some? && toNumber(ms).Some? && toNumber(ss).Some?)
            && (r.Ok? ==> r.value == toNumber(hs).value * 3600.0 + toNumber(ms).value * 60.0 + toNumber(ss).value)
  {
    var parts := [hs, ms, ss];
    JoinSplit(parts, ':');
    JoinThree(parts, ':');
  }

  /** Conversely, an accepted value is three ':'-free fields joined by ':', and its seconds are
      computed from those fields. */
  lemma AcceptedShape(timeStr: string, toNumber: string -> Option<real>)
    requires TimeToSeconds(timeStr, toNumber).Ok?
    ensures var f := Split(timeStr, ':');
            && |f| == 3 && timeStr == f[0] + ":" + f[1] + ":" + f[2]
            && ':' !in f[0] && ':' !in f[1] && ':' !in f[2]
            && TimeToSeconds(timeStr, toNumber).value
               == Seconds(toNumber(f[0]).value, toNumber(f[1]).value, toNumber(f[2]).value)
  {
    var f := Split(timeStr, ':');
    SplitJoin(timeStr, ':');
    SplitPiecesFree(timeStr, ':');
    JoinThree(f, ':');
  }

  /** "01:02:03" is 3723 seconds and "00:00:00" is 0. */
  lemma TimeExamples(toNumber: string -> Option<real>)
    requires toNumber("00") == Some(0.0) && toNumber("01") == Some(1.0)
    requires toNumber("02") == Some(2.0) && toNumber("03") == Some(3.0)
    ensures TimeToSeconds("01:02:03", toNumber) == Ok(3723.0)
    ensures TimeToSeconds("00:00:00", toNumber) == Ok(0.0)
  {
    assert "01:02:03" == "01" + ":" + "02" + ":" + "03";
    TimeOfFields("01", "02", "03", toNumber);
    assert "00:00:00" == "00" + ":" + "00" + ":" + "00";
    TimeOfFields("00", "00", "00", toNumber);
  }

  /** Two fields are refused whatever they hold. */
  lemma TwoFieldsRefused(a: string, b: string, toNumber: string -> Option<real>)
    requires ':' !in a && ':' !in b
    ensures TimeToSeconds(a + ":" + b, toNumber) == Err(InvalidTimeFormat(a + ":" + b))
  {
    var t := a + ":" + b;
    assert |Split(t, ':')| == 2 by {
      SplitNone(b, ':');
      SplitAround(a, b, ':');
    }
  }

  /** A field in front of three fields makes four, which are refused whatever they hold. */
  lemma ExtraFieldRefused(a: string, rest: string, toNumber: string -> Option<real>)
    requires ':' !in a && |Split(rest, ':')| == 3
    ensures TimeToSeconds(a + ":" + rest, toNumber) == Err(InvalidTimeFormat(a + ":" + rest))
  {
    SplitAround(a, rest, ':');
  }
}
