/** Optional values, results, and the failures the downloader reports before it exits. */
module Wrappers {

  datatype Option<+T> = None | Some(value: T)

  datatype Result<+T> = Ok(value: T) | Err(error: Error)

  /** The outcome of a check that returns nothing on success. */
  datatype Outcome = Pass | Fail(error: Error)

  /** Every failure below ends the program with exit status 1. */
  datatype Error =
    | InvalidDuration(line: nat)       // float() raised ValueError on the field of the #EXTINF: tag at this line
    | MissingDuration(segment: nat)    // segment['duration'] raised KeyError for this playlist entry
    | InvalidTimeFormat(text: string)  // a --start/--end value that is not three ':'-separated numbers
    | InvalidUrl(url: string)          // the (disabled) .m3u8 suffix check
}
